/** Iterating over the whole database: the children merged, and what the user's cursor then shows. */
module Iterators {
  import opened Wrappers
  import opened Entries
  import opened Files
  import opened Versions
  import opened Compactions
  import opened Steps
  import opened Database
  import MergingIter
  import DbIter

  // ----- The children -----

  /** Entries of the first n levels. */
  ghost function UpTo(v: Version, n: nat): set<Entry>
    requires n <= |v|
  {
    if n == 0 then {} else UpTo(v, n - 1) + LevelEntries(v[n - 1])
  }

  lemma {:induction false} UpToMember(v: Version, n: nat, e: Entry)
    requires n <= |v|
    ensures e in UpTo(v, n) <==> exists l :: 0 <= l < n && InFiles(v[l], e)
  {
    if n > 0 {
      UpToMember(v, n - 1, e);
    }
  }

  lemma UpToAll(v: Version)
    ensures UpTo(v, |v|) == VersionEntries(v)
  {
    forall e ensures e in UpTo(v, |v|) <==> e in VersionEntries(v) {
      UpToMember(v, |v|, e);
    }
  }

  /** Sharing no internal key with the children so far, a sorted child may join them. */
  lemma JoinChild(kids: seq<seq<Entry>>, kid: seq<Entry>)
    requires MergingIter.Mergeable(kids) && Sorted(kid)
    requires forall d, e :: d in MergingIter.AllEntries(kids) && e in kid ==> IKey(d) != IKey(e)
    ensures MergingIter.Mergeable(kids + [kid])
    ensures MergingIter.AllEntries(kids + [kid]) == MergingIter.AllEntries(kids) + EntrySet(kid)
  {
    var kids' := kids + [kid];
    forall a, b | 0 <= a < |kids'| && 0 <= b < |kids'| && a != b ensures MergingIter.Disjoined(kids'[a], kids'[b]) {
      if a < |kids| && b < |kids| {
        assert MergingIter.Disjoined(kids[a], kids[b]);
      } else {
        forall d, e | d in kids'[a] && e in kids'[b] ensures IKey(d) != IKey(e) {
          if a < |kids| {
            assert d in kids[a];
          } else {
            assert e in kids[b];
          }
        }
      }
    }
    forall e ensures e in MergingIter.AllEntries(kids') <==> e in MergingIter.AllEntries(kids) + EntrySet(kid) {
      if e in MergingIter.AllEntries(kids) {
        var i :| 0 <= i < |kids| && e in kids[i];
        assert e in kids'[i];
      }
      if e in kid {
        assert e in kids'[|kids|];
      }
    }
  }

  lemma NewerApart(a: set<Entry>, b: set<Entry>, d: Entry, e: Entry)
    requires Newer(a, b) && d in a && e in b
    ensures IKey(d) != IKey(e)
  {}

  lemma MemoryApart(db: DB, d: Entry, e: Entry)
    requires Inv(db) && d in EntrySet(db.mem) + ImmSet(db) && e in VersionEntries(db.version)
    ensures IKey(d) != IKey(e)
  {
    assert MemoryNewer(db);
    hide Inv, Newer, Valid, SameReads, VersionEntries, Hist, Store;
    if d in EntrySet(db.mem) {
      NewerApart(EntrySet(db.mem), VersionEntries(db.version), d, e);
    } else {
      NewerApart(ImmSet(db), VersionEntries(db.version), d, e);
    }
  }

  lemma InvVersion(db: DB) requires Inv(db) ensures Valid(db.version) && |db.version| == NUM_LEVELS {
    hide LevelOrder, FilesOk, Disjoint, UniqueNumbers, NumberOrder, MemoryNewer, SameReads, Store, Hist;
  }

  ghost predicate Collected(db: DB, kids: seq<seq<Entry>>, inFiles: set<Entry>) {
    && MergingIter.Mergeable(kids)
    && MergingIter.AllEntries(kids) == EntrySet(db.mem) + ImmSet(db) + inFiles
  }

  lemma CollectFile0(db: DB, kids: seq<seq<Entry>>, i: nat)
    requires Inv(db) && LevelsSorted(db.version) && |db.version| == NUM_LEVELS && i < |db.version[0]|
    requires Collected(db, kids, LevelEntries(db.version[0][..i]))
    ensures Collected(db, kids + [db.version[0][i].entries], LevelEntries(db.version[0][..i + 1]))
  {
    hide Inv, Valid, LevelsSorted, LevelEntries, VersionEntries, Sorted, MergingIter.Mergeable, SortedBySmallest, Disjoint;
    InvVersion(db);
    ValidLevel(db.version, 0);
    var fs, f := db.version[0], db.version[0][i];
    assert FileOk(f) && Sorted(f.entries);
    forall d, e | d in MergingIter.AllEntries(kids) && e in f.entries ensures IKey(d) != IKey(e) {
      EntryInVersion(db.version, 0, f, e);
      if d in LevelEntries(fs[..i]) {
        PrefixApart(db.version, i, d, e);
      } else {
        MemoryApart(db, d, e);
      }
    }
    JoinChild(kids, f.entries);
    LevelGrows(fs, i);
  }

  lemma PrefixApart(v: Version, i: nat, d: Entry, e: Entry)
    requires Valid(v) && LevelsSorted(v) && |v| == NUM_LEVELS && i < |v[0]|
    requires d in LevelEntries(v[0][..i]) && e in v[0][i].entries
    ensures IKey(d) != IKey(e)
  {
    hide Valid, LevelsSorted;
    var g :| g in v[0][..i] && d in g.entries;
    var j: nat :| j < i && v[0][j] == g;
    Level0Apart(v, j, i, d, e);
  }

  lemma LevelGrows(fs: seq<File>, i: nat)
    requires i < |fs|
    ensures LevelEntries(fs[..i + 1]) == LevelEntries(fs[..i]) + EntrySet(fs[i].entries)
  {
    assert fs[..i + 1] == fs[..i] + [fs[i]];
    forall e ensures e in LevelEntries(fs[..i + 1]) <==> e in LevelEntries(fs[..i]) + EntrySet(fs[i].entries) {
      if e in fs[i].entries {
        assert fs[i] in fs[..i + 1];
      }
    }
  }

  lemma EntryInVersion(v: Version, l: nat, f: File, e: Entry)
    requires l < |v| && f in v[l] && e in f.entries
    ensures e in VersionEntries(v)
  {
    assert InFiles(v[l], e);
  }

  lemma Level0Apart(v: Version, j: nat, i: nat, d: Entry, e: Entry)
    requires Valid(v) && LevelsSorted(v) && j < i < |v[0]| && d in v[0][j].entries && e in v[0][i].entries
    ensures IKey(d) != IKey(e)
  {
    var f, g := v[0][i], v[0][j];
    assert SortedBySmallest(v[0]);
    assert BySmallestKey(g, f);
    ValidLevel(v, 0);
    hide LevelsSorted, SortedBySmallest, BySmallestKey, FilesOk;
    if f.number == g.number {
      SameNumber(v, 0, f, g);
      SelfNotBefore(f);
      assert false;
    } else if f.number < g.number {
      NewerApart(EntrySet(g.entries), EntrySet(f.entries), d, e);
    } else {
      NewerApart(EntrySet(f.entries), EntrySet(g.entries), e, d);
    }
  }

  lemma SelfNotBefore(f: File) ensures !BySmallestKey(f, f) {}

  lemma CollectLevel(db: DB, kids: seq<seq<Entry>>, l: nat)
    requires Inv(db) && 1 <= l < NUM_LEVELS && |db.version| == NUM_LEVELS && Collected(db, kids, UpTo(db.version, l))
    ensures Collected(db, kids + [Flatten(db.version[l])], UpTo(db.version, l + 1))
  {
    hide Inv, Valid, LevelEntries, VersionEntries, Sorted, Flatten, MergingIter.Mergeable;
    var fs := db.version[l];
    InvVersion(db);
    ValidLevel(db.version, l);
    FlattenDisjoint(fs);
    FlattenLevel(fs);
    forall d, e | d in MergingIter.AllEntries(kids) && e in Flatten(fs) ensures IKey(d) != IKey(e) {
      assert e in EntrySet(Flatten(fs));
      LevelInVersion(db.version, l, e);
      if d in UpTo(db.version, l) {
        UpperApart(db.version, l, d, e);
      } else {
        MemoryApart(db, d, e);
      }
    }
    JoinChild(kids, Flatten(fs));
  }

  lemma LevelInVersion(v: Version, l: nat, e: Entry)
    requires l < |v| && e in LevelEntries(v[l])
    ensures e in VersionEntries(v)
  {}

  lemma UpperApart(v: Version, l: nat, d: Entry, e: Entry)
    requires Valid(v) && l < |v| && d in UpTo(v, l) && e in LevelEntries(v[l])
    ensures IKey(d) != IKey(e)
  {
    hide Valid, Newer;
    UpToMember(v, l, d);
    var a :| 0 <= a < l && InFiles(v[a], d);
    LevelsNewer(v, a, l);
    NewerApart(LevelEntries(v[a]), LevelEntries(v[l]), d, e);
  }

  lemma LevelsNewer(v: Version, a: nat, b: nat)
    requires Valid(v) && a < b < |v|
    ensures Newer(LevelEntries(v[a]), LevelEntries(v[b]))
  {
    hide Newer, LevelEntries, FilesOk, Disjoint, UniqueNumbers, NumberOrder;
  }

  lemma FlattenLevel(fs: seq<File>)
    ensures EntrySet(Flatten(fs)) == LevelEntries(fs)
  {
    hide Flatten;
    forall e ensures e in EntrySet(Flatten(fs)) <==> e in LevelEntries(fs) {
      FlattenMember(fs, e);
    }
  }

  /** The concatenating iterator of a level walks a sorted sequence. */
  lemma {:induction false} FlattenDisjoint(fs: seq<File>)
    requires FilesOk(fs) && Disjoint(fs)
    ensures Sorted(Flatten(fs))
  {
    if fs != [] {
      var k := |fs| - 1;
      var init, last := Flatten(fs[..k]), fs[k];
      assert forall f :: f in fs[..k] ==> f in fs;
      FlattenDisjoint(fs[..k]);
      assert FileOk(last) && Sorted(last.entries);
      forall i, j | 0 <= i < |init| && 0 <= j < |last.entries| ensures Before(IKey(init[i]), IKey(last.entries[j])) {
        FlattenMember(fs[..k], init[i]);
        assert init[i] in Flatten(fs[..k]);
        var f :| f in fs[..k] && init[i] in f.entries;
        EntryBounds(f, init[i]);
        EntryBounds(last, last.entries[j]);
        assert Before(Largest(f), Smallest(last));
      }
    }
  }

  /** DBImpl::NewInternalIterator: memtable, the memtable being flushed, every level-0 file, each deeper level. */
  method NewInternalIterator(db: DB) returns (kids: seq<seq<Entry>>)
    requires Inv(db) && LevelsSorted(db.version)
    ensures MergingIter.Mergeable(kids) && MergingIter.AllEntries(kids) == Store(db)
  {
    hide Inv, LevelsSorted, Collected, Sorted, Valid, LevelEntries, UpTo, MergingIter.Mergeable, Store;
    InvVersion(db);
    MemoryChildren(db);
    NoFiles(db.version);
    kids := [db.mem];
    if db.imm.Some? {
      kids := kids + [db.imm.value];
    }
    assert kids == [db.mem] + if db.imm.Some? then [db.imm.value] else [];
    var i := 0;
    while i < |db.version[0]|
      invariant i <= |db.version[0]| && Collected(db, kids, LevelEntries(db.version[0][..i]))
    {
      CollectFile0(db, kids, i);
      kids := kids + [db.version[0][i].entries];
      i := i + 1;
    }
    assert db.version[0][..i] == db.version[0];
    var level := 1;
    while level < NUM_LEVELS
      invariant 1 <= level <= NUM_LEVELS && Collected(db, kids, UpTo(db.version, level))
    {
      if db.version[level] != [] {
        CollectLevel(db, kids, level);
        kids := kids + [Flatten(db.version[level])];
      } else {
        EmptyLevel(db, level);
      }
      level := level + 1;
    }
    UpToAll(db.version);
    CollectedAll(db, kids);
  }

  lemma CollectedAll(db: DB, kids: seq<seq<Entry>>)
    requires Collected(db, kids, VersionEntries(db.version))
    ensures MergingIter.Mergeable(kids) && MergingIter.AllEntries(kids) == Store(db)
  {}

  lemma EmptyLevel(db: DB, l: nat)
    requires l < |db.version| && db.version[l] == []
    ensures UpTo(db.version, l + 1) == UpTo(db.version, l)
  {
    assert LevelEntries([]) == {};
  }

  lemma MemoryChildren(db: DB)
    requires Inv(db)
    ensures Collected(db, [db.mem] + if db.imm.Some? then [db.imm.value] else [], {})
  {
    assert Sorted(db.mem) && (db.imm.Some? ==> Sorted(db.imm.value)) && Newer(EntrySet(db.mem), ImmSet(db));
    hide Inv, Sorted, Newer, MergingIter.Mergeable;
    NoChildren();
    assert [] + [db.mem] == [db.mem];
    JoinChild([], db.mem);
    if db.imm.Some? {
      forall d, e | d in MergingIter.AllEntries([db.mem]) && e in db.imm.value ensures IKey(d) != IKey(e) {
        NewerApart(EntrySet(db.mem), ImmSet(db), d, e);
      }
      JoinChild([db.mem], db.imm.value);
    } else {
      assert [db.mem] + [] == [db.mem];
    }
  }

  lemma NoChildren()
    ensures MergingIter.Mergeable([]) && MergingIter.AllEntries([]) == {}
  {}

  lemma NoFiles(v: Version)
    requires |v| == NUM_LEVELS
    ensures LevelEntries(v[0][..0]) == {} && UpTo(v, 1) == LevelEntries(v[0])
  {
    assert UpTo(v, 0) == {};
    assert UpTo(v, 1) == UpTo(v, 0) + LevelEntries(v[0]);
  }

  // ----- What the cursor shows -----

  /** At a live snapshot the stored entries answer every read as the history does. */
  lemma StoreShowsHistory(db: DB, s: nat, x: DbIter.Item)
    requires Inv(db) && s >= Oldest(db)
    ensures DbIter.Live(Store(db), s, x) <==> DbIter.Live(Hist(db), s, x)
  {}

  /** Iterating: the children of NewInternalIterator, merged, under the user's cursor.  On every state of
      every run and at every live snapshot, any mix of operations shows exactly what the plain cursor over the
      history of writes shows; it stops only at a Next or Prev asked of a cursor that is not at any key. */
  method Iterate(ghost states: seq<DB>, ghost steps: seq<Step>, ghost n: nat, db: DB, s: nat, ops: seq<DbIter.Op>)
    returns (seen: seq<Option<DbIter.Item>>)
    requires IsRun(states, steps) && n < |states| && db == states[n] && s >= Oldest(db)
    ensures |seen| <= |ops| && DbIter.CursorRun(Hist(db), s, None, ops[..|seen|], seen)
    ensures |seen| < |ops| ==> !DbIter.Legal(ops[|seen|], DbIter.Shows(None, seen, |seen|))
  {
    hide IsRun, Inv, LevelsSorted, Store, Hist, DbIter.CursorRun, MergingIter.Mergeable;
    RunInv(states, steps, n);
    RunSorted(states, steps, n);
    var kids := NewInternalIterator(db);
    var merged := new MergingIter.Iter(kids);
    var it := new DbIter.Iter(merged, s);
    seen := DbIter.Drive(it, ops);
    forall x ensures DbIter.Live(Store(db), s, x) <==> DbIter.Live(Hist(db), s, x) {
      StoreShowsHistory(db, s, x);
    }
    DbIter.RunSame(Store(db), Hist(db), s, None, ops[..|seen|], seen);
  }
}
