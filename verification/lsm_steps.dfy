/** Installing the result of a flush, a compaction or a trivial move in the current version. */
module Steps {
  import opened Wrappers
  import opened Entries
  import opened Files
  import opened Inputs
  import opened Versions
  import opened Compactions

  // ----- Version edits -----

  /** std::set order of the builder: smallest key, ties by file number. */
  predicate BySmallestKey(f: File, g: File) {
    Before(Smallest(f), Smallest(g)) || (Smallest(f) == Smallest(g) && f.number < g.number)
  }

  ghost predicate SortedBySmallest(fs: seq<File>) {
    forall i, j :: 0 <= i < j < |fs| ==> BySmallestKey(fs[i], fs[j])
  }

  ghost predicate Removed(l: nat, f: File, level: nat, in0: seq<File>, in1: seq<File>) {
    (l == level && f in in0) || (l == level + 1 && f in in1)
  }

  /** v' is v without the inputs of a compaction of `level` and with `outs` one level below. */
  ghost predicate Replaced(v: Version, v': Version, level: nat, in0: seq<File>, in1: seq<File>, outs: seq<File>) {
    && |v'| == |v|
    && forall l :: 0 <= l < |v| ==> SortedBySmallest(v'[l]) && ReplacedLevel(v[l], v'[l], l, level, in0, in1, outs)
  }

  ghost predicate ReplacedLevel(fs: seq<File>, fs': seq<File>, l: nat, level: nat, in0: seq<File>, in1: seq<File>, outs: seq<File>) {
    forall f :: f in fs' <==> (f in fs && !Removed(l, f, level, in0, in1)) || (l == level + 1 && f in outs)
  }

  /** v' is v with file f added on level `at`. */
  ghost predicate Added(v: Version, v': Version, at: nat, f: File) {
    && |v'| == |v|
    && forall l :: 0 <= l < |v| ==> SortedBySmallest(v'[l]) && AddedLevel(v[l], v'[l], l, at, f)
  }

  ghost predicate AddedLevel(fs: seq<File>, fs': seq<File>, l: nat, at: nat, f: File) {
    forall g :: g in fs' <==> g in fs || (l == at && g == f)
  }

  // ----- Sorted levels -----

  ghost predicate Apart(f: File, g: File) { Before(Largest(f), Smallest(g)) || Before(Largest(g), Smallest(f)) }

  ghost predicate PairwiseApart(fs: seq<File>) { forall f, g :: f in fs && g in fs && f != g ==> Apart(f, g) }

  lemma SortedApartDisjoint(fs: seq<File>)
    requires FilesOk(fs) && SortedBySmallest(fs) && PairwiseApart(fs)
    ensures Disjoint(fs)
  {
    forall i, j | 0 <= i < j < |fs| ensures Before(Largest(fs[i]), Smallest(fs[j])) {
      FileBounds(fs[i]);
      FileBounds(fs[j]);
      assert BySmallestKey(fs[i], fs[j]);
      assert fs[i] != fs[j];
      assert Apart(fs[i], fs[j]);
    }
  }

  lemma DisjointApart(fs: seq<File>, f: File, g: File)
    requires Disjoint(fs) && f in fs && g in fs && f != g
    ensures Apart(f, g)
  {
    var i :| 0 <= i < |fs| && fs[i] == f;
    var j :| 0 <= j < |fs| && fs[j] == g;
  }

  // ----- Flush -----

  ghost predicate NoOverlap(fs: seq<File>, f: File) { forall g :: g in fs ==> !Touches(g, f) }

  /** What PickLevelForMemTableOutput guarantees of the level it picks. */
  ghost predicate Placeable(v: Version, f: File, at: nat) {
    at < NUM_LEVELS && (at > 0 ==> forall l :: 0 <= l <= at && l < |v| ==> NoOverlap(v[l], f))
  }

  ghost predicate FreshNumber(v: Version, n: nat) { forall l, g :: 0 <= l < |v| && g in v[l] ==> g.number < n }

  lemma NoSharedKey(fs: seq<File>, f: File, x: Entry, y: Entry)
    requires FilesOk(fs) && FileOk(f) && NoOverlap(fs, f) && x in LevelEntries(fs) && y in f.entries
    ensures x.key != y.key
  {
    var g :| g in fs && x in g.entries;
    FileOkOf(fs, g);
    EntryBounds(g, x);
    EntryBounds(f, y);
    assert !Touches(g, f);
  }

  lemma AddedEntries(v: Version, v': Version, at: nat, f: File, l: nat)
    requires Added(v, v', at, f) && l < |v|
    ensures LevelEntries(v'[l]) == if l == at then LevelEntries(v[l]) + EntrySet(f.entries) else LevelEntries(v[l])
  {
    assert AddedLevel(v[l], v'[l], l, at, f);
    var want := if l == at then LevelEntries(v[l]) + EntrySet(f.entries) else LevelEntries(v[l]);
    forall e ensures e in LevelEntries(v'[l]) <==> e in want {
      if e in want {
        if InFiles(v[l], e) {
          var g :| g in v[l] && e in g.entries;
          assert g in v'[l];
        } else {
          assert f in v'[l] && e in f.entries;
        }
      }
    }
  }

  lemma AddedVersionEntries(v: Version, v': Version, at: nat, f: File)
    requires Added(v, v', at, f) && at < |v|
    ensures VersionEntries(v') == VersionEntries(v) + EntrySet(f.entries)
  {
    hide Added, LevelEntries, VersionEntries;
    forall e ensures e in VersionEntries(v') <==> e in VersionEntries(v) + EntrySet(f.entries) {
      if e in VersionEntries(v') {
        var l :| 0 <= l < |v'| && InFiles(v'[l], e);
        AddedLength(v, v', at, f);
        AddedEntries(v, v', at, f, l);
        assert e in LevelEntries(v'[l]);
      }
      if e in VersionEntries(v) {
        var l :| 0 <= l < |v| && InFiles(v[l], e);
        AddedLength(v, v', at, f);
        AddedEntries(v, v', at, f, l);
        assert e in LevelEntries(v[l]);
        assert InFiles(v'[l], e);
      }
      if e in f.entries {
        AddedLength(v, v', at, f);
        AddedEntries(v, v', at, f, at);
        assert InFiles(v'[at], e);
      }
    }
  }

  lemma AddedLength(v: Version, v': Version, at: nat, f: File) requires Added(v, v', at, f) ensures |v'| == |v| {}

  lemma FlushLevelOrder(v: Version, v': Version, at: nat, f: File, a: nat, b: nat)
    requires Valid(v) && Added(v, v', at, f) && FileOk(f) && Placeable(v, f, at)
    requires Newer(EntrySet(f.entries), VersionEntries(v)) && a < b < |v|
    ensures Newer(LevelEntries(v'[a]), LevelEntries(v'[b]))
  {
    AddedEntries(v, v', at, f, a);
    AddedEntries(v, v', at, f, b);
    assert LevelOrder(v);
    ValidLevel(v, a);
    hide LevelOrder, LevelEntries, VersionEntries, EntrySet, Valid, Added, Tag;
    forall x, y | x in LevelEntries(v'[a]) && y in LevelEntries(v'[b]) && x.key == y.key ensures Tag(x) > Tag(y) {
      if x in LevelEntries(v[a]) && y in LevelEntries(v[b]) {
        LevelsApart(v, a, b, x, y);
      } else if x in LevelEntries(v[a]) {
        NoSharedKey(v[a], f, x, y);
      } else {
        assert InVersion(v, y);
      }
    }
  }

  lemma FlushDisjoint(v: Version, v': Version, at: nat, f: File, l: nat)
    requires Valid(v) && Added(v, v', at, f) && FileOk(f) && Placeable(v, f, at) && l < |v|
    ensures FilesOk(v'[l]) && (l >= 1 ==> Disjoint(v'[l]))
  {
    ValidLevel(v, l);
    assert SortedBySmallest(v'[l]) && AddedLevel(v[l], v'[l], l, at, f);
    forall g | g in v'[l] ensures FileOk(g) { }
    if l >= 1 {
      forall g, h | g in v'[l] && h in v'[l] && g != h ensures Apart(g, h) {
        FileBounds(g);
        FileBounds(h);
        if g in v[l] && h in v[l] {
          DisjointApart(v[l], g, h);
        } else if l == at {
          assert NoOverlap(v[l], f);
        }
      }
      SortedApartDisjoint(v'[l]);
    }
  }

  /** A flush keeps every order of the version and adds exactly the flushed entries. */
  lemma FlushKeepsValid(v: Version, v': Version, at: nat, f: File)
    requires Valid(v) && Added(v, v', at, f) && FileOk(f) && Placeable(v, f, at) && FreshNumber(v, f.number)
    requires Newer(EntrySet(f.entries), VersionEntries(v))
    ensures Valid(v') && VersionEntries(v') == VersionEntries(v) + EntrySet(f.entries)
  {
    AddedVersionEntries(v, v', at, f);
    forall l | 0 <= l < |v| ensures FilesOk(v'[l]) && (l >= 1 ==> Disjoint(v'[l])) {
      FlushDisjoint(v, v', at, f, l);
    }
    forall a, b | 0 <= a < b < |v| ensures Newer(LevelEntries(v'[a]), LevelEntries(v'[b])) {
      FlushLevelOrder(v, v', at, f, a, b);
    }
    FlushNumbers(v, v', at, f);
  }

  lemma FlushNumbers(v: Version, v': Version, at: nat, f: File)
    requires Valid(v) && Added(v, v', at, f) && FreshNumber(v, f.number) && Newer(EntrySet(f.entries), VersionEntries(v))
    ensures NumberOrder(v'[0]) && UniqueNumbers(v')
  {
    forall l | 0 <= l < |v| ensures AddedLevel(v[l], v'[l], l, at, f) {}
    hide LevelOrder, LevelEntries, VersionEntries, FilesOk, Disjoint;
    forall g, h | g in v'[0] && h in v'[0] && g.number > h.number ensures Newer(EntrySet(g.entries), EntrySet(h.entries)) {
      if g in v[0] && h in v[0] {
      } else if g == f && h in v[0] {
        assert forall e :: e in h.entries ==> InFiles(v[0], e);
      }
    }
  }

  const MAX_MEM_COMPACT_LEVEL: nat := 2

  /** The new file may go from level l to the next: nothing overlaps it there, and not too much below. */
  ghost predicate MayPush(v: Version, f: File, l: nat, limit: nat)
    requires l + 2 < |v|
  {
    && NoOverlap(v[l + 1], f)
    && TotalFileSize(Overlapping(v[l + 2], Some(Smallest(f).key), Some(Largest(f).key))) <= limit
  }

  /** In terms of keys and bytes alone. */
  lemma PushRule(v: Version, f: File, l: nat, limit: nat)
    requires l + 2 < |v| && FileOk(f) && FilesOk(v[l + 1])
    ensures MayPush(v, f, l, limit) <==>
      && (forall g :: g in v[l + 1] ==> Largest(g).key < Smallest(f).key || Largest(f).key < Smallest(g).key)
      && TotalFileSize(Overlapping(v[l + 2], Some(Smallest(f).key), Some(Largest(f).key))) <= limit
  {
    hide TotalFileSize, Overlapping;
  }

  method OverlapInLevel(level: nat, fs: seq<File>, f: File) returns (r: bool)
    requires FilesOk(fs) && (level > 0 ==> Disjoint(fs))
    ensures r <==> !NoOverlap(fs, f)
  {
    r := SomeFileOverlapsRange(level > 0, fs, Some(Smallest(f).key), Some(Largest(f).key));
  }

  /** Bytes of the files overlapping the new one on a level. */
  method OverlapBytes(fs: seq<File>, f: File) returns (sum: nat)
    requires FilesOk(fs) && Disjoint(fs)
    ensures sum == TotalFileSize(Overlapping(fs, Some(Smallest(f).key), Some(Largest(f).key)))
  {
    var overlaps, _, _ := GetOverlappingInputs(false, fs, Some(Smallest(f).key), Some(Largest(f).key));
    sum := TotalFileSize(overlaps);
  }

  /** PickLevelForMemTableOutput: push the new file down while nothing overlaps it on the way and the
      files two levels below weigh no more than `limit`. */
  method PickLevelForMemTableOutput(v: Version, f: File, limit: nat) returns (level: nat)
    requires Valid(v) && FileOk(f)
    ensures level <= MAX_MEM_COMPACT_LEVEL && Placeable(v, f, level)
    ensures level > 0 ==> NoOverlap(v[0], f) && forall l :: 0 <= l < level ==> MayPush(v, f, l, limit)
    ensures level < MAX_MEM_COMPACT_LEVEL ==> !(NoOverlap(v[0], f) && MayPush(v, f, level, limit))
  {
    hide Valid, NoOverlap, Overlapping, TotalFileSize, FilesOk, Disjoint;
    level := 0;
    ValidLevel(v, 0);
    var overlap := OverlapInLevel(0, v[0], f);
    if !overlap {
      while level < MAX_MEM_COMPACT_LEVEL
        invariant level <= MAX_MEM_COMPACT_LEVEL && |v| == NUM_LEVELS
        invariant forall l :: 0 <= l <= level ==> NoOverlap(v[l], f)
        invariant forall l :: 0 <= l < level ==> MayPush(v, f, l, limit)
      {
        ValidLevel(v, level + 1);
        ValidLevel(v, level + 2);
        overlap := OverlapInLevel(level + 1, v[level + 1], f);
        if overlap {
          break;
        }
        var sum := OverlapBytes(v[level + 2], f);
        if sum > limit {
          break;
        }
        level := level + 1;
      }
    }
  }

  // ----- Compaction and trivial move -----

  /** The files of level l that stay. */
  ghost predicate Stays(v: Version, l: nat, f: File, level: nat, in0: seq<File>, in1: seq<File>) {
    l < |v| && f in v[l] && !Removed(l, f, level, in0, in1)
  }

  ghost predicate StaysEntry(v: Version, l: nat, e: Entry, level: nat, in0: seq<File>, in1: seq<File>) {
    exists f :: Stays(v, l, f, level, in0, in1) && e in f.entries
  }

  /** The inputs' entries. */
  ghost function InputEntries(in0: seq<File>, in1: seq<File>): set<Entry> { LevelEntries(in0) + LevelEntries(in1) }

  ghost predicate CompactionOk(v: Version, level: nat, in0: seq<File>, in1: seq<File>) {
    && Valid(v) && level + 1 < NUM_LEVELS
    && GoodInputs(level == 0, v[level], v[level + 1], in0, in1)
  }

  /** The inputs are files of their two levels. */
  ghost predicate InputsIn(v: Version, level: nat, in0: seq<File>, in1: seq<File>) {
    Valid(v) && level + 1 < NUM_LEVELS && From(v[level], in0) && From(v[level + 1], in1)
  }

  /** What stays on levels down to level + 1 is newer than the inputs of its user key. */
  ghost predicate LeavesNewer(v: Version, level: nat, in0: seq<File>, in1: seq<File>) {
    forall l, x, y :: 0 <= l <= level + 1 && StaysEntry(v, l, y, level, in0, in1) && x in InputEntries(in0, in1) && x.key == y.key ==>
      Tag(y) > Tag(x)
  }

  /** No output shares a range with a file that stays on its level. */
  ghost predicate OutputsApart(v: Version, level: nat, in0: seq<File>, in1: seq<File>, outs: seq<File>) {
    forall g, f :: Stays(v, level + 1, g, level, in0, in1) && f in outs ==> Apart(g, f)
  }

  /** On level 0, a file that stays shares no user key with an input. */
  lemma TouchClosedElsewhere(fs: seq<File>, in0: seq<File>, f: File, x: Entry, g: File, y: Entry)
    requires FilesOk(fs) && From(fs, in0) && TouchClosed(fs, in0)
    requires f in in0 && x in f.entries && g in fs && g !in in0 && y in g.entries
    ensures x.key != y.key
  {
    FileOkOf(fs, f);
    FileOkOf(fs, g);
    EntryBounds(f, x);
    EntryBounds(g, y);
    assert !Touches(g, f);
  }

  /** On the compacted level, what stays is newer than the inputs of its user key. */
  lemma UpperStaysNewer(v: Version, level: nat, in0: seq<File>, in1: seq<File>, y: Entry, x: Entry)
    requires CompactionOk(v, level, in0, in1) && StaysEntry(v, level, y, level, in0, in1)
    requires x in LevelEntries(in0) && x.key == y.key
    ensures Tag(y) > Tag(x)
  {
    ValidLevel(v, level);
    var g :| Stays(v, level, g, level, in0, in1) && y in g.entries;
    var f :| f in in0 && x in f.entries;
    hide Valid, LevelEntries, FilesOk, Disjoint, Convex, BoundaryClosed, TouchClosed, Tag;
    if level == 0 {
      TouchClosedElsewhere(v[0], in0, f, x, g, y);
    } else {
      LeftOutIsNewer(v[level], in0, f, x, g, y);
    }
  }

  /** On the level below, no file that stays shares a user key with the upper inputs. */
  lemma LowerStaysElsewhere(v: Version, level: nat, in0: seq<File>, in1: seq<File>, g: File, y: Entry, x: Entry)
    requires CompactionOk(v, level, in0, in1) && Stays(v, level + 1, g, level, in0, in1) && y in g.entries
    requires x in LevelEntries(in0)
    ensures x.key != y.key
  {
    ValidLevel(v, level);
    ValidLevel(v, level + 1);
    var lo, hi :| Covers(in0, lo, hi) && TakesOverlap(v[level + 1], in1, lo, hi) && Anchored(in1, lo, hi);
    hide Valid, GoodInputs;
    InHull(v[level], in0, lo, hi, x);
    FileOkOf(v[level + 1], g);
    EntryBounds(g, y);
    assert !Overlaps(g, Some(lo.key), Some(hi.key));
  }

  /** On the level below, what stays is newer than every input of its user key. */
  lemma LowerStaysNewer(v: Version, level: nat, in0: seq<File>, in1: seq<File>, y: Entry, x: Entry)
    requires CompactionOk(v, level, in0, in1) && StaysEntry(v, level + 1, y, level, in0, in1)
    requires x in InputEntries(in0, in1) && x.key == y.key
    ensures Tag(y) > Tag(x)
  {
    ValidLevel(v, level + 1);
    var g :| Stays(v, level + 1, g, level, in0, in1) && y in g.entries;
    hide Valid, LevelEntries, FilesOk, Disjoint, Convex, BoundaryClosed, Tag;
    if x in LevelEntries(in0) {
      LowerStaysElsewhere(v, level, in0, in1, g, y, x);
    } else {
      var f :| f in in1 && x in f.entries;
      LeftOutIsNewer(v[level + 1], in1, f, x, g, y);
    }
  }

  /** Seen from a file that stays on the level below, all inputs lie on one side. */
  lemma InputsOnOneSide(v: Version, level: nat, in0: seq<File>, in1: seq<File>, g: File)
    requires CompactionOk(v, level, in0, in1) && Stays(v, level + 1, g, level, in0, in1)
    ensures (forall x :: x in InputEntries(in0, in1) ==> Before(Largest(g), IKey(x))) ||
            (forall x :: x in InputEntries(in0, in1) ==> Before(IKey(x), Smallest(g)))
  {
    ValidLevel(v, level);
    ValidLevel(v, level + 1);
    var next := v[level + 1];
    var lo, hi :| Covers(in0, lo, hi) && TakesOverlap(next, in1, lo, hi) && Anchored(in1, lo, hi);
    FileOkOf(next, g);
    FileBounds(g);
    hide Valid;
    if Largest(g).key < lo.key {
      forall x | x in InputEntries(in0, in1) ensures Before(Largest(g), IKey(x)) {
        OneSide(v[level], next, in0, in1, lo, hi, g, x, true);
      }
    } else {
      assert Smallest(g).key > hi.key;
      forall x | x in InputEntries(in0, in1) ensures Before(IKey(x), Smallest(g)) {
        OneSide(v[level], next, in0, in1, lo, hi, g, x, false);
      }
    }
  }

  lemma OneSide(fs: seq<File>, next: seq<File>, in0: seq<File>, in1: seq<File>, lo: InternalKey, hi: InternalKey, g: File, x: Entry, right: bool)
    requires FilesOk(fs) && From(fs, in0) && FilesOk(next) && Disjoint(next) && From(next, in1) && Convex(next, in1)
    requires Covers(in0, lo, hi) && Anchored(in1, lo, hi) && g in next && g !in in1 && x in InputEntries(in0, in1)
    requires if right then Largest(g).key < lo.key else Smallest(g).key > hi.key
    ensures if right then Before(Largest(g), IKey(x)) else Before(IKey(x), Smallest(g))
  {
    hide FilesOk, Disjoint, Convex, From, LevelEntries;
    if x in LevelEntries(in0) {
      InHull(fs, in0, lo, hi, x);
    } else {
      assert in1 != [] by {
        var f :| f in in1 && x in f.entries;
      }
      var h :| h in in1 && Overlaps(h, Some(lo.key), Some(hi.key));
      SideOf(next, in1, g, h, x, right);
    }
  }

  lemma InHull(fs: seq<File>, in0: seq<File>, lo: InternalKey, hi: InternalKey, x: Entry)
    requires FilesOk(fs) && From(fs, in0) && Covers(in0, lo, hi) && x in LevelEntries(in0)
    ensures lo.key <= x.key <= hi.key
  {
    var f :| f in in0 && x in f.entries;
    FileOkOf(fs, f);
    EntryBounds(f, x);
  }

  lemma InOrder(fs: seq<File>, i: nat, j: nat)
    requires FilesOk(fs) && Disjoint(fs) && i < |fs| && j < |fs|
    requires Largest(fs[i]).key < Largest(fs[j]).key || Smallest(fs[i]).key < Smallest(fs[j]).key
    ensures i < j
  {
    FileBounds(fs[i]);
    FileBounds(fs[j]);
  }

  /** If one input h lies right (left) of g, then so do all: the inputs have no gap for g. */
  lemma SideOf(next: seq<File>, in1: seq<File>, g: File, h: File, x: Entry, right: bool)
    requires FilesOk(next) && Disjoint(next) && From(next, in1) && Convex(next, in1)
    requires g in next && g !in in1 && h in in1 && x in LevelEntries(in1)
    requires if right then Largest(h).key > Largest(g).key else Smallest(h).key < Smallest(g).key
    ensures if right then Before(Largest(g), IKey(x)) else Before(IKey(x), Smallest(g))
  {
    var f :| f in in1 && x in f.entries;
    var i :| 0 <= i < |next| && next[i] == f;
    var j :| 0 <= j < |next| && next[j] == g;
    var m :| 0 <= m < |next| && next[m] == h;
    FileOkOf(next, f);
    FileOkOf(next, h);
    FileOkOf(next, g);
    EntryBounds(f, x);
    FileBounds(h);
    FileBounds(g);
    hide LevelEntries, From;
    if right {
      InOrder(next, j, m);
    } else {
      InOrder(next, m, j);
    }
    NoGapIndex(next, in1, i, j, m);
    hide Convex;
  }

  lemma NoGapIndex(next: seq<File>, in1: seq<File>, i: nat, j: nat, m: nat)
    requires Convex(next, in1) && i < |next| && j < |next| && m < |next|
    requires next[i] in in1 && next[m] in in1 && next[j] !in in1
    ensures m > j ==> i > j
    ensures m < j ==> i < j
  {}

  // ----- The replaced version -----

  /** The outputs hold, in order, some of the inputs' entries, under numbers not used by files that stay. */
  ghost predicate OutputsOk(v: Version, level: nat, in0: seq<File>, in1: seq<File>, outs: seq<File>) {
    && Sorted(Flatten(outs))
    && (forall x :: x in Flatten(outs) ==> x in InputEntries(in0, in1))
    && (forall i, j :: 0 <= i < j < |outs| ==> outs[i].number != outs[j].number)
    && forall f, l, g :: f in outs && Stays(v, l, g, level, in0, in1) ==> f.number != g.number
  }

  lemma {:induction false} FlattenMember(outs: seq<File>, e: Entry)
    ensures e in Flatten(outs) <==> InFiles(outs, e)
  {
    if outs != [] {
      var k := |outs| - 1;
      FlattenMember(outs[..k], e);
      assert outs == outs[..k] + [outs[k]];
      if InFiles(outs, e) {
        var f :| f in outs && e in f.entries;
        assert f in outs[..k] || f == outs[k];
      }
      if InFiles(outs[..k], e) {
        var f :| f in outs[..k] && e in f.entries;
        assert f in outs;
      }
    }
  }

  /** Cutting a sorted run into files gives sorted files in order. */
  lemma {:induction false} FlattenSorted(outs: seq<File>)
    requires Sorted(Flatten(outs))
    ensures forall f :: f in outs ==> Sorted(f.entries)
    ensures Disjoint(outs)
  {
    if outs != [] {
      var k := |outs| - 1;
      var init, last := Flatten(outs[..k]), outs[k].entries;
      assert Flatten(outs) == init + last;
      assert Sorted(init) by {
        forall i, j | 0 <= i < j < |init| ensures Before(IKey(init[i]), IKey(init[j])) {
          assert (init + last)[i] == init[i] && (init + last)[j] == init[j];
        }
      }
      FlattenSorted(outs[..k]);
      assert Sorted(last) by {
        forall i, j | 0 <= i < j < |last| ensures Before(IKey(last[i]), IKey(last[j])) {
          assert (init + last)[|init| + i] == last[i] && (init + last)[|init| + j] == last[j];
        }
      }
      forall i | 0 <= i < k ensures Before(Largest(outs[i]), Smallest(outs[k])) {
        var e := outs[i].entries[|outs[i].entries| - 1];
        assert outs[i] in outs[..k] && e in outs[i].entries;
        FlattenMember(outs[..k], e);
        var p :| 0 <= p < |init| && init[p] == e;
        assert (init + last)[p] == e && (init + last)[|init|] == last[0];
      }
      assert outs == outs[..k] + [outs[k]];
    }
  }

  /** The entries of level l after the replacement. */
  lemma ReplacedEntries(v: Version, v': Version, level: nat, in0: seq<File>, in1: seq<File>, outs: seq<File>, l: nat, e: Entry)
    requires Replaced(v, v', level, in0, in1, outs) && l < |v|
    ensures e in LevelEntries(v'[l]) <==> StaysEntry(v, l, e, level, in0, in1) || (l == level + 1 && e in Flatten(outs))
  {
    assert ReplacedLevel(v[l], v'[l], l, level, in0, in1, outs);
    FlattenMember(outs, e);
    if StaysEntry(v, l, e, level, in0, in1) {
      var f :| Stays(v, l, f, level, in0, in1) && e in f.entries;
      assert f in v'[l];
    }
    if l == level + 1 && InFiles(outs, e) {
      var f :| f in outs && e in f.entries;
      assert f in v'[l];
    }
    if InFiles(v'[l], e) {
      var f :| f in v'[l] && e in f.entries;
      assert Stays(v, l, f, level, in0, in1) || f in outs;
    }
  }

  lemma StaysInLevel(v: Version, l: nat, e: Entry, level: nat, in0: seq<File>, in1: seq<File>)
    requires StaysEntry(v, l, e, level, in0, in1)
    ensures l < |v| && e in LevelEntries(v[l])
  {
    var f :| Stays(v, l, f, level, in0, in1) && e in f.entries;
  }

  lemma InputInLevel(v: Version, level: nat, in0: seq<File>, in1: seq<File>, e: Entry)
    requires InputsIn(v, level, in0, in1)
    ensures e in LevelEntries(in0) ==> e in LevelEntries(v[level])
    ensures e in LevelEntries(in1) ==> e in LevelEntries(v[level + 1])
  {}

  lemma LevelsApart(v: Version, a: nat, b: nat, x: Entry, y: Entry)
    requires LevelOrder(v) && a < |v| && b < |v| && x in LevelEntries(v[a]) && y in LevelEntries(v[b]) && x.key == y.key
    ensures a < b ==> Tag(x) > Tag(y)
    ensures a > b ==> Tag(x) < Tag(y)
  {
    hide LevelEntries;
    if a < b {
      assert Newer(LevelEntries(v[a]), LevelEntries(v[b]));
    } else if b < a {
      assert Newer(LevelEntries(v[b]), LevelEntries(v[a]));
    }
  }

  /** Entries of levels above are newer, of levels below older, than the inputs of their user key. */
  lemma OtherLevels(v: Version, level: nat, in0: seq<File>, in1: seq<File>, l: nat, y: Entry, x: Entry)
    requires InputsIn(v, level, in0, in1) && l < |v| && y in LevelEntries(v[l]) && x in InputEntries(in0, in1) && x.key == y.key
    ensures l < level ==> Tag(y) > Tag(x)
    ensures l > level + 1 ==> Tag(y) < Tag(x)
  {
    hide LevelEntries, LevelOrder, NumberOrder, UniqueNumbers, GoodInputs;
    InputInLevel(v, level, in0, in1, x);
    LevelsApart(v, l, if x in LevelEntries(in0) then level else level + 1, y, x);
  }

  /** What stays on or above the level below the compacted one is newer than the inputs of its user key. */
  lemma StaysNewer(v: Version, level: nat, in0: seq<File>, in1: seq<File>, l: nat, y: Entry, x: Entry)
    requires CompactionOk(v, level, in0, in1) && StaysEntry(v, l, y, level, in0, in1) && l <= level + 1
    requires x in InputEntries(in0, in1) && x.key == y.key
    ensures Tag(y) > Tag(x)
  {
    ChosenIn(v, level, in0, in1);
    hide LevelEntries, LevelOrder, NumberOrder, UniqueNumbers, GoodInputs, StaysEntry;
    StaysInLevel(v, l, y, level, in0, in1);
    if l < level {
      OtherLevels(v, level, in0, in1, l, y, x);
    } else if l == level + 1 {
      LowerStaysNewer(v, level, in0, in1, y, x);
    } else if x in LevelEntries(in0) {
      UpperStaysNewer(v, level, in0, in1, y, x);
    } else {
      InputInLevel(v, level, in0, in1, x);
      LevelsApart(v, level, level + 1, y, x);
    }
  }

  lemma OutputsNewer(v: Version, level: nat, in0: seq<File>, in1: seq<File>, l: nat, y: Entry, x: Entry)
    requires LeavesNewer(v, level, in0, in1) && StaysEntry(v, l, y, level, in0, in1) && l <= level + 1
    requires x in InputEntries(in0, in1) && x.key == y.key
    ensures Tag(y) > Tag(x)
  {
    hide StaysEntry, InputEntries;
  }

  /** The inputs chosen for a compaction are such. */
  lemma ChosenInputs(v: Version, level: nat, in0: seq<File>, in1: seq<File>)
    requires CompactionOk(v, level, in0, in1)
    ensures InputsIn(v, level, in0, in1) && LeavesNewer(v, level, in0, in1)
  {
    hide Valid, StaysEntry, InputEntries, Convex, BoundaryClosed, TouchClosed;
    forall l, x, y | 0 <= l <= level + 1 && StaysEntry(v, l, y, level, in0, in1) && x in InputEntries(in0, in1) && x.key == y.key
      ensures Tag(y) > Tag(x)
    {
      StaysNewer(v, level, in0, in1, l, y, x);
    }
  }

  lemma ChosenIn(v: Version, level: nat, in0: seq<File>, in1: seq<File>)
    requires CompactionOk(v, level, in0, in1)
    ensures InputsIn(v, level, in0, in1)
  {
    hide Valid, Convex, BoundaryClosed, TouchClosed;
  }

  lemma ReplaceLevelOrder(v: Version, v': Version, level: nat, in0: seq<File>, in1: seq<File>, outs: seq<File>, a: nat, b: nat)
    requires InputsIn(v, level, in0, in1) && LeavesNewer(v, level, in0, in1) && Replaced(v, v', level, in0, in1, outs) && OutputsOk(v, level, in0, in1, outs)
    requires a < b < |v|
    ensures Newer(LevelEntries(v'[a]), LevelEntries(v'[b]))
  {
    assert LevelOrder(v);
    hide LevelEntries, LevelOrder, Valid, Replaced, Flatten, Tag, GoodInputs, StaysEntry, InputEntries;
    forall x, y | x in LevelEntries(v'[a]) && y in LevelEntries(v'[b]) && x.key == y.key ensures Tag(x) > Tag(y) {
      ReplacedEntries(v, v', level, in0, in1, outs, a, x);
      ReplacedEntries(v, v', level, in0, in1, outs, b, y);
      if StaysEntry(v, a, x, level, in0, in1) {
        StaysInLevel(v, a, x, level, in0, in1);
        if StaysEntry(v, b, y, level, in0, in1) {
          StaysInLevel(v, b, y, level, in0, in1);
          LevelsApart(v, a, b, x, y);
        } else {
          OutputsNewer(v, level, in0, in1, a, x, y);
        }
      } else {
        StaysInLevel(v, b, y, level, in0, in1);
        OtherLevels(v, level, in0, in1, b, y, x);
      }
    }
  }

  lemma ReplaceDisjoint(v: Version, v': Version, level: nat, in0: seq<File>, in1: seq<File>, outs: seq<File>, l: nat)
    requires InputsIn(v, level, in0, in1) && Replaced(v, v', level, in0, in1, outs) && OutputsOk(v, level, in0, in1, outs)
    requires l < |v| && OutputsApart(v, level, in0, in1, outs)
    ensures FilesOk(v'[l]) && (l >= 1 ==> Disjoint(v'[l]))
  {
    ValidLevel(v, l);
    assert SortedBySmallest(v'[l]) && ReplacedLevel(v[l], v'[l], l, level, in0, in1, outs);
    FlattenSorted(outs);
    forall f | f in v'[l] ensures FileOk(f) {
      if f in v[l] && !Removed(l, f, level, in0, in1) {
        FileOkOf(v[l], f);
      } else {
        OutputSeqnos(v, level, in0, in1, outs, f);
      }
    }
    if l >= 1 {
      forall f, g | f in v'[l] && g in v'[l] && f != g ensures Apart(f, g) {
        ReplacePairApart(v, level, in0, in1, outs, l, f, g);
      }
      SortedApartDisjoint(v'[l]);
    }
  }

  lemma InputSeqno(v: Version, level: nat, in0: seq<File>, in1: seq<File>, e: Entry)
    requires InputsIn(v, level, in0, in1) && e in InputEntries(in0, in1)
    ensures e.seqno <= MAX_SEQUENCE
  {
    ValidLevel(v, level);
    ValidLevel(v, level + 1);
    hide Valid;
    if e in LevelEntries(in0) {
      var h :| h in in0 && e in h.entries;
      FileOkOf(v[level], h);
    } else {
      var h :| h in in1 && e in h.entries;
      FileOkOf(v[level + 1], h);
    }
  }

  lemma OutputSeqnos(v: Version, level: nat, in0: seq<File>, in1: seq<File>, outs: seq<File>, f: File)
    requires InputsIn(v, level, in0, in1) && OutputsOk(v, level, in0, in1, outs) && f in outs && Sorted(f.entries)
    ensures FileOk(f)
  {
    forall i | 0 <= i < |f.entries| ensures f.entries[i].seqno <= MAX_SEQUENCE {
      hide Valid, GoodInputs, Flatten, Disjoint, Sorted;
      var e := f.entries[i];
      assert InFiles(outs, e);
      FlattenMember(outs, e);
      InputSeqno(v, level, in0, in1, e);
    }
  }

  lemma ReplacePairApart(v: Version, level: nat, in0: seq<File>, in1: seq<File>, outs: seq<File>, l: nat, f: File, g: File)
    requires InputsIn(v, level, in0, in1) && OutputsOk(v, level, in0, in1, outs) && 1 <= l < |v| && f != g && Disjoint(outs) && OutputsApart(v, level, in0, in1, outs)
    requires Stays(v, l, f, level, in0, in1) || (l == level + 1 && f in outs)
    requires Stays(v, l, g, level, in0, in1) || (l == level + 1 && g in outs)
    ensures Apart(f, g)
  {
    ValidLevel(v, l);
    if Stays(v, l, f, level, in0, in1) && Stays(v, l, g, level, in0, in1) {
      DisjointApart(v[l], f, g);
    } else if Stays(v, l, f, level, in0, in1) {
      assert Apart(f, g);
    } else if Stays(v, l, g, level, in0, in1) {
      assert Apart(g, f);
    } else {
      DisjointApart(outs, f, g);
    }
  }

  lemma StaysApartFromOutput(v: Version, level: nat, in0: seq<File>, in1: seq<File>, outs: seq<File>, g: File, f: File)
    requires CompactionOk(v, level, in0, in1) && OutputsOk(v, level, in0, in1, outs)
    requires Stays(v, level + 1, g, level, in0, in1) && f in outs
    ensures Apart(g, f)
  {
    hide CompactionOk, OutputsOk, Stays, InputEntries, Before;
    InputsOnOneSide(v, level, in0, in1, g);
    OutputIsInput(v, level, in0, in1, outs, f, f.entries[0]);
    OutputIsInput(v, level, in0, in1, outs, f, f.entries[|f.entries| - 1]);
  }

  lemma OutputIsInput(v: Version, level: nat, in0: seq<File>, in1: seq<File>, outs: seq<File>, f: File, e: Entry)
    requires OutputsOk(v, level, in0, in1, outs) && f in outs && e in f.entries
    ensures e in InputEntries(in0, in1)
  {
    hide Flatten, Sorted, InputEntries, Stays;
    assert InFiles(outs, e);
    FlattenMember(outs, e);
  }

  lemma ReplaceNumbers(v: Version, v': Version, level: nat, in0: seq<File>, in1: seq<File>, outs: seq<File>)
    requires InputsIn(v, level, in0, in1) && Replaced(v, v', level, in0, in1, outs) && OutputsOk(v, level, in0, in1, outs)
    ensures NumberOrder(v'[0]) && UniqueNumbers(v')
  {
    ReplaceLevel0(v, v', level, in0, in1, outs);
    hide CompactionOk, Replaced, OutputsOk, Stays, NumberOrder;
    ReplaceLength(v, v', level, in0, in1, outs);
    forall a, b, f, g | 0 <= a < |v'| && 0 <= b < |v'| && f in v'[a] && g in v'[b] && f.number == g.number
      ensures a == b && f == g
    {
      ReplacedFrom(v, v', level, in0, in1, outs, a, f);
      ReplacedFrom(v, v', level, in0, in1, outs, b, g);
      ReplacedPair(v, level, in0, in1, outs, a, f, b, g);
    }
  }

  lemma ReplaceLength(v: Version, v': Version, level: nat, in0: seq<File>, in1: seq<File>, outs: seq<File>)
    requires Replaced(v, v', level, in0, in1, outs)
    ensures |v'| == |v|
  {}

  /** A file of the new version stayed or is an output. */
  lemma ReplacedFrom(v: Version, v': Version, level: nat, in0: seq<File>, in1: seq<File>, outs: seq<File>, a: nat, f: File)
    requires Replaced(v, v', level, in0, in1, outs) && a < |v'| && f in v'[a]
    ensures Stays(v, a, f, level, in0, in1) || (a == level + 1 && f in outs)
  {
    assert ReplacedLevel(v[a], v'[a], a, level, in0, in1, outs);
  }

  lemma ReplacedPair(v: Version, level: nat, in0: seq<File>, in1: seq<File>, outs: seq<File>, a: nat, f: File, b: nat, g: File)
    requires InputsIn(v, level, in0, in1) && OutputsOk(v, level, in0, in1, outs) && f.number == g.number
    requires Stays(v, a, f, level, in0, in1) || (a == level + 1 && f in outs)
    requires Stays(v, b, g, level, in0, in1) || (b == level + 1 && g in outs)
    ensures a == b && f == g
  {
    hide GoodInputs, LevelOrder, NumberOrder, FilesOk, Disjoint, Flatten, InputEntries, Sorted;
  }

  lemma ReplaceLevel0(v: Version, v': Version, level: nat, in0: seq<File>, in1: seq<File>, outs: seq<File>)
    requires InputsIn(v, level, in0, in1) && Replaced(v, v', level, in0, in1, outs)
    ensures |v'| == |v| == NUM_LEVELS && NumberOrder(v'[0])
  {
    ValidLevel(v, 0);
    assert ReplacedLevel(v[0], v'[0], 0, level, in0, in1, outs);
    hide CompactionOk, Replaced, FilesOk;
  }

  /** Replacing the inputs by a sorted part of theirs one level down keeps every order of the version exactly when
      no file that stays there is in the range of an output. */
  lemma ReplaceKeepsValidIff(v: Version, v': Version, level: nat, in0: seq<File>, in1: seq<File>, outs: seq<File>)
    requires InputsIn(v, level, in0, in1) && LeavesNewer(v, level, in0, in1)
    requires Replaced(v, v', level, in0, in1, outs) && OutputsOk(v, level, in0, in1, outs)
    ensures Valid(v') <==> OutputsApart(v, level, in0, in1, outs)
  {
    hide LeavesNewer;
    ReplaceLength(v, v', level, in0, in1, outs);
    if OutputsApart(v, level, in0, in1, outs) {
      forall l | 0 <= l < |v'| ensures FilesOk(v'[l]) && (l >= 1 ==> Disjoint(v'[l])) {
        ReplaceDisjoint(v, v', level, in0, in1, outs, l);
      }
      forall a, b | 0 <= a < b < |v'| ensures Newer(LevelEntries(v'[a]), LevelEntries(v'[b])) {
        ReplaceLevelOrder(v, v', level, in0, in1, outs, a, b);
      }
      ReplaceNumbers(v, v', level, in0, in1, outs);
    }
    if Valid(v') {
      ValidApart(v, v', level, in0, in1, outs);
    }
  }

  lemma ValidApart(v: Version, v': Version, level: nat, in0: seq<File>, in1: seq<File>, outs: seq<File>)
    requires InputsIn(v, level, in0, in1) && Valid(v') && Replaced(v, v', level, in0, in1, outs) && OutputsOk(v, level, in0, in1, outs)
    ensures OutputsApart(v, level, in0, in1, outs)
  {
    ValidLevel(v', level + 1);
    assert ReplacedLevel(v[level + 1], v'[level + 1], level + 1, level, in0, in1, outs);
    hide Valid, Replaced, Flatten, Sorted, InputEntries;
    forall g, f | Stays(v, level + 1, g, level, in0, in1) && f in outs ensures Apart(g, f) {
      assert g.number != f.number;
      DisjointApart(v'[level + 1], g, f);
    }
  }

  /** Moving any sorted part of the inputs one level down keeps every order of the version. */
  lemma ReplaceKeepsValid(v: Version, v': Version, level: nat, in0: seq<File>, in1: seq<File>, outs: seq<File>)
    requires CompactionOk(v, level, in0, in1) && Replaced(v, v', level, in0, in1, outs) && OutputsOk(v, level, in0, in1, outs)
    ensures Valid(v')
  {
    hide CompactionOk, Replaced, OutputsOk, LeavesNewer, InputsIn, Valid;
    ChosenInputs(v, level, in0, in1);
    forall g, f | Stays(v, level + 1, g, level, in0, in1) && f in outs ensures Apart(g, f) {
      StaysApartFromOutput(v, level, in0, in1, outs, g, f);
    }
    ReplaceKeepsValidIff(v, v', level, in0, in1, outs);
  }
}
