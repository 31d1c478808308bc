/** Version edits: applying one to the current version, and replaying all of them at recovery. */
module Manifest {
  import opened Files
  import opened Versions
  import opened Steps

  /** Deleted files by level and number, added files by level. */
  datatype Edit = Edit(deleted: set<(nat, nat)>, added: seq<(nat, File)>)

  ghost function AddedAt(e: Edit, l: nat): set<File> { set p | p in e.added && p.0 == l :: p.1 }
  ghost function DeletedAt(e: Edit, l: nat): set<nat> { set p | p in e.deleted && p.0 == l :: p.1 }
  ghost function Numbers(fs: set<File>): set<nat> { set f | f in fs :: f.number }

  /** What a level holds after an edit: a file both deleted and added by it stays. */
  ghost function Install(fs: set<File>, e: Edit, l: nat): set<File> {
    set f | f in fs + AddedAt(e, l) && f.number !in DeletedAt(e, l) - Numbers(AddedAt(e, l))
  }

  ghost function InstallAll(fs: set<File>, edits: seq<Edit>, l: nat): set<File> {
    if edits == [] then fs else Install(InstallAll(fs, edits[..|edits| - 1], l), edits[|edits| - 1], l)
  }

  // ----- The builder -----

  /** What a Builder remembers of the edits applied, per level. */
  datatype LevelState = LevelState(deleted: set<nat>, added: set<File>)

  ghost function ApplyLevel(st: LevelState, e: Edit, l: nat): LevelState {
    LevelState((st.deleted + DeletedAt(e, l)) - Numbers(AddedAt(e, l)), st.added + AddedAt(e, l))
  }

  ghost function ApplyAll(edits: seq<Edit>, l: nat): LevelState {
    if edits == [] then LevelState({}, {}) else ApplyLevel(ApplyAll(edits[..|edits| - 1], l), edits[|edits| - 1], l)
  }

  ghost function Saved(base: set<File>, st: LevelState): set<File> {
    set f | f in base + st.added && f.number !in st.deleted
  }

  /** On this level no file number ever names two different files. */
  ghost predicate NumberNamesFile(base: set<File>, edits: seq<Edit>, l: nat) {
    forall f, g :: Mentioned(base, edits, l, f) && Mentioned(base, edits, l, g) && f.number == g.number ==> f == g
  }

  ghost predicate Mentioned(base: set<File>, edits: seq<Edit>, l: nat, f: File) {
    f in base || exists i :: 0 <= i < |edits| && f in AddedAt(edits[i], l)
  }

  lemma {:induction false} AddedMentioned(base: set<File>, edits: seq<Edit>, l: nat, f: File)
    requires f in ApplyAll(edits, l).added
    ensures Mentioned(base, edits, l, f)
  {
    var k := |edits| - 1;
    if f in AddedAt(edits[k], l) {
    } else {
      AddedMentioned(base, edits[..k], l, f);
      if f !in base {
        var i :| 0 <= i < |edits[..k]| && f in AddedAt(edits[..k][i], l);
        assert f in AddedAt(edits[i], l);
      }
    }
  }

  lemma SaveAfterEdit(base: set<File>, st: LevelState, e: Edit, l: nat)
    requires forall f, g :: (f in base || f in st.added) && g in AddedAt(e, l) && f.number == g.number ==> f == g
    ensures Saved(base, ApplyLevel(st, e, l)) == Install(Saved(base, st), e, l)
  {
    var a := AddedAt(e, l);
    forall f ensures f in Saved(base, ApplyLevel(st, e, l)) <==> f in Install(Saved(base, st), e, l) {
      if f in a {
        assert f.number in Numbers(a);
      } else if f.number in Numbers(a) {
        var g :| g in a && g.number == f.number;
      }
    }
  }

  /** Recovery: one builder fed the whole history of edits holds what installing them one by one gave. */
  lemma {:induction false} ReplayMatchesInstalls(base: set<File>, edits: seq<Edit>, l: nat)
    requires NumberNamesFile(base, edits, l)
    ensures Saved(base, ApplyAll(edits, l)) == InstallAll(base, edits, l)
    decreases |edits|
  {
    if edits != [] {
      var k := |edits| - 1;
      var init := edits[..k];
      forall f | Mentioned(base, init, l, f) ensures Mentioned(base, edits, l, f) {
        if f !in base {
          var i :| 0 <= i < |init| && f in AddedAt(init[i], l);
          assert f in AddedAt(edits[i], l);
        }
      }
      ReplayMatchesInstalls(base, init, l);
      forall f, g | (f in base || f in ApplyAll(init, l).added) && g in AddedAt(edits[k], l) && f.number == g.number ensures f == g {
        if f in ApplyAll(init, l).added {
          AddedMentioned(base, init, l, f);
        }
        assert Mentioned(base, edits, l, f) && Mentioned(base, edits, l, g);
      }
      SaveAfterEdit(base, ApplyAll(init, l), edits[k], l);
    }
  }

  // ----- The builder's code -----

  /** Two files the builder's set cannot hold both: equal in its order. */
  predicate SamePlace(f: File, g: File) { Smallest(f) == Smallest(g) && f.number == g.number }

  ghost predicate NoClash(fs: seq<File>, f: File) { forall g :: g in fs && SamePlace(f, g) ==> g == f }

  ghost function FileSet(fs: seq<File>): (s: set<File>)
    ensures forall f :: f in s <==> f in fs
  {
    set f | f in fs
  }

  lemma BySmallestKeyTotal(f: File, g: File)
    ensures SamePlace(f, g) || BySmallestKey(f, g) || BySmallestKey(g, f)
    ensures !(BySmallestKey(f, g) && BySmallestKey(g, f))
  {}

  /** std::set insertion. */
  method InsertSorted(fs: seq<File>, f: File) returns (r: seq<File>)
    requires SortedBySmallest(fs) && NoClash(fs, f)
    ensures SortedBySmallest(r) && FileSet(r) == FileSet(fs) + {f}
  {
    var i := 0;
    while i < |fs| && BySmallestKey(fs[i], f)
      invariant 0 <= i <= |fs|
      invariant forall j :: 0 <= j < i ==> BySmallestKey(fs[j], f)
    {
      i := i + 1;
    }
    if i < |fs| && !BySmallestKey(f, fs[i]) {
      BySmallestKeyTotal(f, fs[i]);
      r := fs;
    } else {
      r := fs[..i] + [f] + fs[i..];
      InsertKeepsSorted(fs, f, i);
    }
  }

  lemma InsertKeepsSorted(fs: seq<File>, f: File, i: nat)
    requires SortedBySmallest(fs) && i <= |fs|
    requires (forall j :: 0 <= j < i ==> BySmallestKey(fs[j], f)) && (i < |fs| ==> BySmallestKey(f, fs[i]))
    ensures SortedBySmallest(fs[..i] + [f] + fs[i..]) && FileSet(fs[..i] + [f] + fs[i..]) == FileSet(fs) + {f}
  {
    var r := fs[..i] + [f] + fs[i..];
    forall j | i <= j < |fs| ensures BySmallestKey(f, fs[j]) {
      assert j > i ==> BySmallestKey(fs[i], fs[j]);
    }
    hide BySmallestKey;
    forall a, b | 0 <= a < b < |r| ensures BySmallestKey(r[a], r[b]) {
      assert r[a] == if a < i then fs[a] else if a == i then f else fs[a - 1];
      assert r[b] == if b < i then fs[b] else if b == i then f else fs[b - 1];
    }
    assert fs == fs[..i] + fs[i..];
    assert forall g :: g in r <==> g in fs || g == f;
  }

  ghost predicate Merged(base: seq<File>, added: seq<File>, deleted: set<nat>, r: seq<File>) {
    forall f :: f in r <==> (f in base || f in added) && f.number !in deleted
  }

  /** Every base file before `b` is not after an added file still to come; those from `b` on come after the added ones taken. */
  ghost predicate Interleaved(base: seq<File>, added: seq<File>, b: nat, a: nat)
    requires b <= |base| && a <= |added|
  {
    && (forall i :: 0 <= i < b ==> AllNotBefore(added[a..], base[i]))
    && (forall i :: b <= i < |base| ==> AllBefore(added[..a], base[i]))
  }

  ghost predicate AllNotBefore(fs: seq<File>, f: File) { forall g :: g in fs ==> !BySmallestKey(g, f) }
  ghost predicate AllBefore(fs: seq<File>, f: File) { forall g :: g in fs ==> BySmallestKey(g, f) }

  ghost predicate NoneTwice(base: seq<File>, added: seq<File>, deleted: set<nat>) {
    forall f, g :: f in base && g in added ==> !SamePlace(f, g) || f.number in deleted
  }

  /** The state of the merge after `b` base files and `a` added files. */
  ghost predicate MergeState(base: seq<File>, added: seq<File>, deleted: set<nat>, r: seq<File>, b: nat, a: nat) {
    && b <= |base| && a <= |added| && SortedBySmallest(r)
    && Merged(base[..b], added[..a], deleted, r) && Interleaved(base, added, b, a)
  }

  /** Builder::SaveTo for one level: merge the base files with the added ones, dropping the deleted. */
  method SaveLevel(base: seq<File>, added: seq<File>, deleted: set<nat>) returns (r: seq<File>)
    requires SortedBySmallest(base) && SortedBySmallest(added)
    requires NoneTwice(base, added, deleted)
    ensures SortedBySmallest(r)
    ensures FileSet(r) == Saved(FileSet(base), LevelState(deleted, FileSet(added)))
  {
    r := [];
    var b: nat, a: nat := 0, 0;
    assert MergeState(base, added, deleted, r, b, a);
    hide MergeState, SortedBySmallest, NoneTwice, BySmallestKey;
    while a < |added|
      invariant a <= |added| && b <= |base| && MergeState(base, added, deleted, r, b, a)
    {
      while b < |base| && !BySmallestKey(added[a], base[b])
        invariant b <= |base| && MergeState(base, added, deleted, r, b, a)
      {
        TakeBase(base, added, deleted, r, b, a);
        if base[b].number !in deleted {
          r := r + [base[b]];
        }
        b := b + 1;
      }
      TakeAdded(base, added, deleted, r, b, a);
      if added[a].number !in deleted {
        r := r + [added[a]];
      }
      a := a + 1;
    }
    while b < |base|
      invariant b <= |base| && MergeState(base, added, deleted, r, b, a)
    {
      TakeBase(base, added, deleted, r, b, a);
      if base[b].number !in deleted {
        r := r + [base[b]];
      }
      b := b + 1;
    }
    MergeEnd(base, added, deleted, r);
  }

  lemma MergeEnd(base: seq<File>, added: seq<File>, deleted: set<nat>, r: seq<File>)
    requires MergeState(base, added, deleted, r, |base|, |added|)
    ensures SortedBySmallest(r) && FileSet(r) == Saved(FileSet(base), LevelState(deleted, FileSet(added)))
  {
    assert base[..|base|] == base && added[..|added|] == added;
  }

  lemma TakeBase(base: seq<File>, added: seq<File>, deleted: set<nat>, r: seq<File>, b: nat, a: nat)
    requires SortedBySmallest(base) && SortedBySmallest(added) && MergeState(base, added, deleted, r, b, a)
    requires b < |base| && (a < |added| ==> !BySmallestKey(added[a], base[b]))
    ensures MergeState(base, added, deleted, if base[b].number !in deleted then r + [base[b]] else r, b + 1, a)
  {
    assert base[..b + 1] == base[..b] + [base[b]];
    TakeBaseOrder(base, added, b, a);
    hide BySmallestKey;
    forall i | 0 <= i < |r| ensures BySmallestKey(r[i], base[b]) {
      assert r[i] in r;
      if r[i] in base[..b] {
        var j :| 0 <= j < b && base[j] == r[i];
      } else {
        assert AllBefore(added[..a], base[b]);
      }
    }
  }

  lemma TakeBaseOrder(base: seq<File>, added: seq<File>, b: nat, a: nat)
    requires SortedBySmallest(base) && SortedBySmallest(added) && b < |base| && a <= |added| && Interleaved(base, added, b, a)
    requires a < |added| ==> !BySmallestKey(added[a], base[b])
    ensures Interleaved(base, added, b + 1, a)
  {
    forall g | g in added[a..] ensures !BySmallestKey(g, base[b]) {
      var j :| a <= j < |added| && added[j] == g;
      assert j > a ==> BySmallestKey(added[a], added[j]);
    }
    assert AllNotBefore(added[a..], base[b]);
    hide BySmallestKey;
  }

  lemma TakeAdded(base: seq<File>, added: seq<File>, deleted: set<nat>, r: seq<File>, b: nat, a: nat)
    requires SortedBySmallest(base) && SortedBySmallest(added) && MergeState(base, added, deleted, r, b, a)
    requires NoneTwice(base, added, deleted)
    requires a < |added| && (b < |base| ==> BySmallestKey(added[a], base[b]))
    ensures MergeState(base, added, deleted, if added[a].number !in deleted then r + [added[a]] else r, b, a + 1)
  {
    assert added[..a + 1] == added[..a] + [added[a]];
    assert added[a] in added[a..];
    forall i | 0 <= i < |r| ensures BySmallestKey(r[i], added[a]) {
      assert r[i] in r;
      if r[i] in base[..b] {
        BySmallestKeyTotal(r[i], added[a]);
        assert r[i] in base && added[a] in added;
      }
    }
    TakeAddedOrder(base, added, b, a);
  }

  lemma TakeAddedOrder(base: seq<File>, added: seq<File>, b: nat, a: nat)
    requires SortedBySmallest(base) && b <= |base| && a < |added| && Interleaved(base, added, b, a)
    requires b < |base| ==> BySmallestKey(added[a], base[b])
    ensures Interleaved(base, added, b, a + 1)
  {
    assert added[..a + 1] == added[..a] + [added[a]];
    assert added[a..] == [added[a]] + added[a + 1..];
    forall i | b <= i < |base| ensures AllBefore(added[..a + 1], base[i]) {
      assert AllBefore(added[..a], base[i]);
      assert i > b ==> BySmallestKey(base[b], base[i]);
    }
    forall i | 0 <= i < b ensures AllNotBefore(added[a + 1..], base[i]) {
      assert AllNotBefore(added[a..], base[i]);
    }
  }

  ghost predicate LevelsInRange(e: Edit) {
    (forall p :: p in e.deleted ==> p.0 < NUM_LEVELS) && (forall p :: p in e.added ==> p.0 < NUM_LEVELS)
  }

  lemma ApplyDelete(st: LevelState, done: set<(nat, nat)>, p: (nat, nat), l: nat)
    ensures ApplyLevel(st, Edit(done + {p}, []), l) ==
            var x := ApplyLevel(st, Edit(done, []), l); if p.0 == l then x.(deleted := x.deleted + {p.1}) else x
  {
    var e, e' := Edit(done, []), Edit(done + {p}, []);
    assert AddedAt(e, l) == AddedAt(e', l) == {};
    assert Numbers({}) == {};
    forall n ensures n in DeletedAt(e', l) <==> n in DeletedAt(e, l) || (p.0 == l && n == p.1) {
      if n in DeletedAt(e, l) {
        assert (l, n) in done;
      }
    }
  }

  lemma ApplyAdd(st: LevelState, del: set<(nat, nat)>, done: seq<(nat, File)>, p: (nat, File), l: nat)
    ensures ApplyLevel(st, Edit(del, done + [p]), l) ==
            var x := ApplyLevel(st, Edit(del, done), l);
            if p.0 == l then LevelState(x.deleted - {p.1.number}, x.added + {p.1}) else x
  {
    var e, e' := Edit(del, done), Edit(del, done + [p]);
    assert DeletedAt(e, l) == DeletedAt(e', l);
    forall f ensures f in AddedAt(e', l) <==> f in AddedAt(e, l) || (p.0 == l && f == p.1) {
      if f in AddedAt(e, l) {
        assert (l, f) in done;
      }
    }
    assert AddedAt(e', l) == if p.0 == l then AddedAt(e, l) + {p.1} else AddedAt(e, l);
    assert Numbers(AddedAt(e, l) + {p.1}) == Numbers(AddedAt(e, l)) + {p.1.number};
  }

  lemma ApplyNothing(st: LevelState, l: nat)
    ensures ApplyLevel(st, Edit({}, []), l) == st
  {
    var e := Edit({}, []);
    assert AddedAt(e, l) == {} && DeletedAt(e, l) == {} && Numbers({}) == {};
  }

  /** One number never names two of the files the builder would hold on a level. */
  ghost predicate OneName(fs: set<File>) { forall f, g :: f in fs && g in fs && f.number == g.number ==> f == g }

  class Builder {
    const base: Version
    var deleted: seq<set<nat>>
    var added: seq<seq<File>>

    ghost predicate Ready() reads this {
      && |base| == NUM_LEVELS && |deleted| == NUM_LEVELS && |added| == NUM_LEVELS
      && forall l :: 0 <= l < NUM_LEVELS ==> SortedBySmallest(added[l])
    }

    ghost function State(l: nat): LevelState
      requires Ready() && l < NUM_LEVELS
      reads this
    {
      LevelState(deleted[l], FileSet(added[l]))
    }

    constructor (v: Version)
      requires |v| == NUM_LEVELS
      ensures Ready() && base == v && forall l :: 0 <= l < NUM_LEVELS ==> State(l) == LevelState({}, {})
    {
      base := v;
      deleted := seq(NUM_LEVELS, _ => {});
      added := seq(NUM_LEVELS, _ => []);
    }

    method Apply(e: Edit)
      requires Ready() && LevelsInRange(e)
      requires forall l :: 0 <= l < NUM_LEVELS ==> OneName(State(l).added + AddedAt(e, l))
      modifies this
      ensures Ready() && forall l :: 0 <= l < NUM_LEVELS ==> State(l) == ApplyLevel(old(State(l)), e, l)
    {
      hide SortedBySmallest, OneName, ApplyLevel, AddedAt, DeletedAt;
      ghost var was := seq(NUM_LEVELS, l requires 0 <= l < NUM_LEVELS && Ready() reads this => State(l));
      forall l | 0 <= l < NUM_LEVELS ensures State(l) == ApplyLevel(was[l], Edit({}, []), l) {
        ApplyNothing(was[l], l);
      }
      var todo := e.deleted;
      ghost var done: set<(nat, nat)> := {};
      while todo != {}
        invariant done + todo == e.deleted && Ready()
        invariant forall l :: 0 <= l < NUM_LEVELS ==> State(l) == ApplyLevel(was[l], Edit(done, []), l)
        decreases todo
      {
        var p :| p in todo;
        forall l | 0 <= l < NUM_LEVELS {
          ApplyDelete(was[l], done, p, l);
        }
        deleted := deleted[p.0 := deleted[p.0] + {p.1}];
        todo, done := todo - {p}, done + {p};
      }
      assert done == e.deleted;
      var i := 0;
      while i < |e.added|
        invariant 0 <= i <= |e.added| && Ready()
        invariant forall l :: 0 <= l < NUM_LEVELS ==> State(l) == ApplyLevel(was[l], Edit(e.deleted, e.added[..i]), l)
      {
        var p := e.added[i];
        var l, f := p.0, p.1;
        AddedSoFar(was[l], e, l, i);
        forall k | 0 <= k < NUM_LEVELS {
          ApplyAdd(was[k], e.deleted, e.added[..i], p, k);
        }
        assert e.added[..i + 1] == e.added[..i] + [p];
        deleted := deleted[l := deleted[l] - {f.number}];
        var fs := InsertSorted(added[l], f);
        added := added[l := fs];
        i := i + 1;
      }
      assert e.added[..i] == e.added && Edit(e.deleted, e.added) == e;
    }

    method SaveTo() returns (v: Version)
      requires Ready()
      requires forall l :: 0 <= l < NUM_LEVELS ==> SortedBySmallest(base[l]) && NoneTwice(base[l], added[l], deleted[l])
      ensures |v| == NUM_LEVELS
      ensures forall l :: 0 <= l < NUM_LEVELS ==> SortedBySmallest(v[l]) && FileSet(v[l]) == Saved(FileSet(base[l]), State(l))
    {
      hide SortedBySmallest, NoneTwice, Saved;
      v := [];
      while |v| < NUM_LEVELS
        invariant |v| <= NUM_LEVELS
        invariant forall l :: 0 <= l < |v| ==> SortedBySmallest(v[l]) && FileSet(v[l]) == Saved(FileSet(base[l]), State(l))
      {
        var fs := SaveLevel(base[|v|], added[|v|], deleted[|v|]);
        v := v + [fs];
      }
    }
  }

  lemma AddedSoFar(st: LevelState, e: Edit, l: nat, i: nat)
    requires i < |e.added| && e.added[i].0 == l && OneName(st.added + AddedAt(e, l))
    ensures var f := e.added[i].1;
      forall g :: g in ApplyLevel(st, Edit(e.deleted, e.added[..i]), l).added && g.number == f.number ==> g == f
  {
    var f := e.added[i].1;
    assert e.added[i] in e.added && f in AddedAt(e, l);
    forall g | g in AddedAt(Edit(e.deleted, e.added[..i]), l) ensures g in AddedAt(e, l) {
      assert (l, g) in e.added[..i];
      assert (l, g) in e.added;
    }
  }

  // ----- Installing one edit, and recovering from all of them -----

  /** LogAndApply's new version: exactly the edit installed on every level. */
  method InstallEdit(v: Version, e: Edit) returns (v': Version)
    requires |v| == NUM_LEVELS && LevelsInRange(e)
    requires forall l :: 0 <= l < NUM_LEVELS ==> SortedBySmallest(v[l]) && Fits(v[l], e, l)
    ensures |v'| == NUM_LEVELS
    ensures forall l :: 0 <= l < NUM_LEVELS ==> SortedBySmallest(v'[l]) && FileSet(v'[l]) == Install(FileSet(v[l]), e, l)
  {
    hide SortedBySmallest, Fits, Install;
    var builder := new Builder(v);
    forall l | 0 <= l < NUM_LEVELS ensures OneName(builder.State(l).added + AddedAt(e, l)) {
      FitsOneName(v[l], e, l);
    }
    builder.Apply(e);
    forall l | 0 <= l < NUM_LEVELS ensures NoneTwice(v[l], builder.added[l], builder.deleted[l]) {
      FitsNoneTwice(v[l], e, l, builder.added[l], builder.deleted[l]);
    }
    v' := builder.SaveTo();
    forall l | 0 <= l < NUM_LEVELS ensures FileSet(v'[l]) == Install(FileSet(v[l]), e, l) {
      FitsInstall(v[l], e, l);
    }
  }

  /** The files added on level l carry numbers no file of the level has, and each its own. */
  ghost predicate Fits(fs: seq<File>, e: Edit, l: nat) {
    OneName(AddedAt(e, l)) && forall f, g :: f in fs && g in AddedAt(e, l) ==> f.number != g.number
  }

  lemma FitsOneName(fs: seq<File>, e: Edit, l: nat)
    requires Fits(fs, e, l)
    ensures OneName(LevelState({}, {}).added + AddedAt(e, l))
  {
    assert {} + AddedAt(e, l) == AddedAt(e, l);
  }

  lemma FitsNoneTwice(fs: seq<File>, e: Edit, l: nat, added: seq<File>, deleted: set<nat>)
    requires Fits(fs, e, l) && LevelState(deleted, FileSet(added)) == ApplyLevel(LevelState({}, {}), e, l)
    ensures NoneTwice(fs, added, deleted)
  {
    forall f, g | f in fs && g in added ensures !SamePlace(f, g) {
      assert g in FileSet(added);
    }
  }

  lemma FitsInstall(fs: seq<File>, e: Edit, l: nat)
    requires Fits(fs, e, l)
    ensures Saved(FileSet(fs), ApplyLevel(LevelState({}, {}), e, l)) == Install(FileSet(fs), e, l)
  {
    SaveAfterEdit(FileSet(fs), LevelState({}, {}), e, l);
    assert Saved(FileSet(fs), LevelState({}, {})) == FileSet(fs);
  }

  /** Recover: the replayed history gives, level by level, the files the last installed version held. */
  method Recover(edits: seq<Edit>) returns (v: Version)
    requires forall i :: 0 <= i < |edits| ==> LevelsInRange(edits[i])
    requires forall l :: 0 <= l < NUM_LEVELS ==> NumberNamesFile({}, edits, l)
    ensures |v| == NUM_LEVELS
    ensures forall l :: 0 <= l < NUM_LEVELS ==> SortedBySmallest(v[l]) && FileSet(v[l]) == InstallAll({}, edits, l)
  {
    hide SortedBySmallest, NumberNamesFile, LevelsInRange, InstallAll, ApplyAll, ApplyLevel, OneName, Saved;
    var builder := new Builder(seq(NUM_LEVELS, _ => []));
    var i := 0;
    forall l | 0 <= l < NUM_LEVELS ensures ApplyAll(edits[..i], l) == LevelState({}, {}) {
      ApplyNone(l);
    }
    while i < |edits|
      invariant 0 <= i <= |edits| && builder.Ready()
      invariant forall l :: 0 <= l < NUM_LEVELS ==> builder.State(l) == ApplyAll(edits[..i], l)
    {
      forall l | 0 <= l < NUM_LEVELS
        ensures OneName(ApplyAll(edits[..i], l).added + AddedAt(edits[i], l))
        ensures ApplyAll(edits[..i + 1], l) == ApplyLevel(ApplyAll(edits[..i], l), edits[i], l)
      {
        HistoryOneName(edits, l, i);
        ApplyNext(edits, l, i);
      }
      builder.Apply(edits[i]);
      i := i + 1;
    }
    assert edits[..i] == edits;
    forall l | 0 <= l < NUM_LEVELS
      ensures SortedBySmallest(builder.base[l]) && NoneTwice(builder.base[l], builder.added[l], builder.deleted[l])
    {
      assert builder.base[l] == [];
      EmptyLevel(builder.added[l], builder.deleted[l]);
    }
    v := builder.SaveTo();
    forall l | 0 <= l < NUM_LEVELS ensures FileSet(v[l]) == InstallAll({}, edits, l) {
      assert FileSet([]) == {};
      ReplayMatchesInstalls({}, edits, l);
    }
  }

  lemma ApplyNone(l: nat) ensures ApplyAll([], l) == LevelState({}, {}) {}

  lemma EmptyLevel(added: seq<File>, deleted: set<nat>)
    ensures SortedBySmallest([]) && NoneTwice([], added, deleted)
  {}

  lemma ApplyNext(edits: seq<Edit>, l: nat, i: nat)
    requires i < |edits|
    ensures ApplyAll(edits[..i + 1], l) == ApplyLevel(ApplyAll(edits[..i], l), edits[i], l)
  {
    assert edits[..i + 1][..i] == edits[..i];
  }

  lemma HistoryOneName(edits: seq<Edit>, l: nat, i: nat)
    requires i < |edits| && NumberNamesFile({}, edits, l)
    ensures OneName(ApplyAll(edits[..i], l).added + AddedAt(edits[i], l))
  {
    forall f | f in ApplyAll(edits[..i], l).added + AddedAt(edits[i], l) ensures Mentioned({}, edits, l, f) {
      if f in ApplyAll(edits[..i], l).added {
        AddedMentioned({}, edits[..i], l, f);
        var j :| 0 <= j < |edits[..i]| && f in AddedAt(edits[..i][j], l);
        assert f in AddedAt(edits[j], l);
      }
    }
  }

  // ----- The edits the store writes -----

  ghost predicate InstalledFrom(v: Version, v': Version, e: Edit) {
    |v'| == |v| && forall l :: 0 <= l < |v| ==> SortedBySmallest(v'[l]) && FileSet(v'[l]) == Install(FileSet(v[l]), e, l)
  }

  /** The edit of a compaction (or a trivial move): delete every input, add every output one level down. */
  ghost predicate CompactionEdit(e: Edit, level: nat, in0: seq<File>, in1: seq<File>, outs: seq<File>) {
    && (forall l, n :: (l, n) in e.deleted <==>
        (l == level && n in Numbers(FileSet(in0))) || (l == level + 1 && n in Numbers(FileSet(in1))))
    && (forall l, f :: (l, f) in e.added <==> l == level + 1 && f in outs)
  }

  function CompactionEditOf(level: nat, in0: seq<File>, in1: seq<File>, outs: seq<File>): Edit {
    Edit((set f | f in in0 :: (level, f.number)) + (set f | f in in1 :: (level + 1, f.number)),
         seq(|outs|, i requires 0 <= i < |outs| => (level + 1, outs[i])))
  }

  lemma CompactionEditIs(level: nat, in0: seq<File>, in1: seq<File>, outs: seq<File>)
    ensures CompactionEdit(CompactionEditOf(level, in0, in1, outs), level, in0, in1, outs)
  {
    var e := CompactionEditOf(level, in0, in1, outs);
    forall l, n ensures (l, n) in e.deleted <==>
      (l == level && n in Numbers(FileSet(in0))) || (l == level + 1 && n in Numbers(FileSet(in1)))
    {}
    forall l, f ensures (l, f) in e.added <==> l == level + 1 && f in outs {
      if l == level + 1 && f in outs {
        var i :| 0 <= i < |outs| && outs[i] == f;
        assert e.added[i] == (l, f);
      }
    }
  }

  /** Installing a compaction's edit is the replacement of its inputs by its outputs. */
  lemma CompactionInstalls(v: Version, v': Version, e: Edit, level: nat, in0: seq<File>, in1: seq<File>, outs: seq<File>)
    requires UniqueNumbers(v) && level + 1 < |v| && CompactionEdit(e, level, in0, in1, outs) && InstalledFrom(v, v', e)
    requires forall f :: f in in0 ==> f in v[level]
    requires forall f :: f in in1 ==> f in v[level + 1]
    requires forall f, g :: f in outs && g in v[level + 1] ==> f.number != g.number
    ensures Replaced(v, v', level, in0, in1, outs)
  {
    hide Install, FileSet, CompactionEdit, Removed;
    forall l | 0 <= l < |v| ensures ReplacedLevel(v[l], v'[l], l, level, in0, in1, outs) {
      forall f ensures f in v'[l] <==> (f in v[l] && !Removed(l, f, level, in0, in1)) || (l == level + 1 && f in outs) {
        CompactionInstallsFile(v, e, level, in0, in1, outs, l, f);
        assert f in v'[l] <==> f in FileSet(v'[l]);
      }
    }
  }

  /** File by file: what the edit of a compaction leaves on a level. */
  lemma CompactionInstallsFile(v: Version, e: Edit, level: nat, in0: seq<File>, in1: seq<File>, outs: seq<File>, l: nat, f: File)
    requires UniqueNumbers(v) && level + 1 < |v| && l < |v| && CompactionEdit(e, level, in0, in1, outs)
    requires forall f :: f in in0 ==> f in v[level]
    requires forall f :: f in in1 ==> f in v[level + 1]
    requires forall f, g :: f in outs && g in v[level + 1] ==> f.number != g.number
    ensures f in Install(FileSet(v[l]), e, l) <==> (f in v[l] && !Removed(l, f, level, in0, in1)) || (l == level + 1 && f in outs)
  {
    AddedByCompaction(e, level, in0, in1, outs, l, f);
    if f in v[l] {
      DeletedByCompaction(v, e, level, in0, in1, outs, l, f);
      NotReadded(v, e, level, in0, in1, outs, l, f);
    }
    if f in AddedAt(e, l) {
      assert f.number in Numbers(AddedAt(e, l));
    }
  }

  lemma AddedByCompaction(e: Edit, level: nat, in0: seq<File>, in1: seq<File>, outs: seq<File>, l: nat, f: File)
    requires CompactionEdit(e, level, in0, in1, outs)
    ensures f in AddedAt(e, l) <==> l == level + 1 && f in outs
  {
    assert f in AddedAt(e, l) <==> (l, f) in e.added;
  }

  lemma DeletedByCompaction(v: Version, e: Edit, level: nat, in0: seq<File>, in1: seq<File>, outs: seq<File>, l: nat, f: File)
    requires UniqueNumbers(v) && level + 1 < |v| && l < |v| && f in v[l] && CompactionEdit(e, level, in0, in1, outs)
    requires forall g :: g in in0 ==> g in v[level]
    requires forall g :: g in in1 ==> g in v[level + 1]
    ensures f.number in DeletedAt(e, l) <==> Removed(l, f, level, in0, in1)
  {
    assert f.number in DeletedAt(e, l) <==> (l, f.number) in e.deleted;
    if l == level && f.number in Numbers(FileSet(in0)) {
      var g :| g in in0 && g.number == f.number;
    }
    if l == level + 1 && f.number in Numbers(FileSet(in1)) {
      var g :| g in in1 && g.number == f.number;
    }
  }

  lemma NotReadded(v: Version, e: Edit, level: nat, in0: seq<File>, in1: seq<File>, outs: seq<File>, l: nat, f: File)
    requires level + 1 < |v| && l < |v| && f in v[l] && CompactionEdit(e, level, in0, in1, outs)
    requires forall g, h :: g in outs && h in v[level + 1] ==> g.number != h.number
    ensures f.number !in Numbers(AddedAt(e, l))
  {
    forall g | g in AddedAt(e, l) ensures g.number != f.number {
      AddedByCompaction(e, level, in0, in1, outs, l, g);
    }
  }

  /** Installing the edit of a memtable flush adds the one new file. */
  lemma FlushInstalls(v: Version, v': Version, at: nat, f: File)
    requires InstalledFrom(v, v', Edit({}, [(at, f)]))
    ensures Added(v, v', at, f)
  {
    var e := Edit({}, [(at, f)]);
    forall l | 0 <= l < |v| ensures AddedLevel(v[l], v'[l], l, at, f) {
      assert DeletedAt(e, l) == {};
      forall g ensures g in AddedAt(e, l) <==> l == at && g == f {
        assert (at, f) in e.added;
      }
      forall g ensures g in v'[l] <==> g in v[l] || (l == at && g == f) {
        assert g in FileSet(v'[l]) <==> g in Install(FileSet(v[l]), e, l);
      }
    }
  }
}
