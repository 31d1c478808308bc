/** Automatic compactions leave no gap between their inputs, so that nothing can be flushed into one. */
module InputCover {
  import opened Wrappers
  import opened Entries
  import opened Files
  import opened Inputs
  import opened Versions
  import opened Compactions
  import opened Steps
  import opened Database
  import opened Overlapped
  import Background

  ghost function Members(fs: seq<File>): set<File> { set f | f in fs }

  /** Every user key from a to b is in the range of a file. */
  ghost predicate Covered(x: set<File>, a: UserKey, b: UserKey) {
    forall k: UserKey :: a <= k <= b ==> Reached(x, k)
  }

  ghost predicate Reached(x: set<File>, k: UserKey) { exists f :: f in x && InRange(f, k) }

  /** So is every user key from the start of one file to the end of another. */
  ghost predicate NoGap(x: set<File>) {
    forall p, q :: p in x && q in x ==> Covered(x, Smallest(p).key, Largest(q).key)
  }

  ghost predicate AllOk(x: set<File>) { forall f :: f in x ==> FileOk(f) }

  lemma ReachedMore(x: set<File>, y: set<File>, k: UserKey)
    requires Reached(x, k) && x <= y
    ensures Reached(y, k)
  {
    var f :| f in x && InRange(f, k);
    assert f in y;
  }

  lemma CoveredMore(x: set<File>, y: set<File>, a: UserKey, b: UserKey)
    requires Covered(x, a, b) && x <= y
    ensures Covered(y, a, b)
  {
    forall k: UserKey | a <= k <= b ensures Reached(y, k) {
      ReachedMore(x, y, k);
    }
  }

  // ----- Adding files -----

  /** A file that reaches into the range of files without a gap leaves none. */
  lemma AddLinked(x: set<File>, b: File, f: File, g: File)
    requires NoGap(x) && FileOk(b) && f in x && g in x && Smallest(f).key <= Largest(b).key && Smallest(b).key <= Largest(g).key
    ensures NoGap(x + {b})
  {
    FileBounds(b);
    var y := x + {b};
    forall p, q | p in y && q in y ensures Covered(y, Smallest(p).key, Largest(q).key) {
      forall k: UserKey | Smallest(p).key <= k <= Largest(q).key ensures Reached(y, k) {
        if !InRange(b, k) {
          var p', q' := if p in x then p else f, if q in x then q else g;
          assert Covered(x, Smallest(p').key, Largest(q').key);
          ReachedMore(x, y, k);
        }
      }
    }
  }

  /** Files overlapping a part of the range. */
  lemma {:induction false} AddOverlapping(x: set<File>, o: seq<File>, f: File, g: File)
    requires NoGap(x) && f in x && g in x
    requires forall m :: m in o ==> FileOk(m) && Smallest(f).key <= Largest(m).key && Smallest(m).key <= Largest(g).key
    ensures NoGap(x + Members(o))
    decreases |o|
  {
    hide NoGap, FileOk;
    if o == [] {
      assert x + Members(o) == x;
    } else {
      var k := |o| - 1;
      AddOverlapping(x, o[..k], f, g);
      AddLinked(x + Members(o[..k]), o[k], f, g);
      assert x + Members(o) == x + Members(o[..k]) + {o[k]} by {
        assert o == o[..k] + [o[k]];
      }
    }
  }

  /** Boundary files. */
  lemma {:induction false} AddExtension(x: set<File>, fs: seq<File>, base: seq<File>, r: seq<File>, n: nat)
    requires NoGap(x) && AllOk(x) && FilesOk(fs) && base != [] && Members(base) <= x && AddsBoundary(fs, base, r)
    requires |base| <= n <= |r|
    ensures NoGap(x + Members(r[..n])) && AllOk(x + Members(r[..n]))
    decreases n
  {
    hide NoGap, FilesOk, FirstBoundary, FileOk;
    if n == |base| {
      assert r[..n] == base;
      assert x + Members(r[..n]) == x;
    } else {
      AddExtension(x, fs, base, r, n - 1);
      var init, b := r[..n - 1], r[n - 1];
      assert FirstBoundary(fs, init, b);
      assert forall f :: f in init ==> f in x + Members(init);
      var h := BoundaryHolder(fs, init, b);
      AddLinked(x + Members(init), b, h, h);
      assert r[..n] == init + [b];
      assert x + Members(r[..n]) == x + Members(init) + {b};
    }
  }

  /** The file whose last user key a boundary file continues. */
  lemma BoundaryHolder(fs: seq<File>, inputs: seq<File>, b: File) returns (h: File)
    requires FilesOk(fs) && FirstBoundary(fs, inputs, b) && forall f :: f in inputs ==> FileOk(f)
    ensures h in inputs && FileOk(b) && Smallest(h).key <= Largest(b).key && Smallest(b).key <= Largest(h).key
  {
    var k :| IsLargest(inputs, k) && b in fs && IsBoundary(b, k);
    h :| h in inputs && Largest(h) == k;
    FileBounds(h);
    FileBounds(b);
  }

  lemma AddWhole(x: set<File>, fs: seq<File>, base: seq<File>, r: seq<File>)
    requires NoGap(x) && AllOk(x) && FilesOk(fs) && Members(base) <= x && LeastExtension(fs, base, r)
    ensures NoGap(x + Members(r)) && AllOk(x + Members(r))
  {
    hide NoGap, AllOk;
    if base == [] {
      NothingExtended(fs, r);
      assert x + Members(r) == x;
    } else {
      AddExtension(x, fs, base, r, |r|);
      assert r[..|r|] == r;
    }
  }

  // ----- Level 0 -----

  function Least(a: UserKey, b: UserKey): UserKey { if a <= b then a else b }
  function Greatest(a: UserKey, b: UserKey): UserKey { if a >= b then a else b }

  /** From the range [lo, hi] to the file everything is covered. */
  ghost predicate Linked(y: set<File>, lo: UserKey, hi: UserKey, f: File) {
    Covered(y, Least(lo, Smallest(f).key), Greatest(hi, Largest(f).key))
  }

  lemma LinkedBy(y: set<File>, lo: UserKey, hi: UserKey, f: File, g: File)
    requires Linked(y, lo, hi, f) && lo <= hi && g in y && FileOk(f) && FileOk(g) && Touches(g, f)
    ensures Linked(y, lo, hi, g)
  {
    FileBounds(f);
    FileBounds(g);
    forall k: UserKey | Least(lo, Smallest(g).key) <= k <= Greatest(hi, Largest(g).key) ensures Reached(y, k) {
      if !InRange(g, k) {
        assert Least(lo, Smallest(f).key) <= k <= Greatest(hi, Largest(f).key);
      }
    }
  }

  lemma LinkedFirst(y: set<File>, lo: UserKey, hi: UserKey, g: File)
    requires Covered(y, lo, hi) && lo <= hi && g in y && FileOk(g) && Overlaps(g, Some(lo), Some(hi))
    ensures Linked(y, lo, hi, g)
  {
    FileBounds(g);
    forall k: UserKey | Least(lo, Smallest(g).key) <= k <= Greatest(hi, Largest(g).key) ensures Reached(y, k) {
      if !InRange(g, k) {
        assert lo <= k <= hi;
      }
    }
  }

  /** The least overlap-closed set around a covered range hangs together with it. */
  lemma ClosedLinked(y: set<File>, fs: seq<File>, lo: UserKey, hi: UserKey, o: seq<File>)
    requires Covered(y, lo, hi) && lo <= hi && FilesOk(fs) && From(fs, o) && Members(o) <= y
    requires LeastClosed(fs, Some(lo), Some(hi), o)
    ensures forall f :: f in o ==> Linked(y, lo, hi, f)
  {
    var all := Members(o);
    var x := set f | f in all && Linked(y, lo, hi, f);
    hide Linked;
    assert OverlapClosed(fs, Some(lo), Some(hi), all);
    assert OverlapClosed(fs, Some(lo), Some(hi), x) by {
      forall f | f in fs && Overlaps(f, Some(lo), Some(hi)) ensures f in x {
        FileOkOf(fs, f);
        LinkedFirst(y, lo, hi, f);
      }
      forall f, g | f in fs && g in fs && f in x && Touches(g, f) ensures g in x {
        FileOkOf(fs, f);
        FileOkOf(fs, g);
        assert g in all;
        LinkedBy(y, lo, hi, f, g);
      }
    }
    forall f | f in o ensures Linked(y, lo, hi, f) {
      assert f in x;
    }
  }

  lemma AddClosed(x: set<File>, fs: seq<File>, f: File, g: File, o: seq<File>)
    requires NoGap(x) && AllOk(x) && f in x && g in x && FilesOk(fs) && From(fs, o)
    requires forall p :: p in x ==> Smallest(f).key <= Smallest(p).key && Largest(p).key <= Largest(g).key
    requires LeastClosed(fs, Some(Smallest(f).key), Some(Largest(g).key), o)
    ensures NoGap(x + Members(o))
  {
    var y, lo, hi := x + Members(o), Smallest(f).key, Largest(g).key;
    FileBounds(g);
    assert Covered(x, lo, hi);
    CoveredMore(x, y, lo, hi);
    ClosedLinked(y, fs, lo, hi, o);
    hide LeastClosed, NoGap;
    forall p, q | p in y && q in y ensures Covered(y, Smallest(p).key, Largest(q).key) {
      forall k: UserKey | Smallest(p).key <= k <= Largest(q).key ensures Reached(y, k) {
        if k < lo {
          assert Linked(y, lo, hi, p);
        } else if k > hi {
          assert Linked(y, lo, hi, q);
        }
      }
    }
    assert NoGap(y) by { NoGapFrom(y); }
  }

  lemma NoGapFrom(y: set<File>)
    requires forall p, q :: p in y && q in y ==> Covered(y, Smallest(p).key, Largest(q).key)
    ensures NoGap(y)
  {}

  // ----- The inputs step by step -----

  lemma OneFile(f: File)
    requires FileOk(f)
    ensures NoGap({f}) && AllOk({f})
  {
    forall k: UserKey | Smallest(f).key <= k <= Largest(f).key ensures Reached({f}, k) {
      assert f in {f} && InRange(f, k);
    }
  }

  lemma ClosedFrom(fs: seq<File>, b: Option<UserKey>, e: Option<UserKey>, o: seq<File>)
    requires LeastClosed(fs, b, e, o)
    ensures From(fs, o)
  {
    assert OverlapClosed(fs, b, e, Members(fs));
  }

  lemma MembersOk(fs: seq<File>, o: seq<File>)
    requires FilesOk(fs) && From(fs, o)
    ensures AllOk(Members(o))
  {
    forall f | f in o ensures FileOk(f) {
      FileOkOf(fs, f);
    }
  }

  /** What an automatic compaction starts from. */
  lemma StartNoGap(level: nat, fs: seq<File>, i: nat, start: seq<File>)
    requires FilesOk(fs) && Background.StartsAt(level, fs, i, start)
    ensures NoGap(Members(start)) && AllOk(Members(start)) && start != [] && From(fs, start)
  {
    var f := fs[i];
    OneFile(f);
    if level == 0 {
      ClosedFrom(fs, Some(Smallest(f).key), Some(Largest(f).key), start);
      MembersOk(fs, start);
      AddClosed({f}, fs, f, f, start);
      FileBounds(f);
      assert f in Members(start);
      assert {f} + Members(start) == Members(start);
    } else {
      assert Members(start) == {f};
    }
  }

  lemma PrefixMembers(a: seq<File>, b: seq<File>)
    requires a <= b
    ensures Members(a) <= Members(b)
  {
    forall f | f in a ensures f in b {
      var i :| 0 <= i < |a| && a[i] == f;
      assert b[i] == f;
    }
  }

  /** With the files taken from the next level. */
  lemma BelowNoGap(x: set<File>, next: seq<File>, in0: seq<File>, in1: seq<File>)
    requires NoGap(x) && AllOk(x) && Members(in0) <= x && FilesOk(next) && TakenBelow(next, in0, in1)
    ensures NoGap(x + Members(in1)) && AllOk(x + Members(in1))
  {
    hide *;
    var lo, hi := BelowRange(next, in0, in1);
    var f, g := RangeEnds(in0, lo, hi);
    var o := Overlapping(next, Some(lo.key), Some(hi.key));
    AddOverlap(x, next, in0, f, g, o);
    AddWhole(x + Members(o), next, o, in1);
    LeastPrefix(next, o, in1);
    PrefixMembers(o, in1);
    assert x + Members(o) + Members(in1) == x + Members(in1);
  }

  lemma BelowRange(next: seq<File>, in0: seq<File>, in1: seq<File>) returns (lo: InternalKey, hi: InternalKey)
    requires TakenBelow(next, in0, in1)
    ensures RangeOf(in0, lo, hi) && LeastExtension(next, Overlapping(next, Some(lo.key), Some(hi.key)), in1)
  {
    hide RangeOf, LeastExtension, Overlapping;
    lo, hi :| RangeOf(in0, lo, hi) && LeastExtension(next, Overlapping(next, Some(lo.key), Some(hi.key)), in1);
  }

  lemma AddOverlap(x: set<File>, next: seq<File>, in0: seq<File>, f: File, g: File, o: seq<File>)
    requires NoGap(x) && AllOk(x) && Members(in0) <= x && f in in0 && g in in0 && FilesOk(next)
    requires o == Overlapping(next, Some(Smallest(f).key), Some(Largest(g).key))
    ensures NoGap(x + Members(o)) && AllOk(x + Members(o)) && Members(o) <= x + Members(o)
  {
    assert f in Members(in0) && g in Members(in0);
    OverlappingFrom(next, Some(Smallest(f).key), Some(Largest(g).key));
    MembersOk(next, o);
    hide NoGap, FilesOk, FileOk;
    assert forall m :: m in o ==> m in Members(o) && FileOk(m);
    AddOverlapping(x, o, f, g);
  }

  /** With all files of the level in the range. */
  lemma AlongNoGap(level0: bool, fs: seq<File>, in0: seq<File>, in1: seq<File>, more: seq<File>)
    requires NoGap(Members(in0) + Members(in1)) && AllOk(Members(in0) + Members(in1)) && FilesOk(fs) && From(fs, in0)
    requires TakenAlong(level0, fs, in0, in1, more)
    ensures NoGap(Members(more) + Members(in1)) && AllOk(Members(more) + Members(in1)) && Members(in0) <= Members(more)
  {
    hide *;
    var lo, hi, o := TakenRange(level0, fs, in0, in1, more);
    var f, g := RangeEnds(in0 + in1, lo, hi);
    BothMembers(in0, in1);
    OverlapsTaken(level0, fs, in0, in1, lo, hi, o);
    AddAll(level0, Members(in0) + Members(in1), fs, in0 + in1, lo, hi, f, g, o);
    AddWhole(Members(in0) + Members(in1) + Members(o), fs, o, more);
    LeastPrefix(fs, o, more);
    PrefixMembers(o, more);
    assert Members(in0) + Members(in1) + Members(o) + Members(more) == Members(more) + Members(in1);
  }

  lemma TakenRange(level0: bool, fs: seq<File>, in0: seq<File>, in1: seq<File>, more: seq<File>)
    returns (lo: InternalKey, hi: InternalKey, o: seq<File>)
    requires TakenAlong(level0, fs, in0, in1, more)
    ensures RangeOf(in0 + in1, lo, hi) && AllOverlapping(level0, fs, lo.key, hi.key, o) && LeastExtension(fs, o, more)
  {
    hide RangeOf, AllOverlapping, LeastExtension;
    lo, hi, o :| RangeOf(in0 + in1, lo, hi) && AllOverlapping(level0, fs, lo.key, hi.key, o) && LeastExtension(fs, o, more);
  }

  lemma RangeEnds(fs: seq<File>, lo: InternalKey, hi: InternalKey) returns (f: File, g: File)
    requires RangeOf(fs, lo, hi)
    ensures f in fs && g in fs && Smallest(f) == lo && Largest(g) == hi && Covers(fs, lo, hi)
  {
    hide Covers;
    f :| f in fs && Smallest(f) == lo;
    g :| g in fs && Largest(g) == hi;
  }

  lemma BothMembers(a: seq<File>, b: seq<File>)
    ensures forall f :: f in Members(a) + Members(b) <==> f in a + b
  {}

  lemma LeastPrefix(fs: seq<File>, o: seq<File>, more: seq<File>) requires LeastExtension(fs, o, more) ensures o <= more {}

  lemma AddAll(level0: bool, x: set<File>, fs: seq<File>, all: seq<File>, lo: InternalKey, hi: InternalKey, f: File, g: File, o: seq<File>)
    requires NoGap(x) && AllOk(x) && FilesOk(fs) && From(fs, o) && f in x && g in x && Smallest(f) == lo && Largest(g) == hi
    requires (forall p :: p in x ==> p in all) && Covers(all, lo, hi) && AllOverlapping(level0, fs, lo.key, hi.key, o)
    ensures NoGap(x + Members(o)) && AllOk(x + Members(o))
  {
    MembersOk(fs, o);
    hide NoGap, FilesOk, FileOk, Listed, LeastClosed;
    assert forall m :: m in o ==> m in Members(o) && FileOk(m);
    if level0 {
      AddClosed(x, fs, f, g, o);
    } else {
      AddOverlapping(x, o, f, g);
    }
  }

  lemma OverlapsTaken(level0: bool, fs: seq<File>, in0: seq<File>, in1: seq<File>, lo: InternalKey, hi: InternalKey, o: seq<File>)
    requires FilesOk(fs) && From(fs, in0) && Covers(in0 + in1, lo, hi) && AllOverlapping(level0, fs, lo.key, hi.key, o)
    ensures From(fs, o) && Members(in0) <= Members(o)
  {
    if level0 {
      ClosedFrom(fs, Some(lo.key), Some(hi.key), o);
    }
    forall f | f in in0 ensures f in o {
      assert f in in0 + in1;
      FileOkOf(fs, f);
      FileBounds(f);
      assert Overlaps(f, Some(lo.key), Some(hi.key));
      if level0 {
        assert f in Members(o);
      }
    }
  }

  // ----- Growing takes no file of the next level away -----

  lemma RangeGrows(a: seq<File>, b: seq<File>, lo: InternalKey, hi: InternalKey, lo': InternalKey, hi': InternalKey)
    requires RangeOf(a, lo, hi) && RangeOf(b, lo', hi') && Members(a) <= Members(b)
    ensures lo'.key <= lo.key && hi.key <= hi'.key
  {
    var f :| f in a && Smallest(f) == lo;
    var g :| g in a && Largest(g) == hi;
    assert f in Members(a) && g in Members(a);
  }

  /** A boundary file of some of the files is among them if they are closed and without a gap. */
  lemma BoundaryTaken(next: seq<File>, u: seq<File>, part: seq<File>, b: File)
    requires FilesOk(next) && Disjoint(next) && From(next, u) && Convex(next, u) && BoundaryClosed(next, u)
    requires part != [] && Members(part) <= Members(u) && FirstBoundary(next, part, b)
    ensures b in u
  {
    var k :| IsLargest(part, k) && b in next && IsBoundary(b, k)
      && forall f :: f in next && IsBoundary(f, k) ==> AtOrBefore(Smallest(b), Smallest(f));
    var h :| h in part && Largest(h) == k;
    assert h in Members(part) && h in u;
    var t :| 0 <= t < |next| && next[t] == h;
    var q :| 0 <= q < |next| && next[q] == b;
    BoundaryFollows(next, k, t, b, q);
    var top :| IsLargest(u, top) && NoBoundary(next, top);
    var g :| g in u && Largest(g) == top;
    var m :| 0 <= m < |next| && next[m] == g;
    assert !IsBoundary(b, top);
    assert top != k;
    TopBeyond(next, t, m, k, top);
    hide IsLargest, BoundaryClosed, Disjoint, FilesOk, IsBoundary;
    assert m == t + 1 || (t < t + 1 < m && next[t] in u && next[m] in u);
  }

  lemma TopBeyond(next: seq<File>, t: nat, m: nat, k: InternalKey, top: InternalKey)
    requires FilesOk(next) && Disjoint(next) && t < |next| && m < |next| && Largest(next[t]) == k && Largest(next[m]) == top
    requires AtOrBefore(k, top) && top != k
    ensures m > t
  {
    forall i, j | 0 <= i < j < |next| ensures Before(Largest(next[i]), Largest(next[j])) {
      FileBounds(next[j]);
    }
  }

  lemma {:induction false} ExtensionTaken(next: seq<File>, u: seq<File>, base: seq<File>, r: seq<File>, n: nat)
    requires FilesOk(next) && Disjoint(next) && From(next, u) && Convex(next, u) && BoundaryClosed(next, u)
    requires base != [] && Members(base) <= Members(u) && AddsBoundary(next, base, r) && |base| <= n <= |r|
    ensures Members(r[..n]) <= Members(u)
    decreases n
  {
    hide FilesOk, Disjoint, Convex, BoundaryClosed, FirstBoundary;
    if n == |base| {
      assert r[..n] == base;
    } else {
      ExtensionTaken(next, u, base, r, n - 1);
      assert FirstBoundary(next, r[..n - 1], r[n - 1]);
      BoundaryTaken(next, u, r[..n - 1], r[n - 1]);
      assert r[..n] == r[..n - 1] + [r[n - 1]];
    }
  }

  lemma BelowGrows(next: seq<File>, s: seq<File>, t: seq<File>, e: seq<File>, u: seq<File>)
    requires FilesOk(next) && Disjoint(next) && From(next, u) && Convex(next, u) && BoundaryClosed(next, u)
    requires Members(s) <= Members(e) && TakenBelow(next, s, t) && TakenBelow(next, e, u)
    ensures Members(t) <= Members(u)
  {
    var lo, hi :| RangeOf(s, lo, hi) && LeastExtension(next, Overlapping(next, Some(lo.key), Some(hi.key)), t);
    var lo', hi' :| RangeOf(e, lo', hi') && LeastExtension(next, Overlapping(next, Some(lo'.key), Some(hi'.key)), u);
    RangeGrows(s, e, lo, hi, lo', hi');
    var o, o' := Overlapping(next, Some(lo.key), Some(hi.key)), Overlapping(next, Some(lo'.key), Some(hi'.key));
    PrefixMembers(o', u);
    assert Members(o) <= Members(u) by {
      forall f | f in o ensures f in u {
        assert f in o';
        assert f in Members(o');
      }
    }
    hide Overlapping, RangeOf, FilesOk, Disjoint, Convex, From;
    if o == [] {
      NothingExtended(next, t);
    } else {
      ExtensionTaken(next, u, o, t, |t|);
      assert t[..|t|] == t;
    }
  }

  // ----- Automatic compactions -----

  /** The inputs of an automatic compaction leave no gap. */
  lemma AutomaticNoGap(v: Version, level: nat, pointer: Option<InternalKey>, start: seq<File>, byteLimit: nat, in0: seq<File>, in1: seq<File>)
    requires CompactionOk(v, level, in0, in1)
    requires level + 1 < |v| && Background.StartedFrom(v, level, Background.Automatic(pointer), start, byteLimit, in0, in1)
    ensures NoGap(Members(in0) + Members(in1))
  {
    var fs, next := v[level], v[level + 1];
    ValidLevel(v, level);
    ValidLevel(v, level + 1);
    var i: nat :| Picked(fs, pointer, i) && Background.StartsAt(level, fs, i, start);
    assert From(next, in1) && Convex(next, in1) && BoundaryClosed(next, in1);
    hide Valid, FilesOk, Disjoint, Convex, BoundaryClosed, NoGap, AllOk, Grown, GoodInputs;
    StartNoGap(level, fs, i, start);
    var s, t :| LeastExtension(fs, start, s) && TakenBelow(next, s, t) &&
      if t == [] then in0 == s && in1 == [] else Grown(level == 0, fs, next, s, t, byteLimit, in0, in1);
    hide LeastExtension, TakenBelow;
    StartedNoGap(fs, start, s);
    BelowNoGap(Members(s), next, s, t);
    if t != [] {
      GrownNoGap(level == 0, fs, next, s, t, byteLimit, in0, in1);
    }
  }

  lemma StartedNoGap(fs: seq<File>, start: seq<File>, s: seq<File>)
    requires NoGap(Members(start)) && AllOk(Members(start)) && FilesOk(fs) && From(fs, start) && LeastExtension(fs, start, s)
    ensures NoGap(Members(s)) && AllOk(Members(s)) && From(fs, s)
  {
    hide NoGap, FilesOk, FileOk, BoundaryClosed;
    AddWhole(Members(start), fs, start, s);
    PrefixMembers(start, s);
    assert Members(start) + Members(s) == Members(s);
    ExtensionFrom(fs, start, s);
  }

  lemma ExtensionFrom(fs: seq<File>, start: seq<File>, s: seq<File>)
    requires From(fs, start) && AddsBoundary(fs, start, s)
    ensures From(fs, s)
  {
    forall f | f in s ensures f in fs {
      var i :| 0 <= i < |s| && s[i] == f;
      if i < |start| {
        assert f == start[i];
      } else {
        assert FirstBoundary(fs, s[..i], s[i]);
      }
    }
  }

  lemma GrownNoGap(level0: bool, fs: seq<File>, next: seq<File>, s: seq<File>, t: seq<File>, byteLimit: nat, in0: seq<File>, in1: seq<File>)
    requires FilesOk(fs) && FilesOk(next) && Disjoint(next) && From(next, in1) && Convex(next, in1) && BoundaryClosed(next, in1)
    requires NoGap(Members(s) + Members(t)) && AllOk(Members(s) + Members(t)) && From(fs, s) && TakenBelow(next, s, t)
    requires Grown(level0, fs, next, s, t, byteLimit, in0, in1)
    ensures NoGap(Members(in0) + Members(in1))
  {
    hide FilesOk, Disjoint, From, Convex, BoundaryClosed, NoGap, AllOk, TakenBelow, TakenAlong, TotalFileSize;
    if in0 != s || in1 != t {
      assert TakenAlong(level0, fs, s, t, in0) && TakenBelow(next, in0, in1);
      AlongNoGap(level0, fs, s, t, in0);
      BelowGrows(next, s, t, in0, in1);
      BelowNoGap(Members(in0) + Members(t), next, in0, in1);
      assert Members(in0) + Members(t) + Members(in1) == Members(in0) + Members(in1);
    }
  }

  // ----- Nothing is flushed between them -----

  lemma AsideApart(g: File, in0: seq<File>, in1: seq<File>, o: File)
    requires Aside(g, in0, in1) && o.entries[0] in InputEntries(in0, in1) && o.entries[|o.entries| - 1] in InputEntries(in0, in1)
    ensures Apart(g, o)
  {
    hide InputEntries, Before;
  }

  lemma HolderOf(v: Version, level: nat, in0: seq<File>, in1: seq<File>, e: Entry) returns (f: File)
    requires InputsIn(v, level, in0, in1) && e in InputEntries(in0, in1)
    ensures f in Members(in0) + Members(in1) && FileOk(f) && Smallest(f).key <= e.key <= Largest(f).key
  {
    ValidLevel(v, level);
    ValidLevel(v, level + 1);
    hide Valid;
    if e in LevelEntries(in0) {
      f :| f in in0 && e in f.entries;
      FileOkOf(v[level], f);
    } else {
      f :| f in in1 && e in f.entries;
      FileOkOf(v[level + 1], f);
    }
    EntryBounds(f, e);
  }

  /** A file that shares no user key with inputs without a gap is not in the range of an output. */
  lemma UntouchedApart(v: Version, level: nat, in0: seq<File>, in1: seq<File>, g: File, o: File)
    requires InputsIn(v, level, in0, in1) && NoGap(Members(in0) + Members(in1)) && FileOk(g) && Sorted(o.entries)
    requires NoOverlap(in0, g) && NoOverlap(in1, g)
    requires o.entries[0] in InputEntries(in0, in1) && o.entries[|o.entries| - 1] in InputEntries(in0, in1)
    ensures Apart(g, o)
  {
    hide *;
    var p := HolderOf(v, level, in0, in1, o.entries[0]);
    var q := HolderOf(v, level, in0, in1, o.entries[|o.entries| - 1]);
    NoGapBetween(Members(in0) + Members(in1), p, q);
    OrderedKeys(o);
    Untouched(in0, in1, g);
    EndKeys(o);
    NotBetween(Members(in0) + Members(in1), g, o, p, q);
  }

  lemma NoGapBetween(x: set<File>, p: File, q: File)
    requires NoGap(x) && p in x && q in x
    ensures Covered(x, Smallest(p).key, Largest(q).key)
  {}

  lemma Untouched(in0: seq<File>, in1: seq<File>, g: File)
    requires NoOverlap(in0, g) && NoOverlap(in1, g)
    ensures forall h :: h in Members(in0) + Members(in1) ==> !Touches(h, g)
  {
    hide Touches;
  }

  lemma EndKeys(o: File)
    ensures Smallest(o).key == o.entries[0].key && Largest(o).key == o.entries[|o.entries| - 1].key
  {}

  lemma NotBetween(x: set<File>, g: File, o: File, p: File, q: File)
    requires Covered(x, Smallest(p).key, Largest(q).key) && FileOk(g) && Smallest(o).key <= Largest(o).key
    requires Smallest(p).key <= Smallest(o).key && Largest(o).key <= Largest(q).key && forall h :: h in x ==> !Touches(h, g)
    ensures Apart(g, o)
  {
    FileBounds(g);
    hide FileOk;
    var k := Greatest(Smallest(g).key, Smallest(o).key);
    forall h | h in x ensures !(InRange(h, k) && k <= Largest(g).key) {
      assert !Touches(h, g);
    }
    assert k <= Largest(o).key && k <= Largest(g).key ==> Reached(x, k);
  }

  lemma OrderedKeys(o: File)
    requires Sorted(o.entries)
    ensures Smallest(o).key <= Largest(o).key
  {
    if |o.entries| > 1 {
      assert Before(IKey(o.entries[0]), IKey(o.entries[|o.entries| - 1]));
    }
  }

  lemma NoGapApart(db: DB, r: Running, outs: seq<File>)
    requires RunOk(db, r) && OutputsOk(db.version, r.level, r.in0, r.in1, outs) && NoGap(Members(r.in0) + Members(r.in1))
    ensures OutputsApart(db.version, r.level, r.in0, r.in1, outs)
  {
    hide *;
    RunParts(db, r);
    RunBeside(db, r);
    forall g, o | Stays(db.version, r.level + 1, g, r.level, r.in0, r.in1) && o in outs ensures Apart(g, o) {
      OneApart(db.version, r, outs, g, o);
    }
    ApartFrom(db.version, r, outs);
  }

  lemma RunBeside(db: DB, r: Running)
    requires RunOk(db, r)
    ensures Beside(db.version, r)
  {
    hide InputsIn, LeavesNewer, NumbersOk, DropsSafe, Beside, Sorted, EntrySet, InputEntries;
  }

  lemma ApartFrom(v: Version, r: Running, outs: seq<File>)
    requires forall g, o :: Stays(v, r.level + 1, g, r.level, r.in0, r.in1) && o in outs ==> Apart(g, o)
    ensures OutputsApart(v, r.level, r.in0, r.in1, outs)
  {
    hide Stays, Apart;
  }

  lemma BesideOf(v: Version, r: Running, g: File)
    requires Beside(v, r) && Stays(v, r.level + 1, g, r.level, r.in0, r.in1)
    ensures Aside(g, r.in0, r.in1) || (NoOverlap(r.in0, g) && NoOverlap(r.in1, g))
  {
    hide Stays, Aside, NoOverlap;
  }

  lemma OutputIsSorted(v: Version, level: nat, in0: seq<File>, in1: seq<File>, outs: seq<File>)
    requires OutputsOk(v, level, in0, in1, outs)
    ensures Sorted(Flatten(outs))
  {
    hide Sorted, Flatten, InputEntries, Stays;
  }

  lemma OneApart(v: Version, r: Running, outs: seq<File>, g: File, o: File)
    requires InputsIn(v, r.level, r.in0, r.in1) && Beside(v, r) && NoGap(Members(r.in0) + Members(r.in1))
    requires OutputsOk(v, r.level, r.in0, r.in1, outs) && Stays(v, r.level + 1, g, r.level, r.in0, r.in1) && o in outs
    ensures Apart(g, o)
  {
    hide *;
    OutputIsInput(v, r.level, r.in0, r.in1, outs, o, o.entries[0]);
    OutputIsInput(v, r.level, r.in0, r.in1, outs, o, o.entries[|o.entries| - 1]);
    StaysOk(v, r.level + 1, g, r.level, r.in0, r.in1);
    OutputIsSorted(v, r.level, r.in0, r.in1, outs);
    OutputSorted(outs, o);
    BesideOf(v, r, g);
    if Aside(g, r.in0, r.in1) {
      AsideApart(g, r.in0, r.in1, o);
    } else {
      UntouchedApart(v, r.level, r.in0, r.in1, g, o);
    }
  }

  lemma StaysOk(v: Version, l: nat, g: File, level: nat, in0: seq<File>, in1: seq<File>)
    requires InputsIn(v, level, in0, in1) && Stays(v, l, g, level, in0, in1)
    ensures FileOk(g)
  {
    InputLevels(v, level, in0, in1);
    ValidLevel(v, l);
    FileOkOf(v[l], g);
  }

  lemma OutputSorted(outs: seq<File>, o: File)
    requires Sorted(Flatten(outs)) && o in outs
    ensures Sorted(o.entries)
  {
    FlattenSorted(outs);
  }

  // ----- Over every run -----

  /** The compaction that begins was chosen automatically. */
  ghost predicate ChosenAlone(s: State, t: Turn) {
    t.Begin? ==> Picks(s.db.version, t.level, t.in0, t.in1)
  }

  ghost predicate Picks(v: Version, level: nat, in0: seq<File>, in1: seq<File>) {
    level + 1 < |v| && exists pointer, start, byteLimit ::
      Background.StartedFrom(v, level, Background.Automatic(pointer), start, byteLimit, in0, in1)
  }

  ghost predicate IsTurns(states: seq<State>, turns: seq<Turn>) {
    && |states| == |turns| + 1 && Start(states[0].db) && states[0].run.None?
    && forall i :: 0 <= i < |turns| ==> Turns(states[i], turns[i], states[i + 1])
  }

  ghost predicate SoundAlone(s: State) {
    Sound(s) && (s.run.Some? ==> NoGap(Members(s.run.value.in0) + Members(s.run.value.in1)))
  }

  lemma TurnAlone(s: State, t: Turn, s': State)
    requires SoundAlone(s) && Turns(s, t, s') && ChosenAlone(s, t)
    ensures SoundAlone(s')
  {
    hide Inv, RunOk, NoGap, OutputsApart, Background.StartedFrom, CompactionOk, Kept, Flatten, Replaced, NumberedBy, Sorted, EntrySet,
      InputEntries;
    if t.Install? {
      InstallOutputsOk(s.db, s.run.value, t.outs);
      NoGapApart(s.db, s.run.value, t.outs);
    }
    TurnKeepsIff(s, t, s');
    if t.Begin? {
      var pointer, start, byteLimit :|
        Background.StartedFrom(s.db.version, t.level, Background.Automatic(pointer), start, byteLimit, t.in0, t.in1);
      AutomaticNoGap(s.db.version, t.level, pointer, start, byteLimit, t.in0, t.in1);
    }
  }

  /** While compactions are chosen automatically, writes, flushes and snapshots between their beginning and their end
      never do harm: the invariant holds in every state of every run. */
  lemma {:induction false} RunAlone(states: seq<State>, turns: seq<Turn>, n: nat)
    requires IsTurns(states, turns) && n < |states| && forall i :: 0 <= i < |turns| ==> ChosenAlone(states[i], turns[i])
    ensures SoundAlone(states[n])
  {
    hide Turns, ChosenAlone;
    if n == 0 {
      StartInv(states[0].db);
    } else {
      RunAlone(states, turns, n - 1);
      TurnAlone(states[n - 1], turns[n - 1], states[n]);
    }
  }
}
