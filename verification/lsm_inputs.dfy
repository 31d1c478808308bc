/** Choosing the input files of a compaction. */
module Inputs {
  import opened Wrappers
  import opened Entries
  import opened Files

  // ----- Files overlapping a range of user keys -----

  function Overlapping(fs: seq<File>, begin: Option<UserKey>, end: Option<UserKey>): (r: seq<File>)
    ensures forall f :: f in r <==> f in fs && Overlaps(f, begin, end)
  {
    if fs == [] then []
    else
      var rest := Overlapping(fs[..|fs| - 1], begin, end);
      var f := fs[|fs| - 1];
      assert fs == fs[..|fs| - 1] + [f];
      if Overlaps(f, begin, end) then rest + [f] else rest
  }

  /** Every file lies inside the range. */
  ghost predicate Within(fs: seq<File>, begin: Option<UserKey>, end: Option<UserKey>) {
    forall f :: f in fs ==>
      (begin.Some? ==> begin.value <= Smallest(f).key) && (end.Some? ==> Largest(f).key <= end.value)
  }

  ghost predicate Wider(begin: Option<UserKey>, end: Option<UserKey>, b: Option<UserKey>, e: Option<UserKey>) {
    && (b.Some? <==> begin.Some?) && (e.Some? <==> end.Some?)
    && (begin.Some? ==> b.value <= begin.value) && (end.Some? ==> e.value >= end.value)
  }

  /** g shares a user key range with f. */
  predicate Touches(g: File, f: File) { Overlaps(g, Some(Smallest(f).key), Some(Largest(f).key)) }

  /** A set of files that contains those overlapping the range, and with a file all files touching it. */
  ghost predicate OverlapClosed(fs: seq<File>, begin: Option<UserKey>, end: Option<UserKey>, x: set<File>) {
    && (forall f :: f in fs && Overlaps(f, begin, end) ==> f in x)
    && forall f, g :: f in fs && g in fs && f in x && Touches(g, f) ==> g in x
  }

  /** Every overlap-closed set around the range asked for contains all files overlapping [b, e]. */
  ghost predicate Forced(fs: seq<File>, begin: Option<UserKey>, end: Option<UserKey>, b: Option<UserKey>, e: Option<UserKey>) {
    forall x: set<File> :: OverlapClosed(fs, begin, end, x) ==> forall f :: f in fs && Overlaps(f, b, e) ==> f in x
  }

  /** The inputs are overlap-closed, and every overlap-closed set contains them. */
  ghost predicate LeastClosed(fs: seq<File>, begin: Option<UserKey>, end: Option<UserKey>, inputs: seq<File>) {
    && OverlapClosed(fs, begin, end, set f | f in inputs)
    && forall x: set<File>, f :: OverlapClosed(fs, begin, end, x) && f in inputs ==> f in x
  }

  lemma ForcedIsLeast(fs: seq<File>, begin: Option<UserKey>, end: Option<UserKey>, b: Option<UserKey>, e: Option<UserKey>)
    requires FilesOk(fs) && Wider(begin, end, b, e) && Within(Overlapping(fs, b, e), b, e) && Forced(fs, begin, end, b, e)
    ensures LeastClosed(fs, begin, end, Overlapping(fs, b, e))
  {
    var inputs := Overlapping(fs, b, e);
    var x := set f | f in inputs;
    forall f, g | f in fs && g in fs && f in x && Touches(g, f) ensures g in x {
      FileBounds(f);
      FileBounds(g);
    }
    forall f | f in fs && Overlaps(f, begin, end) ensures f in x {}
    forall y: set<File>, f | OverlapClosed(fs, begin, end, y) && f in inputs ensures f in y {
      assert f in fs && Overlaps(f, b, e);
    }
  }

  /** Files starting below, or ending above, the range: what bounds the restarts. */
  function Outside(fs: seq<File>, begin: Option<UserKey>, end: Option<UserKey>): nat {
    if fs == [] then 0
    else
      (if begin.Some? && Smallest(fs[0]).key < begin.value then 1 else 0) +
      (if end.Some? && Largest(fs[0]).key > end.value then 1 else 0) +
      Outside(fs[1..], begin, end)
  }

  lemma {:induction false} OutsideMonotone(fs: seq<File>, b: Option<UserKey>, e: Option<UserKey>, b': Option<UserKey>, e': Option<UserKey>)
    requires Wider(b, e, b', e')
    ensures Outside(fs, b', e') <= Outside(fs, b, e)
    ensures forall f :: f in fs && b.Some? && b'.value <= Smallest(f).key < b.value ==> Outside(fs, b', e') < Outside(fs, b, e)
    ensures forall f :: f in fs && e.Some? && e.value < Largest(f).key <= e'.value ==> Outside(fs, b', e') < Outside(fs, b, e)
  {
    if fs != [] {
      OutsideMonotone(fs[1..], b, e, b', e');
    }
  }

  lemma OverlappingAppend(fs: seq<File>, i: nat, b: Option<UserKey>, e: Option<UserKey>)
    requires i < |fs|
    ensures Overlapping(fs[..i + 1], b, e) == Overlapping(fs[..i], b, e) + if Overlaps(fs[i], b, e) then [fs[i]] else []
  {
    assert fs[..i + 1][..i] == fs[..i];
  }

  /** GetOverlappingInputs.  On level 0 the range grows to cover every file taken, and the scan starts
      over each time it does; (b, e) is the final range.  The files returned are then the least
      overlap-closed set of files around the range asked for. */
  method GetOverlappingInputs(level0: bool, fs: seq<File>, begin: Option<UserKey>, end: Option<UserKey>)
    returns (inputs: seq<File>, ghost b: Option<UserKey>, ghost e: Option<UserKey>)
    requires FilesOk(fs)
    ensures Wider(begin, end, b, e) && (!level0 ==> b == begin && e == end)
    ensures inputs == Overlapping(fs, b, e)
    ensures level0 ==> Within(inputs, b, e)
    ensures Forced(fs, begin, end, b, e)
    ensures level0 ==> LeastClosed(fs, begin, end, inputs)
  {
    hide Outside, Overlapping, LeastClosed;
    var userBegin, userEnd := begin, end;
    var i := 0;
    assert Forced(fs, begin, end, begin, end);
    hide Forced;
    OverlappingNothing(begin, end);
    assert fs[..0] == [];
    inputs := [];
    while i < |fs|
      invariant 0 <= i <= |fs|
      invariant Wider(begin, end, userBegin, userEnd) && (!level0 ==> userBegin == begin && userEnd == end)
      invariant inputs == Overlapping(fs[..i], userBegin, userEnd)
      invariant level0 ==> Within(inputs, userBegin, userEnd)
      invariant Forced(fs, begin, end, userBegin, userEnd)
      decreases Outside(fs, userBegin, userEnd), |fs| - i
    {
      var f := fs[i];
      OverlappingAppend(fs, i, userBegin, userEnd);
      i := i + 1;
      if begin.Some? && Largest(f).key < userBegin.value {
        // entirely before the range
      } else if end.Some? && Smallest(f).key > userEnd.value {
        // entirely after the range
      } else {
        inputs := inputs + [f];
        if level0 {
          if begin.Some? && Smallest(f).key < userBegin.value {
            GrowKeepsForced(fs, begin, end, userBegin, userEnd, Some(Smallest(f).key), userEnd, f);
            OverlappingNothing(Some(Smallest(f).key), userEnd);
            OutsideMonotone(fs, userBegin, userEnd, Some(Smallest(f).key), userEnd);
            userBegin := Some(Smallest(f).key);
            inputs := [];
            i := 0;
          } else if end.Some? && Largest(f).key > userEnd.value {
            GrowKeepsForced(fs, begin, end, userBegin, userEnd, userBegin, Some(Largest(f).key), f);
            OverlappingNothing(userBegin, Some(Largest(f).key));
            OutsideMonotone(fs, userBegin, userEnd, userBegin, Some(Largest(f).key));
            userEnd := Some(Largest(f).key);
            inputs := [];
            i := 0;
          }
        }
      }
    }
    assert fs[..i] == fs;
    b, e := userBegin, userEnd;
    if level0 {
      ForcedIsLeast(fs, begin, end, b, e);
    }
  }

  lemma OverlappingNothing(b: Option<UserKey>, e: Option<UserKey>) ensures Overlapping([], b, e) == [] {}

  /** Growing the range by one file taken stays inside every overlap-closed set. */
  lemma GrowKeepsForced(fs: seq<File>, begin: Option<UserKey>, end: Option<UserKey>,
                        b: Option<UserKey>, e: Option<UserKey>, b': Option<UserKey>, e': Option<UserKey>, f: File)
    requires FilesOk(fs) && f in fs && Overlaps(f, b, e) && Forced(fs, begin, end, b, e)
    requires (b.Some? && Smallest(f).key < b.value && b' == Some(Smallest(f).key) && e' == e) ||
             (e.Some? && Largest(f).key > e.value && e' == Some(Largest(f).key) && b' == b)
    ensures Forced(fs, begin, end, b', e')
  {
    forall x: set<File>, g | OverlapClosed(fs, begin, end, x) && g in fs && Overlaps(g, b', e') ensures g in x {
      FileBounds(f);
      FileBounds(g);
      if !Overlaps(g, b, e) {
        assert Touches(g, f);
      }
    }
  }

  // ----- Boundary files -----

  predicate IsBoundary(f: File, largest: InternalKey) {
    Before(largest, Smallest(f)) && Smallest(f).key == largest.key
  }

  /** No file of fs begins with older entries of the user key that `largest` ends with. */
  ghost predicate NoBoundary(fs: seq<File>, largest: InternalKey) {
    forall f :: f in fs ==> !IsBoundary(f, largest)
  }

  ghost predicate IsLargest(fs: seq<File>, k: InternalKey) {
    (exists f :: f in fs && Largest(f) == k) && forall f :: f in fs ==> AtOrBefore(Largest(f), k)
  }

  ghost predicate BoundaryClosed(fs: seq<File>, inputs: seq<File>) {
    inputs == [] || exists k :: IsLargest(inputs, k) && NoBoundary(fs, k)
  }

  /** No gaps: a file of the level between two inputs is an input. */
  ghost predicate Convex(fs: seq<File>, inputs: seq<File>) {
    forall i, j, m :: 0 <= i < j < m < |fs| && fs[i] in inputs && fs[m] in inputs ==> fs[j] in inputs
  }

  ghost predicate From(fs: seq<File>, inputs: seq<File>) { forall f :: f in inputs ==> f in fs }

  method FindLargestKey(fs: seq<File>) returns (found: bool, k: InternalKey)
    ensures found <==> fs != []
    ensures found ==> IsLargest(fs, k)
  {
    if fs == [] {
      return false, InternalKey(0.0, 0, Put);
    }
    found, k := true, Largest(fs[0]);
    var i := 1;
    while i < |fs|
      invariant 1 <= i <= |fs|
      invariant IsLargest(fs[..i], k)
    {
      assert fs[..i + 1] == fs[..i] + [fs[i]];
      if Before(k, Largest(fs[i])) {
        k := Largest(fs[i]);
      }
      i := i + 1;
    }
    assert fs[..i] == fs;
  }

  method FindSmallestBoundaryFile(fs: seq<File>, largest: InternalKey) returns (r: Option<File>)
    ensures r.None? <==> NoBoundary(fs, largest)
    ensures r.Some? ==> r.value in fs && IsBoundary(r.value, largest)
    ensures r.Some? ==> forall f :: f in fs && IsBoundary(f, largest) ==> AtOrBefore(Smallest(r.value), Smallest(f))
  {
    r := None;
    var i := 0;
    while i < |fs|
      invariant 0 <= i <= |fs|
      invariant r.None? <==> NoBoundary(fs[..i], largest)
      invariant r.Some? ==> r.value in fs[..i] && IsBoundary(r.value, largest)
      invariant r.Some? ==> forall f :: f in fs[..i] && IsBoundary(f, largest) ==> AtOrBefore(Smallest(r.value), Smallest(f))
    {
      assert fs[..i + 1] == fs[..i] + [fs[i]];
      if IsBoundary(fs[i], largest) {
        if r.None? || Before(Smallest(fs[i]), Smallest(r.value)) {
          r := Some(fs[i]);
        }
      }
      i := i + 1;
    }
    assert fs[..i] == fs;
  }

  /** Files still ahead of `largest`: what bounds the search for boundary files. */
  function Ahead(fs: seq<File>, largest: InternalKey): nat {
    if fs == [] then 0 else (if Before(largest, Smallest(fs[0])) then 1 else 0) + Ahead(fs[1..], largest)
  }

  lemma {:induction false} AheadDecreases(fs: seq<File>, k: InternalKey, k': InternalKey)
    requires Before(k, k')
    ensures Ahead(fs, k') <= Ahead(fs, k)
    ensures forall f :: f in fs && Before(k, Smallest(f)) && !Before(k', Smallest(f)) ==> Ahead(fs, k') < Ahead(fs, k)
  {
    if fs != [] {
      AheadDecreases(fs[1..], k, k');
    }
  }

  /** On a sorted level the smallest boundary file comes right after the inputs, so no gap opens. */
  lemma BoundaryKeepsConvex(fs: seq<File>, inputs: seq<File>, largest: InternalKey, b: File)
    requires FilesOk(fs) && Disjoint(fs) && From(fs, inputs) && Convex(fs, inputs) && IsLargest(inputs, largest)
    requires b in fs && IsBoundary(b, largest)
    requires forall f :: f in fs && IsBoundary(f, largest) ==> AtOrBefore(Smallest(b), Smallest(f))
    ensures Convex(fs, inputs + [b])
  {
    var h :| h in inputs && Largest(h) == largest;
    var t :| 0 <= t < |fs| && fs[t] == h;
    forall i, j, m | 0 <= i < j < m < |fs| && fs[i] in inputs + [b] && fs[m] in inputs + [b]
      ensures fs[j] in inputs + [b]
    {
      if fs[i] in inputs {
        InputsEndAt(fs, inputs, largest, t, i);
      }
      if fs[m] in inputs {
        InputsEndAt(fs, inputs, largest, t, m);
      }
      BoundaryFollows(fs, largest, t, b, j);
      BoundaryFollows(fs, largest, t, b, i);
      BoundaryFollows(fs, largest, t, b, m);
      hide Disjoint, IsLargest, IsBoundary, FileOk;
      assert fs[m] == b ==> j <= t;
      assert j == t ==> fs[j] in inputs;
    }
  }

  /** The file holding the largest key is the last input. */
  lemma InputsEndAt(fs: seq<File>, inputs: seq<File>, largest: InternalKey, t: nat, i: nat)
    requires FilesOk(fs) && Disjoint(fs) && IsLargest(inputs, largest) && t < |fs| && i < |fs|
    requires Largest(fs[t]) == largest && fs[i] in inputs
    ensures i <= t
  {
    FileBounds(fs[i]);
  }

  /** The smallest boundary file directly follows it. */
  lemma BoundaryFollows(fs: seq<File>, largest: InternalKey, t: nat, b: File, j: nat)
    requires FilesOk(fs) && Disjoint(fs) && t < |fs| && j < |fs| && Largest(fs[t]) == largest
    requires b in fs && IsBoundary(b, largest)
    requires forall f :: f in fs && IsBoundary(f, largest) ==> AtOrBefore(Smallest(b), Smallest(f))
    ensures fs[j] == b <==> j == t + 1
  {
    var q :| 0 <= q < |fs| && fs[q] == b;
    FileBounds(fs[j]);
    FileBounds(b);
    FileBounds(fs[t]);
    if q > t + 1 {
      FileBounds(fs[t + 1]);
      assert IsBoundary(fs[t + 1], largest);
    }
  }

  lemma BoundaryIsLargest(inputs: seq<File>, largest: InternalKey, b: File)
    requires FileOk(b) && IsLargest(inputs, largest) && IsBoundary(b, largest)
    ensures IsLargest(inputs + [b], Largest(b)) && Before(largest, Largest(b))
  {
    FileBounds(b);
    assert b in inputs + [b];
  }

  lemma LargestUnique(fs: seq<File>, k: InternalKey, k': InternalKey)
    requires IsLargest(fs, k) && IsLargest(fs, k')
    ensures k == k'
  {}

  lemma AheadOfBoundary(fs: seq<File>, largest: InternalKey, b: File)
    requires b in fs && FileOk(b) && IsBoundary(b, largest)
    ensures Ahead(fs, Largest(b)) < Ahead(fs, largest)
  {
    FileBounds(b);
    AheadDecreases(fs, largest, Largest(b));
  }

  /** b is the first file of the level that continues the user key the files end with. */
  ghost predicate FirstBoundary(fs: seq<File>, inputs: seq<File>, b: File) {
    exists k :: IsLargest(inputs, k) && b in fs && IsBoundary(b, k)
      && forall f :: f in fs && IsBoundary(f, k) ==> AtOrBefore(Smallest(b), Smallest(f))
  }

  ghost predicate AddsBoundary(fs: seq<File>, inputs: seq<File>, r: seq<File>) {
    inputs <= r && forall i :: |inputs| <= i < |r| ==> FirstBoundary(fs, r[..i], r[i])
  }

  /** r is the shortest boundary-closed extension: the inputs, and behind them one boundary file after the other
      until there is none. */
  ghost predicate LeastExtension(fs: seq<File>, inputs: seq<File>, r: seq<File>) {
    AddsBoundary(fs, inputs, r) && BoundaryClosed(fs, r)
  }

  lemma BoundaryAdded(fs: seq<File>, inputs: seq<File>, r: seq<File>, largest: InternalKey, b: File)
    requires AddsBoundary(fs, inputs, r) && IsLargest(r, largest) && b in fs && IsBoundary(b, largest)
    requires forall f :: f in fs && IsBoundary(f, largest) ==> AtOrBefore(Smallest(b), Smallest(f))
    ensures AddsBoundary(fs, inputs, r + [b])
  {
    hide IsLargest, IsBoundary;
    var more := r + [b];
    assert FirstBoundary(fs, r, b);
    forall i | |inputs| <= i < |more| ensures FirstBoundary(fs, more[..i], more[i]) {
      assert more[..i] == r[..i];
      assert i == |r| ==> r[..i] == r;
    }
  }

  /** No file continues the end of a boundary-closed list. */
  lemma ClosedEnds(fs: seq<File>, inputs: seq<File>, b: File)
    requires FirstBoundary(fs, inputs, b) && inputs != []
    ensures !BoundaryClosed(fs, inputs)
  {
    var k :| IsLargest(inputs, k) && b in fs && IsBoundary(b, k);
    forall k' | IsLargest(inputs, k') ensures k' == k {
      LargestUnique(inputs, k, k');
    }
  }

  /** On a sorted level there is only one such extension. */
  lemma {:induction false} LeastExtensionUnique(fs: seq<File>, inputs: seq<File>, r: seq<File>, r': seq<File>, n: nat)
    requires FilesOk(fs) && Disjoint(fs) && inputs != [] && LeastExtension(fs, inputs, r) && LeastExtension(fs, inputs, r')
    requires |inputs| <= n <= |r|
    ensures n <= |r'| && r[..n] == r'[..n]
    ensures n == |r| ==> r == r'
    decreases n
  {
    hide BoundaryClosed, FirstBoundary, FilesOk, Disjoint;
    if n == |inputs| {
      assert r[..n] == inputs == r'[..n];
    } else {
      LeastExtensionUnique(fs, inputs, r, r', n - 1);
      assert FirstBoundary(fs, r[..n - 1], r[n - 1]);
      ClosedEnds(fs, r[..n - 1], r[n - 1]);
      assert n - 1 < |r'| by { assert r'[..|r'|] == r'; }
      assert FirstBoundary(fs, r'[..n - 1], r'[n - 1]);
      FirstBoundaryUnique(fs, r[..n - 1], r[n - 1], r'[n - 1]);
      assert r[..n] == r[..n - 1] + [r[n - 1]] && r'[..n] == r'[..n - 1] + [r'[n - 1]];
    }
    if n == |r| {
      assert r[..n] == r;
      if n < |r'| {
        ClosedEnds(fs, r'[..n], r'[n]);
        assert false;
      }
      assert r'[..n] == r';
    }
  }

  lemma FirstBoundaryUnique(fs: seq<File>, inputs: seq<File>, b: File, b': File)
    requires FilesOk(fs) && Disjoint(fs) && FirstBoundary(fs, inputs, b) && FirstBoundary(fs, inputs, b')
    ensures b == b'
  {
    var k :| IsLargest(inputs, k) && b in fs && IsBoundary(b, k)
      && forall f :: f in fs && IsBoundary(f, k) ==> AtOrBefore(Smallest(b), Smallest(f));
    var k' :| IsLargest(inputs, k') && b' in fs && IsBoundary(b', k')
      && forall f :: f in fs && IsBoundary(f, k') ==> AtOrBefore(Smallest(b'), Smallest(f));
    LargestUnique(inputs, k, k');
    var i :| 0 <= i < |fs| && fs[i] == b;
    var j :| 0 <= j < |fs| && fs[j] == b';
    FileBounds(b);
    FileBounds(b');
  }

  /** AddBoundaryInputs: extend the inputs until no file of the level continues their largest user key. */
  method AddBoundaryInputs(fs: seq<File>, inputs: seq<File>) returns (r: seq<File>)
    requires FilesOk(fs) && From(fs, inputs)
    ensures |inputs| <= |r| && r[..|inputs|] == inputs && From(fs, r)
    ensures inputs == [] ==> r == []
    ensures BoundaryClosed(fs, r)
    ensures BoundaryClosed(fs, inputs) ==> r == inputs
    ensures Disjoint(fs) && Convex(fs, inputs) ==> Convex(fs, r)
    ensures Disjoint(inputs) ==> Disjoint(r)
    ensures LeastExtension(fs, inputs, r)
  {
    hide IsLargest, NoBoundary, Convex, Disjoint, IsBoundary, Ahead, FirstBoundary;
    r := inputs;
    var found, largest := FindLargestKey(inputs);
    if !found {
      return;
    }
    var searching := true;
    while searching
      invariant |inputs| <= |r| && r[..|inputs|] == inputs && From(fs, r)
      invariant IsLargest(r, largest)
      invariant BoundaryClosed(fs, inputs) ==> r == inputs
      invariant !searching ==> NoBoundary(fs, largest)
      invariant Disjoint(fs) && Convex(fs, inputs) ==> Convex(fs, r)
      invariant Disjoint(inputs) ==> Disjoint(r)
      invariant AddsBoundary(fs, inputs, r)
      decreases searching, Ahead(fs, largest)
    {
      var next := FindSmallestBoundaryFile(fs, largest);
      if next.Some? {
        if BoundaryClosed(fs, inputs) {
          var k :| IsLargest(inputs, k) && NoBoundary(fs, k);
          LargestUnique(inputs, k, largest);
          assert false;
        }
        if Disjoint(fs) && Convex(fs, inputs) {
          BoundaryKeepsConvex(fs, r, largest, next.value);
        }
        BoundaryComesLast(r, largest, next.value);
        BoundaryAdded(fs, inputs, r, largest, next.value);
        BoundaryIsLargest(r, largest, next.value);
        AheadOfBoundary(fs, largest, next.value);
        r := r + [next.value];
        largest := Largest(next.value);
      } else {
        searching := false;
      }
    }
  }

  /** A boundary file goes behind all inputs. */
  lemma BoundaryComesLast(inputs: seq<File>, largest: InternalKey, b: File)
    requires IsLargest(inputs, largest) && IsBoundary(b, largest)
    ensures Disjoint(inputs) ==> Disjoint(inputs + [b])
  {
    forall i | 0 <= i < |inputs| ensures Before(Largest(inputs[i]), Smallest(b)) {
      assert inputs[i] in inputs;
    }
  }

  ghost predicate NoRepeats(fs: seq<File>) { forall i, j :: 0 <= i < j < |fs| ==> fs[i] != fs[j] }

  /** The order the inputs are listed in: no file twice on level 0, ascending on the others. */
  ghost predicate Listed(level0: bool, fs: seq<File>, inputs: seq<File>) {
    if level0 then NoRepeats(fs) ==> NoRepeats(inputs) else Disjoint(inputs)
  }

  lemma {:induction false} OverlappingNoRepeats(fs: seq<File>, b: Option<UserKey>, e: Option<UserKey>)
    requires NoRepeats(fs)
    ensures NoRepeats(Overlapping(fs, b, e))
  {
    if fs != [] {
      var init := fs[..|fs| - 1];
      OverlappingNoRepeats(init, b, e);
      assert forall f :: f in Overlapping(init, b, e) ==> f in init;
    }
  }

  lemma OverlappingListed(level0: bool, fs: seq<File>, b: Option<UserKey>, e: Option<UserKey>)
    requires !level0 ==> Disjoint(fs)
    ensures Listed(level0, fs, Overlapping(fs, b, e))
  {
    if !level0 {
      OverlappingDisjoint(fs, b, e);
    } else if NoRepeats(fs) {
      OverlappingNoRepeats(fs, b, e);
    }
  }

  // ----- What the chosen inputs guarantee -----

  /** A file left out that comes after an input begins with a larger user key. */
  lemma LaterLeftOut(fs: seq<File>, inputs: seq<File>, i: nat, j: nat)
    requires FilesOk(fs) && Disjoint(fs) && From(fs, inputs) && Convex(fs, inputs) && BoundaryClosed(fs, inputs)
    requires i < j < |fs| && fs[i] in inputs && fs[j] !in inputs
    ensures Largest(fs[i]).key < Smallest(fs[j]).key
  {
    var k :| IsLargest(inputs, k) && NoBoundary(fs, k);
    var h :| h in inputs && Largest(h) == k;
    var m :| 0 <= m < |fs| && fs[m] == h;
    FileBounds(fs[j]);
    FileBounds(h);
    assert !IsBoundary(fs[j], k);
  }

  /** On a sorted level, an entry left out is newer than every input entry of its user key. */
  lemma LeftOutIsNewer(fs: seq<File>, inputs: seq<File>, f: File, x: Entry, g: File, y: Entry)
    requires FilesOk(fs) && Disjoint(fs) && From(fs, inputs) && Convex(fs, inputs) && BoundaryClosed(fs, inputs)
    requires f in inputs && x in f.entries && g in fs && g !in inputs && y in g.entries && x.key == y.key
    ensures Tag(y) > Tag(x)
  {
    var i :| 0 <= i < |fs| && fs[i] == f;
    var j :| 0 <= j < |fs| && fs[j] == g;
    EntryBounds(f, x);
    EntryBounds(g, y);
    if i < j {
      LaterLeftOut(fs, inputs, i, j);
    }
    hide Convex, BoundaryClosed, From;
  }

  ghost predicate Covers(fs: seq<File>, lo: InternalKey, hi: InternalKey) {
    forall f :: f in fs ==> AtOrBefore(lo, Smallest(f)) && AtOrBefore(Largest(f), hi)
  }

  /** On level 0, a file touching an input is an input. */
  ghost predicate TouchClosed(fs: seq<File>, inputs: seq<File>) {
    forall f, g :: f in inputs && g in fs && Touches(g, f) ==> g in inputs
  }

  /** What SetupOtherInputs starts from. */
  ghost predicate InitialInputs(level0: bool, fs: seq<File>, inputs: seq<File>) {
    && inputs != [] && From(fs, inputs)
    && if level0 then TouchClosed(fs, inputs) else Convex(fs, inputs)
  }

  /** The files of `next` that overlap the user keys of [lo, hi] are all in `inputs`. */
  ghost predicate TakesOverlap(next: seq<File>, inputs: seq<File>, lo: InternalKey, hi: InternalKey) {
    forall g :: g in next && Overlaps(g, Some(lo.key), Some(hi.key)) ==> g in inputs
  }

  /** The files taken are none, or one of them does overlap the user keys of [lo, hi]. */
  ghost predicate Anchored(inputs: seq<File>, lo: InternalKey, hi: InternalKey) {
    inputs == [] || exists h :: h in inputs && Overlaps(h, Some(lo.key), Some(hi.key))
  }

  /** Inputs of a compaction from files fs of a level into files `next` of the level below. */
  ghost predicate GoodInputs(level0: bool, fs: seq<File>, next: seq<File>, in0: seq<File>, in1: seq<File>) {
    && InitialInputs(level0, fs, in0)
    && (!level0 ==> BoundaryClosed(fs, in0))
    && From(next, in1) && Convex(next, in1) && BoundaryClosed(next, in1)
    && exists lo, hi :: Covers(in0, lo, hi) && TakesOverlap(next, in1, lo, hi) && Anchored(in1, lo, hi)
  }

  lemma OverlappingConvex(fs: seq<File>, b: Option<UserKey>, e: Option<UserKey>)
    requires FilesOk(fs) && Disjoint(fs)
    ensures Convex(fs, Overlapping(fs, b, e))
  {
    var r := Overlapping(fs, b, e);
    forall i, j, m | 0 <= i < j < m < |fs| && fs[i] in r && fs[m] in r ensures fs[j] in r {
      FileBounds(fs[i]);
      FileBounds(fs[j]);
      FileBounds(fs[m]);
      assert Overlaps(fs[j], b, e);
    }
  }

  lemma WithinTouchClosed(fs: seq<File>, b: Option<UserKey>, e: Option<UserKey>)
    requires FilesOk(fs) && Within(Overlapping(fs, b, e), b, e)
    ensures TouchClosed(fs, Overlapping(fs, b, e))
  {}

  /** On level 0 a touch-closed set has no boundary file left to add. */
  lemma TouchClosedIsBoundaryClosed(fs: seq<File>, inputs: seq<File>, k: InternalKey)
    requires FilesOk(fs) && From(fs, inputs) && TouchClosed(fs, inputs) && IsLargest(inputs, k)
    ensures BoundaryClosed(fs, inputs)
  {
    forall f | f in fs ensures !IsBoundary(f, k) {
      if IsBoundary(f, k) {
        var h :| h in inputs && Largest(h) == k;
        FileBounds(h);
        FileBounds(f);
        assert Touches(f, h);
      }
    }
  }

  /** The smallest and the largest key of the files. */
  ghost predicate RangeOf(fs: seq<File>, lo: InternalKey, hi: InternalKey) {
    && Covers(fs, lo, hi)
    && (exists f :: f in fs && Smallest(f) == lo)
    && exists f :: f in fs && Largest(f) == hi
  }

  method GetRange(inputs: seq<File>) returns (lo: InternalKey, hi: InternalKey)
    requires inputs != []
    ensures RangeOf(inputs, lo, hi) && Covers(inputs, lo, hi)
  {
    lo, hi := Smallest(inputs[0]), Largest(inputs[0]);
    var i := 1;
    while i < |inputs|
      invariant 1 <= i <= |inputs|
      invariant Covers(inputs[..i], lo, hi)
      invariant exists f :: f in inputs && Smallest(f) == lo
      invariant exists f :: f in inputs && Largest(f) == hi
    {
      assert inputs[..i + 1] == inputs[..i] + [inputs[i]];
      if Before(Smallest(inputs[i]), lo) {
        lo := Smallest(inputs[i]);
      }
      if Before(hi, Largest(inputs[i])) {
        hi := Largest(inputs[i]);
      }
      i := i + 1;
    }
    assert inputs[..i] == inputs;
  }

  function TotalFileSize(fs: seq<File>): nat {
    if fs == [] then 0 else TotalFileSize(fs[..|fs| - 1]) + fs[|fs| - 1].size
  }

  /** The files of the next level for a given set of inputs. */
  method NextLevelInputs(next: seq<File>, lo: InternalKey, hi: InternalKey) returns (in1: seq<File>)
    requires FilesOk(next) && Disjoint(next)
    ensures From(next, in1) && Convex(next, in1) && BoundaryClosed(next, in1)
    ensures TakesOverlap(next, in1, lo, hi) && Anchored(in1, lo, hi) && Disjoint(in1)
    ensures LeastExtension(next, Overlapping(next, Some(lo.key), Some(hi.key)), in1)
  {
    var overlap, _, _ := GetOverlappingInputs(false, next, Some(lo.key), Some(hi.key));
    OverlappingConvex(next, Some(lo.key), Some(hi.key));
    OverlappingDisjoint(next, Some(lo.key), Some(hi.key));
    in1 := AddBoundaryInputs(next, overlap);
    assert forall g :: g in overlap ==> g in in1[..|overlap|];
    if overlap != [] {
      assert overlap[0] in overlap && overlap[0] in in1;
    }
  }

  /** The files of the level itself that overlap a range, extended by boundary files. */
  method SameLevelInputs(level0: bool, fs: seq<File>, start: seq<File>) returns (in0: seq<File>)
    requires FilesOk(fs) && (!level0 ==> Disjoint(fs)) && InitialInputs(level0, fs, start)
    ensures InitialInputs(level0, fs, in0) && (!level0 ==> BoundaryClosed(fs, in0))
    ensures forall f :: f in start ==> f in in0
    ensures Listed(level0, fs, start) ==> Listed(level0, fs, in0)
    ensures LeastExtension(fs, start, in0)
  {
    if level0 {
      ghost var _, k := GhostLargest(start);
      TouchClosedIsBoundaryClosed(fs, start, k);
    }
    in0 := AddBoundaryInputs(fs, start);
    forall f | f in start ensures f in in0 {
      assert f in in0[..|start|];
    }
  }

  lemma GhostLargest(fs: seq<File>) returns (ok: bool, k: InternalKey)
    requires fs != []
    ensures ok && IsLargest(fs, k)
  {
    ok, k := true, Largest(fs[0]);
    if |fs| > 1 {
      var _, k' := GhostLargest(fs[1..]);
      assert fs == [fs[0]] + fs[1..];
      if Before(k, k') {
        k := k';
      }
    }
  }

  lemma HasMember(fs: seq<File>) requires fs != [] ensures exists f :: f in fs { assert fs[0] in fs; }

  // ----- Starting points -----

  /** The file comes after the compaction pointer. */
  predicate AfterPointer(pointer: Option<InternalKey>, f: File) {
    pointer.None? || Before(pointer.value, Largest(f))
  }

  /** The first file after the compaction pointer; the first of all when none is. */
  ghost predicate Picked(fs: seq<File>, pointer: Option<InternalKey>, i: nat) {
    && i < |fs| && (AfterPointer(pointer, fs[i]) || (i == 0 && forall f :: f in fs ==> !AfterPointer(pointer, f)))
    && forall j :: 0 <= j < i ==> !AfterPointer(pointer, fs[j])
  }

  method PickFile(fs: seq<File>, pointer: Option<InternalKey>) returns (i: nat)
    requires fs != []
    ensures Picked(fs, pointer, i)
  {
    i := 0;
    while i < |fs|
      invariant i <= |fs| && forall j :: 0 <= j < i ==> !AfterPointer(pointer, fs[j])
    {
      if AfterPointer(pointer, fs[i]) {
        return;
      }
      i := i + 1;
    }
    i := 0;
  }

  /** PickCompaction from the picked file: on level 0 all files it drags along. */
  method PickCompaction(level0: bool, fs: seq<File>, picked: File) returns (start: seq<File>)
    requires FilesOk(fs) && (!level0 ==> Disjoint(fs)) && picked in fs
    ensures InitialInputs(level0, fs, start) && picked in start && Listed(level0, fs, start)
    ensures if level0 then LeastClosed(fs, Some(Smallest(picked).key), Some(Largest(picked).key), start) else start == [picked]
  {
    start := [picked];
    FileBounds(picked);
    if level0 {
      ghost var b, e;
      start, b, e := GetOverlappingInputs(level0, fs, Some(Smallest(picked).key), Some(Largest(picked).key));
      WithinTouchClosed(fs, b, e);
      OverlappingListed(level0, fs, b, e);
    } else {
      assert forall i, m :: 0 <= i < m < |fs| ==> !(fs[i] == picked && fs[m] == picked);
    }
  }

  lemma {:induction false} OverlappingDisjoint(fs: seq<File>, b: Option<UserKey>, e: Option<UserKey>)
    requires Disjoint(fs)
    ensures Disjoint(Overlapping(fs, b, e))
  {
    if fs != [] {
      OverlappingDisjoint(fs[..|fs| - 1], b, e);
      assert forall f :: f in fs[..|fs| - 1] ==> Before(Largest(f), Smallest(fs[|fs| - 1]));
    }
  }

  /** Cutting the chosen files short on the right leaves no gap. */
  lemma PrefixConvex(fs: seq<File>, inputs: seq<File>, k: nat)
    requires FilesOk(fs) && Disjoint(fs) && Disjoint(inputs) && Convex(fs, inputs) && k <= |inputs|
    ensures Convex(fs, inputs[..k])
  {
    forall i, j, m | 0 <= i < j < m < |fs| && fs[i] in inputs[..k] && fs[m] in inputs[..k] ensures fs[j] in inputs[..k] {
      var q :| 0 <= q < |inputs| && inputs[q] == fs[j];
      var p :| 0 <= p < k && inputs[p] == fs[m];
      FileBounds(fs[j]);
      FileBounds(fs[m]);
      if q > p {
        assert false;
      }
    }
  }

  /** CompactRange: the files overlapping a range, cut short by size except on level 0; none if none overlap. */
  method CompactRange(level0: bool, fs: seq<File>, begin: Option<UserKey>, end: Option<UserKey>, limit: nat)
    returns (start: seq<File>)
    requires FilesOk(fs) && (!level0 ==> Disjoint(fs))
    ensures start != [] ==> InitialInputs(level0, fs, start) && Listed(level0, fs, start)
    ensures start == [] <==> forall f :: f in fs ==> !Overlaps(f, begin, end)
    ensures if level0 then LeastClosed(fs, begin, end, start) else LimitedPrefix(Overlapping(fs, begin, end), start, limit)
  {
    hide LeastClosed, Forced, Overlapping, Within, Convex, TouchClosed, FilesOk, Disjoint, TotalFileSize;
    ghost var b, e;
    start, b, e := GetOverlappingInputs(level0, fs, begin, end);
    EmptyIffNone(fs, begin, end, b, e);
    if start == [] {
      return;
    }
    OverlappingListed(level0, fs, b, e);
    if level0 {
      WithinTouchClosed(fs, b, e);
    } else {
      OverlappingConvex(fs, b, e);
      ghost var all := start;
      start := LimitInputs(start, limit);
      PrefixConvex(fs, all, |start|);
      assert start == all[..|start|];
      PrefixDisjoint(all, |start|);
      assert forall f :: f in start ==> f in all;
    }
  }

  lemma PrefixDisjoint(fs: seq<File>, n: nat)
    requires Disjoint(fs) && n <= |fs|
    ensures Disjoint(fs[..n])
  {}

  /** Widening the range finds something only if something overlapped to begin with. */
  lemma EmptyIffNone(fs: seq<File>, begin: Option<UserKey>, end: Option<UserKey>, b: Option<UserKey>, e: Option<UserKey>)
    requires Wider(begin, end, b, e) && Forced(fs, begin, end, b, e)
    ensures Overlapping(fs, b, e) == [] <==> forall f :: f in fs ==> !Overlaps(f, begin, end)
    ensures From(fs, Overlapping(fs, b, e))
  {
    var r := Overlapping(fs, b, e);
    if forall f :: f in fs ==> !Overlaps(f, begin, end) {
      assert OverlapClosed(fs, begin, end, {});
      if r != [] {
        HasMember(r);
        assert false;
      }
    }
    if r == [] {
      forall f | f in fs ensures !Overlaps(f, begin, end) {
        assert f !in r;
      }
    }
  }

  /** Cut the inputs where their total size reaches the limit. */
  method LimitInputs(all: seq<File>, limit: nat) returns (r: seq<File>)
    ensures LimitedPrefix(all, r, limit)
  {
    var total, i := 0, 0;
    while i < |all|
      invariant 0 <= i <= |all| && total == TotalFileSize(all[..i])
      invariant forall n :: 1 <= n <= i ==> TotalFileSize(all[..n]) < limit
    {
      total := total + all[i].size;
      assert all[..i + 1][..i] == all[..i];
      if total >= limit {
        r := all[..i + 1];
        assert forall n :: 1 <= n < |r| ==> r[..n] == all[..n];
        return;
      }
      i := i + 1;
    }
    r := all;
  }

  /** The shortest prefix whose files reach the size limit, or all. */
  ghost predicate LimitedPrefix(all: seq<File>, r: seq<File>, limit: nat) {
    && r <= all && (all != [] ==> r != []) && (r == all || TotalFileSize(r) >= limit)
    && forall n :: 1 <= n < |r| ==> TotalFileSize(r[..n]) < limit
  }

  /** Everything overlapping the range of the inputs includes the inputs. */
  lemma ExpandedKeeps(fs: seq<File>, in0: seq<File>, in1: seq<File>, lo: InternalKey, hi: InternalKey,
                      b: Option<UserKey>, e: Option<UserKey>, overlap: seq<File>)
    requires FilesOk(fs) && From(fs, in0) && Covers(in0 + in1, lo, hi)
    requires Wider(Some(lo.key), Some(hi.key), b, e) && overlap == Overlapping(fs, b, e)
    ensures forall f :: f in in0 ==> f in overlap
  {
    forall f | f in in0 ensures f in overlap {
      assert f in in0 + in1 && f in fs;
      FileBounds(f);
    }
  }

  // ----- The inputs in full -----

  /** The files taken from the next level for inputs in0. */
  ghost predicate TakenBelow(next: seq<File>, in0: seq<File>, in1: seq<File>) {
    exists lo, hi :: RangeOf(in0, lo, hi) && LeastExtension(next, Overlapping(next, Some(lo.key), Some(hi.key)), in1)
  }

  /** The files of the level itself within the whole range of in0 and in1. */
  ghost predicate TakenAlong(level0: bool, fs: seq<File>, in0: seq<File>, in1: seq<File>, more: seq<File>) {
    exists lo, hi, overlap :: RangeOf(in0 + in1, lo, hi) && AllOverlapping(level0, fs, lo.key, hi.key, overlap)
      && LeastExtension(fs, overlap, more)
  }

  /** On level 0 the least set of files that contains those overlapping the range and all that touch one of it; on the
      others the files overlapping the range. */
  ghost predicate AllOverlapping(level0: bool, fs: seq<File>, lo: UserKey, hi: UserKey, r: seq<File>) {
    Listed(level0, fs, r) && if level0 then LeastClosed(fs, Some(lo), Some(hi), r) else r == Overlapping(fs, Some(lo), Some(hi))
  }

  /** s and t grow to e and u if that takes more files of the level, in bytes below the limit, but no more of the next. */
  ghost predicate Grown(level0: bool, fs: seq<File>, next: seq<File>, s: seq<File>, t: seq<File>, byteLimit: nat, in0: seq<File>, in1: seq<File>) {
    exists e :: TakenAlong(level0, fs, s, t, e) &&
      if |e| > |s| && TotalFileSize(t) + TotalFileSize(e) < byteLimit then
        exists u :: TakenBelow(next, e, u) && if |u| == |t| then in0 == e && in1 == u else in0 == s && in1 == t
      else in0 == s && in1 == t
  }

  /** The inputs of a compaction that starts from `start`. */
  ghost predicate SetUp(level0: bool, fs: seq<File>, next: seq<File>, start: seq<File>, byteLimit: nat, in0: seq<File>, in1: seq<File>) {
    exists s, t :: LeastExtension(fs, start, s) && TakenBelow(next, s, t) &&
      if t == [] then in0 == s && in1 == [] else Grown(level0, fs, next, s, t, byteLimit, in0, in1)
  }

  /** What a set of inputs has to satisfy for the range [lo, hi] of its files. */
  ghost predicate RangedInputs(level0: bool, fs: seq<File>, next: seq<File>, in0: seq<File>, in1: seq<File>, lo: InternalKey, hi: InternalKey) {
    && InitialInputs(level0, fs, in0) && (!level0 ==> BoundaryClosed(fs, in0))
    && From(next, in1) && Convex(next, in1) && BoundaryClosed(next, in1)
    && Covers(in0, lo, hi) && TakesOverlap(next, in1, lo, hi) && Anchored(in1, lo, hi) && Disjoint(in1)
  }

  lemma RangedIsGood(level0: bool, fs: seq<File>, next: seq<File>, in0: seq<File>, in1: seq<File>, lo: InternalKey, hi: InternalKey)
    requires RangedInputs(level0, fs, next, in0, in1, lo, hi)
    ensures GoodInputs(level0, fs, next, in0, in1) && Disjoint(in1)
  {
    hide InitialInputs, BoundaryClosed, Convex, From, Disjoint, Covers, TakesOverlap, Anchored;
  }

  /** All files of the level in the range of the inputs, extended by boundary files. */
  method Along(level0: bool, fs: seq<File>, in0: seq<File>, in1: seq<File>) returns (more: seq<File>)
    requires FilesOk(fs) && (!level0 ==> Disjoint(fs)) && in0 != [] && From(fs, in0)
    ensures TakenAlong(level0, fs, in0, in1, more)
    ensures InitialInputs(level0, fs, more) && (!level0 ==> BoundaryClosed(fs, more)) && Listed(level0, fs, more)
    ensures forall f :: f in in0 ==> f in more
  {
    hide Overlapping, LeastClosed, Forced, Within, Disjoint, Listed, FilesOk, Convex, TouchClosed, BoundaryClosed, LeastExtension;
    var lo, hi := GetRange(in0 + in1);
    var overlap, b, e := GetOverlappingInputs(level0, fs, Some(lo.key), Some(hi.key));
    OverlappingListed(level0, fs, b, e);
    ExpandedKeeps(fs, in0, in1, lo, hi, b, e, overlap);
    assert in0[0] in in0;
    assert overlap != [];
    OverlappingFrom(fs, b, e);
    if level0 {
      WithinTouchClosed(fs, b, e);
    } else {
      OverlappingConvex(fs, b, e);
    }
    more := SameLevelInputs(level0, fs, overlap);
    assert AllOverlapping(level0, fs, lo.key, hi.key, overlap);
  }

  lemma OverlappingFrom(fs: seq<File>, b: Option<UserKey>, e: Option<UserKey>)
    ensures From(fs, Overlapping(fs, b, e))
  {}

  /** SetupOtherInputs, with the byte limit on expanded compactions as a parameter. */
  method SetupOtherInputs(level0: bool, fs: seq<File>, next: seq<File>, start: seq<File>, byteLimit: nat)
    returns (in0: seq<File>, in1: seq<File>)
    requires FilesOk(fs) && FilesOk(next) && Disjoint(next) && (!level0 ==> Disjoint(fs))
    requires InitialInputs(level0, fs, start)
    ensures GoodInputs(level0, fs, next, in0, in1)
    ensures forall f :: f in start ==> f in in0
    ensures Disjoint(in1) && (Listed(level0, fs, start) ==> Listed(level0, fs, in0))
    ensures SetUp(level0, fs, next, start, byteLimit, in0, in1)
  {
    hide FilesOk, Disjoint, InitialInputs, From, Convex, BoundaryClosed, Covers, TakesOverlap, Anchored, Listed, GoodInputs,
      LeastExtension, RangeOf, TakenAlong, TotalFileSize, Overlapping;
    in0 := SameLevelInputs(level0, fs, start);
    SomeInputs(level0, fs, in0);
    var lo, hi := GetRange(in0);
    in1 := NextLevelInputs(next, lo, hi);
    assert RangeOf(in0, lo, hi);
    ghost var s, t := in0, in1;
    if in1 != [] {
      var expanded0 := Along(level0, fs, in0, in1);
      if |expanded0| > |in0| && TotalFileSize(in1) + TotalFileSize(expanded0) < byteLimit {
        var newLo, newHi := GetRange(expanded0);
        var expanded1 := NextLevelInputs(next, newLo, newHi);
        assert TakenBelow(next, expanded0, expanded1);
        if |expanded1| == |in1| {
          in0, in1 := expanded0, expanded1;
          lo, hi := newLo, newHi;
        }
      }
      assert Grown(level0, fs, next, s, t, byteLimit, in0, in1);
    }
    assert TakenBelow(next, s, t);
    RangedIsGood(level0, fs, next, in0, in1, lo, hi);
  }

  lemma SomeInputs(level0: bool, fs: seq<File>, inputs: seq<File>)
    requires InitialInputs(level0, fs, inputs)
    ensures inputs != [] && From(fs, inputs)
  {}

  // ----- On sorted levels the inputs are determined -----

  lemma RangeUnique(fs: seq<File>, lo: InternalKey, hi: InternalKey, lo': InternalKey, hi': InternalKey)
    requires RangeOf(fs, lo, hi) && RangeOf(fs, lo', hi')
    ensures lo == lo' && hi == hi'
  {}

  lemma ExtensionUnique(fs: seq<File>, inputs: seq<File>, r: seq<File>, r': seq<File>)
    requires FilesOk(fs) && Disjoint(fs) && LeastExtension(fs, inputs, r) && LeastExtension(fs, inputs, r')
    ensures r == r'
  {
    if inputs != [] {
      LeastExtensionUnique(fs, inputs, r, r', |r|);
    } else {
      NothingExtended(fs, r);
      NothingExtended(fs, r');
    }
  }

  lemma NothingExtended(fs: seq<File>, r: seq<File>)
    requires AddsBoundary(fs, [], r)
    ensures r == []
  {
    assert forall b :: !FirstBoundary(fs, [], b);
    assert r[..0] == [];
  }

  lemma BelowUnique(next: seq<File>, in0: seq<File>, in1: seq<File>, in1': seq<File>)
    requires FilesOk(next) && Disjoint(next) && TakenBelow(next, in0, in1) && TakenBelow(next, in0, in1')
    ensures in1 == in1'
  {
    hide RangeOf, LeastExtension, FilesOk, Disjoint, Overlapping;
    var lo, hi :| RangeOf(in0, lo, hi) && LeastExtension(next, Overlapping(next, Some(lo.key), Some(hi.key)), in1);
    var lo', hi' :| RangeOf(in0, lo', hi') && LeastExtension(next, Overlapping(next, Some(lo'.key), Some(hi'.key)), in1');
    RangeUnique(in0, lo, hi, lo', hi');
    ExtensionUnique(next, Overlapping(next, Some(lo.key), Some(hi.key)), in1, in1');
  }

  lemma AlongUnique(fs: seq<File>, in0: seq<File>, in1: seq<File>, more: seq<File>, more': seq<File>)
    requires FilesOk(fs) && Disjoint(fs) && TakenAlong(false, fs, in0, in1, more) && TakenAlong(false, fs, in0, in1, more')
    ensures more == more'
  {
    hide RangeOf, LeastExtension, FilesOk, Disjoint, Overlapping, Listed;
    var lo, hi, o :| RangeOf(in0 + in1, lo, hi) && AllOverlapping(false, fs, lo.key, hi.key, o) && LeastExtension(fs, o, more);
    var lo', hi', o' :| RangeOf(in0 + in1, lo', hi') && AllOverlapping(false, fs, lo'.key, hi'.key, o') && LeastExtension(fs, o', more');
    RangeUnique(in0 + in1, lo, hi, lo', hi');
    ExtensionUnique(fs, o, more, more');
  }

  lemma GrownUnique(fs: seq<File>, next: seq<File>, s: seq<File>, t: seq<File>, byteLimit: nat,
                    in0: seq<File>, in1: seq<File>, in0': seq<File>, in1': seq<File>)
    requires FilesOk(fs) && Disjoint(fs) && FilesOk(next) && Disjoint(next)
    requires Grown(false, fs, next, s, t, byteLimit, in0, in1) && Grown(false, fs, next, s, t, byteLimit, in0', in1')
    ensures in0 == in0' && in1 == in1'
  {
    hide FilesOk, Disjoint, TakenAlong, TakenBelow, TotalFileSize;
    forall e, e' | TakenAlong(false, fs, s, t, e) && TakenAlong(false, fs, s, t, e') ensures e == e' {
      AlongUnique(fs, s, t, e, e');
    }
    forall e, u, u' | TakenBelow(next, e, u) && TakenBelow(next, e, u') ensures u == u' {
      BelowUnique(next, e, u, u');
    }
  }

  /** Above level 0 the files, the starting point and the limit leave one choice. */
  lemma SetUpUnique(fs: seq<File>, next: seq<File>, start: seq<File>, byteLimit: nat,
                    in0: seq<File>, in1: seq<File>, in0': seq<File>, in1': seq<File>)
    requires FilesOk(fs) && Disjoint(fs) && FilesOk(next) && Disjoint(next)
    requires SetUp(false, fs, next, start, byteLimit, in0, in1) && SetUp(false, fs, next, start, byteLimit, in0', in1')
    ensures in0 == in0' && in1 == in1'
  {
    hide FilesOk, Disjoint, LeastExtension, TakenBelow, Grown;
    var s, t :| LeastExtension(fs, start, s) && TakenBelow(next, s, t) &&
      if t == [] then in0 == s && in1 == [] else Grown(false, fs, next, s, t, byteLimit, in0, in1);
    var s', t' :| LeastExtension(fs, start, s') && TakenBelow(next, s', t') &&
      if t' == [] then in0' == s' && in1' == [] else Grown(false, fs, next, s', t', byteLimit, in0', in1');
    ExtensionUnique(fs, start, s, s');
    BelowUnique(next, s, t, t');
    if t != [] {
      GrownUnique(fs, next, s, t, byteLimit, in0, in1, in0', in1');
    }
  }
}
