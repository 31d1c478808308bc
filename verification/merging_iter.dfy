/** MergingIterator: several sorted children presented as one cursor over their merge. */
module MergingIter {
  import opened Wrappers
  import opened Entries
  import opened Files
  import opened Listings

  // ----- The cursor over a set of entries in internal-key order -----

  /** A place between entries. */
  datatype Edge = Start | End | BeforeKey(k: InternalKey) | AfterKey(k: InternalKey)

  ghost predicate Under(x: InternalKey, edge: Edge) {
    match edge
    case Start => false
    case End => true
    case BeforeKey(k) => Before(x, k)
    case AfterKey(k) => AtOrBefore(x, k)
  }

  ghost predicate LeastFrom(all: set<Entry>, edge: Edge, r: Option<Entry>) {
    && (r.Some? ==> r.value in all && !Under(IKey(r.value), edge))
    && forall x :: x in all && !Under(IKey(x), edge) ==> r.Some? && AtOrBefore(IKey(r.value), IKey(x))
  }

  ghost predicate GreatestUnder(all: set<Entry>, edge: Edge, r: Option<Entry>) {
    && (r.Some? ==> r.value in all && Under(IKey(r.value), edge))
    && forall x :: x in all && Under(IKey(x), edge) ==> r.Some? && AtOrBefore(IKey(x), IKey(r.value))
  }

  /** On any sorted listing of the entries these are the moves of an index. */
  lemma NextIsIndex(es: seq<Entry>, p: nat, r: Option<Entry>)
    requires Sorted(es) && p < |es|
    ensures LeastFrom(EntrySet(es), AfterKey(IKey(es[p])), r) <==> r == EntryAt(es, NextIndex(es, p))
  {
    IndexOrder(es);
    if p + 1 < |es| {
      assert es[p + 1] in EntrySet(es);
      assert LeastFrom(EntrySet(es), AfterKey(IKey(es[p])), Some(es[p + 1]));
      LeastUnique(es, AfterKey(IKey(es[p])), r, Some(es[p + 1]));
    }
  }

  lemma PrevIsIndex(es: seq<Entry>, p: nat, r: Option<Entry>)
    requires Sorted(es) && p < |es|
    ensures GreatestUnder(EntrySet(es), BeforeKey(IKey(es[p])), r) <==> r == EntryAt(es, PrevIndex(p))
  {
    IndexOrder(es);
    if p > 0 {
      assert es[p - 1] in EntrySet(es);
      assert GreatestUnder(EntrySet(es), BeforeKey(IKey(es[p])), Some(es[p - 1]));
      GreatestUnique(es, BeforeKey(IKey(es[p])), r, Some(es[p - 1]));
    }
  }

  lemma EndsAreIndices(es: seq<Entry>, r: Option<Entry>)
    requires Sorted(es)
    ensures LeastFrom(EntrySet(es), Start, r) <==> r == EntryAt(es, FirstIndex(es))
    ensures GreatestUnder(EntrySet(es), End, r) <==> r == EntryAt(es, LastIndex(es))
  {
    IndexOrder(es);
    if es != [] {
      assert es[0] in EntrySet(es) && es[|es| - 1] in EntrySet(es);
      assert LeastFrom(EntrySet(es), Start, Some(es[0]));
      assert GreatestUnder(EntrySet(es), End, Some(es[|es| - 1]));
      LeastUnique(es, Start, r, Some(es[0]));
      GreatestUnique(es, End, r, Some(es[|es| - 1]));
    } else {
      assert forall x :: x !in EntrySet(es);
    }
  }

  lemma SeekIsIndex(es: seq<Entry>, t: InternalKey, p: nat, r: Option<Entry>)
    requires Sorted(es) && p <= |es|
    requires forall j: nat :: j < p ==> Before(IKey(es[j]), t)
    requires forall j: nat :: p <= j < |es| ==> AtOrBefore(t, IKey(es[j]))
    ensures LeastFrom(EntrySet(es), BeforeKey(t), r) <==> r == (if p < |es| then Some(es[p]) else None)
  {
    IndexOrder(es);
    if p < |es| {
      assert es[p] in EntrySet(es);
      assert LeastFrom(EntrySet(es), BeforeKey(t), Some(es[p]));
      LeastUnique(es, BeforeKey(t), r, Some(es[p]));
    }
  }

  function EntryAt(es: seq<Entry>, p: Option<nat>): Option<Entry>
    requires p.Some? ==> p.value < |es|
  {
    if p.None? then None else Some(es[p.value])
  }

  lemma IndexOrder(es: seq<Entry>)
    requires Sorted(es)
    ensures forall i, j :: 0 <= i < |es| && 0 <= j < |es| ==> (Before(IKey(es[i]), IKey(es[j])) <==> i < j)
  {
    forall i, j | 0 <= i < |es| && 0 <= j < |es| ensures Before(IKey(es[i]), IKey(es[j])) <==> i < j {
      if j < i {
        assert Before(IKey(es[j]), IKey(es[i]));
      }
    }
  }

  lemma LeastUnique(es: seq<Entry>, edge: Edge, r: Option<Entry>, r': Option<Entry>)
    requires Sorted(es) && LeastFrom(EntrySet(es), edge, r')
    ensures LeastFrom(EntrySet(es), edge, r) ==> r == r'
  {
    SortedDistinct(es);
  }

  lemma GreatestUnique(es: seq<Entry>, edge: Edge, r: Option<Entry>, r': Option<Entry>)
    requires Sorted(es) && GreatestUnder(EntrySet(es), edge, r')
    ensures GreatestUnder(EntrySet(es), edge, r) ==> r == r'
  {
    SortedDistinct(es);
  }

  // ----- Children -----

  ghost function AllEntries(kids: seq<seq<Entry>>): (s: set<Entry>)
    ensures forall e :: e in s <==> exists i :: 0 <= i < |kids| && e in kids[i]
  {
    set i, e | 0 <= i < |kids| && e in kids[i] :: e
  }

  /** Every child is sorted and no two children hold the same internal key. */
  ghost predicate Mergeable(kids: seq<seq<Entry>>) {
    && (forall i :: 0 <= i < |kids| ==> Sorted(kids[i]))
    && (forall a, b :: 0 <= a < |kids| && 0 <= b < |kids| && a != b ==> Disjoined(kids[a], kids[b]))
  }

  ghost predicate Disjoined(x: seq<Entry>, y: seq<Entry>) {
    forall d, e :: d in x && e in y ==> IKey(d) != IKey(e)
  }

  /** The child's entries before `cut` are exactly those under the edge. */
  ghost predicate AtEdge(kid: seq<Entry>, cut: nat, edge: Edge) {
    cut <= |kid| && forall j: nat :: j < |kid| ==> (j < cut <==> Under(IKey(kid[j]), edge))
  }

  datatype Direction = Forward | Reverse

  /** Where a child's position cuts it: going forward its entry is the first above, in reverse the last below. */
  function Cut(d: Direction, kid: seq<Entry>, pos: Option<nat>): nat {
    if d.Forward? then (if pos.None? then |kid| else pos.value) else if pos.None? then 0 else pos.value + 1
  }

  ghost predicate AllAtEdge(kids: seq<seq<Entry>>, pos: seq<Option<nat>>, d: Direction, edge: Edge) {
    && |pos| == |kids|
    && forall i: nat :: i < |kids| ==> AtEdge(kids[i], Cut(d, kids[i], pos[i]), edge)
  }

  predicate Positions(kids: seq<seq<Entry>>, pos: seq<Option<nat>>) {
    |pos| == |kids| && forall i :: 0 <= i < |pos| ==> PosOk(kids[i], pos[i])
  }

  predicate PosOk(kid: seq<Entry>, p: Option<nat>) { p.Some? ==> p.value < |kid| }

  function ChildKey(kids: seq<seq<Entry>>, pos: seq<Option<nat>>, i: nat): InternalKey
    requires Positions(kids, pos) && i < |pos| && pos[i].Some?
  {
    assert PosOk(kids[i], pos[i]);
    IKey(kids[i][pos[i].value])
  }

  ghost predicate IsSmallest(kids: seq<seq<Entry>>, pos: seq<Option<nat>>, c: Option<nat>, n: nat)
    requires Positions(kids, pos) && n <= |pos|
  {
    && (c.Some? ==> c.value < n && pos[c.value].Some?)
    && forall i: nat :: i < n && pos[i].Some? ==> c.Some? && AtOrBefore(ChildKey(kids, pos, c.value), ChildKey(kids, pos, i))
  }

  ghost predicate IsLargest(kids: seq<seq<Entry>>, pos: seq<Option<nat>>, c: Option<nat>, n: nat)
    requires Positions(kids, pos) && n <= |pos|
  {
    && (c.Some? ==> n <= c.value < |pos| && pos[c.value].Some?)
    && forall i: nat :: n <= i < |pos| && pos[i].Some? ==> c.Some? && AtOrBefore(ChildKey(kids, pos, i), ChildKey(kids, pos, c.value))
  }

  function EntryOf(kids: seq<seq<Entry>>, pos: seq<Option<nat>>, c: Option<nat>): Option<Entry>
    requires Positions(kids, pos) && (c.Some? ==> c.value < |pos| && pos[c.value].Some?)
  {
    if c.None? then None else assert PosOk(kids[c.value], pos[c.value]); Some(kids[c.value][pos[c.value].value])
  }

  // ----- Edges and the order -----

  lemma UnderAbove(x: InternalKey, y: InternalKey, edge: Edge)
    requires Under(x, edge) && !Under(y, edge)
    ensures Before(x, y)
  {}

  lemma Trans(x: InternalKey, y: InternalKey, z: InternalKey)
    ensures Before(x, y) && AtOrBefore(y, z) ==> Before(x, z)
    ensures AtOrBefore(x, y) && AtOrBefore(y, z) ==> AtOrBefore(x, z)
    ensures AtOrBefore(x, y) && Before(y, z) ==> Before(x, z)
  {}

  lemma SmallestIsLeast(kids: seq<seq<Entry>>, pos: seq<Option<nat>>, c: Option<nat>, edge: Edge)
    requires Mergeable(kids) && Positions(kids, pos) && AllAtEdge(kids, pos, Forward, edge) && IsSmallest(kids, pos, c, |pos|)
    ensures LeastFrom(AllEntries(kids), edge, EntryOf(kids, pos, c))
    ensures c.Some? ==> AllAtEdge(kids, pos, Forward, BeforeKey(ChildKey(kids, pos, c.value)))
  {
    forall i: nat, j: nat | i < |kids| && j < |kids[i]| && !Under(IKey(kids[i][j]), edge)
      ensures c.Some? && AtOrBefore(ChildKey(kids, pos, c.value), IKey(kids[i][j]))
    {
      ChildAbove(kids, pos, c, edge, i, j);
    }
    forall x | x in AllEntries(kids) && !Under(IKey(x), edge)
      ensures c.Some? && AtOrBefore(ChildKey(kids, pos, c.value), IKey(x))
    {
      var i: nat :| i < |kids| && x in kids[i];
      var j: nat :| j < |kids[i]| && kids[i][j] == x;
    }
    if c.Some? {
      var k := ChildKey(kids, pos, c.value);
      var p := pos[c.value].value;
      assert PosOk(kids[c.value], pos[c.value]) && AtEdge(kids[c.value], p, edge);
      assert kids[c.value][p] in kids[c.value];
      assert !Under(k, edge);
      forall i: nat | i < |kids| ensures AtEdge(kids[i], Cut(Forward, kids[i], pos[i]), BeforeKey(k)) {
        var cut := Cut(Forward, kids[i], pos[i]);
        assert AtEdge(kids[i], cut, edge);
        forall j: nat | j < |kids[i]| ensures j < cut <==> Before(IKey(kids[i][j]), k) {
          if j < cut {
            UnderAbove(IKey(kids[i][j]), k, edge);
          }
        }
      }
    }
  }

  lemma ChildAbove(kids: seq<seq<Entry>>, pos: seq<Option<nat>>, c: Option<nat>, edge: Edge, i: nat, j: nat)
    requires Mergeable(kids) && Positions(kids, pos) && AllAtEdge(kids, pos, Forward, edge) && IsSmallest(kids, pos, c, |pos|)
    requires i < |kids| && j < |kids[i]| && !Under(IKey(kids[i][j]), edge)
    ensures c.Some? && AtOrBefore(ChildKey(kids, pos, c.value), IKey(kids[i][j]))
  {
    assert PosOk(kids[i], pos[i]) && Sorted(kids[i]) && AtEdge(kids[i], Cut(Forward, kids[i], pos[i]), edge);
    hide Mergeable, AllAtEdge, AtEdge, Under;
    var p := pos[i].value;
    assert p < j ==> Before(IKey(kids[i][p]), IKey(kids[i][j]));
    Trans(ChildKey(kids, pos, c.value), IKey(kids[i][p]), IKey(kids[i][j]));
  }

  lemma LargestIsGreatest(kids: seq<seq<Entry>>, pos: seq<Option<nat>>, c: Option<nat>, edge: Edge)
    requires Mergeable(kids) && Positions(kids, pos) && AllAtEdge(kids, pos, Reverse, edge) && IsLargest(kids, pos, c, 0)
    ensures GreatestUnder(AllEntries(kids), edge, EntryOf(kids, pos, c))
    ensures c.Some? ==> AllAtEdge(kids, pos, Reverse, AfterKey(ChildKey(kids, pos, c.value)))
  {
    forall i: nat, j: nat | i < |kids| && j < |kids[i]| && Under(IKey(kids[i][j]), edge)
      ensures c.Some? && AtOrBefore(IKey(kids[i][j]), ChildKey(kids, pos, c.value))
    {
      ChildBelow(kids, pos, c, edge, i, j);
    }
    forall x | x in AllEntries(kids) && Under(IKey(x), edge)
      ensures c.Some? && AtOrBefore(IKey(x), ChildKey(kids, pos, c.value))
    {
      var i: nat :| i < |kids| && x in kids[i];
      var j: nat :| j < |kids[i]| && kids[i][j] == x;
    }
    if c.Some? {
      var k := ChildKey(kids, pos, c.value);
      var p := pos[c.value].value;
      assert PosOk(kids[c.value], pos[c.value]) && AtEdge(kids[c.value], p + 1, edge);
      assert kids[c.value][p] in kids[c.value];
      assert Under(k, edge);
      forall i: nat | i < |kids| ensures AtEdge(kids[i], Cut(Reverse, kids[i], pos[i]), AfterKey(k)) {
        var cut := Cut(Reverse, kids[i], pos[i]);
        assert AtEdge(kids[i], cut, edge);
        forall j: nat | j < |kids[i]| ensures j < cut <==> AtOrBefore(IKey(kids[i][j]), k) {
          if j >= cut {
            UnderAbove(k, IKey(kids[i][j]), edge);
          }
        }
      }
    }
  }

  lemma ChildBelow(kids: seq<seq<Entry>>, pos: seq<Option<nat>>, c: Option<nat>, edge: Edge, i: nat, j: nat)
    requires Mergeable(kids) && Positions(kids, pos) && AllAtEdge(kids, pos, Reverse, edge) && IsLargest(kids, pos, c, 0)
    requires i < |kids| && j < |kids[i]| && Under(IKey(kids[i][j]), edge)
    ensures c.Some? && AtOrBefore(IKey(kids[i][j]), ChildKey(kids, pos, c.value))
  {
    assert PosOk(kids[i], pos[i]) && Sorted(kids[i]) && AtEdge(kids[i], Cut(Reverse, kids[i], pos[i]), edge);
    hide Mergeable, AllAtEdge, AtEdge, Under;
    var p := pos[i].value;
    assert j < p ==> Before(IKey(kids[i][j]), IKey(kids[i][p]));
    Trans(IKey(kids[i][j]), IKey(kids[i][p]), ChildKey(kids, pos, c.value));
  }

  // ----- Moving one child -----

  /** The current child steps past key k, which it holds. */
  lemma StepCurrent(kid: seq<Entry>, p: nat)
    requires Sorted(kid) && p < |kid|
    ensures AtEdge(kid, Cut(Forward, kid, NextIndex(kid, p)), AfterKey(IKey(kid[p])))
    ensures AtEdge(kid, Cut(Reverse, kid, PrevIndex(p)), BeforeKey(IKey(kid[p])))
  {
    IndexOrder(kid);
  }

  /** Any other child that is just before or just after k is on both sides of it, since it does not hold k. */
  lemma OtherChild(kids: seq<seq<Entry>>, c: nat, p: nat, i: nat, cut: nat)
    requires Mergeable(kids) && c < |kids| && p < |kids[c]| && i < |kids| && i != c
    ensures AtEdge(kids[i], cut, BeforeKey(IKey(kids[c][p]))) <==> AtEdge(kids[i], cut, AfterKey(IKey(kids[c][p])))
  {
    var k := IKey(kids[c][p]);
    assert Disjoined(kids[i], kids[c]);
    assert kids[c][p] in kids[c];
    forall j: nat | j < |kids[i]| ensures Before(IKey(kids[i][j]), k) <==> AtOrBefore(IKey(kids[i][j]), k) {
      assert kids[i][j] in kids[i];
      Total(IKey(kids[i][j]), k);
    }
  }

  lemma Total(x: InternalKey, y: InternalKey)
    ensures x != y ==> Before(x, y) || Before(y, x)
    ensures !(Before(x, y) && Before(y, x))
  {}

  // ----- The iterator -----

  class Iter {
    const kids: seq<seq<Entry>>
    var pos: seq<Option<nat>>
    var current: Option<nat>
    var direction: Direction

    ghost predicate Shaped() reads this {
      Mergeable(kids) && Positions(kids, pos) && (current.Some? ==> current.value < |pos| && pos[current.value].Some?)
    }

    ghost predicate Ok() reads this {
      && Shaped()
      && (current.Some? ==> AllAtEdge(kids, pos, direction,
            if direction.Forward? then BeforeKey(CurrentKey()) else AfterKey(CurrentKey())))
    }

    function CurrentKey(): InternalKey
      requires Positions(kids, pos) && current.Some? && current.value < |pos| && pos[current.value].Some?
      reads this
    {
      ChildKey(kids, pos, current.value)
    }

    function Current(): Option<Entry>
      requires Shaped()
      reads this
    {
      EntryOf(kids, pos, current)
    }

    constructor (children: seq<seq<Entry>>)
      requires Mergeable(children)
      ensures Ok() && kids == children && Current() == None
    {
      kids, pos := children, seq(|children|, _ => None);
      current, direction := None, Forward;
    }

    method FindSmallest(ghost edge: Edge)
      requires Mergeable(kids) && Positions(kids, pos) && AllAtEdge(kids, pos, Forward, edge)
      modifies this
      ensures pos == old(pos) && direction == Forward && Ok() && LeastFrom(AllEntries(kids), edge, Current())
    {
      hide Mergeable, AllAtEdge, LeastFrom, Before;
      var smallest: Option<nat> := None;
      var i := 0;
      while i < |kids|
        invariant pos == old(pos) && i <= |kids| && IsSmallest(kids, pos, smallest, i)
      {
        smallest := ConsiderSmaller(kids, pos, smallest, i);
        i := i + 1;
      }
      SmallestIsLeast(kids, pos, smallest, edge);
      current, direction := smallest, Forward;
    }

    method FindLargest(ghost edge: Edge)
      requires Mergeable(kids) && Positions(kids, pos) && AllAtEdge(kids, pos, Reverse, edge)
      modifies this
      ensures pos == old(pos) && direction == Reverse && Ok() && GreatestUnder(AllEntries(kids), edge, Current())
    {
      hide Mergeable, AllAtEdge, GreatestUnder, Before;
      var largest: Option<nat> := None;
      var i: nat := |kids|;
      while i > 0
        invariant pos == old(pos) && i <= |kids| && IsLargest(kids, pos, largest, i)
      {
        i := i - 1;
        largest := ConsiderLarger(kids, pos, largest, i);
      }
      LargestIsGreatest(kids, pos, largest, edge);
      current, direction := largest, Reverse;
    }

    method SeekToFirst()
      requires Ok()
      modifies this
      ensures Ok() && LeastFrom(AllEntries(kids), Start, Current())
    {
      var i := 0;
      while i < |kids|
        invariant i <= |kids| && Mergeable(kids) && Positions(kids, pos)
        invariant forall a: nat :: a < i ==> AtEdge(kids[a], Cut(Forward, kids[a], pos[a]), Start)
      {
        pos := pos[i := FirstIndex(kids[i])];
        i := i + 1;
      }
      FindSmallest(Start);
    }

    method SeekToLast()
      requires Ok()
      modifies this
      ensures Ok() && GreatestUnder(AllEntries(kids), End, Current())
    {
      var i := 0;
      while i < |kids|
        invariant i <= |kids| && Mergeable(kids) && Positions(kids, pos)
        invariant forall a: nat :: a < i ==> AtEdge(kids[a], Cut(Reverse, kids[a], pos[a]), End)
      {
        pos := pos[i := LastIndex(kids[i])];
        i := i + 1;
      }
      FindLargest(End);
    }

    method Seek(target: InternalKey)
      requires Ok()
      modifies this
      ensures Ok() && LeastFrom(AllEntries(kids), BeforeKey(target), Current())
    {
      hide Before;
      var i := 0;
      while i < |kids|
        invariant i <= |kids| && Mergeable(kids) && Positions(kids, pos)
        invariant forall a: nat :: a < i ==> AtEdge(kids[a], Cut(Forward, kids[a], pos[a]), BeforeKey(target))
      {
        var p := SeekChild(kids[i], target);
        pos := pos[i := p];
        i := i + 1;
      }
      FindSmallest(BeforeKey(target));
    }

    method Next()
      requires Ok() && current.Some?
      modifies this
      ensures Ok() && LeastFrom(AllEntries(kids), AfterKey(old(CurrentKey())), Current())
    {
      hide Before, Mergeable, LeastFrom, AtEdge;
      var c, k := current.value, CurrentKey();
      if !direction.Forward? {
        var i := 0;
        while i < |kids|
          invariant i <= |kids| && Shaped() && current == Some(c) && CurrentKey() == k && pos[c] == old(pos[c])
          invariant forall a: nat :: a < i && a != c ==> AtEdge(kids[a], Cut(Forward, kids[a], pos[a]), AfterKey(k))
        {
          if i != c {
            ChildSorted(kids, i);
            var p := SeekPast(kids[i], k);
            pos := pos[i := p];
          }
          i := i + 1;
        }
        direction := Forward;
      } else {
        forall a: nat | a < |kids| && a != c ensures AtEdge(kids[a], Cut(Forward, kids[a], pos[a]), AfterKey(k)) {
          OtherChild(kids, c, pos[c].value, a, Cut(Forward, kids[a], pos[a]));
        }
      }
      ChildSorted(kids, c);
      assert PosOk(kids[c], pos[c]);
      StepCurrent(kids[c], pos[c].value);
      pos := pos[c := NextIndex(kids[c], pos[c].value)];
      FindSmallest(AfterKey(k));
    }

    method Prev()
      requires Ok() && current.Some?
      modifies this
      ensures Ok() && GreatestUnder(AllEntries(kids), BeforeKey(old(CurrentKey())), Current())
    {
      hide Before, Mergeable, GreatestUnder, AtEdge;
      var c, k := current.value, CurrentKey();
      if !direction.Reverse? {
        var i := 0;
        while i < |kids|
          invariant i <= |kids| && Shaped() && current == Some(c) && CurrentKey() == k && pos[c] == old(pos[c])
          invariant forall a: nat :: a < i && a != c ==> AtEdge(kids[a], Cut(Reverse, kids[a], pos[a]), BeforeKey(k))
        {
          if i != c {
            ChildSorted(kids, i);
            var p := SeekBack(kids[i], k);
            pos := pos[i := p];
          }
          i := i + 1;
        }
        direction := Reverse;
      } else {
        forall a: nat | a < |kids| && a != c ensures AtEdge(kids[a], Cut(Reverse, kids[a], pos[a]), BeforeKey(k)) {
          OtherChild(kids, c, pos[c].value, a, Cut(Reverse, kids[a], pos[a]));
        }
      }
      ChildSorted(kids, c);
      assert PosOk(kids[c], pos[c]);
      StepCurrent(kids[c], pos[c].value);
      pos := pos[c := PrevIndex(pos[c].value)];
      FindLargest(BeforeKey(k));
    }
  }

  lemma ChildSorted(kids: seq<seq<Entry>>, c: nat)
    requires Mergeable(kids) && c < |kids|
    ensures Sorted(kids[c])
  {}

  method ConsiderSmaller(kids: seq<seq<Entry>>, pos: seq<Option<nat>>, smallest: Option<nat>, i: nat) returns (r: Option<nat>)
    requires Positions(kids, pos) && i < |pos| && IsSmallest(kids, pos, smallest, i)
    ensures IsSmallest(kids, pos, r, i + 1)
  {
    r := smallest;
    if pos[i].Some? {
      if smallest.None? {
        r := Some(i);
      } else if Before(ChildKey(kids, pos, i), ChildKey(kids, pos, smallest.value)) {
        r := Some(i);
      }
    }
  }

  method ConsiderLarger(kids: seq<seq<Entry>>, pos: seq<Option<nat>>, largest: Option<nat>, i: nat) returns (r: Option<nat>)
    requires Positions(kids, pos) && i < |pos| && IsLargest(kids, pos, largest, i + 1)
    ensures IsLargest(kids, pos, r, i)
  {
    r := largest;
    if pos[i].Some? {
      if largest.None? {
        r := Some(i);
      } else if Before(ChildKey(kids, pos, largest.value), ChildKey(kids, pos, i)) {
        r := Some(i);
      }
    }
  }

  method SeekChild(kid: seq<Entry>, target: InternalKey) returns (p: Option<nat>)
    requires Sorted(kid)
    ensures PosOk(kid, p) && AtEdge(kid, Cut(Forward, kid, p), BeforeKey(target))
  {
    var at := SeekEntry(kid, target);
    p := if at < |kid| then Some(at) else None;
  }

  /** Seek, and step over the key if the child holds it. */
  method SeekPast(kid: seq<Entry>, k: InternalKey) returns (p: Option<nat>)
    requires Sorted(kid)
    ensures PosOk(kid, p) && AtEdge(kid, Cut(Forward, kid, p), AfterKey(k))
  {
    p := SeekChild(kid, k);
    IndexOrder(kid);
    if p.Some? && IKey(kid[p.value]) == k {
      p := NextIndex(kid, p.value);
    }
  }

  /** Seek, then step back one, or go to the last entry when nothing is at or after the key. */
  method SeekBack(kid: seq<Entry>, k: InternalKey) returns (p: Option<nat>)
    requires Sorted(kid)
    ensures PosOk(kid, p) && AtEdge(kid, Cut(Reverse, kid, p), BeforeKey(k))
  {
    p := SeekChild(kid, k);
    if p.Some? {
      p := PrevIndex(p.value);
    } else {
      p := LastIndex(kid);
    }
  }

  // ----- Walking the sorted listing -----

  /** Standing at position p of the sorted listing of the children's entries. */
  ghost predicate Follows(it: Iter, es: seq<Entry>, p: Option<nat>) reads it {
    it.Ok() && Sorted(es) && EntrySet(es) == AllEntries(it.kids) && PosOk(es, p) && it.Current() == EntryAt(es, p)
  }

  lemma FollowsStart(it: Iter, es: seq<Entry>)
    requires it.Ok() && it.Current() == None && Sorted(es) && EntrySet(es) == AllEntries(it.kids)
    ensures Follows(it, es, None)
  {}

  lemma FollowsAt(it: Iter, es: seq<Entry>, p: Option<nat>)
    requires Follows(it, es, p)
    ensures it.Shaped() && (it.current.Some? <==> p.Some?) && PosOk(es, p) && it.Current() == EntryAt(es, p)
  {}

  /** The operations are the moves of the position. */
  method WalkNext(it: Iter, ghost es: seq<Entry>, ghost p: nat)
    requires Follows(it, es, Some(p))
    modifies it
    ensures Follows(it, es, NextIndex(es, p))
  {
    it.Next();
    NextIsIndex(es, p, it.Current());
  }

  method WalkPrev(it: Iter, ghost es: seq<Entry>, ghost p: nat)
    requires Follows(it, es, Some(p))
    modifies it
    ensures Follows(it, es, PrevIndex(p))
  {
    it.Prev();
    PrevIsIndex(es, p, it.Current());
  }

  method WalkToFirst(it: Iter, ghost es: seq<Entry>, ghost p: Option<nat>)
    requires Follows(it, es, p)
    modifies it
    ensures Follows(it, es, FirstIndex(es))
  {
    it.SeekToFirst();
    EndsAreIndices(es, it.Current());
  }

  method WalkToLast(it: Iter, ghost es: seq<Entry>, ghost p: Option<nat>)
    requires Follows(it, es, p)
    modifies it
    ensures Follows(it, es, LastIndex(es))
  {
    it.SeekToLast();
    EndsAreIndices(es, it.Current());
  }

  method WalkTo(it: Iter, ghost es: seq<Entry>, ghost p: Option<nat>, target: InternalKey)
    requires Follows(it, es, p)
    modifies it
    ensures Follows(it, es, if SeekPoint(es, target) < |es| then Some(SeekPoint(es, target)) else None)
  {
    it.Seek(target);
    SeekSplits(es, target);
    SeekIsIndex(es, target, SeekPoint(es, target), it.Current());
  }

  lemma MergeableDistinct(kids: seq<seq<Entry>>)
    requires Mergeable(kids)
    ensures Distinct(AllEntries(kids))
  {
    forall x, y | x in AllEntries(kids) && y in AllEntries(kids) && x.key == y.key && Tag(x) == Tag(y) ensures x == y {
      var i: nat :| i < |kids| && x in kids[i];
      var j: nat :| j < |kids| && y in kids[j];
      TagIsKey(x, y);
      SameChild(kids, i, j, x, y);
      SortedDistinct(kids[i]);
    }
  }

  lemma SameChild(kids: seq<seq<Entry>>, i: nat, j: nat, x: Entry, y: Entry)
    requires Mergeable(kids) && i < |kids| && j < |kids| && x in kids[i] && y in kids[j] && IKey(x) == IKey(y)
    ensures i == j
  {
    assert i != j ==> Disjoined(kids[i], kids[j]);
  }

  lemma TagIsKey(x: Entry, y: Entry)
    requires x.key == y.key && Tag(x) == Tag(y)
    ensures IKey(x) == IKey(y)
  {}

  lemma ListingOf(kids: seq<seq<Entry>>) returns (es: seq<Entry>)
    requires Mergeable(kids)
    ensures Sorted(es) && EntrySet(es) == AllEntries(kids)
  {
    MergeableDistinct(kids);
    es := SortedListing(AllEntries(kids));
  }
}
