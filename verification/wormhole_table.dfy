/** The wormhole filter as values: a table is the sequence of its 4n slots, an occupied slot stands
    for an item (home bucket, fingerprint), and insert, lookup and delete are functions on tables.
    An insert is described by the list of tables it goes through, one per slot store, so that the
    same definition serves the result of a call and every state a crash can leave behind. */
module WormholeTable {
  import opened Bags
  import opened Cells

  datatype Item = Item(home: nat, fpt: nat)

  type Slots = seq<Cell>

  /** A table of n buckets whose distances fit their four bits. */
  ghost predicate Wf(s: Slots, n: nat) {
    n >= 1 && |s| == 4 * n && forall i :: 0 <= i < |s| ==> Dis(s[i]) < MAX_PROBE
  }

  /** b modulo n, for buckets before 0 as well as past the end (WrapIsMod). */
  function Wrap(b: int, n: nat): (r: nat)
    requires n >= 1
    ensures r < n
    decreases if b < 0 then n - b else b
  {
    if b < 0 then Wrap(b + n, n) else if b >= n then Wrap(b - n, n) else b
  }

  /** Position p = 4 * bucket + lane counts buckets without wrapping; Slot reduces it modulo the table. */
  function Slot(n: nat, p: int): (i: nat)
    requires n >= 1
    ensures i < 4 * n
  {
    4 * Wrap(p / 4, n) + p % 4
  }

  /** Lane j of bucket b, as a position. */
  function Pos(b: nat, j: nat): (p: nat)
    requires j < SLOTS_PER_BUCKET
    ensures p / 4 == b && p % 4 == j
  {
    4 * b + j
  }

  /** The item a used cell stands for in slot i: its home is `dis` buckets back. */
  function ItemOf(n: nat, i: nat, c: Cell): Item
    requires n >= 1 && c.Used?
  {
    Item(Wrap(i / 4 - c.dis, n), c.fpt)
  }

  ghost function SlotItems(n: nat, i: nat, c: Cell): multiset<Item>
    requires n >= 1
  {
    if c.Free? then multiset{} else multiset{ItemOf(n, i, c)}
  }

  ghost function SlotBags(s: Slots, n: nat): (ms: seq<multiset<Item>>)
    requires n >= 1
    ensures |ms| == |s| && forall i :: 0 <= i < |s| ==> ms[i] == SlotItems(n, i, s[i])
  {
    seq(|s|, i requires 0 <= i < |s| => SlotItems(n, i, s[i]))
  }

  /** The abstract contents of a table. */
  ghost function Items(s: Slots, n: nat): multiset<Item>
    requires n >= 1
  {
    Sum(SlotBags(s, n))
  }

  // ----- Insert -----

  /** The first empty position of [p, end), or end. */
  function FirstEmpty(s: Slots, n: nat, p: nat, end: nat): (r: nat)
    requires n >= 1 && |s| == 4 * n && p <= end
    ensures p <= r <= end
    decreases end - p
  {
    if p == end || s[Slot(n, p)].Free? then p else FirstEmpty(s, n, p + 1, end)
  }

  /** Whether the entry at position q may be moved up to bucket b. */
  predicate Movable(s: Slots, n: nat, b: nat, q: nat)
    requires n >= 1 && |s| == 4 * n
  {
    var c := s[Slot(n, q)];
    c.Used? && c.dis + (b - q / 4) < MAX_PROBE
  }

  /** The first movable position of [q, 4b), or 4b: furthest bucket first, lanes in order. */
  function FirstCandidate(s: Slots, n: nat, b: nat, q: nat): (r: nat)
    requires n >= 1 && |s| == 4 * n && q <= 4 * b
    ensures q <= r <= 4 * b
    ensures r < 4 * b ==> Movable(s, n, b, r)
    decreases 4 * b - q
  {
    if q == 4 * b || Movable(s, n, b, q) then q else FirstCandidate(s, n, b, q + 1)
  }

  /** Nothing before the candidate may be moved. */
  lemma {:induction false} CandidateFirst(s: Slots, n: nat, b: nat, q: nat)
    requires n >= 1 && |s| == 4 * n && q <= 4 * b
    ensures forall p :: q <= p < FirstCandidate(s, n, b, q) ==> !Movable(s, n, b, p)
    decreases 4 * b - q
  {
    hide Movable;
    if q < 4 * b && !Movable(s, n, b, q) {
      CandidateFirst(s, n, b, q + 1);
    }
  }

  /** The tables after each store of an insert, oldest first, and the value returned. */
  datatype Outcome = Outcome(states: seq<Slots>, ok: bool)

  function Final(s: Slots, o: Outcome): Slots {
    if o.states == [] then s else o.states[|o.states| - 1]
  }

  /** The store that copies the entry at position q up to the hole at position p. */
  function MoveUp(s: Slots, n: nat, q: nat, p: nat): (r: Slots)
    requires n >= 1 && |s| == 4 * n && q / 4 <= p / 4 && Movable(s, n, p / 4, q)
    ensures |r| == |s|
  {
    var c := s[Slot(n, q)];
    s[Slot(n, p) := Used(c.fpt, c.dis + (p / 4 - q / 4))]
  }

  /** Walk the hole at p back to within reach of the item's home bucket, then fill it. */
  function Dig(s: Slots, n: nat, x: Item, p: nat): Outcome
    requires n >= 1 && |s| == 4 * n && x.home <= p / 4
    decreases p
  {
    var b := p / 4;
    if b - x.home < MAX_PROBE then
      Outcome([s[Slot(n, p) := Used(x.fpt, b - x.home)]], true)
    else
      var q := FirstCandidate(s, n, b, 4 * (b - (MAX_PROBE - 1)));
      if q == 4 * b then
        Outcome([], false)
      else
        var s' := MoveUp(s, n, q, p);
        var rest := Dig(s', n, x, q);
        Outcome([s'] + rest.states, rest.ok)
  }

  function Insert(s: Slots, n: nat, x: Item): Outcome
    requires n >= 1 && |s| == 4 * n
  {
    var p := FirstEmpty(s, n, 4 * x.home, 4 * (x.home + n));
    if p == 4 * (x.home + n) then Outcome([], false) else Dig(s, n, x, p)
  }

  // ----- Lookup and delete -----

  /** Position p is one of the 16 buckets of 4 lanes that are probed for x. */
  predicate Probed(x: Item, p: nat) { x.home <= p / 4 < x.home + MAX_PROBE }

  /** Whether position p holds the item's fingerprint at its own distance from the home bucket. */
  predicate Matches(s: Slots, n: nat, x: Item, p: nat)
    requires n >= 1 && |s| == 4 * n && Probed(x, p)
  {
    s[Slot(n, p)] == Used(x.fpt, p / 4 - x.home)
  }

  ghost predicate Lookup(s: Slots, n: nat, x: Item)
    requires n >= 1 && |s| == 4 * n
  {
    exists p :: Probed(x, p) && Matches(s, n, x, p)
  }

  /** The first matching position at or after p, or the end of the probed range. */
  function FirstMatch(s: Slots, n: nat, x: Item, p: nat): (r: nat)
    requires n >= 1 && |s| == 4 * n && 4 * x.home <= p <= 4 * (x.home + MAX_PROBE)
    ensures p <= r <= 4 * (x.home + MAX_PROBE)
    ensures r < 4 * (x.home + MAX_PROBE) ==> Matches(s, n, x, r)
    ensures forall i :: p <= i < r ==> !Matches(s, n, x, i)
    decreases 4 * (x.home + MAX_PROBE) - p
  {
    if p == 4 * (x.home + MAX_PROBE) || Matches(s, n, x, p) then p else FirstMatch(s, n, x, p + 1)
  }

  /** The table after a delete, which returns true exactly when it finds a match. */
  function Delete(s: Slots, n: nat, x: Item): Slots
    requires n >= 1 && |s| == 4 * n
  {
    var p := FirstMatch(s, n, x, 4 * x.home);
    if p == 4 * (x.home + MAX_PROBE) then s else s[Slot(n, p) := Free]
  }

  // ----- Arithmetic of wrapped buckets -----

  lemma ModUnique(x: int, q: int, r: int, n: nat)
    requires n >= 1 && x == q * n + r && 0 <= r < n
    ensures x % n == r
  {
    assert (x / n - q) * n == r - x % n;
    if x / n > q {
      MulGrows(x / n - q, n);
    } else if x / n < q {
      MulGrows(q - x / n, n);
    }
  }

  lemma MulGrows(d: nat, n: nat) requires d >= 1 ensures d * n >= n {}

  lemma ModTurn(b: int, n: nat)
    requires n >= 1
    ensures (b + n) % n == b % n
  {
    ModUnique(b + n, b / n + 1, b % n, n);
  }

  /** The ring arithmetic is the code's MOD. */
  lemma {:induction false} WrapIsMod(b: int, n: nat)
    requires n >= 1
    ensures Wrap(b, n) == b % n
    decreases if b < 0 then n - b else b
  {
    if b < 0 {
      WrapIsMod(b + n, n);
      ModTurn(b, n);
    } else if b >= n {
      WrapIsMod(b - n, n);
      ModTurn(b - n, n);
    } else {
      ModUnique(b, 0, b, n);
    }
  }

  lemma WrapTurn(b: int, n: nat)
    requires n >= 1
    ensures Wrap(b + n, n) == Wrap(b, n)
  {}

  /** Wrapping in the middle of a walk does not change where it ends. */
  lemma {:induction false} WrapWalk(b: int, d: int, n: nat)
    requires n >= 1
    ensures Wrap(Wrap(b, n) + d, n) == Wrap(b + d, n)
    decreases if b < 0 then n - b else b
  {
    if b < 0 {
      WrapWalk(b + n, d, n);
      WrapTurn(b + d, n);
    } else if b >= n {
      WrapWalk(b - n, d, n);
      WrapTurn(b - n + d, n);
    }
  }

  /** Stepping d buckets on from home and d buckets back from b are inverse walks on the ring. */
  lemma RingWalk(b: nat, home: nat, d: nat, n: nat)
    requires b < n && home < n
    ensures Wrap(b - d, n) == home <==> Wrap(home + d, n) == b
  {
    WrapWalk(b - d, d, n);
    WrapWalk(home + d, 0 - d, n);
  }

  /** Positions less than a whole table apart are different slots. */
  lemma SlotInjective(n: nat, p: int, q: int)
    requires n >= 1 && p / 4 <= q / 4 < p / 4 + n && p != q
    ensures Slot(n, p) != Slot(n, q)
  {
    WrapWalk(p / 4, q / 4 - p / 4, n);
  }

  /** Every slot is reached from any starting bucket within one turn of the ring. */
  lemma SlotReached(n: nat, home: nat, i: nat) returns (p: nat)
    requires i < 4 * n && home < n
    ensures 4 * home <= p < 4 * (home + n) && Slot(n, p) == i
  {
    if home <= i / 4 {
      p := i;
    } else {
      p := i + 4 * n;
      assert p / 4 == i / 4 + n && p % 4 == i % 4;
      WrapTurn(i / 4, n);
    }
  }

  // ----- Contents under stores -----

  /** A store exchanges the item of one slot and touches nothing else. */
  lemma ItemsUpdate(s: Slots, n: nat, i: nat, c: Cell)
    requires n >= 1 && i < |s|
    ensures Items(s[i := c], n) + SlotItems(n, i, s[i]) == Items(s, n) + SlotItems(n, i, c)
  {
    SumUpdate(SlotBags(s, n), i, SlotItems(n, i, c));
    assert SlotBags(s[i := c], n) == SlotBags(s, n)[i := SlotItems(n, i, c)];
  }

  ghost predicate Holds(s: Slots, n: nat, i: nat, x: Item)
    requires n >= 1 && i < |s|
  {
    s[i].Used? && ItemOf(n, i, s[i]) == x
  }

  lemma ItemsMember(s: Slots, n: nat, x: Item)
    requires n >= 1
    ensures x in Items(s, n) <==> exists i :: 0 <= i < |s| && Holds(s, n, i, x)
  {
    SumMember(SlotBags(s, n), x);
    if i :| 0 <= i < |s| && Holds(s, n, i, x) {
      assert x in SlotBags(s, n)[i];
    }
    if i :| 0 <= i < |s| && x in SlotBags(s, n)[i] {
      assert Holds(s, n, i, x);
    }
  }

  // ----- Lookup is exact, delete removes one copy -----

  lemma MatchesIsItem(s: Slots, n: nat, x: Item, p: nat)
    requires Wf(s, n) && x.home < n && Probed(x, p) && Matches(s, n, x, p)
    ensures Holds(s, n, Slot(n, p), x)
  {
    WrapWalk(p / 4, x.home - p / 4, n);
  }

  lemma ItemMatches(s: Slots, n: nat, x: Item, i: nat)
    requires Wf(s, n) && x.home < n && i < |s| && Holds(s, n, i, x)
    ensures var p := 4 * (x.home + s[i].dis) + i % 4; Probed(x, p) && Matches(s, n, x, p)
  {
    RingWalk(i / 4, x.home, s[i].dis, n);
    assert Dis(s[i]) < MAX_PROBE;
    assert Slot(n, 4 * (x.home + s[i].dis) + i % 4) == i;
  }

  /** Lookup answers exactly membership in the contents. */
  lemma LookupIff(s: Slots, n: nat, x: Item)
    requires Wf(s, n) && x.home < n
    ensures Lookup(s, n, x) <==> x in Items(s, n)
  {
    ItemsMember(s, n, x);
    if Lookup(s, n, x) {
      var p :| Probed(x, p) && Matches(s, n, x, p);
      MatchesIsItem(s, n, x, p);
    }
    if x in Items(s, n) {
      var i :| 0 <= i < |s| && Holds(s, n, i, x);
      ItemMatches(s, n, x, i);
    }
  }

  /** Delete finds the item exactly when it is present. */
  lemma DeleteFinds(s: Slots, n: nat, x: Item)
    requires Wf(s, n) && x.home < n
    ensures FirstMatch(s, n, x, 4 * x.home) < 4 * (x.home + MAX_PROBE) <==> x in Items(s, n)
  {
    LookupIff(s, n, x);
  }

  /** Delete removes one copy of the item, if there is one. */
  lemma DeleteItems(s: Slots, n: nat, x: Item)
    requires Wf(s, n) && x.home < n
    ensures Wf(Delete(s, n, x), n)
    ensures Items(Delete(s, n, x), n) == Items(s, n) - multiset{x}
  {
    DeleteFinds(s, n, x);
    var p := FirstMatch(s, n, x, 4 * x.home);
    if p < 4 * (x.home + MAX_PROBE) {
      MatchesIsItem(s, n, x, p);
      ClearItems(s, n, x, Slot(n, p));
    } else {
      RemoveAbsent(Items(s, n), x);
    }
  }

  lemma ClearItems(s: Slots, n: nat, x: Item, i: nat)
    requires Wf(s, n) && i < |s| && Holds(s, n, i, x)
    ensures Wf(s[i := Free], n) && Items(s[i := Free], n) == Items(s, n) - multiset{x}
  {
    ItemsUpdate(s, n, i, Free);
    RemoveOne(Items(s[i := Free], n), Items(s, n), x);
  }

  // ----- Insert -----

  ghost predicate UsedAt(s: Slots, n: nat, p: int)
    requires n >= 1 && |s| == 4 * n
  {
    s[Slot(n, p)].Used?
  }

  /** No empty slot from the home bucket up to position p. */
  ghost predicate Full(s: Slots, n: nat, home: nat, p: nat)
    requires n >= 1 && |s| == 4 * n
  {
    forall q :: 4 * home <= q < p ==> UsedAt(s, n, q)
  }

  lemma {:induction false} FirstEmptyFull(s: Slots, n: nat, p: nat, end: nat)
    requires n >= 1 && |s| == 4 * n && p <= end
    ensures var r := FirstEmpty(s, n, p, end);
      && (r < end ==> s[Slot(n, r)].Free?)
      && forall q :: p <= q < r ==> UsedAt(s, n, q)
    decreases end - p
  {
    hide Wrap, Slot;
    if p != end && s[Slot(n, p)].Used? {
      FirstEmptyFull(s, n, p + 1, end);
    }
  }

  /** The contents with the hole at position p left out: what a relocation never changes. */
  ghost function Base(s: Slots, n: nat, p: nat): multiset<Item>
    requires n >= 1 && |s| == 4 * n
  {
    Items(s[Slot(n, p) := Free], n)
  }

  ghost predicate Duplicates(base: multiset<Item>, m: multiset<Item>, x: Item) {
    x in base && m == base + multiset{x}
  }

  /** m is `base` with one of its own items counted once more. */
  ghost predicate OneDuplicate(base: multiset<Item>, m: multiset<Item>) {
    exists x :: Duplicates(base, m, x)
  }

  /** Filling the hole adds exactly the item written. */
  lemma FillHole(s: Slots, n: nat, p: nat, c: Cell)
    requires Wf(s, n) && c.Used? && c.dis < MAX_PROBE
    ensures Wf(s[Slot(n, p) := c], n)
    ensures Items(s[Slot(n, p) := c], n) == Base(s, n, p) + multiset{ItemOf(n, Slot(n, p), c)}
  {
    var i := Slot(n, p);
    ItemsUpdate(s, n, i, Free);
    ItemsUpdate(s, n, i, c);
    Exchange(Base(s, n, p), Items(s[i := c], n), Items(s, n), SlotItems(n, i, s[i]), SlotItems(n, i, c));
  }

  /** The copy made by a relocation stands for the same item as its source. */
  lemma MoveUpSameItem(n: nat, c: Cell, q: nat, p: nat)
    requires n >= 1 && c.Used? && q / 4 <= p / 4
    ensures ItemOf(n, Slot(n, p), Used(c.fpt, c.dis + (p / 4 - q / 4))) == ItemOf(n, Slot(n, q), c)
  {
    WrapWalk(p / 4, 0 - (c.dis + (p / 4 - q / 4)), n);
    WrapWalk(q / 4, 0 - c.dis, n);
  }

  lemma MoveUpFull(s: Slots, n: nat, home: nat, q: nat, p: nat)
    requires Wf(s, n) && 4 * home <= q < 4 * (p / 4) && p < 4 * (home + n)
    requires Full(s, n, home, p) && Movable(s, n, p / 4, q)
    ensures Full(MoveUp(s, n, q, p), n, home, q)
  {
    var s' := MoveUp(s, n, q, p);
    forall r | 4 * home <= r < q ensures UsedAt(s', n, r) {
      assert UsedAt(s, n, r);
      SlotInjective(n, r, p);
    }
  }

  /** Clearing the source of a copy gives what clearing its target before the copy gave. */
  lemma CopyKeepsBase(s: Slots, n: nat, i: nat, j: nat, u: Cell)
    requires Wf(s, n) && i < |s| && j < |s| && i != j && s[j].Used? && u.Used?
    requires ItemOf(n, i, u) == ItemOf(n, j, s[j])
    requires Items(s[i := u], n) == Items(s[i := Free], n) + multiset{ItemOf(n, i, u)}
    ensures Items(s[i := u][j := Free], n) == Items(s[i := Free], n)
    ensures ItemOf(n, j, s[j]) in Items(s[i := Free], n)
  {
    var x := ItemOf(n, j, s[j]);
    ItemsUpdate(s[i := u], n, j, Free);
    SameRest(Items(s[i := u][j := Free], n), Items(s[i := Free], n), Items(s[i := u], n), multiset{x});
    ItemsMember(s[i := Free], n, x);
    assert Holds(s[i := Free], n, j, x);
  }

  /** One relocation: the moved entry keeps its home, the copy is a duplicate until the source is
      overwritten, and the source slot becomes the new hole. */
  lemma MoveUpKeepsBase(s: Slots, n: nat, home: nat, q: nat, p: nat)
    requires Wf(s, n) && 4 * home <= q < 4 * (p / 4) && p < 4 * (home + n)
    requires Movable(s, n, p / 4, q)
    ensures var s' := MoveUp(s, n, q, p);
      && Wf(s', n)
      && Base(s', n, q) == Base(s, n, p)
      && OneDuplicate(Base(s, n, p), Items(s', n))
  {
    hide Items, Wrap, ItemOf;
    var c := s[Slot(n, q)];
    var u := Used(c.fpt, c.dis + (p / 4 - q / 4));
    FillHole(s, n, p, u);
    MoveUpSameItem(n, c, q, p);
    SlotInjective(n, q, p);
    CopyKeepsBase(s, n, Slot(n, p), Slot(n, q), u);
    assert MoveUp(s, n, q, p) == s[Slot(n, p) := u];
    assert Duplicates(Base(s, n, p), Items(s[Slot(n, p) := u], n), ItemOf(n, Slot(n, q), c));
  }

  /** A table on the way holds the base plus one duplicate of it; the last table of a successful
      dig holds the base plus the new item. */
  ghost predicate DigState(base: multiset<Item>, n: nat, x: Item, s: Slots, done: bool)
    requires n >= 1
  {
    Wf(s, n) && if done then Items(s, n) == base + multiset{x} else OneDuplicate(base, Items(s, n))
  }

  ghost predicate DigStates(base: multiset<Item>, n: nat, x: Item, o: Outcome)
    requires n >= 1
  {
    && (o.ok ==> |o.states| > 0)
    && forall k :: 0 <= k < |o.states| ==> DigState(base, n, x, o.states[k], o.ok && k == |o.states| - 1)
  }

  lemma DigStatesPrepend(base: multiset<Item>, n: nat, x: Item, s: Slots, rest: Outcome)
    requires n >= 1 && DigState(base, n, x, s, false) && DigStates(base, n, x, rest)
    ensures DigStates(base, n, x, Outcome([s] + rest.states, rest.ok))
  {
    var o := Outcome([s] + rest.states, rest.ok);
    forall k | 0 <= k < |o.states| ensures DigState(base, n, x, o.states[k], o.ok && k == |o.states| - 1) {
      if k > 0 {
        assert o.states[k] == rest.states[k - 1];
      }
    }
  }

  lemma FillHoleWithItem(s: Slots, n: nat, x: Item, p: nat)
    requires Wf(s, n) && x.home < n && x.home <= p / 4 < x.home + MAX_PROBE
    ensures DigState(Base(s, n, p), n, x, s[Slot(n, p) := Used(x.fpt, p / 4 - x.home)], true)
  {
    hide Items;
    FillHole(s, n, p, Used(x.fpt, p / 4 - x.home));
    WrapWalk(p / 4, x.home - p / 4, n);
  }

  lemma {:induction false} DigItems(s: Slots, n: nat, x: Item, p: nat)
    requires Wf(s, n) && x.home < n && 4 * x.home <= p < 4 * (x.home + n) && Full(s, n, x.home, p)
    ensures DigStates(Base(s, n, p), n, x, Dig(s, n, x, p))
    decreases p
  {
    hide Items, Wrap, FirstCandidate;
    var b := p / 4;
    if b - x.home < MAX_PROBE {
      FillHoleWithItem(s, n, x, p);
      assert Dig(s, n, x, p) == Outcome([s[Slot(n, p) := Used(x.fpt, b - x.home)]], true);
    } else {
      var q := FirstCandidate(s, n, b, 4 * (b - (MAX_PROBE - 1)));
      if q < 4 * b {
        var s' := MoveUp(s, n, q, p);
        MoveUpKeepsBase(s, n, x.home, q, p);
        MoveUpFull(s, n, x.home, q, p);
        DigItems(s', n, x, q);
        DigStatesPrepend(Base(s, n, p), n, x, s', Dig(s', n, x, q));
        assert Dig(s, n, x, p) == Outcome([s'] + Dig(s', n, x, q).states, Dig(s', n, x, q).ok);
      }
    }
  }

  /** Insert refines multiset insertion.  On success exactly one copy of the item is added; on
      failure nothing is lost and at most one item already present is counted once more.  The same
      holds after every store on the way: no item is ever missing. */
  lemma InsertItems(s: Slots, n: nat, x: Item)
    requires Wf(s, n) && x.home < n
    ensures DigStates(Items(s, n), n, x, Insert(s, n, x))
  {
    hide Dig, FirstEmpty;
    var p := FirstEmpty(s, n, 4 * x.home, 4 * (x.home + n));
    FirstEmptyFull(s, n, 4 * x.home, 4 * (x.home + n));
    if p < 4 * (x.home + n) {
      InsertAtItems(s, n, x, p);
    }
  }

  lemma InsertAtItems(s: Slots, n: nat, x: Item, p: nat)
    requires Wf(s, n) && x.home < n && 4 * x.home <= p < 4 * (x.home + n)
    requires Full(s, n, x.home, p) && s[Slot(n, p)].Free?
    ensures DigStates(Items(s, n), n, x, Dig(s, n, x, p))
  {
    DigItems(s, n, x, p);
    assert s[Slot(n, p) := Free] == s;
  }

  /** A table with a free slot never fails for lack of one: the scan from any home bucket finds it. */
  lemma FirstEmptyFound(s: Slots, n: nat, home: nat)
    requires Wf(s, n) && home < n && |Items(s, n)| < 4 * n
    ensures FirstEmpty(s, n, 4 * home, 4 * (home + n)) < 4 * (home + n)
  {
    var i := FreeSlot(s, n);
    var p := SlotReached(n, home, i);
    FirstEmptyFull(s, n, 4 * home, 4 * (home + n));
    assert !UsedAt(s, n, p);
  }

  lemma FreeSlot(s: Slots, n: nat) returns (i: nat)
    requires Wf(s, n) && |Items(s, n)| < 4 * n
    ensures i < |s| && s[i].Free?
  {
    var ms := SlotBags(s, n);
    SumSize(ms);
    i :| 0 <= i < |s| && |ms[i]| != 1;
  }

  /** With at most 16 buckets every free slot is within reach, so insert fails only on a full table. */
  lemma SmallTableInsert(s: Slots, n: nat, x: Item)
    requires Wf(s, n) && x.home < n && n <= MAX_PROBE && |Items(s, n)| < 4 * n
    ensures Insert(s, n, x).ok
  {
    hide FirstEmpty, FirstCandidate, Wrap, Items;
    FirstEmptyFound(s, n, x.home);
  }
}
