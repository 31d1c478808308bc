/** Tables filled by inserts alone, as a filter policy fills them: which lists of items fit, and which
    items a lookup then misses. */
module WormholeCrowding {
  import opened Cells
  import opened WormholeTable
  import opened WormholeFilter

  // ----- Filling a table -----

  ghost predicate ItemsOk(items: seq<Item>, n: nat) { forall i :: 0 <= i < |items| ==> items[i].home < n }

  /** The table after inserting the items in order, results ignored. */
  function Fill(n: nat, items: seq<Item>): (s: seq<Cell>)
    requires n >= 1 && ItemsOk(items, n)
    ensures Wf(s, n)
    decreases |items|
  {
    if items == [] then
      seq(4 * n, _ => Free)
    else
      var k := |items| - 1;
      var s := Fill(n, items[..k]);
      InsertItems(s, n, items[k]);
      Final(s, Insert(s, n, items[k]))
  }

  /** Whether the i-th insert returned true. */
  ghost predicate Inserted(n: nat, items: seq<Item>, i: nat)
    requires n >= 1 && ItemsOk(items, n) && i < |items|
  {
    Insert(Fill(n, items[..i]), n, items[i]).ok
  }

  ghost predicate SomeInserted(n: nat, items: seq<Item>, x: Item)
    requires n >= 1 && ItemsOk(items, n)
  {
    exists j :: 0 <= j < |items| && items[j] == x && Inserted(n, items, j)
  }

  lemma InsertMember(s: seq<Cell>, n: nat, x: Item, y: Item)
    requires Wf(s, n) && x.home < n
    ensures var o := Insert(s, n, x);
      && Wf(Final(s, o), n)
      && (y in Items(Final(s, o), n) <==> y in Items(s, n) || (o.ok && y == x))
      && |Items(Final(s, o), n)| <= |Items(s, n)| + 1
  {
    hide Items, Insert;
    InsertItems(s, n, x);
  }

  lemma {:induction false} FillMember(n: nat, items: seq<Item>, x: Item)
    requires n >= 1 && ItemsOk(items, n)
    ensures x in Items(Fill(n, items), n) <==> SomeInserted(n, items, x)
    decreases |items|
  {
    hide Items, Insert;
    if items == [] {
      NoItems(Fill(n, items), n);
    } else {
      var k := |items| - 1;
      var init := items[..k];
      FillMember(n, init, x);
      InsertMember(Fill(n, init), n, items[k], x);
      assert forall j :: 0 <= j < k ==> init[..j] == items[..j];
      assert SomeInserted(n, items, x) <==> SomeInserted(n, init, x) || (items[k] == x && Inserted(n, items, k));
    }
  }

  lemma {:induction false} FillSize(n: nat, items: seq<Item>)
    requires n >= 1 && ItemsOk(items, n)
    ensures |Items(Fill(n, items), n)| <= |items|
    decreases |items|
  {
    hide Items, Insert;
    if items == [] {
      NoItems(Fill(n, items), n);
    } else {
      var k := |items| - 1;
      FillSize(n, items[..k]);
      InsertMember(Fill(n, items[..k]), n, items[k], items[k]);
    }
  }

  lemma FillNothing(n: nat) requires n >= 1 ensures Fill(n, []) == seq(4 * n, _ => Free) {}

  lemma FillStep(n: nat, items: seq<Item>, i: nat)
    requires n >= 1 && ItemsOk(items, n) && i < |items|
    ensures var s := Fill(n, items[..i]); Fill(n, items[..i + 1]) == Final(s, Insert(s, n, items[i]))
  {
    assert items[..i + 1][..i] == items[..i];
  }

  // ----- Counting the items of an arc of home buckets -----

  /** Bucket h is one of the k ring buckets a, a + 1, ... */
  predicate InArc(h: nat, n: nat, a: nat, k: nat)
    requires n >= 1
  {
    Wrap(h - a, n) < k
  }

  /** The number of items whose home is among the k ring buckets from a on. */
  function HomesIn(items: seq<Item>, n: nat, a: nat, k: nat): nat
    requires n >= 1
  {
    if items == [] then 0
    else HomesIn(items[..|items| - 1], n, a, k) + if InArc(items[|items| - 1].home, n, a, k) then 1 else 0
  }

  /** The part of a bag whose homes are in the arc. */
  ghost function Part(m: multiset<Item>, n: nat, a: nat, k: nat): (r: multiset<Item>)
    requires n >= 1
    ensures forall y :: r[y] == if InArc(y.home, n, a, k) then m[y] else 0
    decreases |m|
  {
    if m == multiset{} then
      multiset{}
    else
      var x :| x in m;
      var rest := Part(m - multiset{x}, n, a, k);
      if InArc(x.home, n, a, k) then rest + multiset{x} else rest
  }

  lemma PartAdd(m: multiset<Item>, x: Item, n: nat, a: nat, k: nat)
    requires n >= 1
    ensures |Part(m + multiset{x}, n, a, k)| == |Part(m, n, a, k)| + if InArc(x.home, n, a, k) then 1 else 0
  {
    hide InArc, Part;
    if InArc(x.home, n, a, k) {
      assert Part(m + multiset{x}, n, a, k) == Part(m, n, a, k) + multiset{x};
    } else {
      assert Part(m + multiset{x}, n, a, k) == Part(m, n, a, k);
    }
  }

  lemma {:induction false} PartOfList(items: seq<Item>, n: nat, a: nat, k: nat)
    requires n >= 1
    ensures |Part(multiset(items), n, a, k)| == HomesIn(items, n, a, k)
    decreases |items|
  {
    hide InArc, Part;
    if items == [] {
      assert Part(multiset(items), n, a, k) == multiset{};
    } else {
      var j := |items| - 1;
      PartOfList(items[..j], n, a, k);
      assert items == items[..j] + [items[j]];
      PartAdd(multiset(items[..j]), items[j], n, a, k);
    }
  }

  lemma {:induction false} HomesGrow(items: seq<Item>, i: nat, n: nat, a: nat, k: nat)
    requires n >= 1 && i <= |items|
    ensures HomesIn(items[..i], n, a, k) <= HomesIn(items, n, a, k)
    decreases |items|
  {
    if i < |items| {
      var j := |items| - 1;
      HomesGrow(items[..j], i, n, a, k);
      assert items[..j][..i] == items[..i];
    } else {
      assert items[..i] == items;
    }
  }

  /** The slot of position u holds an item of the arc. */
  ghost predicate ArcAt(s: Slots, n: nat, u: int, a: nat, k: nat)
    requires n >= 1 && |s| == 4 * n
  {
    var i := Slot(n, u);
    s[i].Used? && InArc(ItemOf(n, i, s[i]).home, n, a, k)
  }

  ghost function Share(s: Slots, n: nat, a: nat, k: nat): nat
    requires n >= 1
  {
    |Part(Items(s, n), n, a, k)|
  }

  /** Clearing a slot of the arc takes one item out of the count. */
  lemma ClearShare(s: Slots, n: nat, u: int, a: nat, k: nat)
    requires Wf(s, n) && ArcAt(s, n, u, a, k)
    ensures var s' := s[Slot(n, u) := Free]; Wf(s', n) && Share(s, n, a, k) == Share(s', n, a, k) + 1
  {
    hide Items, InArc, Slot, ItemOf, Part;
    var i := Slot(n, u);
    var x := ItemOf(n, i, s[i]);
    ClearItems(s, n, x, i);
    assert x in Items(s, n) by {
      ItemsMember(s, n, x);
      assert Holds(s, n, i, x);
    }
    PartAdd(Items(s[i := Free], n), x, n, a, k);
    assert Items(s, n) - multiset{x} + multiset{x} == Items(s, n);
  }

  /** c distinct positions that all hold items of the arc: the arc has at least c items. */
  lemma {:induction false} ShareAtLeast(s: Slots, n: nat, from: int, c: nat, a: nat, k: nat)
    requires Wf(s, n) && (from + c) / 4 < from / 4 + n
    requires forall u :: from <= u < from + c ==> ArcAt(s, n, u, a, k)
    ensures Share(s, n, a, k) >= c
    decreases c
  {
    hide Share, InArc, Slot, ItemOf;
    if c > 0 {
      var s' := s[Slot(n, from) := Free];
      ClearShare(s, n, from, a, k);
      forall u | from + 1 <= u < from + c ensures ArcAt(s', n, u, a, k) {
        assert ArcAt(s, n, u, a, k);
        SlotInjective(n, from, u);
      }
      ShareAtLeast(s', n, from + 1, c - 1, a, k);
    }
  }

  /** Every slot with an item of the arc is one of the c positions starting at `from`. */
  ghost predicate ArcWithin(s: Slots, n: nat, from: int, c: nat, a: nat, k: nat)
    requires n >= 1 && |s| == 4 * n
  {
    forall i: nat :: i < 4 * n && ArcAt(s, n, i, a, k) ==> Within(n, i, from, c)
  }

  ghost predicate Within(n: nat, i: nat, from: int, c: nat)
    requires n >= 1
  {
    exists u :: from <= u < from + c && Slot(n, u) == i
  }

  lemma SlotSelf(n: nat, i: nat) requires i < 4 * n ensures Slot(n, i) == i {}

  lemma {:induction false} ShareAtMost(s: Slots, n: nat, from: int, c: nat, a: nat, k: nat)
    requires Wf(s, n) && ArcWithin(s, n, from, c, a, k)
    ensures Share(s, n, a, k) <= c
    decreases c
  {
    hide Share, ArcWithin;
    if c == 0 {
      NoShare(s, n, from, a, k);
    } else {
      ShrinkWithin(s, n, from, c, a, k);
      if ArcAt(s, n, from, a, k) {
        ClearShare(s, n, from, a, k);
        ShareAtMost(s[Slot(n, from) := Free], n, from + 1, c - 1, a, k);
      } else {
        ShareAtMost(s, n, from + 1, c - 1, a, k);
      }
    }
  }

  lemma ShrinkWithin(s: Slots, n: nat, from: int, c: nat, a: nat, k: nat)
    requires Wf(s, n) && c > 0 && ArcWithin(s, n, from, c, a, k)
    ensures ArcWithin(if ArcAt(s, n, from, a, k) then s[Slot(n, from) := Free] else s, n, from + 1, c - 1, a, k)
  {
    hide InArc, Slot, ItemOf;
    var s' := if ArcAt(s, n, from, a, k) then s[Slot(n, from) := Free] else s;
    forall i: nat | i < 4 * n && ArcAt(s', n, i, a, k) ensures Within(n, i, from + 1, c - 1) {
      SlotSelf(n, i);
      assert ArcAt(s, n, i, a, k);
      var u :| from <= u < from + c && Slot(n, u) == i;
      assert u != from;
    }
  }

  lemma NotInArc(s: Slots, n: nat, from: int, i: nat, a: nat, k: nat)
    requires Wf(s, n) && ArcWithin(s, n, from, 0, a, k) && i < 4 * n
    ensures !ArcAt(s, n, i, a, k)
  {}

  lemma NoShare(s: Slots, n: nat, from: int, a: nat, k: nat)
    requires Wf(s, n) && ArcWithin(s, n, from, 0, a, k)
    ensures Share(s, n, a, k) == 0
  {
    hide InArc, Slot, ItemOf, Part, Items;
    forall y: Item ensures Part(Items(s, n), n, a, k)[y] == 0 {
      if y in Items(s, n) && InArc(y.home, n, a, k) {
        ItemsMember(s, n, y);
        var i :| 0 <= i < |s| && Holds(s, n, i, y);
        SlotSelf(n, i);
        NotInArc(s, n, from, i, a, k);
        assert false;
      }
    }
    assert Part(Items(s, n), n, a, k) == multiset{};
  }

  // ----- With inserts only, an entry has no empty slot between its home bucket and itself -----

  /** The first position of the home bucket of what is at p. */
  ghost function HomePos(s: Slots, n: nat, p: int): int
    requires n >= 1 && |s| == 4 * n
  {
    4 * (p / 4 - Dis(s[Slot(n, p)]))
  }

  ghost predicate CoveredAt(s: Slots, n: nat, p: int, u: int)
    requires n >= 1 && |s| == 4 * n
  {
    UsedAt(s, n, p) && HomePos(s, n, p) <= u <= p ==> UsedAt(s, n, u)
  }

  ghost predicate Covered(s: Slots, n: nat)
    requires n >= 1 && |s| == 4 * n
  {
    forall i: nat, u: int :: i < 4 * n ==> CoveredAt(s, n, i, u)
  }

  lemma SlotTurn(n: nat, p: int)
    requires n >= 1
    ensures Slot(n, p + 4 * n) == Slot(n, p)
  {
    WrapTurn(p / 4, n);
  }

  /** One turn further on the same holds. */
  lemma CoveredTurn(s: Slots, n: nat, p: int, u: int)
    requires Wf(s, n)
    ensures CoveredAt(s, n, p, u) <==> CoveredAt(s, n, p + 4 * n, u + 4 * n)
  {
    hide Slot;
    SlotTurn(n, p);
    SlotTurn(n, u);
  }

  lemma CoveredNear(s: Slots, n: nat, p: int, u: int)
    requires Wf(s, n) && Covered(s, n) && -4 * n <= p < 8 * n
    ensures CoveredAt(s, n, p, u)
  {
    hide CoveredAt;
    if p < 0 {
      CoveredTurn(s, n, p, u);
      assert CoveredAt(s, n, (p + 4 * n) as nat, u + 4 * n);
    } else if p < 4 * n {
      assert CoveredAt(s, n, p as nat, u);
    } else {
      CoveredTurn(s, n, p - 4 * n, u - 4 * n);
      assert CoveredAt(s, n, (p - 4 * n) as nat, u - 4 * n);
    }
  }

  // ----- The run of used slots an insert works in -----

  /** Position u is used, by an entry whose home is not before r. */
  ghost predicate InRun(s: Slots, n: nat, r: int, u: int)
    requires n >= 1 && |s| == 4 * n
  {
    UsedAt(s, n, u) && r <= HomePos(s, n, u)
  }

  /** All of r .. end is such, apart from the hole. */
  ghost predicate IsRun(s: Slots, n: nat, r: int, end: int, hole: int)
    requires n >= 1 && |s| == 4 * n
  {
    forall u :: r <= u <= end && u != hole ==> InRun(s, n, r, u)
  }

  /** The tables agree on the rest of the ring. */
  ghost predicate AgreeOutside(s: Slots, t: Slots, n: nat, r: int, end: int)
    requires n >= 1 && |s| == 4 * n && |t| == 4 * n
  {
    forall u :: end - 4 * n < u < r ==> s[Slot(n, u)] == t[Slot(n, u)]
  }

  /** How far back the used slots before p reach. */
  ghost function RunStart(s: Slots, n: nat, p: int, room: nat): (r: int)
    requires n >= 1 && |s| == 4 * n
    ensures p - room <= r <= p
    ensures forall u :: r <= u < p ==> UsedAt(s, n, u)
    ensures r == p - room || !UsedAt(s, n, r - 1)
    decreases room
  {
    if room == 0 || !UsedAt(s, n, p - 1) then p else RunStart(s, n, p - 1, room - 1)
  }

  lemma StartOfRun(s: Slots, n: nat, home: nat, end: nat) returns (r: int)
    requires Wf(s, n) && Covered(s, n) && home < n && 4 * home <= end < 4 * (home + n)
    requires Full(s, n, home, end) && s[Slot(n, end)].Free?
    ensures end - 4 * n < r <= 4 * home && IsRun(s, n, r, end, end)
  {
    hide Slot, Covered;
    r := RunStart(s, n, end, 4 * n - 1);
    SlotTurn(n, end - 4 * n);
    forall u | r <= u < end ensures InRun(s, n, r, u) {
      CoveredNear(s, n, u, r - 1);
    }
  }

  /** Positions of one turn of the ring are different slots. */
  lemma Apart(n: nat, p: int, q: int)
    requires n >= 1 && p < q < p + 4 * n
    ensures Slot(n, p) != Slot(n, q)
  {
    if q / 4 < p / 4 + n {
      SlotInjective(n, p, q);
    } else {
      SlotTurn(n, p);
      assert q / 4 == p / 4 + n && q % 4 < p % 4;
      WrapTurn(p / 4, n);
    }
  }

  /** A store in the run leaves the rest of the run and of the ring alone. */
  lemma StoreInRun(s: Slots, n: nat, r: int, end: int, p: int, c: Cell, hole: int)
    requires Wf(s, n) && end - 4 * n < r <= p <= end && IsRun(s, n, r, end, p)
    requires c.Used? && c.dis < MAX_PROBE && r <= 4 * (p / 4 - c.dis)
    ensures var t := s[Slot(n, p) := c]; IsRun(t, n, r, end, hole) && AgreeOutside(t, s, n, r, end)
  {
    hide Slot;
    var t := s[Slot(n, p) := c];
    forall u | r <= u <= end && u != hole ensures InRun(t, n, r, u) {
      if u < p {
        Apart(n, u, p);
        assert InRun(s, n, r, u);
      } else if u > p {
        Apart(n, p, u);
        assert InRun(s, n, r, u);
      }
    }
    forall u | end - 4 * n < u < r ensures t[Slot(n, u)] == s[Slot(n, u)] {
      Apart(n, u, p);
    }
  }

  lemma {:induction false} NoCandidate(s: Slots, n: nat, b: nat, q: nat, u: nat)
    requires n >= 1 && |s| == 4 * n && q <= u < 4 * b && FirstCandidate(s, n, b, q) == 4 * b
    ensures !Movable(s, n, b, u)
    decreases 4 * b - q
  {
    hide Slot;
    FirstCandidateStep(s, n, b, q);
    if q < u {
      NoCandidate(s, n, b, q + 1, u);
    }
  }

  // ----- A dig that fails has one item too many -----

  /** The first bucket that begins at or after position r. */
  function BucketFrom(r: int): (a: int)
    ensures 4 * a - 4 < r <= 4 * a
  {
    (r + 3) / 4
  }

  lemma ArcOfLine(h: int, a: int, n: nat, k: nat)
    requires n >= 1 && a <= h < a + k && k <= n
    ensures InArc(Wrap(h, n), n, Wrap(a, n), k)
  {
    WrapDifference(h, a, n);
  }

  lemma WrapDifference(h: int, a: int, n: nat)
    requires n >= 1 && a <= h < a + n
    ensures Wrap(Wrap(h, n) - Wrap(a, n), n) == h - a
  {
    hide Wrap;
    WrapIsMod(h, n);
    WrapIsMod(a, n);
    WrapIsMod(Wrap(h, n) - Wrap(a, n), n);
    var qh, qa := h / n, a / n;
    assert h == qh * n + h % n && a == qa * n + a % n;
    assert (qh - qa) * n == qh * n - qa * n;
    ModUnique(h % n - a % n, qa - qh, h - a, n);
  }

  /** The crowd around a hole in bucket b that nothing can be moved into: buckets a .. b - 1 are full of
      items whose homes are all in a .. b - 16. */
  lemma StuckCrowd(s: Slots, n: nat, x: Item, r: int, end: int, p: nat)
    requires Wf(s, n) && end - 4 * n < r <= 4 * x.home && p <= end && IsRun(s, n, r, end, p)
    requires x.home + MAX_PROBE <= p / 4
    requires FirstCandidate(s, n, p / 4, 4 * (p / 4 - (MAX_PROBE - 1))) == 4 * (p / 4)
    ensures var a, b := BucketFrom(r), p / 4;
      && a <= x.home && b < a + n
      && |Part(Base(s, n, p), n, Wrap(a, n), b - 15 - a)| >= 4 * (b - a)
  {
    hide Slot, Items, FirstCandidate, Part, InArc;
    var a, b := BucketFrom(r), p / 4;
    var t, k := s[Slot(n, p) := Free], b - 15 - a;
    forall u | 4 * a <= u < 4 * a + 4 * (b - a) ensures ArcAt(t, n, u, Wrap(a, n), k) {
      assert InRun(s, n, r, u);
      Apart(n, u, p);
      if u >= 4 * (b - 15) {
        NoCandidate(s, n, b, 4 * (b - 15), u);
      }
      HomeOnLine(s, n, u);
      ArcOfLine(u / 4 - s[Slot(n, u)].dis, a, n, k);
    }
    ShareAtLeast(t, n, 4 * a, 4 * (b - a), Wrap(a, n), k);
  }

  lemma HomeOnLine(s: Slots, n: nat, u: int)
    requires Wf(s, n) && UsedAt(s, n, u)
    ensures var i := Slot(n, u); ItemOf(n, i, s[i]).home == Wrap(u / 4 - s[i].dis, n)
  {
    WrapWalk(u / 4, 0 - s[Slot(n, u)].dis, n);
  }

  /** The items of the k ring buckets from a on already need more slots than they can reach. */
  ghost predicate Packed(m: multiset<Item>, n: nat, home: nat, a: nat, k: nat)
    requires n >= 1
  {
    a < n && k >= 1 && k + 15 < n && InArc(home, n, a, k) && |Part(m, n, a, k)| >= 4 * (k + 15)
  }

  lemma {:induction false} DigInRun(s: Slots, n: nat, x: Item, r: int, end: int, p: nat) returns (a: nat, k: nat)
    requires Wf(s, n) && x.home < n && end - 4 * n < r <= 4 * x.home <= p <= end < 4 * (x.home + n) && IsRun(s, n, r, end, p)
    ensures var o := Dig(s, n, x, p);
      if o.ok then
        |Final(s, o)| == |s| && IsRun(Final(s, o), n, r, end, end + 1) && AgreeOutside(Final(s, o), s, n, r, end)
      else
        Packed(Base(s, n, p), n, x.home, a, k)
    decreases p
  {
    hide Items, Wrap, Slot, FirstCandidate, Dig, Part, InArc, MoveUp, IsRun, AgreeOutside;
    var b := p / 4;
    a, k := 0, 0;
    if b - x.home < MAX_PROBE {
      DigStop(s, n, x, p);
      StoreInRun(s, n, r, end, p, Used(x.fpt, b - x.home), end + 1);
    } else {
      var q := FirstCandidate(s, n, b, 4 * (b - (MAX_PROBE - 1)));
      if q == 4 * b {
        DigFail(s, n, x, p);
        StuckCrowd(s, n, x, r, end, p);
        var from := BucketFrom(r);
        ArcOfLine(x.home, from, n, b - 15 - from);
        HomeSelf(x.home, n);
        a, k := Wrap(from, n), b - 15 - from;
      } else {
        var s' := MoveUp(s, n, q, p);
        DigHop(s, n, x, p, q);
        MoveUpKeepsBase(s, n, x.home, q, p);
        MoveInRun(s, n, r, end, q, p);
        a, k := DigInRun(s', n, x, r, end, q);
        FinalResume(s, s', Dig(s', n, x, q));
        if Dig(s', n, x, q).ok {
          AgreeTrans(Final(s', Dig(s', n, x, q)), s', s, n, r, end);
        }
      }
    }
  }

  lemma HomeSelf(h: nat, n: nat) requires h < n ensures Wrap(h, n) == h {}

  lemma FinalResume(s: Slots, s': Slots, rest: Outcome)
    ensures Final(s, Resume([s'], rest)) == Final(s', rest)
  {}

  lemma AgreeTrans(s: Slots, t: Slots, v: Slots, n: nat, r: int, end: int)
    requires n >= 1 && |s| == 4 * n && |t| == 4 * n && |v| == 4 * n && AgreeOutside(t, v, n, r, end)
    ensures AgreeOutside(s, t, n, r, end) ==> AgreeOutside(s, v, n, r, end)
  {
    hide Slot;
  }

  lemma MoveInRun(s: Slots, n: nat, r: int, end: int, q: nat, p: nat)
    requires Wf(s, n) && end - 4 * n < r <= q < p <= end && q / 4 <= p / 4 && IsRun(s, n, r, end, p) && Movable(s, n, p / 4, q)
    ensures var s' := MoveUp(s, n, q, p); IsRun(s', n, r, end, q) && AgreeOutside(s', s, n, r, end)
  {
    hide Slot, IsRun, AgreeOutside;
    assert InRun(s, n, r, q) by { RunAt(s, n, r, end, p, q); }
    var c := s[Slot(n, q)];
    StoreInRun(s, n, r, end, p, Used(c.fpt, c.dis + (p / 4 - q / 4)), q);
  }

  lemma RunAt(s: Slots, n: nat, r: int, end: int, hole: int, u: int)
    requires n >= 1 && |s| == 4 * n && IsRun(s, n, r, end, hole) && r <= u <= end && u != hole
    ensures InRun(s, n, r, u)
  {}

  /** Afterwards there is again no empty slot between an entry and its home bucket. */
  lemma RunCovers(s: Slots, t: Slots, n: nat, r: int, end: nat)
    requires Wf(s, n) && Covered(s, n) && Wf(t, n) && end - 4 * n < r <= end < 8 * n && s[Slot(n, end)].Free?
    requires IsRun(t, n, r, end, end + 1) && AgreeOutside(t, s, n, r, end)
    ensures Covered(t, n)
  {
    hide Covered, Slot, CoveredAt;
    forall i: nat, u: int | i < 4 * n ensures CoveredAt(t, n, i, u) {
      if i > end {
        RunCoversAt(s, t, n, r, end, i - 4 * n, u - 4 * n);
        CoveredTurn(t, n, i - 4 * n, u - 4 * n);
      } else if i > end - 4 * n {
        RunCoversAt(s, t, n, r, end, i, u);
      } else {
        RunCoversAt(s, t, n, r, end, i + 4 * n, u + 4 * n);
        CoveredTurn(t, n, i, u);
      }
    }
    CoveredAll(t, n);
  }

  lemma CoveredAll(t: Slots, n: nat)
    requires n >= 1 && |t| == 4 * n && forall i: nat, u: int :: i < 4 * n ==> CoveredAt(t, n, i, u)
    ensures Covered(t, n)
  {}

  lemma RunCoversAt(s: Slots, t: Slots, n: nat, r: int, end: nat, v: int, u: int)
    requires Wf(s, n) && Covered(s, n) && Wf(t, n) && end - 4 * n < r <= end < 8 * n && s[Slot(n, end)].Free?
    requires IsRun(t, n, r, end, end + 1) && AgreeOutside(t, s, n, r, end) && end - 4 * n < v <= end
    ensures CoveredAt(t, n, v, u)
  {
    hide Covered, Slot;
    if UsedAt(t, n, v) && HomePos(t, n, v) <= u <= v {
      if v >= r {
        assert InRun(t, n, r, v);
        assert InRun(t, n, r, u);
      } else {
        CoveredNear(s, n, v, end - 4 * n);
        CoveredNear(s, n, v, u);
        SlotTurn(n, end - 4 * n);
      }
    }
  }

  /** An insert into a covered table with room succeeds and keeps it covered, or finds its arc packed. */
  lemma InsertCovers(s: Slots, n: nat, x: Item) returns (a: nat, k: nat)
    requires Wf(s, n) && Covered(s, n) && x.home < n && |Items(s, n)| < 4 * n
    ensures var o := Insert(s, n, x);
      if o.ok then Wf(Final(s, o), n) && Covered(Final(s, o), n) else Packed(Items(s, n), n, x.home, a, k)
  {
    hide Items, Dig, FirstEmpty, Slot, Covered, IsRun, AgreeOutside, Packed, Full;
    var p := FirstEmpty(s, n, 4 * x.home, 4 * (x.home + n));
    FirstEmptyFound(s, n, x.home);
    assert Full(s, n, x.home, p) && s[Slot(n, p)].Free? by {
      ScanFull(s, n, x.home, p);
      FirstEmptyFull(s, n, 4 * x.home, 4 * (x.home + n));
    }
    InsertItems(s, n, x);
    var r := StartOfRun(s, n, x.home, p);
    a, k := DigInRun(s, n, x, r, p, p);
    var o := Dig(s, n, x, p);
    if o.ok {
      RunCovers(s, Final(s, o), n, r, p);
    } else {
      assert s[Slot(n, p) := Free] == s;
    }
  }

  // ----- Which lists fit -----

  /** Some arc of k ring buckets is the home of more items than the k + 15 buckets they can reach hold. */
  ghost predicate Crowded(items: seq<Item>, n: nat)
    requires n >= 1
  {
    exists a, k :: 0 <= a < n && k >= 1 && k + 15 < n && HomesIn(items, n, a, k) > 4 * (k + 15)
  }

  ghost predicate AllInserted(n: nat, items: seq<Item>)
    requires n >= 1 && ItemsOk(items, n)
  {
    forall i :: 0 <= i < |items| ==> Inserted(n, items, i)
  }

  lemma AllInsertedStep(n: nat, items: seq<Item>, i: nat)
    requires n >= 1 && ItemsOk(items, n) && i < |items|
    ensures AllInserted(n, items[..i + 1]) <==> AllInserted(n, items[..i]) && Inserted(n, items, i)
  {
    hide Insert, Fill;
    var before, upto := items[..i], items[..i + 1];
    assert forall j: nat :: j <= i ==> upto[..j] == items[..j] == before[..j];
    if AllInserted(n, upto) {
      assert Inserted(n, upto, i);
      forall j | 0 <= j < i ensures Inserted(n, before, j) {
        assert Inserted(n, upto, j);
      }
    }
    if AllInserted(n, before) && Inserted(n, items, i) {
      forall j | 0 <= j < i + 1 ensures Inserted(n, upto, j) {
        assert j < i ==> Inserted(n, before, j);
      }
    }
  }

  /** While every insert succeeds the table holds exactly the items given. */
  lemma {:induction false} FillExact(n: nat, items: seq<Item>, i: nat)
    requires n >= 1 && ItemsOk(items, n) && i <= |items| <= 4 * n && AllInserted(n, items[..i])
    ensures Items(Fill(n, items[..i]), n) == multiset(items[..i]) && Covered(Fill(n, items[..i]), n)
    decreases i
  {
    hide Items, Insert, Fill, Inserted, AllInserted, Covered;
    if i == 0 {
      FillNothing(n);
      assert items[..0] == [];
      NoItems(Fill(n, []), n);
      NothingCovered(n);
    } else {
      AllInsertedStep(n, items, i - 1);
      FillExact(n, items, i - 1);
      FillStep(n, items, i - 1);
      var s := Fill(n, items[..i - 1]);
      InsertItems(s, n, items[i - 1]);
      var a, k := InsertCovers(s, n, items[i - 1]);
      assert Insert(s, n, items[i - 1]).ok by { InsertedIs(n, items, i - 1); }
      assert items[..i] == items[..i - 1] + [items[i - 1]];
    }
  }

  lemma InsertedIs(n: nat, items: seq<Item>, i: nat)
    requires n >= 1 && ItemsOk(items, n) && i < |items|
    ensures Inserted(n, items, i) <==> Insert(Fill(n, items[..i]), n, items[i]).ok
  {}

  lemma NothingCovered(n: nat)
    requires n >= 1
    ensures Covered(seq(4 * n, _ => Free), n)
  {
    hide Slot;
  }

  /** A failed insert after nothing but successful ones: the items so far and this one crowd an arc. */
  lemma FailureCrowds(n: nat, items: seq<Item>, i: nat)
    requires n >= 1 && ItemsOk(items, n) && i < |items| <= 4 * n && AllInserted(n, items[..i]) && !Inserted(n, items, i)
    ensures Crowded(items[..i + 1], n)
  {
    hide Items, Insert, Fill, Covered, InArc, Part;
    var s, x := Fill(n, items[..i]), items[i];
    FillExact(n, items, i);
    assert |multiset(items[..i])| == i;
    var a, k := InsertCovers(s, n, x);
    PartOfList(items[..i], n, a, k);
    assert items[..i + 1][..i] == items[..i];
    assert HomesIn(items[..i + 1], n, a, k) == HomesIn(items[..i], n, a, k) + 1;
  }

  /** No table holds more items of an arc than there are slots within their reach. */
  lemma ArcFits(s: Slots, n: nat, a: nat, k: nat)
    requires Wf(s, n) && a < n && k >= 1 && k + 15 < n
    ensures Share(s, n, a, k) <= 4 * (k + 15)
  {
    hide Items, Share;
    forall i: nat | i < 4 * n && ArcAt(s, n, i, a, k) ensures Within(n, i, 4 * a, 4 * (k + 15)) {
      ReachOfArc(s, n, i, a, k);
    }
    ShareAtMost(s, n, 4 * a, 4 * (k + 15), a, k);
  }

  lemma ReachOfArc(s: Slots, n: nat, i: nat, a: nat, k: nat)
    requires Wf(s, n) && a < n && k >= 1 && i < 4 * n && ArcAt(s, n, i, a, k)
    ensures Within(n, i, 4 * a, 4 * (k + 15))
  {
    hide Wrap;
    SlotSelf(n, i);
    var h, d := ItemOf(n, i, s[i]).home, s[i].dis;
    assert Dis(s[i]) < MAX_PROBE;
    var b := a + Wrap(h - a, n) + d;
    var u := 4 * b + i % 4;
    WrapWalk(h - a, a + d, n);
    WrapWalk(i / 4 - d, d, n);
    HomeSelf(i / 4, n);
    assert u / 4 == b && u % 4 == i % 4;
    assert Slot(n, u) == i;
  }

  /** Every insert succeeds exactly when no arc is crowded: whether a list fits does not depend on its
      order or its fingerprints, only on how many items are at home in each bucket. */
  lemma FitsIff(n: nat, items: seq<Item>)
    requires n >= 1 && ItemsOk(items, n) && |items| <= 4 * n
    ensures AllInserted(n, items) <==> !Crowded(items, n)
  {
    hide Items, Insert, Fill, Inserted, AllInserted, Share, HomesIn;
    assert items[..|items|] == items;
    if AllInserted(n, items) {
      FillExact(n, items, |items|);
      forall a, k | 0 <= a < n && k >= 1 && k + 15 < n ensures HomesIn(items, n, a, k) <= 4 * (k + 15) {
        ArcFits(Fill(n, items), n, a, k);
        ShareOfList(Fill(n, items), items, n, a, k);
      }
    } else {
      var i := FirstFailure(n, items, |items|);
      FailureCrowds(n, items, i);
      var a, k :| 0 <= a < n && k >= 1 && k + 15 < n && HomesIn(items[..i + 1], n, a, k) > 4 * (k + 15);
      HomesGrow(items, i + 1, n, a, k);
    }
  }

  lemma ShareOfList(s: Slots, items: seq<Item>, n: nat, a: nat, k: nat)
    requires n >= 1 && Items(s, n) == multiset(items)
    ensures Share(s, n, a, k) == HomesIn(items, n, a, k)
  {
    PartOfList(items, n, a, k);
  }

  lemma {:induction false} FirstFailure(n: nat, items: seq<Item>, m: nat) returns (i: nat)
    requires n >= 1 && ItemsOk(items, n) && m <= |items| && !AllInserted(n, items[..m])
    ensures i < m && AllInserted(n, items[..i]) && !Inserted(n, items, i)
    decreases m
  {
    hide Insert, Fill, Inserted;
    if m == 0 {
      assert false;
    } else {
      AllInsertedStep(n, items, m - 1);
      if AllInserted(n, items[..m - 1]) {
        i := m - 1;
      } else {
        i := FirstFailure(n, items, m - 1);
      }
    }
  }

  // ----- The promise: every item given is found -----

  ghost predicate Promise(n: nat, items: seq<Item>)
    requires n >= 1 && ItemsOk(items, n)
  {
    forall i :: 0 <= i < |items| ==> Lookup(Fill(n, items), n, items[i])
  }

  ghost predicate Different(items: seq<Item>) {
    forall i, j :: 0 <= i < j < |items| ==> items[i] != items[j]
  }

  lemma FoundIff(n: nat, items: seq<Item>, x: Item)
    requires n >= 1 && ItemsOk(items, n) && x.home < n
    ensures Lookup(Fill(n, items), n, x) <==> SomeInserted(n, items, x)
  {
    hide Items, Insert, Lookup, Fill;
    FillMember(n, items, x);
    LookupIff(Fill(n, items), n, x);
  }

  /** Every item of a list that is not crowded is found; and when the items are different from each
      other, that is also necessary. */
  lemma PromiseIff(n: nat, items: seq<Item>)
    requires n >= 1 && ItemsOk(items, n) && |items| <= 4 * n
    ensures !Crowded(items, n) ==> Promise(n, items)
    ensures Different(items) ==> (Promise(n, items) <==> !Crowded(items, n))
  {
    hide Crowded, Lookup, Fill, Inserted;
    FitsIff(n, items);
    forall i | 0 <= i < |items|
      ensures Inserted(n, items, i) ==> Lookup(Fill(n, items), n, items[i])
      ensures Different(items) && Lookup(Fill(n, items), n, items[i]) ==> Inserted(n, items, i)
    {
      FoundIff(n, items, items[i]);
    }
  }

  /** The first insert to fail is the first whose item crowds an arc. */
  lemma FirstFailureIff(n: nat, items: seq<Item>, i: nat)
    requires n >= 1 && ItemsOk(items, n) && i < |items| <= 4 * n
    ensures AllInserted(n, items[..i]) && !Inserted(n, items, i) <==>
            !Crowded(items[..i], n) && Crowded(items[..i + 1], n)
  {
    hide Crowded, AllInserted, Inserted;
    AllInsertedStep(n, items, i);
    FitsIff(n, items[..i]);
    FitsIff(n, items[..i + 1]);
    if Crowded(items[..i], n) {
      assert items[..i + 1][..i] == items[..i];
      CrowdedStays(items[..i + 1], i, n);
    }
  }

  lemma CrowdedStays(items: seq<Item>, i: nat, n: nat)
    requires n >= 1 && i <= |items| && Crowded(items[..i], n)
    ensures Crowded(items, n)
  {
    hide HomesIn;
    var a, k :| 0 <= a < n && k >= 1 && k + 15 < n && HomesIn(items[..i], n, a, k) > 4 * (k + 15);
    HomesGrow(items, i, n, a, k);
  }

  /** Crowding is what counts, repeated items or not: the first item to crowd an arc is missed unless the
      same item is given a second time. */
  lemma FirstCrowderMissed(n: nat, items: seq<Item>, i: nat)
    requires n >= 1 && ItemsOk(items, n) && i < |items| <= 4 * n
    requires !Crowded(items[..i], n) && Crowded(items[..i + 1], n)
    requires forall j :: 0 <= j < |items| && j != i ==> items[j] != items[i]
    ensures !Lookup(Fill(n, items), n, items[i]) && !Promise(n, items)
  {
    hide Crowded, AllInserted, Lookup, Fill;
    FirstFailureIff(n, items, i);
    FoundIff(n, items, items[i]);
  }

  /** That a list is not crowded is not necessary when items repeat: any number of copies of one item is
      found, since the first of them is. */
  lemma RepeatsFound(n: nat, items: seq<Item>)
    requires ItemsOk(items, n) && n >= 1 && forall j :: 0 <= j < |items| ==> items[j] == items[0]
    ensures Promise(n, items)
  {
    hide Lookup, Fill, Insert, Crowded, AllInserted;
    if items != [] {
      var one := items[..1];
      assert !Crowded(one, n) by { OneItemFits(one, n); }
      FitsIff(n, one);
      AllInsertedStep(n, items, 0);
      assert Inserted(n, items, 0);
      FoundIff(n, items, items[0]);
    }
  }

  lemma OneItemFits(items: seq<Item>, n: nat)
    requires n >= 1 && |items| == 1
    ensures !Crowded(items, n)
  {
    forall a, k | 0 <= a < n && k >= 1 ensures HomesIn(items, n, a, k) <= 1 {
      assert HomesIn(items[..0], n, a, k) == 0;
    }
  }
}
