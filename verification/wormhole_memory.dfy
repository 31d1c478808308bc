/** Persistent memory under the filter.  A store reaches the processor's cache; only a flush makes the
    bucket's 8-byte word durable.  Until then a power loss may leave any value the word had since. */
module WormholeMemory {
  import opened Bags
  import opened Cells
  import opened WormholeTable

  /** The slots as the program sees them, and for every bucket the values a power loss may leave. */
  datatype Memory = Memory(slots: Slots, may: seq<set<seq<Cell>>>)

  /** The four cells of bucket b. */
  function Bucket(s: Slots, b: nat): (v: seq<Cell>)
    requires 4 * b + 4 <= |s|
    ensures |v| == 4 && forall j :: 0 <= j < 4 ==> v[j] == s[4 * b + j]
  {
    s[4 * b..4 * b + 4]
  }

  ghost predicate BucketOk(v: seq<Cell>) { |v| == 4 && forall j :: 0 <= j < 4 ==> Dis(v[j]) < MAX_PROBE }

  ghost predicate MemOk(m: Memory, n: nat) {
    && Wf(m.slots, n) && |m.may| == n
    && (forall b :: 0 <= b < n ==> Bucket(m.slots, b) in m.may[b])
    && (forall b, v :: 0 <= b < n && v in m.may[b] ==> BucketOk(v))
  }

  /** WriteTag: the store alone. */
  function Store(m: Memory, i: nat, c: Cell): Memory
    requires |m.slots| == 4 * |m.may| && i < |m.slots|
  {
    var s := m.slots[i := c];
    Memory(s, m.may[i / 4 := m.may[i / 4] + {Bucket(s, i / 4)}])
  }

  /** PMWriteTag: the store, and the flush of its word. */
  function Flush(m: Memory, i: nat, c: Cell): Memory
    requires |m.slots| == 4 * |m.may| && i < |m.slots|
  {
    var s := m.slots[i := c];
    Memory(s, m.may[i / 4 := {Bucket(s, i / 4)}])
  }

  /** What a power loss may leave. */
  ghost predicate PowerLoss(m: Memory, n: nat, after: Slots) {
    |after| == 4 * n == 4 * |m.may| && forall b :: 0 <= b < n ==> Bucket(after, b) in m.may[b]
  }

  /** All words durable. */
  function Settled(s: Slots, n: nat): Memory
    requires |s| == 4 * n
  {
    Memory(s, seq(n, b requires 0 <= b < n => {Bucket(s, b)}))
  }

  // ----- The operations -----

  /** The memory after each store of the dig: relocations are flushed, the final store is not. */
  ghost function DigMemory(m: Memory, n: nat, x: Item, p: nat): seq<Memory>
    requires n >= 1 && |m.slots| == 4 * n && |m.may| == n && x.home <= p / 4
    decreases p
  {
    var b := p / 4;
    if b - x.home < MAX_PROBE then
      [Store(m, Slot(n, p), Used(x.fpt, b - x.home))]
    else
      var q := FirstCandidate(m.slots, n, b, 4 * (b - (MAX_PROBE - 1)));
      if q == 4 * b then []
      else
        var m' := Relocated(m, n, q, p);
        [m'] + DigMemory(m', n, x, q)
  }

  ghost function Relocated(m: Memory, n: nat, q: nat, p: nat): (m': Memory)
    requires n >= 1 && |m.slots| == 4 * n && |m.may| == n && q / 4 <= p / 4 && Movable(m.slots, n, p / 4, q)
    ensures m'.slots == MoveUp(m.slots, n, q, p) && |m'.may| == n
  {
    Flush(m, Slot(n, p), MoveUp(m.slots, n, q, p)[Slot(n, p)])
  }

  ghost function InsertMemory(m: Memory, n: nat, x: Item): seq<Memory>
    requires n >= 1 && |m.slots| == 4 * n && |m.may| == n
  {
    var p := FirstEmpty(m.slots, n, 4 * x.home, 4 * (x.home + n));
    if p == 4 * (x.home + n) then [] else DigMemory(m, n, x, p)
  }

  ghost function LastOf(m: Memory, ms: seq<Memory>): Memory { if ms == [] then m else ms[|ms| - 1] }

  ghost function DeleteMemory(m: Memory, n: nat, x: Item): Memory
    requires n >= 1 && |m.slots| == 4 * n && |m.may| == n
  {
    var p := FirstMatch(m.slots, n, x, 4 * x.home);
    if p == 4 * (x.home + MAX_PROBE) then m else Store(m, Slot(n, p), Free)
  }

  // ----- Slots that no power loss changes -----

  ghost predicate Firm(m: Memory, i: nat)
    requires |m.slots| == 4 * |m.may| && i < |m.slots|
  {
    forall v :: v in m.may[i / 4] ==> |v| == 4 && v[i % 4] == m.slots[i]
  }

  /** The slots a power loss may change, as a table of their own; and the others. */
  ghost function LooseSlots(m: Memory): (s: Slots)
    requires |m.slots| == 4 * |m.may|
    ensures |s| == |m.slots| && forall i :: 0 <= i < |s| ==> s[i] == if Firm(m, i) then Free else m.slots[i]
  {
    seq(|m.slots|, i requires 0 <= i < |m.slots| => if Firm(m, i) then Free else m.slots[i])
  }

  ghost function FirmSlots(m: Memory): (s: Slots)
    requires |m.slots| == 4 * |m.may|
    ensures |s| == |m.slots| && forall i :: 0 <= i < |s| ==> s[i] == if Firm(m, i) then m.slots[i] else Free
  {
    seq(|m.slots|, i requires 0 <= i < |m.slots| => if Firm(m, i) then m.slots[i] else Free)
  }

  /** What a power loss may take away. */
  ghost function Loose(m: Memory, n: nat): multiset<Item>
    requires n >= 1 && |m.slots| == 4 * |m.may|
  {
    Items(LooseSlots(m), n)
  }

  ghost predicate SlotLe(a: Cell, b: Cell) { a.Free? || a == b }

  lemma ItemsLe(s: Slots, t: Slots, n: nat)
    requires n >= 1 && |s| == |t| && forall i :: 0 <= i < |s| ==> SlotLe(s[i], t[i])
    ensures Items(s, n) <= Items(t, n)
  {
    SumLe(SlotBags(s, n), SlotBags(t, n));
  }

  lemma ItemsSplit(m: Memory, n: nat)
    requires n >= 1 && |m.slots| == 4 * |m.may|
    ensures Items(m.slots, n) == Items(FirmSlots(m), n) + Loose(m, n)
  {
    hide Firm, ItemOf;
    SumSplit(SlotBags(m.slots, n), SlotBags(FirmSlots(m), n), SlotBags(LooseSlots(m), n));
  }

  lemma FirmKept(m: Memory, n: nat, after: Slots, i: nat)
    requires MemOk(m, n) && PowerLoss(m, n, after) && i < 4 * n && Firm(m, i)
    ensures after[i] == m.slots[i]
  {
    assert Bucket(after, i / 4) in m.may[i / 4];
    assert Bucket(after, i / 4)[i % 4] == after[i];
  }

  lemma AfterWf(m: Memory, n: nat, after: Slots)
    requires MemOk(m, n) && PowerLoss(m, n, after)
    ensures Wf(after, n)
  {
    forall i | 0 <= i < 4 * n ensures Dis(after[i]) < MAX_PROBE {
      assert BucketOk(Bucket(after, i / 4));
      assert Bucket(after, i / 4)[i % 4] == after[i];
    }
  }

  /** A power loss takes away at most what is loose. */
  lemma PowerLossKeeps(m: Memory, n: nat, after: Slots)
    requires MemOk(m, n) && PowerLoss(m, n, after)
    ensures Wf(after, n) && Items(m.slots, n) <= Items(after, n) + Loose(m, n)
  {
    AfterWf(m, n, after);
    hide Items, Firm, PowerLoss;
    forall i | 0 <= i < 4 * n ensures SlotLe(FirmSlots(m)[i], after[i]) {
      if Firm(m, i) {
        FirmKept(m, n, after, i);
      }
    }
    ItemsLe(FirmSlots(m), after, n);
    ItemsSplit(m, n);
  }

  // ----- What stores and flushes do to the loose slots -----

  lemma StoreOk(m: Memory, n: nat, i: nat, c: Cell)
    requires MemOk(m, n) && i < 4 * n && Dis(c) < MAX_PROBE
    ensures MemOk(Store(m, i, c), n) && MemOk(Flush(m, i, c), n)
  {
    var s := m.slots[i := c];
    forall b | 0 <= b < n && b != i / 4 ensures Bucket(s, b) == Bucket(m.slots, b) {}
    assert BucketOk(Bucket(s, i / 4));
  }

  lemma StoreShape(m: Memory, n: nat, i: nat, c: Cell)
    requires MemOk(m, n) && i < 4 * n
    ensures Store(m, i, c).slots == m.slots[i := c] && |Store(m, i, c).may| == n
  {}

  lemma StoreLoose(m: Memory, n: nat, i: nat, c: Cell)
    requires MemOk(m, n) && i < 4 * n
    ensures |Store(m, i, c).slots| == 4 * |Store(m, i, c).may|
    ensures Loose(Store(m, i, c), n) <= Loose(m, n) + SlotItems(n, i, c)
  {
    StoreShape(m, n, i, c);
    hide Items, Firm, Store, SlotItems;
    var m' := Store(m, i, c);
    var t := LooseSlots(m)[i := c];
    forall j | 0 <= j < 4 * n ensures SlotLe(LooseSlots(m')[j], t[j]) {
      if j != i && Firm(m, j) {
        StoreFirm(m, n, i, c, j);
      }
    }
    ItemsLe(LooseSlots(m'), t, n);
    ItemsUpdate(LooseSlots(m), n, i, c);
    AtMostSum(Items(t, n), SlotItems(n, i, LooseSlots(m)[i]), Loose(m, n), SlotItems(n, i, c));
  }

  lemma StoreFirm(m: Memory, n: nat, i: nat, c: Cell, j: nat)
    requires MemOk(m, n) && i < 4 * n && j < 4 * n && j != i && Firm(m, j)
    ensures Store(m, i, c).slots[j] == m.slots[j] && Firm(Store(m, i, c), j)
  {
    var s := m.slots[i := c];
    if j / 4 == i / 4 {
      assert Bucket(s, i / 4)[j % 4] == s[j];
    }
  }

  lemma FlushLoose(m: Memory, n: nat, i: nat, c: Cell)
    requires MemOk(m, n) && i < 4 * n && Dis(c) < MAX_PROBE
    ensures |Flush(m, i, c).slots| == 4 * |Flush(m, i, c).may|
    ensures Loose(Flush(m, i, c), n) <= Loose(m, n)
  {
    hide Items;
    var m' := Flush(m, i, c);
    forall j | 0 <= j < 4 * n ensures SlotLe(LooseSlots(m')[j], LooseSlots(m)[j]) {
      FlushFirm(m, n, i, c, j);
    }
    ItemsLe(LooseSlots(m'), LooseSlots(m), n);
  }

  lemma FlushFirm(m: Memory, n: nat, i: nat, c: Cell, j: nat)
    requires MemOk(m, n) && i < 4 * n && j < 4 * n
    ensures var m' := Flush(m, i, c);
      if j / 4 == i / 4 then Firm(m', j) else m'.slots[j] == m.slots[j] && (Firm(m, j) <==> Firm(m', j))
  {
    var s := m.slots[i := c];
    if j / 4 == i / 4 {
      assert Bucket(s, i / 4)[j % 4] == s[j];
    }
  }

  lemma SettledAt(s: Slots, n: nat, i: nat)
    requires Wf(s, n) && i < 4 * n
    ensures Firm(Settled(s, n), i)
  {
    assert Bucket(s, i / 4)[i % 4] == s[i];
  }

  lemma SettledOk(s: Slots, n: nat)
    requires Wf(s, n)
    ensures MemOk(Settled(s, n), n)
  {
    forall b | 0 <= b < n ensures BucketOk(Bucket(s, b)) {}
  }

  lemma SettledFirm(s: Slots, n: nat)
    requires Wf(s, n)
    ensures MemOk(Settled(s, n), n) && Loose(Settled(s, n), n) == multiset{}
  {
    hide MemOk, Firm, Items;
    SettledOk(s, n);
    var t := LooseSlots(Settled(s, n));
    forall i | 0 <= i < 4 * n ensures t[i] == Free {
      SettledAt(s, n, i);
    }
    forall x: Item ensures x !in Items(t, n) {
      ItemsMember(t, n, x);
    }
    assert Items(t, n) == multiset{};
  }

  // ----- Inserts and deletes -----

  /** One memory on the way: nothing more is loose, except the new item once it is stored. */
  ghost predicate OnTheWay(loose: multiset<Item>, n: nat, x: Item, m: Memory, s: Slots, done: bool)
    requires n >= 1
  {
    MemOk(m, n) && m.slots == s && Loose(m, n) <= if done then loose + multiset{x} else loose
  }

  ghost predicate AllOnTheWay(loose: multiset<Item>, n: nat, x: Item, ms: seq<Memory>, o: Outcome)
    requires n >= 1
  {
    |ms| == |o.states| &&
    forall k :: 0 <= k < |ms| ==> OnTheWay(loose, n, x, ms[k], o.states[k], o.ok && k == |ms| - 1)
  }

  lemma AllOnTheWayPrepend(loose: multiset<Item>, loose': multiset<Item>, n: nat, x: Item, m: Memory, s: Slots,
                           rest: seq<Memory>, o: Outcome)
    requires n >= 1 && loose' <= loose && OnTheWay(loose, n, x, m, s, false) && AllOnTheWay(loose', n, x, rest, o)
    requires o.ok ==> |o.states| > 0
    ensures AllOnTheWay(loose, n, x, [m] + rest, Outcome([s] + o.states, o.ok))
  {
    hide MemOk, Loose;
    var ms, o' := [m] + rest, Outcome([s] + o.states, o.ok);
    forall k | 0 <= k < |ms| ensures OnTheWay(loose, n, x, ms[k], o'.states[k], o.ok && k == |ms| - 1) {
      if k > 0 {
        assert OnTheWay(loose', n, x, rest[k - 1], o.states[k - 1], o.ok && k - 1 == |rest| - 1);
      }
    }
  }

  lemma FinalStore(m: Memory, n: nat, x: Item, p: nat)
    requires MemOk(m, n) && x.home < n && x.home <= p / 4 < x.home + MAX_PROBE
    ensures var c := Used(x.fpt, p / 4 - x.home);
      OnTheWay(Loose(m, n), n, x, Store(m, Slot(n, p), c), m.slots[Slot(n, p) := c], true)
  {
    hide Loose, MemOk;
    var c, i := Used(x.fpt, p / 4 - x.home), Slot(n, p);
    MemShape(m, n);
    StoreOk(m, n, i, c);
    StoreShape(m, n, i, c);
    StoreLoose(m, n, i, c);
    WrapWalk(p / 4, x.home - p / 4, n);
    assert SlotItems(n, i, c) == multiset{x};
  }

  lemma MemShape(m: Memory, n: nat)
    requires MemOk(m, n)
    ensures Wf(m.slots, n) && |m.may| == n
  {}

  lemma RelocatedOk(m: Memory, n: nat, x: Item, q: nat, p: nat)
    requires MemOk(m, n) && 4 * x.home <= q < 4 * (p / 4) && p < 4 * (x.home + n) && Movable(m.slots, n, p / 4, q)
    ensures OnTheWay(Loose(m, n), n, x, Relocated(m, n, q, p), MoveUp(m.slots, n, q, p), false)
  {
    hide Loose, MemOk, Slot;
    MemShape(m, n);
    var i, c := Slot(n, p), MoveUp(m.slots, n, q, p)[Slot(n, p)];
    StoreOk(m, n, i, c);
    FlushLoose(m, n, i, c);
  }

  lemma {:induction false} DigOnTheWay(m: Memory, n: nat, x: Item, p: nat)
    requires MemOk(m, n) && x.home < n && 4 * x.home <= p < 4 * (x.home + n)
    ensures AllOnTheWay(Loose(m, n), n, x, DigMemory(m, n, x, p), Dig(m.slots, n, x, p))
    ensures Dig(m.slots, n, x, p).ok ==> Dig(m.slots, n, x, p).states != []
    decreases p
  {
    hide Items, Wrap, Slot, FirstCandidate, MemOk, Loose, MoveUp, Relocated;
    MemShape(m, n);
    var b := p / 4;
    if b - x.home < MAX_PROBE {
      FinalStore(m, n, x, p);
    } else {
      var q := FirstCandidate(m.slots, n, b, 4 * (b - (MAX_PROBE - 1)));
      if q < 4 * b {
        var m' := Relocated(m, n, q, p);
        RelocatedOk(m, n, x, q, p);
        DigOnTheWay(m', n, x, q);
        AllOnTheWayPrepend(Loose(m, n), Loose(m', n), n, x, m', m'.slots, DigMemory(m', n, x, q), Dig(m'.slots, n, x, q));
      }
    }
  }

  /** The memory goes through the tables of the insert; the new item is all that becomes loose. */
  lemma InsertOnTheWay(m: Memory, n: nat, x: Item)
    requires MemOk(m, n) && x.home < n
    ensures AllOnTheWay(Loose(m, n), n, x, InsertMemory(m, n, x), Insert(m.slots, n, x))
  {
    hide Items, Slot, FirstEmpty, Dig, DigMemory, Loose, MemOk;
    MemShape(m, n);
    var p := FirstEmpty(m.slots, n, 4 * x.home, 4 * (x.home + n));
    if p < 4 * (x.home + n) {
      DigOnTheWay(m, n, x, p);
    }
  }

  lemma DeleteLoose(m: Memory, n: nat, x: Item)
    requires MemOk(m, n) && x.home < n
    ensures var m' := DeleteMemory(m, n, x);
      MemOk(m', n) && m'.slots == Delete(m.slots, n, x) && Loose(m', n) <= Loose(m, n)
  {
    hide Loose, MemOk, Slot, FirstMatch, Store;
    MemShape(m, n);
    var p := FirstMatch(m.slots, n, x, 4 * x.home);
    if p < 4 * (x.home + MAX_PROBE) {
      StoreOk(m, n, Slot(n, p), Free);
      StoreShape(m, n, Slot(n, p), Free);
      StoreLoose(m, n, Slot(n, p), Free);
    }
  }

  // ----- Exactly which items outlast a power loss -----

  /** A bucket b with these cells holds the item. */
  ghost predicate BucketHolds(v: seq<Cell>, n: nat, b: nat, x: Item)
    requires n >= 1
  {
    |v| == 4 && exists j: nat :: j < 4 && v[j].Used? && ItemOf(n, 4 * b + j, v[j]) == x
  }

  /** Some bucket holds the item in every value a power loss may leave there. */
  ghost predicate Durable(m: Memory, n: nat, x: Item)
    requires n >= 1 && |m.may| == n
  {
    exists b :: 0 <= b < n && AlwaysHolds(m, n, b, x)
  }

  ghost predicate AlwaysHolds(m: Memory, n: nat, b: nat, x: Item)
    requires n >= 1 && b < |m.may|
  {
    forall v :: v in m.may[b] ==> BucketHolds(v, n, b, x)
  }

  lemma TableHolds(s: Slots, n: nat, x: Item)
    requires n >= 1 && |s| == 4 * n
    ensures x in Items(s, n) <==> exists b :: 0 <= b < n && BucketHolds(Bucket(s, b), n, b, x)
  {
    hide Items, ItemOf;
    ItemsMember(s, n, x);
    if i: nat :| i < |s| && Holds(s, n, i, x) {
      assert Bucket(s, i / 4)[i % 4] == s[i] && 4 * (i / 4) + i % 4 == i;
      assert BucketHolds(Bucket(s, i / 4), n, i / 4, x);
    }
    if b: nat :| b < n && BucketHolds(Bucket(s, b), n, b, x) {
      var j: nat :| j < 4 && Bucket(s, b)[j].Used? && ItemOf(n, 4 * b + j, Bucket(s, b)[j]) == x;
      assert Holds(s, n, 4 * b + j, x);
    }
  }

  /** Buckets put together to a table. */
  ghost function Joined(vs: seq<seq<Cell>>): (s: Slots)
    requires forall b :: 0 <= b < |vs| ==> |vs[b]| == 4
    ensures |s| == 4 * |vs| && forall b :: 0 <= b < |vs| ==> Bucket(s, b) == vs[b]
  {
    if vs == [] then [] else
      var s := Joined(vs[..|vs| - 1]) + vs[|vs| - 1];
      assert forall b :: 0 <= b < |vs| - 1 ==> Bucket(s, b) == Bucket(Joined(vs[..|vs| - 1]), b);
      s
  }

  /** A choice of bucket values without the item. */
  lemma {:induction false} Without(m: Memory, n: nat, x: Item, k: nat) returns (vs: seq<seq<Cell>>)
    requires MemOk(m, n) && !Durable(m, n, x) && k <= n
    ensures |vs| == k && forall b :: 0 <= b < k ==> vs[b] in m.may[b] && |vs[b]| == 4 && !BucketHolds(vs[b], n, b, x)
    decreases k
  {
    hide BucketHolds;
    if k == 0 {
      vs := [];
    } else {
      vs := Without(m, n, x, k - 1);
      assert !AlwaysHolds(m, n, k - 1, x);
      var v :| v in m.may[k - 1] && !BucketHolds(v, n, k - 1, x);
      assert BucketOk(v);
      vs := vs + [v];
    }
  }

  /** The item is there after every power loss exactly when it is durable. */
  lemma OutlastsIff(m: Memory, n: nat, x: Item)
    requires MemOk(m, n) && x.home < n
    ensures Durable(m, n, x) <==> forall after :: PowerLoss(m, n, after) ==> x in Items(after, n)
  {
    hide Items, BucketHolds;
    if Durable(m, n, x) {
      var b :| 0 <= b < n && AlwaysHolds(m, n, b, x);
      forall after | PowerLoss(m, n, after) ensures x in Items(after, n) {
        assert BucketHolds(Bucket(after, b), n, b, x);
        TableHolds(after, n, x);
      }
    } else {
      var vs := Without(m, n, x, n);
      var after := Joined(vs);
      TableHolds(after, n, x);
      assert PowerLoss(m, n, after);
    }
  }

  // ----- The stores one by one -----

  /** A store, alone or with the flush of its word. */
  datatype Write = Write(slot: nat, cell: Cell, flush: bool)

  ghost function Apply(m: Memory, w: Write): Memory {
    if |m.slots| != 4 * |m.may| || w.slot >= |m.slots| then m
    else if w.flush then Flush(m, w.slot, w.cell)
    else Store(m, w.slot, w.cell)
  }

  ghost function Applied(m: Memory, ws: seq<Write>): Memory {
    if ws == [] then m else Apply(Applied(m, ws[..|ws| - 1]), ws[|ws| - 1])
  }

  lemma {:induction false} AppliedAppend(m: Memory, ws: seq<Write>, vs: seq<Write>)
    ensures Applied(m, ws + vs) == Applied(Applied(m, ws), vs)
    decreases |vs|
  {
    hide Apply;
    if vs == [] {
      assert ws + vs == ws;
    } else {
      AppliedAppend(m, ws, vs[..|vs| - 1]);
      assert (ws + vs)[..|ws + vs| - 1] == ws + vs[..|vs| - 1];
    }
  }

  lemma AppliedFirst(m: Memory, w: Write, ws: seq<Write>)
    ensures Applied(m, [w] + ws) == Applied(Apply(m, w), ws)
  {
    hide Apply;
    AppliedAppend(m, [w], ws);
    assert [w][..0] == [];
  }

  lemma {:induction false} AppliedShape(m: Memory, n: nat, ws: seq<Write>)
    requires MemOk(m, n)
    ensures |Applied(m, ws).may| == n && |Applied(m, ws).slots| == 4 * n
  {
    if ws != [] {
      AppliedShape(m, n, ws[..|ws| - 1]);
    }
  }

  /** The stores of an insert: relocations with their flush, the final one without. */
  ghost function DigWrites(m: Memory, n: nat, x: Item, p: nat): seq<Write>
    requires n >= 1 && |m.slots| == 4 * n && |m.may| == n && x.home <= p / 4
    decreases p
  {
    var b := p / 4;
    if b - x.home < MAX_PROBE then
      [Write(Slot(n, p), Used(x.fpt, b - x.home), false)]
    else
      var q := FirstCandidate(m.slots, n, b, 4 * (b - (MAX_PROBE - 1)));
      if q == 4 * b then []
      else [Write(Slot(n, p), MoveUp(m.slots, n, q, p)[Slot(n, p)], true)] + DigWrites(Relocated(m, n, q, p), n, x, q)
  }

  ghost function InsertWrites(m: Memory, n: nat, x: Item): seq<Write>
    requires n >= 1 && |m.slots| == 4 * n && |m.may| == n
  {
    var p := FirstEmpty(m.slots, n, 4 * x.home, 4 * (x.home + n));
    if p == 4 * (x.home + n) then [] else DigWrites(m, n, x, p)
  }

  ghost function DeleteWrites(m: Memory, n: nat, x: Item): seq<Write>
    requires n >= 1 && |m.slots| == 4 * n && |m.may| == n
  {
    var p := FirstMatch(m.slots, n, x, 4 * x.home);
    if p == 4 * (x.home + MAX_PROBE) then [] else [Write(Slot(n, p), Free, false)]
  }

  /** Stopping after k stores leaves the memory those k stores make. */
  lemma {:induction false} DigWritesMake(m: Memory, n: nat, x: Item, p: nat, k: nat)
    requires n >= 1 && |m.slots| == 4 * n && |m.may| == n && x.home <= p / 4
    ensures |DigWrites(m, n, x, p)| == |DigMemory(m, n, x, p)|
    ensures k <= |DigMemory(m, n, x, p)| ==> LastOf(m, DigMemory(m, n, x, p)[..k]) == Applied(m, DigWrites(m, n, x, p)[..k])
    decreases p
  {
    hide FirstCandidate, Slot, Store, Flush;
    var b, ms, ws := p / 4, DigMemory(m, n, x, p), DigWrites(m, n, x, p);
    if b - x.home < MAX_PROBE {
      SlotFits(n, p);
      OneWrite(m, ws[0]);
      assert k == 1 ==> ms[..k] == ms && ws[..k] == [ws[0]];
    } else {
      var q := FirstCandidate(m.slots, n, b, 4 * (b - (MAX_PROBE - 1)));
      if q < 4 * b {
        var m' := Relocated(m, n, q, p);
        SlotFits(n, p);
        DigWritesMake(m', n, x, q, if k == 0 then 0 else k - 1);
        if 0 < k <= |ms| {
          var w, rest := ws[0], DigWrites(m', n, x, q);
          assert ws[..k] == [w] + rest[..k - 1];
          assert ms[..k] == [m'] + DigMemory(m', n, x, q)[..k - 1];
          AppliedFirst(m, w, rest[..k - 1]);
        }
      }
    }
  }

  lemma SlotFits(n: nat, p: nat) requires n >= 1 ensures Slot(n, p) < 4 * n {}

  lemma OneWrite(m: Memory, w: Write)
    ensures Applied(m, [w]) == Apply(m, w)
  {
    assert [w][..0] == [];
  }

  lemma InsertWritesMake(m: Memory, n: nat, x: Item, k: nat)
    requires n >= 1 && |m.slots| == 4 * n && |m.may| == n && k <= |InsertMemory(m, n, x)|
    ensures |InsertWrites(m, n, x)| == |InsertMemory(m, n, x)|
    ensures LastOf(m, InsertMemory(m, n, x)[..k]) == Applied(m, InsertWrites(m, n, x)[..k])
  {
    hide DigMemory, DigWrites, FirstEmpty;
    var p := FirstEmpty(m.slots, n, 4 * x.home, 4 * (x.home + n));
    if p < 4 * (x.home + n) {
      DigWritesMake(m, n, x, p, k);
    }
  }

  lemma DeleteWritesMake(m: Memory, n: nat, x: Item)
    requires n >= 1 && |m.slots| == 4 * n && |m.may| == n
    ensures DeleteMemory(m, n, x) == Applied(m, DeleteWrites(m, n, x))
  {
    hide FirstMatch, Slot, Store;
    var p := FirstMatch(m.slots, n, x, 4 * x.home);
    if p < 4 * (x.home + MAX_PROBE) {
      SlotFits(n, p);
      OneWrite(m, Write(Slot(n, p), Free, false));
    }
  }

  // ----- What was flushed since -----

  /** The number of stores up to the last flush of bucket b. */
  ghost function LastFlush(ws: seq<Write>, b: nat): (k: nat)
    ensures k <= |ws|
  {
    if ws == [] then 0
    else if ws[|ws| - 1].flush && ws[|ws| - 1].slot / 4 == b then |ws|
    else LastFlush(ws[..|ws| - 1], b)
  }

  /** A value of bucket b after one of the stores since its last flush. */
  ghost predicate HadSince(m: Memory, ws: seq<Write>, b: nat, v: seq<Cell>) {
    exists k :: LastFlush(ws, b) <= k <= |ws| && HadAt(m, ws, k, b, v)
  }

  ghost predicate HadAt(m: Memory, ws: seq<Write>, k: int, b: nat, v: seq<Cell>) {
    0 <= k <= |ws| && 4 * b + 4 <= |Applied(m, ws[..k]).slots| && v == Bucket(Applied(m, ws[..k]).slots, b)
  }

  /** A power loss may leave in a bucket exactly the values it had since its last flush. */
  lemma {:induction false} MayLeave(base: Slots, n: nat, ws: seq<Write>, b: nat, v: seq<Cell>)
    requires Wf(base, n) && b < n
    ensures |Applied(Settled(base, n), ws).may| == n
    ensures v in Applied(Settled(base, n), ws).may[b] <==> HadSince(Settled(base, n), ws, b, v)
    decreases |ws|
  {
    var m0 := Settled(base, n);
    SettledOk(base, n);
    hide MemOk, Settled, HadAt;
    AppliedShape(m0, n, ws);
    if ws == [] {
      SettledMay(base, n, b);
      NoneYet(m0, b, v);
    } else {
      var init, w := ws[..|ws| - 1], ws[|ws| - 1];
      AppliedShape(m0, n, init);
      MayLeave(base, n, init, b, v);
      HadStep(m0, ws, b, v);
      ApplyMay(Applied(m0, init), w, n, b, v);
      NowHad(m0, n, ws, b, v);
      NowHad(m0, n, init, b, v);
      assert HadAt(m0, init, |init|, b, v) ==> HadSince(m0, init, b, v);
    }
  }

  lemma SettledMay(base: Slots, n: nat, b: nat)
    requires Wf(base, n) && b < n
    ensures Settled(base, n).slots == base && Settled(base, n).may[b] == {Bucket(base, b)}
  {}

  lemma NoneYet(m: Memory, b: nat, v: seq<Cell>)
    requires 4 * b + 4 <= |m.slots|
    ensures HadSince(m, [], b, v) <==> v == Bucket(m.slots, b)
  {
    var none: seq<Write> := [];
    assert none[..0] == none;
    if v == Bucket(m.slots, b) {
      assert HadAt(m, none, 0, b, v);
    }
  }

  lemma NowHad(m: Memory, n: nat, ws: seq<Write>, b: nat, v: seq<Cell>)
    requires b < n && |Applied(m, ws).slots| == 4 * n
    ensures HadAt(m, ws, |ws|, b, v) <==> v == Bucket(Applied(m, ws).slots, b)
  {
    assert ws[..|ws|] == ws;
  }

  /** Since the last flush: since before the last store, unless that flushed the bucket; or after it. */
  lemma HadStep(m: Memory, ws: seq<Write>, b: nat, v: seq<Cell>)
    requires ws != []
    ensures var init, w := ws[..|ws| - 1], ws[|ws| - 1];
      HadSince(m, ws, b, v) <==> HadAt(m, ws, |ws|, b, v) || (!(w.flush && w.slot / 4 == b) && HadSince(m, init, b, v))
  {
    var init, w := ws[..|ws| - 1], ws[|ws| - 1];
    forall k | 0 <= k <= |init| ensures HadAt(m, ws, k, b, v) <==> HadAt(m, init, k, b, v) {
      assert ws[..k] == init[..k];
    }
  }

  /** What one store does to the values a power loss may leave. */
  lemma ApplyMay(m: Memory, w: Write, n: nat, b: nat, v: seq<Cell>)
    requires |m.may| == n && |m.slots| == 4 * n && b < n
    ensures |Apply(m, w).slots| == 4 * n && |Apply(m, w).may| == n
    ensures w.slot / 4 != b ==> Apply(m, w).may[b] == m.may[b] && Bucket(Apply(m, w).slots, b) == Bucket(m.slots, b)
    ensures w.slot / 4 == b ==>
      (v in Apply(m, w).may[b] <==> v == Bucket(Apply(m, w).slots, b) || (!w.flush && v in m.may[b]))
  {
    if w.slot < 4 * n && w.slot / 4 != b {
      assert Bucket(m.slots[w.slot := w.cell], b) == Bucket(m.slots, b);
    }
  }

  /** The slot's word was flushed at or after the last store to the slot, or the slot was not stored to at all. */
  ghost predicate FlushedSince(ws: seq<Write>, i: nat) {
    (forall l :: 0 <= l < |ws| ==> ws[l].slot != i) || exists k :: FlushedAt(ws, i, k)
  }

  ghost predicate FlushedAt(ws: seq<Write>, i: nat, k: nat) {
    k < |ws| && ws[k].flush && ws[k].slot / 4 == i / 4 && forall l :: k < l < |ws| ==> ws[l].slot != i
  }

  lemma {:induction false} FlushedIsFirm(base: Slots, n: nat, ws: seq<Write>, i: nat)
    requires Wf(base, n) && i < 4 * n && FlushedSince(ws, i) && forall l :: 0 <= l < |ws| ==> Dis(ws[l].cell) < MAX_PROBE
    ensures MemOk(Applied(Settled(base, n), ws), n) && Firm(Applied(Settled(base, n), ws), i)
    decreases |ws|
  {
    var m0 := Settled(base, n);
    SettledOk(base, n);
    hide MemOk, Settled, Firm, Store, Flush;
    if ws == [] {
      SettledAt(base, n, i);
    } else {
      var init, w := ws[..|ws| - 1], ws[|ws| - 1];
      AppliedOk(base, n, init);
      var m := Applied(m0, init);
      MemShape(m, n);
      if w.slot < 4 * n {
        StoreOk(m, n, w.slot, w.cell);
        if w.flush && w.slot / 4 == i / 4 {
          FlushFirm(m, n, w.slot, w.cell, i);
        } else {
          StillFlushed(ws, i);
          FlushedIsFirm(base, n, init, i);
          if w.flush {
            FlushFirm(m, n, w.slot, w.cell, i);
          } else {
            StoreFirm(m, n, w.slot, w.cell, i);
          }
        }
      } else {
        StillFlushed(ws, i);
        FlushedIsFirm(base, n, init, i);
      }
    }
  }

  lemma StillFlushed(ws: seq<Write>, i: nat)
    requires ws != [] && FlushedSince(ws, i) && !(ws[|ws| - 1].flush && ws[|ws| - 1].slot / 4 == i / 4)
    ensures FlushedSince(ws[..|ws| - 1], i) && ws[|ws| - 1].slot != i
  {
    var init := ws[..|ws| - 1];
    if k: nat :| FlushedAt(ws, i, k) {
      assert FlushedAt(init, i, k);
    }
  }

  lemma {:induction false} AppliedOk(base: Slots, n: nat, ws: seq<Write>)
    requires Wf(base, n) && forall l :: 0 <= l < |ws| ==> Dis(ws[l].cell) < MAX_PROBE
    ensures MemOk(Applied(Settled(base, n), ws), n)
  {
    SettledOk(base, n);
    hide MemOk, Settled, Store, Flush;
    if ws != [] {
      var init, w := ws[..|ws| - 1], ws[|ws| - 1];
      AppliedOk(base, n, init);
      var m := Applied(Settled(base, n), init);
      MemShape(m, n);
      if w.slot < 4 * n {
        StoreOk(m, n, w.slot, w.cell);
      }
    }
  }
}
