/** Whole runs of the persistent filter: any mix of inserts, deletes of live keys, inserts cut off after
    any number of their stores by a stop of the program, and power losses, which leave every bucket word
    with some value it had since it was last flushed. */
module WormholeRuns {
  import opened Cells
  import opened WormholeTable
  import opened WormholeMemory
  import opened WormholeFilter

  /** `live` are the keys whose insert returned true and that were not deleted since.  `exact` says
      that no insert failed or was cut off and no power was lost so far.  `recent` are the items stored since the
      last power loss, `lost` the live items it took away, `base` what it left, and `writes` the stores since. */
  datatype State = State(mem: Memory, live: seq<bv64>, exact: bool, recent: multiset<Item>, lost: multiset<Item>,
                         base: Slots, writes: seq<Write>)

  ghost function Start(n: nat): State {
    var s := seq(4 * n, _ => Free);
    State(Settled(s, n), [], true, multiset{}, multiset{}, s, [])
  }

  datatype Op =
    | InsertOp(key: bv64)
    | DeleteOp(victim: nat)
    | CrashOp(key: bv64, stores: nat)
    | PowerLossOp(after: Slots)

  ghost predicate Shaped(st: State, n: nat) { n >= 1 && |st.mem.slots| == 4 * n && |st.mem.may| == n }

  ghost predicate Enabled(st: State, n: nat, op: Op)
    requires Shaped(st, n)
  {
    match op
    case InsertOp(_) => true
    case DeleteOp(i) => i < |st.live|
    case CrashOp(key, stores) => stores <= |InsertMemory(st.mem, n, KeyItem(key, n))|
    case PowerLossOp(after) => PowerLoss(st.mem, n, after)
  }

  ghost function Step(st: State, n: nat, op: Op): State
    requires Shaped(st, n) && Enabled(st, n, op)
  {
    match op
    case InsertOp(key) =>
      var x := KeyItem(key, n);
      var mem, writes := LastOf(st.mem, InsertMemory(st.mem, n, x)), st.writes + InsertWrites(st.mem, n, x);
      if Insert(st.mem.slots, n, x).ok then
        st.(mem := mem, writes := writes, live := st.live + [key], recent := st.recent + multiset{x})
      else
        st.(mem := mem, writes := writes, exact := false)
    case DeleteOp(i) =>
      var x := KeyItem(st.live[i], n);
      st.(mem := DeleteMemory(st.mem, n, x), writes := st.writes + DeleteWrites(st.mem, n, x),
          live := st.live[..i] + st.live[i + 1..])
    case CrashOp(key, stores) =>
      var x := KeyItem(key, n);
      InsertWritesMake(st.mem, n, x, stores);
      st.(mem := LastOf(st.mem, InsertMemory(st.mem, n, x)[..stores]), writes := st.writes + InsertWrites(st.mem, n, x)[..stores],
          exact := false, recent := st.recent + multiset{x})
    case PowerLossOp(after) =>
      State(Settled(after, n), st.live, false, multiset{}, LiveItems(st.live, n) - Items(after, n), after, [])
  }

  ghost function KeyItems(live: seq<bv64>, n: nat): (xs: seq<Item>)
    requires n >= 1
    ensures |xs| == |live| && forall i :: 0 <= i < |live| ==> xs[i] == KeyItem(live[i], n)
  {
    seq(|live|, i requires 0 <= i < |live| => KeyItem(live[i], n))
  }

  /** What the live keys ask the table to hold. */
  ghost function LiveItems(live: seq<bv64>, n: nat): multiset<Item>
    requires n >= 1
  {
    multiset(KeyItems(live, n))
  }

  ghost predicate Inv(st: State, n: nat) {
    && n >= 1 && MemOk(st.mem, n)
    && LiveItems(st.live, n) <= Items(st.mem.slots, n) + st.lost
    && Loose(st.mem, n) <= st.recent
    && (st.exact ==> st.lost == multiset{} && |Items(st.mem.slots, n)| <= |st.live|)
  }

  /** st is reachable from the empty table of n buckets by `ops`. */
  ghost predicate Run(st: State, n: nat, ops: seq<Op>)
    requires n >= 1
    decreases |ops|, 1
  {
    if ops == [] then
      st == Start(n)
    else
      exists prev :: RunStep(prev, st, n, ops)
  }

  ghost predicate RunStep(prev: State, st: State, n: nat, ops: seq<Op>)
    requires n >= 1 && ops != []
    decreases |ops|, 0
  {
    && Run(prev, n, ops[..|ops| - 1])
    && Shaped(prev, n)
    && Enabled(prev, n, ops[|ops| - 1])
    && st == Step(prev, n, ops[|ops| - 1])
  }

  lemma LiveItemsAppend(live: seq<bv64>, key: bv64, n: nat)
    requires n >= 1
    ensures LiveItems(live + [key], n) == LiveItems(live, n) + multiset{KeyItem(key, n)}
  {
    hide KeyItem;
    assert KeyItems(live + [key], n) == KeyItems(live, n) + [KeyItem(key, n)];
  }

  lemma LiveItemsRemove(live: seq<bv64>, i: nat, n: nat)
    requires n >= 1 && i < |live|
    ensures LiveItems(live, n) == LiveItems(live[..i] + live[i + 1..], n) + multiset{KeyItem(live[i], n)}
  {
    hide KeyItem;
    var xs := KeyItems(live, n);
    assert xs == xs[..i] + [xs[i]] + xs[i + 1..];
    assert KeyItems(live[..i] + live[i + 1..], n) == xs[..i] + xs[i + 1..];
  }

  lemma DuplicateContains(base: multiset<Item>, m: multiset<Item>)
    requires OneDuplicate(base, m)
    ensures base <= m && |m| == |base| + 1
  {}

  lemma InvShape(st: State, n: nat)
    requires Inv(st, n)
    ensures Shaped(st, n) && Wf(st.mem.slots, n)
  {}

  /** The memory after some of the stores of an insert. */
  lemma PartWay(m: Memory, n: nat, x: Item, stores: nat)
    requires MemOk(m, n) && x.home < n && stores <= |InsertMemory(m, n, x)|
    ensures |InsertMemory(m, n, x)| == |Insert(m.slots, n, x).states|
    ensures var m', o := LastOf(m, InsertMemory(m, n, x)[..stores]), Insert(m.slots, n, x);
      && MemOk(m', n)
      && m'.slots == (if stores == 0 then m.slots else o.states[stores - 1])
      && Loose(m', n) <= (if o.ok && stores == |o.states| then Loose(m, n) + multiset{x} else Loose(m, n))
  {
    hide Insert, InsertMemory, MemOk, Loose;
    MemShape(m, n);
    InsertOnTheWay(m, n, x);
    if stores > 0 {
      var ms, o := InsertMemory(m, n, x), Insert(m.slots, n, x);
      assert OnTheWay(Loose(m, n), n, x, ms[stores - 1], o.states[stores - 1], o.ok && stores - 1 == |ms| - 1);
      assert ms[..stores][stores - 1] == ms[stores - 1];
    }
  }

  /** The contents after some of the stores: the item is added by the last one and by no other. */
  lemma PartItems(s: Slots, n: nat, x: Item, stores: nat)
    requires Wf(s, n) && x.home < n && stores <= |Insert(s, n, x).states|
    ensures var o := Insert(s, n, x); var t := if stores == 0 then s else o.states[stores - 1];
      && Items(s, n) <= Items(t, n) && |Items(t, n)| <= |Items(s, n)| + 1
      && (o.ok && stores == |o.states| ==> Items(t, n) == Items(s, n) + multiset{x})
  {
    hide Items, Insert;
    InsertItems(s, n, x);
    var o := Insert(s, n, x);
    if stores > 0 && !(o.ok && stores == |o.states|) {
      assert DigState(Items(s, n), n, x, o.states[stores - 1], false);
      DuplicateContains(Items(s, n), Items(o.states[stores - 1], n));
    }
  }

  lemma WholeList(m: Memory, ms: seq<Memory>) ensures LastOf(m, ms[..|ms|]) == LastOf(m, ms) { assert ms[..|ms|] == ms; }

  lemma InsertKeepsInv(st: State, n: nat, key: bv64)
    requires Inv(st, n)
    ensures Shaped(st, n) && Inv(Step(st, n, InsertOp(key)), n)
  {
    hide Items, Insert, LiveItems, KeyItem, InsertMemory, Loose, MemOk;
    InvShape(st, n);
    var x := KeyItem(key, n);
    var ms := InsertMemory(st.mem, n, x);
    PartWay(st.mem, n, x, |ms|);
    PartItems(st.mem.slots, n, x, |ms|);
    WholeList(st.mem, ms);
    LiveItemsAppend(st.live, key, n);
  }

  lemma CrashKeepsInv(st: State, n: nat, key: bv64, stores: nat)
    requires Inv(st, n) && Shaped(st, n) && Enabled(st, n, CrashOp(key, stores))
    ensures Inv(Step(st, n, CrashOp(key, stores)), n)
  {
    hide Items, Insert, LiveItems, KeyItem, InsertMemory, Loose, MemOk;
    InvShape(st, n);
    var x := KeyItem(key, n);
    PartWay(st.mem, n, x, stores);
    PartItems(st.mem.slots, n, x, stores);
  }

  lemma DeleteKeepsInv(st: State, n: nat, i: nat)
    requires Inv(st, n) && Shaped(st, n) && i < |st.live|
    ensures Inv(Step(st, n, DeleteOp(i)), n)
  {
    hide Items, Delete, LiveItems, KeyItem, DeleteMemory, Loose, MemOk;
    InvShape(st, n);
    var x := KeyItem(st.live[i], n);
    DeleteLoose(st.mem, n, x);
    DeleteItems(st.mem.slots, n, x);
    LiveItemsRemove(st.live, i, n);
    StillAsked(LiveItems(st.live, n), Items(st.mem.slots, n), st.lost, x);
    assert x in LiveItems(st.live, n);
  }

  lemma StillAsked(live: multiset<Item>, items: multiset<Item>, lost: multiset<Item>, x: Item)
    requires live <= items + lost
    ensures live - multiset{x} <= (items - multiset{x}) + lost
  {}

  lemma PowerLossKeepsInv(st: State, n: nat, after: Slots)
    requires Inv(st, n) && PowerLoss(st.mem, n, after)
    ensures Shaped(st, n) && Inv(Step(st, n, PowerLossOp(after)), n)
  {
    hide Items, LiveItems, Loose, MemOk, PowerLoss;
    InvShape(st, n);
    PowerLossKeeps(st.mem, n, after);
    SettledFirm(after, n);
  }

  lemma StepKeepsInv(st: State, n: nat, op: Op)
    requires Inv(st, n) && Shaped(st, n) && Enabled(st, n, op)
    ensures Inv(Step(st, n, op), n)
  {
    match op
    case InsertOp(key) => InsertKeepsInv(st, n, key);
    case DeleteOp(i) => DeleteKeepsInv(st, n, i);
    case CrashOp(key, stores) => CrashKeepsInv(st, n, key, stores);
    case PowerLossOp(after) => PowerLossKeepsInv(st, n, after);
  }

  lemma {:induction false} RunInv(st: State, n: nat, ops: seq<Op>)
    requires n >= 1 && Run(st, n, ops)
    ensures Inv(st, n)
    decreases |ops|
  {
    hide Items, Step, Enabled, Loose, MemOk;
    if ops == [] {
      StartInv(st, n);
    } else {
      var prev :| RunStep(prev, st, n, ops);
      RunInv(prev, n, ops[..|ops| - 1]);
      StepKeepsInv(prev, n, ops[|ops| - 1]);
    }
  }

  lemma StartInv(st: State, n: nat)
    requires n >= 1 && st == Start(n)
    ensures Inv(st, n)
  {
    hide Items, Loose;
    NoItems(st.mem.slots, n);
    SettledFirm(st.mem.slots, n);
  }

  // ----- No live key goes missing, short of a power loss -----

  lemma LiveHasItem(live: seq<bv64>, n: nat, key: bv64)
    requires n >= 1 && key in live
    ensures KeyItem(key, n) in LiveItems(live, n)
  {
    var i :| 0 <= i < |live| && live[i] == key;
    assert KeyItems(live, n)[i] in KeyItems(live, n);
  }

  lemma ItemHasLive(live: seq<bv64>, n: nat, x: Item) returns (key: bv64)
    requires n >= 1 && x in LiveItems(live, n)
    ensures key in live && KeyItem(key, n) == x
  {
    var i :| 0 <= i < |live| && KeyItems(live, n)[i] == x;
    key := live[i];
  }

  /** In every reachable state every live key is found, unless its item is one the last power loss took. */
  lemma NoFalseNegatives(st: State, n: nat, ops: seq<Op>, key: bv64)
    requires n >= 1 && Run(st, n, ops) && key in st.live && KeyItem(key, n) !in st.lost
    ensures Shaped(st, n) && Lookup(st.mem.slots, n, KeyItem(key, n))
  {
    hide Items, LiveItems, KeyItem, Lookup, Run, Loose, MemOk;
    RunInv(st, n, ops);
    InvShape(st, n);
    LiveHasItem(st.live, n, key);
    LookupIff(st.mem.slots, n, KeyItem(key, n));
  }

  /** Failed inserts and inserts cut off by a stop of the program lose nothing. */
  lemma {:induction false} NothingLostWithoutPowerLoss(st: State, n: nat, ops: seq<Op>)
    requires n >= 1 && Run(st, n, ops) && forall i :: 0 <= i < |ops| ==> !ops[i].PowerLossOp?
    ensures st.lost == multiset{}
    decreases |ops|
  {
    hide Items, LiveItems, KeyItem, InsertMemory, DeleteMemory, Insert;
    if ops != [] {
      var prev :| RunStep(prev, st, n, ops);
      NothingLostWithoutPowerLoss(prev, n, ops[..|ops| - 1]);
    }
  }

  /** A power loss takes away only live items that were stored since the one before and whose bucket was not
      flushed since; what an earlier power loss left is safe from the next. */
  lemma PowerLossTakes(st: State, n: nat, ops: seq<Op>, after: Slots)
    requires n >= 1 && Run(st, n, ops) && Shaped(st, n) && PowerLoss(st.mem, n, after)
    ensures Step(st, n, PowerLossOp(after)).lost <= st.lost + Loose(st.mem, n)
    ensures Loose(st.mem, n) <= st.recent
  {
    hide Items, LiveItems, Run, Loose, MemOk, PowerLoss;
    RunInv(st, n, ops);
    PowerLossKeeps(st.mem, n, after);
    TakenBound(LiveItems(st.live, n), Items(st.mem.slots, n), Items(after, n), st.lost, Loose(st.mem, n));
  }

  lemma TakenBound(live: multiset<Item>, before: multiset<Item>, after: multiset<Item>, lost: multiset<Item>, loose: multiset<Item>)
    requires live <= before + lost && before <= after + loose
    ensures live - after <= lost + loose
  {}

  /** The key of a live item is found after every power loss exactly when some bucket holds the item in every
      value a power loss may leave there. */
  lemma SurvivesIff(st: State, n: nat, ops: seq<Op>, key: bv64)
    requires n >= 1 && Run(st, n, ops) && Shaped(st, n)
    ensures Durable(st.mem, n, KeyItem(key, n)) <==>
      forall after :: PowerLoss(st.mem, n, after) ==> Lookup(after, n, KeyItem(key, n))
  {
    hide Items, LiveItems, Run, Loose, MemOk, PowerLoss, KeyItem, Durable, Lookup;
    RunInv(st, n, ops);
    OutlastsIff(st.mem, n, KeyItem(key, n));
    forall after | PowerLoss(st.mem, n, after)
      ensures |after| == 4 * n && (Lookup(after, n, KeyItem(key, n)) <==> KeyItem(key, n) in Items(after, n))
    {
      PowerLossKeeps(st.mem, n, after);
      LookupIff(after, n, KeyItem(key, n));
    }
  }

  // ----- Which stores make a key safe -----

  ghost predicate WritesOk(ws: seq<Write>) { forall l :: 0 <= l < |ws| ==> Dis(ws[l].cell) < MAX_PROBE }

  /** The memory is what the stores since the last power loss made of what it left. */
  ghost predicate Traced(st: State, n: nat) {
    Wf(st.base, n) && WritesOk(st.writes) && st.mem == Applied(Settled(st.base, n), st.writes)
  }

  lemma {:induction false} DigWritesOk(m: Memory, n: nat, x: Item, p: nat)
    requires MemOk(m, n) && x.home < n && 4 * x.home <= p < 4 * (x.home + n)
    ensures WritesOk(DigWrites(m, n, x, p))
    decreases p
  {
    hide Items, Wrap, Slot, FirstCandidate, MemOk, Loose, Relocated;
    MemShape(m, n);
    var b := p / 4;
    if b - x.home >= MAX_PROBE {
      var q := FirstCandidate(m.slots, n, b, 4 * (b - (MAX_PROBE - 1)));
      if q < 4 * b {
        RelocatedOk(m, n, x, q, p);
        DigWritesOk(Relocated(m, n, q, p), n, x, q);
        MovedFits(m.slots, n, q, p);
      }
    }
  }

  lemma MovedFits(s: Slots, n: nat, q: nat, p: nat)
    requires Wf(s, n) && q / 4 <= p / 4 && Movable(s, n, p / 4, q)
    ensures |MoveUp(s, n, q, p)| == 4 * n && Dis(MoveUp(s, n, q, p)[Slot(n, p)]) < MAX_PROBE
  {}

  lemma InsertWritesOk(m: Memory, n: nat, x: Item)
    requires MemOk(m, n) && x.home < n
    ensures WritesOk(InsertWrites(m, n, x))
  {
    hide FirstEmpty, DigWrites, MemOk;
    MemShape(m, n);
    var p := FirstEmpty(m.slots, n, 4 * x.home, 4 * (x.home + n));
    if p < 4 * (x.home + n) {
      DigWritesOk(m, n, x, p);
    }
  }

  lemma TracedThen(st: State, n: nat, st': State, ws: seq<Write>)
    requires Traced(st, n) && WritesOk(ws) && st'.base == st.base && st'.writes == st.writes + ws && st'.mem == Applied(st.mem, ws)
    ensures Traced(st', n)
  {
    AppliedAppend(Settled(st.base, n), st.writes, ws);
    hide Applied, Settled;
  }

  lemma StepTraced(st: State, n: nat, op: Op)
    requires Inv(st, n) && Shaped(st, n) && Enabled(st, n, op) && Traced(st, n)
    ensures Traced(Step(st, n, op), n)
  {
    hide Items, LiveItems, KeyItem, InsertMemory, InsertWrites, DeleteMemory, DeleteWrites, Insert, Applied, Settled, MemOk, Loose, PowerLoss,
      Traced, WritesOk;
    match op
    case InsertOp(key) =>
      var x := KeyItem(key, n);
      var ms := InsertMemory(st.mem, n, x);
      InsertWritesMake(st.mem, n, x, |ms|);
      InsertWritesOk(st.mem, n, x);
      WholeList(st.mem, ms);
      assert InsertWrites(st.mem, n, x)[..|ms|] == InsertWrites(st.mem, n, x);
      TracedThen(st, n, Step(st, n, op), InsertWrites(st.mem, n, x));
    case DeleteOp(i) =>
      var x := KeyItem(st.live[i], n);
      DeleteWritesMake(st.mem, n, x);
      DeleteWritesOk(st.mem, n, x);
      TracedThen(st, n, Step(st, n, op), DeleteWrites(st.mem, n, x));
    case CrashOp(key, stores) =>
      var x := KeyItem(key, n);
      InsertWritesMake(st.mem, n, x, stores);
      InsertWritesOk(st.mem, n, x);
      PartOk(InsertWrites(st.mem, n, x), stores);
      TracedThen(st, n, Step(st, n, op), InsertWrites(st.mem, n, x)[..stores]);
    case PowerLossOp(after) =>
      AfterWf(st.mem, n, after);
      SettledTraced(Step(st, n, op), n);
  }

  lemma DeleteWritesOk(m: Memory, n: nat, x: Item)
    requires n >= 1 && |m.slots| == 4 * n && |m.may| == n
    ensures WritesOk(DeleteWrites(m, n, x))
  {
    hide FirstMatch, Slot;
  }

  lemma PartOk(ws: seq<Write>, k: nat) requires WritesOk(ws) && k <= |ws| ensures WritesOk(ws[..k]) {}

  lemma SettledTraced(st: State, n: nat)
    requires Wf(st.base, n) && st.mem == Settled(st.base, n) && st.writes == []
    ensures Traced(st, n)
  {}

  lemma {:induction false} RunTraced(st: State, n: nat, ops: seq<Op>)
    requires n >= 1 && Run(st, n, ops)
    ensures Traced(st, n)
    decreases |ops|
  {
    hide Step, Enabled, Traced, Settled;
    if ops == [] {
      SettledTraced(st, n);
    } else {
      var prev :| RunStep(prev, st, n, ops);
      RunInv(prev, n, ops[..|ops| - 1]);
      RunTraced(prev, n, ops[..|ops| - 1]);
      StepTraced(prev, n, ops[|ops| - 1]);
    }
  }

  /** A key is safe from the next power loss when the word of a slot that holds its item was flushed at or after
      the last store to that slot: by a relocation into the same bucket, of this item or of another. */
  lemma FlushedKeySurvives(st: State, n: nat, ops: seq<Op>, key: bv64, i: nat, after: Slots)
    requires n >= 1 && Run(st, n, ops) && Shaped(st, n) && i < 4 * n && Holds(st.mem.slots, n, i, KeyItem(key, n))
    requires FlushedSince(st.writes, i) && PowerLoss(st.mem, n, after)
    ensures |after| == 4 * n && Lookup(after, n, KeyItem(key, n))
  {
    hide Items, Run, MemOk, PowerLoss, KeyItem, Lookup, Firm, Applied, Settled, FlushedSince;
    RunTraced(st, n, ops);
    FlushedIsFirm(st.base, n, st.writes, i);
    FirmKept(st.mem, n, after, i);
    AfterWf(st.mem, n, after);
    ItemsMember(after, n, KeyItem(key, n));
    assert Holds(after, n, i, KeyItem(key, n));
    LookupIff(after, n, KeyItem(key, n));
  }

  /** In terms of the stores: a key is found after every power loss exactly when some bucket held its item after
      its last flush and after every store since. */
  lemma SurvivesByStores(st: State, n: nat, ops: seq<Op>, key: bv64)
    requires n >= 1 && Run(st, n, ops) && Shaped(st, n)
    ensures |st.base| == 4 * n
    ensures (forall after :: PowerLoss(st.mem, n, after) ==> Lookup(after, n, KeyItem(key, n))) <==>
            exists b :: 0 <= b < n && HeldSince(st, n, b, KeyItem(key, n))
  {
    hide Items, Run, PowerLoss, KeyItem, Lookup, BucketHolds, HadSince, Applied, Settled, MemOk, Loose;
    SurvivesIff(st, n, ops, key);
    RunTraced(st, n, ops);
    forall b | 0 <= b < n ensures AlwaysHolds(st.mem, n, b, KeyItem(key, n)) <==> HeldSince(st, n, b, KeyItem(key, n)) {
      forall v ensures v in st.mem.may[b] <==> HadSince(Settled(st.base, n), st.writes, b, v) {
        MayLeave(st.base, n, st.writes, b, v);
      }
    }
  }

  /** Every value bucket b had since its last flush holds the item. */
  ghost predicate HeldSince(st: State, n: nat, b: nat, x: Item)
    requires n >= 1 && |st.base| == 4 * n
  {
    forall v :: HadSince(Settled(st.base, n), st.writes, b, v) ==> BucketHolds(v, n, b, x)
  }

  /** The final store of an insert is not flushed: the only key of a new filter can be gone after a power
      loss, although its insert returned true. */
  lemma FinalStoreNotDurable(key: bv64, n: nat) returns (st: State, after: Slots)
    requires n >= 1
    ensures Run(st, n, [InsertOp(key)]) && Shaped(st, n) && key in st.live
    ensures PowerLoss(st.mem, n, after) && !Lookup(after, n, KeyItem(key, n))
  {
    hide KeyItem, Items, Insert, InsertMemory;
    var x := KeyItem(key, n);
    after := seq(4 * n, _ => Free);
    var start := Start(n);
    st := Step(start, n, InsertOp(key));
    FirstInsert(n, x);
    assert [InsertOp(key)][..0] == [];
    assert Run(start, n, []);
    assert RunStep(start, st, n, [InsertOp(key)]);
    NoItems(after, n);
    LookupIff(after, n, x);
  }

  /** The first insert into an empty table is one store, in the first slot of the home bucket. */
  lemma FirstInsert(n: nat, x: Item)
    requires n >= 1 && x.home < n
    ensures var s: Slots := seq(4 * n, _ => Free); var m := Settled(s, n);
      && Insert(s, n, x) == Outcome([s[4 * x.home := Used(x.fpt, 0)]], true)
      && InsertMemory(m, n, x) == [Store(m, 4 * x.home, Used(x.fpt, 0))]
      && PowerLoss(Store(m, 4 * x.home, Used(x.fpt, 0)), n, s)
  {
    hide FirstEmpty;
    var s: Slots := seq(4 * n, _ => Free);
    var m := Settled(s, n);
    FirstEmptyStep(s, n, 4 * x.home, 4 * (x.home + n));
    assert Slot(n, 4 * x.home) == 4 * x.home;
  }

  // ----- Exactness -----

  lemma SubBagOfSameSize(a: multiset<Item>, b: multiset<Item>)
    requires a <= b && |b| <= |a|
    ensures a == b
  {
    assert b == a + (b - a);
  }

  /** As long as no insert failed or was cut off and no power was lost, the table holds the live keys' items
      and nothing else, so a key is reported exactly when some live key shares its bucket and fingerprint. */
  lemma ExactWithoutFailures(st: State, n: nat, ops: seq<Op>, key: bv64)
    requires n >= 1 && Run(st, n, ops) && st.exact
    ensures Shaped(st, n) && Items(st.mem.slots, n) == LiveItems(st.live, n)
    ensures Lookup(st.mem.slots, n, KeyItem(key, n)) <==> exists k :: k in st.live && KeyItem(k, n) == KeyItem(key, n)
  {
    hide Items, LiveItems, KeyItem, Lookup, Run, Loose, MemOk;
    RunInv(st, n, ops);
    InvShape(st, n);
    assert |LiveItems(st.live, n)| == |st.live| by { LiveItemsSize(st.live, n); }
    assert Items(st.mem.slots, n) + multiset{} == Items(st.mem.slots, n);
    SubBagOfSameSize(LiveItems(st.live, n), Items(st.mem.slots, n));
    LookupIff(st.mem.slots, n, KeyItem(key, n));
    if KeyItem(key, n) in LiveItems(st.live, n) {
      var k := ItemHasLive(st.live, n, KeyItem(key, n));
    }
    if k :| k in st.live && KeyItem(k, n) == KeyItem(key, n) {
      LiveHasItem(st.live, n, k);
    }
  }

  lemma LiveItemsSize(live: seq<bv64>, n: nat) requires n >= 1 ensures |LiveItems(live, n)| == |live| {}

  // ----- Deleting keys that are not live -----

  ghost predicate AllFound(st: State, n: nat, s: Slots)
    requires n >= 1 && |s| == 4 * n
  {
    forall k :: k in st.live ==> Lookup(s, n, KeyItem(k, n))
  }

  /** Where every live key is found, deleting a key that need not be live keeps it so exactly when no live key
      shares its item or the table holds that item at least twice: the reason deletes are restricted to live
      keys. */
  lemma DeleteAnyKey(st: State, n: nat, key: bv64)
    requires Inv(st, n) && st.lost == multiset{}
    ensures Shaped(st, n)
    ensures var x := KeyItem(key, n);
      AllFound(st, n, Delete(st.mem.slots, n, x)) <==>
      (forall k :: k in st.live ==> KeyItem(k, n) != x) || Items(st.mem.slots, n)[x] >= 2
  {
    hide Items, Delete, LiveItems, KeyItem, Lookup, Loose, MemOk;
    InvShape(st, n);
    var x, s := KeyItem(key, n), st.mem.slots;
    var s' := Delete(s, n, x);
    DeleteItems(s, n, x);
    assert Items(s, n) + multiset{} == Items(s, n);
    forall k | k in st.live
      ensures Lookup(s', n, KeyItem(k, n)) <==> KeyItem(k, n) != x || Items(s, n)[x] >= 2
    {
      LiveHasItem(st.live, n, k);
      LookupIff(s', n, KeyItem(k, n));
      assert Items(s', n)[KeyItem(k, n)] == (Items(s, n) - multiset{x})[KeyItem(k, n)];
    }
  }

  /** How many live keys share the item. */
  function Sharers(live: seq<bv64>, n: nat, x: Item): nat
    requires n >= 1
  {
    if live == [] then 0
    else Sharers(live[..|live| - 1], n, x) + if KeyItem(live[|live| - 1], n) == x then 1 else 0
  }

  lemma {:induction false} SharersIs(live: seq<bv64>, n: nat, x: Item)
    requires n >= 1
    ensures Sharers(live, n, x) == LiveItems(live, n)[x]
    decreases |live|
  {
    hide KeyItem;
    if live != [] {
      var k := |live| - 1;
      SharersIs(live[..k], n, x);
      LiveItemsAppend(live[..k], live[k], n);
      assert live == live[..k] + [live[k]];
    }
  }

  /** Without failures, deleting any key at all is harmless exactly when the live keys that share its item are
      not one in number. */
  lemma DeleteHarmlessIff(st: State, n: nat, ops: seq<Op>, key: bv64)
    requires n >= 1 && Run(st, n, ops) && st.exact
    ensures Shaped(st, n)
    ensures AllFound(st, n, Delete(st.mem.slots, n, KeyItem(key, n))) <==> Sharers(st.live, n, KeyItem(key, n)) != 1
  {
    hide Items, Delete, LiveItems, KeyItem, Run, Loose, MemOk, AllFound, Sharers;
    var x := KeyItem(key, n);
    RunInv(st, n, ops);
    ExactWithoutFailures(st, n, ops, key);
    DeleteAnyKey(st, n, key);
    SharersIs(st.live, n, x);
    if x in LiveItems(st.live, n) {
      var k := ItemHasLive(st.live, n, x);
    }
    forall k | k in st.live && KeyItem(k, n) == x ensures x in LiveItems(st.live, n) {
      LiveHasItem(st.live, n, k);
    }
  }

  /** Key 0 is inserted, and then a key that never was is deleted: key 0 is reported absent. */
  lemma DeleteLosesKey(n: nat) returns (st: State)
    requires n >= 1
    ensures Run(st, n, [InsertOp(0)]) && Shaped(st, n) && st.live == [0]
    ensures !Lookup(Delete(st.mem.slots, n, KeyItem(0x1000_0000_0000, n)), n, KeyItem(0, n))
  {
    var x := KeyItem(0, n);
    SameItem(n);
    hide KeyItem, Items, Insert, InsertMemory, Lookup, Delete;
    var start := Start(n);
    st := Step(start, n, InsertOp(0));
    FirstInsert(n, x);
    assert [InsertOp(0)][..0] == [];
    assert Run(start, n, []);
    assert RunStep(start, st, n, [InsertOp(0)]);
    DeleteHarmlessIff(st, n, [InsertOp(0)], 0);
    assert Sharers([0], n, x) == Sharers([], n, x) + 1 by { assert [0 as bv64][..0] == []; }
    assert [] + [0 as bv64] == [0];
  }

  lemma SameItem(n: nat)
    requires n >= 1
    ensures KeyItem(0x1000_0000_0000, n) == KeyItem(0, n)
  {}
}
