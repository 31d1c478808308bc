/** Group commit: a queue of writers whose front commits a group for several of them, with other writers
    arriving and readers reading between its steps. */
module GroupCommit {
  import opened Wrappers
  import opened Entries

  datatype Update = PutOp(key: UserKey, value: Value) | DeleteOp(key: UserKey)

  function EntryFor(u: Update, seqno: nat): Entry {
    if u.PutOp? then Entry(u.key, seqno, Put, u.value) else Entry(u.key, seqno, Deletion, "")
  }

  /** `bytes` is the size of the batch's encoding. */
  datatype Batch = Batch(ops: seq<Update>, bytes: nat)

  /** A writer without a batch only forces the memtable to be switched. */
  datatype Writer = Writer(batch: Option<Batch>, sync: bool)

  function Ops(w: Writer): seq<Update> { if w.batch.None? then [] else w.batch.value.ops }
  function Bytes(w: Writer): nat { if w.batch.None? then 0 else w.batch.value.bytes }

  function AllOps(ws: seq<Writer>): seq<Update> {
    if ws == [] then [] else AllOps(ws[..|ws| - 1]) + Ops(ws[|ws| - 1])
  }

  function AllBytes(ws: seq<Writer>): nat {
    if ws == [] then 0 else AllBytes(ws[..|ws| - 1]) + Bytes(ws[|ws| - 1])
  }

  /** Updates numbered from `first` on, as the inserter numbers them. */
  function Stamp(ops: seq<Update>, first: nat): (es: seq<Entry>)
    ensures |es| == |ops|
  {
    seq(|ops|, i requires 0 <= i < |ops| => EntryFor(ops[i], first + i))
  }

  // ----- Choosing the group -----

  const MAX_GROUP: nat := 0x10_0000
  const SMALL_WRITE: nat := 0x2_0000

  function MaxSize(first: Writer): nat {
    if Bytes(first) <= SMALL_WRITE then Bytes(first) + SMALL_WRITE else MAX_GROUP
  }

  /** Whether w may join the group formed so far behind its first writer. */
  predicate MayJoin(group: seq<Writer>, w: Writer)
    requires group != []
  {
    && (w.sync ==> group[0].sync)
    && (w.batch.Some? ==> AllBytes(group) + Bytes(w) <= MaxSize(group[0]))
  }

  /** A group: everyone behind the first joined in turn, and nobody else could. */
  ghost predicate IsGroup(queue: seq<Writer>, n: nat) {
    1 <= n <= |queue| && Joined(queue, n) && (n < |queue| ==> !MayJoin(queue[..n], queue[n]))
  }

  ghost predicate Joined(queue: seq<Writer>, n: nat)
    requires n <= |queue|
  {
    forall i :: 1 <= i < n ==> MayJoin(queue[..i], queue[i])
  }

  method BuildBatchGroup(queue: seq<Writer>) returns (n: nat, ops: seq<Update>)
    requires queue != [] && queue[0].batch.Some?
    ensures IsGroup(queue, n) && ops == AllOps(queue[..n])
  {
    var first := queue[0];
    ops := first.batch.value.ops;
    var size := Bytes(first);
    var maxSize := MAX_GROUP;
    if size <= SMALL_WRITE {
      maxSize := size + SMALL_WRITE;
    }
    assert maxSize == MaxSize(first);
    GroupStarts(queue);
    n := 1;
    assert Joined(queue, n);
    hide AllOps, AllBytes, Joined, MayJoin, MaxSize, Ops, Bytes;
    while n < |queue|
      invariant 1 <= n <= |queue| && ops == AllOps(queue[..n]) && size == AllBytes(queue[..n])
      invariant Joined(queue, n)
    {
      var w := queue[n];
      JoinRule(queue, n);
      if w.sync && !first.sync {
        break;
      }
      GroupGrows(queue, n);
      if w.batch.Some? {
        size := size + Bytes(w);
        if size > maxSize {
          break;
        }
        ops := ops + Ops(w);
      }
      JoinNext(queue, n);
      n := n + 1;
    }
  }

  lemma JoinRule(queue: seq<Writer>, n: nat)
    requires 1 <= n < |queue|
    ensures MayJoin(queue[..n], queue[n]) <==>
      (queue[n].sync ==> queue[0].sync)
      && (queue[n].batch.Some? ==> AllBytes(queue[..n]) + Bytes(queue[n]) <= MaxSize(queue[0]))
  {
    assert queue[..n][0] == queue[0];
  }

  lemma JoinNext(queue: seq<Writer>, n: nat)
    requires 1 <= n < |queue| && Joined(queue, n) && MayJoin(queue[..n], queue[n])
    ensures Joined(queue, n + 1)
  {}

  lemma GroupStarts(queue: seq<Writer>)
    requires queue != []
    ensures AllOps(queue[..1]) == Ops(queue[0]) && AllBytes(queue[..1]) == Bytes(queue[0])
  {
    GroupGrows(queue, 0);
    assert AllOps(queue[..0]) == [] && AllBytes(queue[..0]) == 0;
  }

  lemma GroupGrows(queue: seq<Writer>, n: nat)
    requires n < |queue|
    ensures AllOps(queue[..n + 1]) == AllOps(queue[..n]) + Ops(queue[n])
    ensures AllBytes(queue[..n + 1]) == AllBytes(queue[..n]) + Bytes(queue[n])
    ensures queue[n].batch.None? ==> AllOps(queue[..n + 1]) == AllOps(queue[..n])
  {
    assert queue[..n + 1][..n] == queue[..n];
  }

  /** A group led by a non-sync writer holds no sync writer, and its size stays within the limit. */
  lemma {:induction false} GroupRules(queue: seq<Writer>, n: nat, i: nat)
    requires IsGroup(queue, n) && i < n
    ensures queue[i].sync ==> queue[0].sync
    ensures AllBytes(queue[..i + 1]) <= MaxSize(queue[0]) || AllBytes(queue[..i + 1]) == Bytes(queue[0])
  {
    GroupGrows(queue, i);
    if i == 0 {
      assert AllBytes(queue[..0]) == 0;
    } else {
      GroupRules(queue, n, i - 1);
      assert MayJoin(queue[..i], queue[i]);
      assert queue[..i][0] == queue[0];
    }
  }

  /** Writer i is not a sync writer behind one that is not, and the bytes up to it stay within 128 KB more than the
      first writer's if those are at most 128 KB, and within 1 MB otherwise; a writer without a batch adds none. */
  ghost predicate Admitted(queue: seq<Writer>, i: nat)
    requires i < |queue|
  {
    && !(queue[i].sync && !queue[0].sync)
    && (queue[i].batch.None? ||
        AllBytes(queue[..i + 1]) <= if Bytes(queue[0]) <= 131072 then Bytes(queue[0]) + 131072 else 1048576)
  }

  /** The group is the first writer and all behind it up to the first that is not admitted. */
  lemma WhoJoins(queue: seq<Writer>, n: nat)
    ensures IsGroup(queue, n) <==>
      && 1 <= n <= |queue| && (forall i :: 1 <= i < n ==> Admitted(queue, i))
      && (n < |queue| ==> !Admitted(queue, n))
  {
    hide AllBytes, Bytes;
    forall i | 1 <= i < |queue| ensures MayJoin(queue[..i], queue[i]) <==> Admitted(queue, i) {
      GroupGrows(queue, i);
      JoinRule(queue, i);
    }
  }

  // ----- The protocol -----

  /** One record of the log: a whole group. */
  datatype Record = Record(first: nat, ops: seq<Update>)

  /** What became of a writer: its sequence numbers are first .. first + span - 1. */
  datatype Done = Done(writer: Writer, first: nat, span: nat, ok: bool)

  /** What the leader is at; n is the size of its group. */
  datatype Phase =
    | Idle
    | Logging(n: nat)
    | Syncing(n: nat)
    | Inserting(n: nat, inserted: nat)
    | Finishing(n: nat, ok: bool)
    | Refused

  datatype State = State(
    arrivals: seq<Writer>,
    queue: seq<Writer>,
    phase: Phase,
    log: seq<Record>,
    durable: nat,
    mem: seq<Entry>,
    last: nat,
    finished: seq<Done>)

  datatype Step = Enqueue(w: Writer) | Lead(n: nat) | NoRoom | Append(ok: bool) | Sync(ok: bool) | Insert | Inserted | Finish

  /** The fate of the first j writers of the group, given numbers from `first` on. */
  function Fates(ws: seq<Writer>, first: nat, ok: bool): (ds: seq<Done>)
    ensures |ds| == |ws|
  {
    if ws == [] then []
    else
      var k := |ws| - 1;
      Fates(ws[..k], first, ok) + [Done(ws[k], first + |AllOps(ws[..k])|, |Ops(ws[k])|, ok)]
  }

  ghost predicate Next(s: State, step: Step, s': State) {
    match step
    case Enqueue(w) => s' == s.(arrivals := s.arrivals + [w], queue := s.queue + [w])
    case Lead(n) =>
      && s.phase.Idle? && s.queue != []
      && (if s.queue[0].batch.Some? then IsGroup(s.queue, n) && s' == s.(phase := Logging(n))
          else n == 1 && s' == s.(phase := Finishing(1, true)))
    case NoRoom => s.phase.Idle? && s.queue != [] && s' == s.(phase := Refused)
    case Append(ok) =>
      && s.phase.Logging?
      && (var n := s.phase.n;
          if !ok then s' == s.(phase := Finishing(n, false))
          else
            && n <= |s.queue| && s.queue != []
            && s' == s.(log := s.log + [Record(s.last + 1, AllOps(s.queue[..n]))],
                        phase := if s.queue[0].sync then Syncing(n) else Inserting(n, 0)))
    case Sync(ok) =>
      && s.phase.Syncing?
      && s' == if ok then s.(durable := |s.log|, phase := Inserting(s.phase.n, 0)) else s.(phase := Finishing(s.phase.n, false))
    case Insert =>
      && s.phase.Inserting? && s.phase.n <= |s.queue|
      && (var ops := AllOps(s.queue[..s.phase.n]);
          && s.phase.inserted < |ops|
          && s' == s.(mem := s.mem + [Stamp(ops, s.last + 1)[s.phase.inserted]],
                      phase := Inserting(s.phase.n, s.phase.inserted + 1)))
    case Inserted =>
      && s.phase.Inserting? && s.phase.n <= |s.queue| && s.phase.inserted == |AllOps(s.queue[..s.phase.n])|
      && s' == s.(phase := Finishing(s.phase.n, true))
    case Finish =>
      if s.phase.Finishing? then
        && s.phase.n <= |s.queue|
        && (var n := s.phase.n;
            s' == s.(phase := Idle, last := s.last + |AllOps(s.queue[..n])|, queue := s.queue[n..],
                     finished := s.finished + Fates(s.queue[..n], s.last + 1, s.phase.ok)))
      else
        && s.phase.Refused? && s.queue != []
        && s' == s.(phase := Idle, queue := s.queue[1..], finished := s.finished + [Done(s.queue[0], s.last + 1, 0, false)])
  }

  ghost predicate Start(s: State) {
    s.arrivals == [] && s.queue == [] && s.phase.Idle? && s.log == [] && s.durable == 0 && s.mem == [] && s.finished == []
  }

  // ----- The invariant -----

  function Writers(ds: seq<Done>): (ws: seq<Writer>)
    ensures |ws| == |ds|
  {
    seq(|ds|, i requires 0 <= i < |ds| => ds[i].writer)
  }

  /** The entries of all successful writers, in order. */
  function Applied(ds: seq<Done>): seq<Entry> {
    if ds == [] then []
    else
      var d := ds[|ds| - 1];
      Applied(ds[..|ds| - 1]) + if d.ok then Stamp(Ops(d.writer), d.first) else []
  }

  /** Consecutive, disjoint ranges of sequence numbers from base + 1 up to last. */
  ghost predicate Contiguous(ds: seq<Done>, base: nat, last: nat) {
    if ds == [] then last == base
    else
      var d := ds[|ds| - 1];
      d.first >= 1 && d.first + d.span == last + 1 && Contiguous(ds[..|ds| - 1], base, d.first - 1)
  }

  ghost predicate Fair(d: Done, log: seq<Record>, durable: nat) {
    d.ok ==>
      && d.span == |Ops(d.writer)|
      && (d.writer.batch.Some? ==> LoggedBelow(d, log, |log|) && (d.writer.sync ==> LoggedBelow(d, log, durable)))
  }

  /** One of the first `limit` log records holds the writer's updates under its numbers. */
  ghost predicate LoggedBelow(d: Done, log: seq<Record>, limit: nat) {
    exists r :: 0 <= r < limit && r < |log| && Holds(log[r], d)
  }

  ghost predicate Holds(r: Record, d: Done) {
    && r.first <= d.first && d.first - r.first + |Ops(d.writer)| <= |r.ops|
    && r.ops[d.first - r.first..d.first - r.first + |Ops(d.writer)|] == Ops(d.writer)
  }

  ghost predicate PhaseOk(s: State) {
    match s.phase
    case Idle => s.mem == Applied(s.finished)
    case Refused => s.mem == Applied(s.finished) && s.queue != []
    case Logging(n) => s.mem == Applied(s.finished) && GroupOk(s, n)
    case Syncing(n) => s.mem == Applied(s.finished) && GroupOk(s, n) && Logged(s, n) && s.queue[0].sync
    case Inserting(n, k) =>
      && GroupOk(s, n) && Logged(s, n) && (s.queue[0].sync ==> s.durable == |s.log|)
      && (var ops := AllOps(s.queue[..n]);
          k <= |ops| && s.mem == Applied(s.finished) + Stamp(ops, s.last + 1)[..k])
    case Finishing(n, ok) =>
      && 1 <= n <= |s.queue|
      && s.mem == Applied(s.finished) + GroupEntries(s.queue[..n], s.last + 1, ok)
      && (ok && s.queue[0].batch.Some? ==> GroupOk(s, n) && Logged(s, n) && (s.queue[0].sync ==> s.durable == |s.log|))
      && (s.queue[0].batch.None? ==> n == 1)
  }

  /** The group is a prefix of the queue whose sync writers imply a sync leader. */
  ghost predicate GroupOk(s: State, n: nat) {
    && 1 <= n <= |s.queue| && s.queue[0].batch.Some?
    && forall i :: 0 <= i < n && s.queue[i].sync ==> s.queue[0].sync
  }

  ghost predicate Logged(s: State, n: nat)
    requires n <= |s.queue|
  {
    s.log != [] && s.log[|s.log| - 1] == Record(s.last + 1, AllOps(s.queue[..n]))
  }

  ghost predicate Inv(s: State, base: nat) {
    && s.arrivals == Writers(s.finished) + s.queue
    && Contiguous(s.finished, base, s.last)
    && (forall i :: 0 <= i < |s.finished| ==> Fair(s.finished[i], s.log, s.durable))
    && s.durable <= |s.log|
    && PhaseOk(s)
  }

  // ----- Groups and ranges -----

  lemma StampConcat(a: seq<Update>, b: seq<Update>, first: nat)
    ensures Stamp(a + b, first) == Stamp(a, first) + Stamp(b, first + |a|)
  {}

  lemma AppliedNext(ds: seq<Done>, d: Done)
    ensures Applied(ds + [d]) == Applied(ds) + if d.ok then Stamp(Ops(d.writer), d.first) else []
  {
    assert (ds + [d])[..|ds|] == ds;
  }

  lemma Assoc<T>(a: seq<T>, b: seq<T>, c: seq<T>) ensures (a + b) + c == a + (b + c) {}

  /** What a group adds to the entries. */
  function GroupEntries(ws: seq<Writer>, first: nat, ok: bool): seq<Entry> { if ok then Stamp(AllOps(ws), first) else [] }

  lemma GroupEntriesNext(ws: seq<Writer>, first: nat, ok: bool)
    requires ws != []
    ensures var k := |ws| - 1;
      GroupEntries(ws, first, ok) ==
      GroupEntries(ws[..k], first, ok) + if ok then Stamp(Ops(ws[k]), first + |AllOps(ws[..k])|) else []
  {
    var k := |ws| - 1;
    assert AllOps(ws) == AllOps(ws[..k]) + Ops(ws[k]);
    hide AllOps;
    StampConcat(AllOps(ws[..k]), Ops(ws[k]), first);
  }

  /** Finishing a group applies each of its writers under its own numbers: the same entries as the group's. */
  lemma {:induction false} FatesApplied(ds: seq<Done>, ws: seq<Writer>, first: nat, ok: bool)
    ensures Applied(ds + Fates(ws, first, ok)) == Applied(ds) + GroupEntries(ws, first, ok)
    decreases |ws|
  {
    hide Applied, Stamp;
    if ws == [] {
      assert ds + Fates(ws, first, ok) == ds;
      assert GroupEntries(ws, first, ok) == [];
    } else {
      var k := |ws| - 1;
      var init := ws[..k];
      var d := Done(ws[k], first + |AllOps(init)|, |Ops(ws[k])|, ok);
      var own := if ok then Stamp(Ops(ws[k]), d.first) else [];
      FatesApplied(ds, init, first, ok);
      assert Fates(ws, first, ok) == Fates(init, first, ok) + [d];
      hide Fates, AllOps, GroupEntries;
      Assoc(ds, Fates(init, first, ok), [d]);
      AppliedNext(ds + Fates(init, first, ok), d);
      GroupEntriesNext(ws, first, ok);
      Assoc(Applied(ds), GroupEntries(init, first, ok), own);
    }
  }

  lemma ContiguousNext(ds: seq<Done>, base: nat, last: nat, d: Done)
    requires Contiguous(ds, base, last) && d.first == last + 1
    ensures Contiguous(ds + [d], base, last + d.span)
  {
    assert (ds + [d])[..|ds|] == ds;
  }

  lemma {:induction false} FatesContiguous(ds: seq<Done>, base: nat, last: nat, ws: seq<Writer>, ok: bool)
    requires Contiguous(ds, base, last)
    ensures Contiguous(ds + Fates(ws, last + 1, ok), base, last + |AllOps(ws)|)
    decreases |ws|
  {
    hide Contiguous;
    if ws == [] {
      assert ds + Fates(ws, last + 1, ok) == ds;
    } else {
      var k := |ws| - 1;
      var init := ws[..k];
      var d := Done(ws[k], last + 1 + |AllOps(init)|, |Ops(ws[k])|, ok);
      FatesContiguous(ds, base, last, init, ok);
      Assoc(ds, Fates(init, last + 1, ok), [d]);
      ContiguousNext(ds + Fates(init, last + 1, ok), base, last + |AllOps(init)|, d);
    }
  }

  lemma {:induction false} FateOf(ws: seq<Writer>, first: nat, ok: bool, i: nat)
    requires i < |ws|
    ensures Fates(ws, first, ok)[i] == Done(ws[i], first + |AllOps(ws[..i])|, |Ops(ws[i])|, ok)
    decreases |ws|
  {
    var k := |ws| - 1;
    if i < k {
      FateOf(ws[..k], first, ok, i);
      assert ws[..k][..i] == ws[..i];
    }
  }

  lemma FatesWriters(ds: seq<Done>, ws: seq<Writer>, first: nat, ok: bool)
    ensures Writers(ds + Fates(ws, first, ok)) == Writers(ds) + ws
  {
    hide Fates;
    forall i | 0 <= i < |ws| ensures Fates(ws, first, ok)[i].writer == ws[i] {
      FateOf(ws, first, ok, i);
    }
  }

  lemma {:induction false} OpsPart(ws: seq<Writer>, i: nat)
    requires i < |ws|
    ensures |AllOps(ws[..i])| + |Ops(ws[i])| <= |AllOps(ws)|
    ensures AllOps(ws)[|AllOps(ws[..i])|..|AllOps(ws[..i])| + |Ops(ws[i])|] == Ops(ws[i])
    decreases |ws|
  {
    var k := |ws| - 1;
    var init := AllOps(ws[..k]);
    assert AllOps(ws) == init + Ops(ws[k]);
    if i < k {
      OpsPart(ws[..k], i);
      assert ws[..k][..i] == ws[..i];
      var a, b := |AllOps(ws[..i])|, |AllOps(ws[..i])| + |Ops(ws[i])|;
      assert (init + Ops(ws[k]))[a..b] == init[a..b];
    } else {
      assert ws[..i] == ws[..k];
    }
  }

  /** The group's log record holds each writer's updates under that writer's numbers. */
  lemma GroupHolds(ws: seq<Writer>, first: nat, ok: bool, i: nat)
    requires i < |ws|
    ensures Holds(Record(first, AllOps(ws)), Fates(ws, first, ok)[i])
  {
    hide AllOps, Fates;
    FateOf(ws, first, ok, i);
    OpsPart(ws, i);
  }

  lemma StillLogged(d: Done, log: seq<Record>, limit: nat, log': seq<Record>, limit': nat)
    requires LoggedBelow(d, log, limit) && log <= log' && limit <= limit'
    ensures LoggedBelow(d, log', limit')
  {
    var r :| 0 <= r < limit && r < |log| && Holds(log[r], d);
    assert log'[r] == log[r];
  }

  lemma StillFair(ds: seq<Done>, log: seq<Record>, durable: nat, log': seq<Record>, durable': nat)
    requires forall i :: 0 <= i < |ds| ==> Fair(ds[i], log, durable)
    requires log <= log' && durable <= durable'
    ensures forall i :: 0 <= i < |ds| ==> Fair(ds[i], log', durable')
  {
    forall i | 0 <= i < |ds| ensures Fair(ds[i], log', durable') {
      var d := ds[i];
      assert Fair(d, log, durable);
      if d.ok && d.writer.batch.Some? {
        StillLogged(d, log, |log|, log', |log'|);
        if d.writer.sync {
          StillLogged(d, log, durable, log', durable');
        }
      }
    }
  }

  // ----- Every step keeps the invariant -----

  lemma EnqueueKeeps(s: State, w: Writer, s': State, base: nat)
    requires Inv(s, base) && Next(s, Enqueue(w), s')
    ensures Inv(s', base)
  {
    hide Contiguous, Fair, Applied, AllOps, Stamp;
    Assoc(Writers(s.finished), s.queue, [w]);
    forall n: nat | n <= |s.queue| ensures s'.queue[..n] == s.queue[..n] {}
  }

  lemma LeadKeeps(s: State, n: nat, s': State, base: nat)
    requires Inv(s, base) && Next(s, Lead(n), s')
    ensures Inv(s', base)
  {
    hide Contiguous, Fair, Applied, Stamp;
    if s.queue[0].batch.Some? {
      forall i | 0 <= i < n && s.queue[i].sync ensures s.queue[0].sync {
        GroupRules(s.queue, n, i);
      }
    } else {
      assert s.queue[..1] == [s.queue[0]];
      assert [s.queue[0]][..0] == [];
      assert AllOps([s.queue[0]]) == AllOps([]) + [];
    }
  }

  lemma AppendKeeps(s: State, ok: bool, s': State, base: nat)
    requires Inv(s, base) && Next(s, Append(ok), s')
    ensures Inv(s', base)
  {
    hide Contiguous, Fair, Applied, AllOps, Stamp, Writers, IsGroup;
    StillFair(s.finished, s.log, s.durable, s'.log, s'.durable);
  }

  lemma SyncKeeps(s: State, ok: bool, s': State, base: nat)
    requires Inv(s, base) && Next(s, Sync(ok), s')
    ensures Inv(s', base)
  {
    hide Contiguous, Fair, Applied, AllOps, Stamp, Writers, IsGroup;
    StillFair(s.finished, s.log, s.durable, s'.log, s'.durable);
  }

  lemma InsertKeeps(s: State, s': State, base: nat)
    requires Inv(s, base) && Next(s, Insert, s')
    ensures Inv(s', base)
  {
    hide Contiguous, Fair, Applied, AllOps;
    var all, k := Stamp(AllOps(s.queue[..s.phase.n]), s.last + 1), s.phase.inserted;
    hide Stamp;
    assert all[..k + 1] == all[..k] + [all[k]];
    Assoc(Applied(s.finished), all[..k], [all[k]]);
  }

  lemma InsertedKeeps(s: State, s': State, base: nat)
    requires Inv(s, base) && Next(s, Inserted, s')
    ensures Inv(s', base)
  {
    hide Contiguous, Fair, Applied, AllOps;
    var all := Stamp(AllOps(s.queue[..s.phase.n]), s.last + 1);
    assert all[..|all|] == all;
  }

  lemma FinishKeeps(s: State, s': State, base: nat)
    requires Inv(s, base) && s.phase.Finishing? && Next(s, Finish, s')
    ensures Inv(s', base)
  {
    hide Contiguous, Fair, Applied, AllOps, Fates, Stamp, GroupEntries, Logged;
    var n, ok := s.phase.n, s.phase.ok;
    var group, fates := s.queue[..n], Fates(s.queue[..n], s.last + 1, ok);
    FatesApplied(s.finished, group, s.last + 1, ok);
    FatesContiguous(s.finished, base, s.last, group, ok);
    FatesWriters(s.finished, group, s.last + 1, ok);
    SplitQueue(Writers(s.finished), s.queue, n);
    forall i | 0 <= i < |s'.finished| ensures Fair(s'.finished[i], s.log, s.durable) {
      if i >= |s.finished| {
        GroupFair(s, i - |s.finished|);
      }
    }
  }

  lemma SplitQueue(ws: seq<Writer>, queue: seq<Writer>, n: nat)
    requires n <= |queue|
    ensures ws + queue == (ws + queue[..n]) + queue[n..]
  {}

  lemma GroupFair(s: State, i: nat)
    requires s.phase.Finishing? && PhaseOk(s) && i < s.phase.n
    ensures Fair(Fates(s.queue[..s.phase.n], s.last + 1, s.phase.ok)[i], s.log, s.durable)
  {
    var n, ok := s.phase.n, s.phase.ok;
    var group := s.queue[..n];
    var d := Fates(group, s.last + 1, ok)[i];
    FateOf(group, s.last + 1, ok, i);
    if ok && s.queue[i].batch.Some? {
      assert s.queue[0].batch.Some?;
      GroupHolds(group, s.last + 1, ok, i);
      var r := |s.log| - 1;
      assert Holds(s.log[r], d);
      assert LoggedBelow(d, s.log, |s.log|);
    }
  }

  lemma RefusedKeeps(s: State, s': State, base: nat)
    requires Inv(s, base) && s.phase.Refused? && Next(s, Finish, s')
    ensures Inv(s', base)
  {
    var d := Done(s.queue[0], s.last + 1, 0, false);
    AppliedNext(s.finished, d);
    ContiguousNext(s.finished, base, s.last, d);
    assert s.queue == [s.queue[0]] + s.queue[1..];
    Assoc(Writers(s.finished), [s.queue[0]], s.queue[1..]);
    assert Writers(s.finished + [d]) == Writers(s.finished) + [s.queue[0]];
    hide Contiguous, Applied, AllOps, Stamp;
  }

  lemma StepKeepsInv(s: State, step: Step, s': State, base: nat)
    requires Inv(s, base) && Next(s, step, s')
    ensures Inv(s', base)
  {
    match step
    case Enqueue(w) => EnqueueKeeps(s, w, s', base);
    case Lead(n) => LeadKeeps(s, n, s', base);
    case NoRoom =>
    case Append(ok) => AppendKeeps(s, ok, s', base);
    case Sync(ok) => SyncKeeps(s, ok, s', base);
    case Insert => InsertKeeps(s, s', base);
    case Inserted => InsertedKeeps(s, s', base);
    case Finish => if s.phase.Finishing? { FinishKeeps(s, s', base); } else { RefusedKeeps(s, s', base); }
  }

  // ----- Over every run -----

  ghost predicate IsRun(states: seq<State>, steps: seq<Step>) {
    && |states| == |steps| + 1 && Start(states[0])
    && forall i :: 0 <= i < |steps| ==> Next(states[i], steps[i], states[i + 1])
  }

  lemma {:induction false} RunInv(states: seq<State>, steps: seq<Step>, n: nat)
    requires IsRun(states, steps) && n < |states|
    ensures Inv(states[n], states[0].last)
  {
    hide Next;
    if n > 0 {
      hide Inv;
      RunInv(states, steps, n - 1);
      StepKeepsInv(states[n - 1], steps[n - 1], states[n], states[0].last);
    }
  }

  /** Writers are finished in the order they arrived, each exactly once, and between groups the memtable holds
      exactly the updates of those that succeeded, in that order. */
  lemma OnceInOrder(states: seq<State>, steps: seq<Step>, n: nat)
    requires IsRun(states, steps) && n < |states|
    ensures states[n].arrivals == Writers(states[n].finished) + states[n].queue
    ensures states[n].phase.Idle? ==> states[n].mem == Applied(states[n].finished)
  {
    hide IsRun, Applied, Contiguous, Fair;
    RunInv(states, steps, n);
  }

  /** A sync write that was reported successful is in a log record that was synced. */
  lemma SyncedWritesDurable(states: seq<State>, steps: seq<Step>, n: nat, i: nat)
    requires IsRun(states, steps) && n < |states| && i < |states[n].finished|
    ensures var d := states[n].finished[i];
      d.ok && d.writer.sync && d.writer.batch.Some? ==> LoggedBelow(d, states[n].log, states[n].durable)
  {
    hide IsRun, Applied, Contiguous, PhaseOk, Writers;
    RunInv(states, steps, n);
    assert Fair(states[n].finished[i], states[n].log, states[n].durable);
  }

  lemma StepGrows(s: State, step: Step, s': State)
    requires Next(s, step, s')
    ensures s.finished <= s'.finished
  {
    hide AllOps, Fates, Stamp, IsGroup;
  }

  lemma {:induction false} RunGrows(states: seq<State>, steps: seq<Step>, t: nat, n: nat)
    requires IsRun(states, steps) && t <= n < |states|
    ensures states[t].finished <= states[n].finished
  {
    hide Next;
    if t < n {
      RunGrows(states, steps, t, n - 1);
      StepGrows(states[n - 1], steps[n - 1], states[n]);
    }
  }

  /** Ranges within a contiguous list end by its last number, and those after a prefix start after the prefix. */
  lemma {:induction false} RangesSplit(ds: seq<Done>, base: nat, last: nat, m: nat, mid: nat, i: nat)
    requires Contiguous(ds, base, last) && m <= |ds| && Contiguous(ds[..m], base, mid) && i < |ds|
    ensures mid <= last && ds[i].first + ds[i].span <= last + 1
    ensures if i < m then ds[i].first + ds[i].span <= mid + 1 else ds[i].first > mid
    decreases |ds|
  {
    var k := |ds| - 1;
    var init := ds[..k];
    if m == |ds| {
      assert ds[..m] == ds;
      if i < k {
        RangesSplit(init, base, ds[k].first - 1, k, ds[k].first - 1, i) by { assert init[..k] == init; }
      }
    } else {
      assert init[..m] == ds[..m];
      if k == 0 {
        assert ds[..m] == [];
      } else {
        RangesSplit(init, base, ds[k].first - 1, m, mid, if i < k then i else 0);
      }
    }
  }

  /** A snapshot taken at any moment falls between writers: later, each one is wholly visible in it or not at all. */
  lemma AllOrNone(states: seq<State>, steps: seq<Step>, t: nat, n: nat, i: nat)
    requires IsRun(states, steps) && t <= n < |states| && i < |states[n].finished|
    ensures var d, s := states[n].finished[i], states[t].last;
      if i < |states[t].finished| then d.first + d.span <= s + 1 else d.first > s
  {
    hide IsRun, PhaseOk, Applied, Fair, Writers, Contiguous;
    RunGrows(states, steps, t, n);
    RunInv(states, steps, t);
    RunInv(states, steps, n);
    var ds := states[n].finished;
    assert ds[..|states[t].finished|] == states[t].finished;
    RangesSplit(ds, states[0].last, states[n].last, |states[t].finished|, states[t].last, i);
  }

  ghost predicate AddedBy(d: Done, e: Entry) { d.ok && e in Stamp(Ops(d.writer), d.first) }

  lemma {:induction false} AppliedMember(ds: seq<Done>, e: Entry)
    ensures e in Applied(ds) <==> exists i :: 0 <= i < |ds| && AddedBy(ds[i], e)
    decreases |ds|
  {
    if ds != [] {
      var k := |ds| - 1;
      AppliedMember(ds[..k], e);
      assert e in Applied(ds) <==> e in Applied(ds[..k]) || AddedBy(ds[k], e);
      hide Applied, AddedBy;
      if e in Applied(ds[..k]) {
        var i :| 0 <= i < k && AddedBy(ds[..k][i], e);
        assert AddedBy(ds[i], e);
      }
      if i :| 0 <= i < k && AddedBy(ds[i], e) {
        assert AddedBy(ds[..k][i], e);
      }
    }
  }

  /** While every write succeeds, the entries applied carry the numbers base + 1, base + 2, ... without a gap. */
  lemma {:induction false} AppliedNumbered(ds: seq<Done>, base: nat, last: nat)
    requires Contiguous(ds, base, last)
    requires forall i :: 0 <= i < |ds| ==> ds[i].ok && ds[i].span == |Ops(ds[i].writer)|
    ensures base <= last && |Applied(ds)| == last - base
    ensures forall i :: 0 <= i < |Applied(ds)| ==> Applied(ds)[i].seqno == base + i + 1
    decreases |ds|
  {
    if ds != [] {
      var k := |ds| - 1;
      AppliedNumbered(ds[..k], base, ds[k].first - 1);
      var init, own := Applied(ds[..k]), Stamp(Ops(ds[k].writer), ds[k].first);
      var all: seq<Entry> := init + own;
      assert Applied(ds) == all;
      hide Applied;
      forall i | 0 <= i < |all| ensures all[i].seqno == base + i + 1 {
        if i >= |init| {
          assert all[i] == own[i - |init|];
        }
      }
    }
  }

  lemma StampRange(ops: seq<Update>, first: nat, e: Entry)
    requires e in Stamp(ops, first)
    ensures first <= e.seqno < first + |ops|
  {}

  /** What is in the memtable beyond the finished writers is above the published sequence number. */
  lemma MemSplit(s: State, base: nat, e: Entry)
    requires Inv(s, base)
    ensures e in Applied(s.finished) ==> e in s.mem
    ensures e in s.mem && e !in Applied(s.finished) ==> e.seqno > s.last
  {
    hide Applied, Contiguous, Fair, Writers, AllOps;
    if e in s.mem && e !in Applied(s.finished) {
      var ops := AllOps(s.queue[..s.phase.n]);
      assert e in Stamp(ops, s.last + 1);
      StampRange(ops, s.last + 1, e);
    }
  }

  /** A reader at the snapshot taken at time t sees, at any later time, exactly the updates of the writers
      finished by t. */
  lemma SnapshotSees(states: seq<State>, steps: seq<Step>, t: nat, n: nat, e: Entry)
    requires IsRun(states, steps) && t <= n < |states|
    ensures e in states[n].mem && e.seqno <= states[t].last <==> e in Applied(states[t].finished)
  {
    var s, now := states[t], states[n];
    var base := states[0].last;
    RunGrows(states, steps, t, n);
    RunInv(states, steps, t);
    RunInv(states, steps, n);
    MemSplit(now, base, e);
    AppliedMember(s.finished, e);
    AppliedMember(now.finished, e);
    assert forall i :: 0 <= i < |s.finished| ==> now.finished[i] == s.finished[i];
    LastGrows(states, steps, t, n);
    hide IsRun, Applied, PhaseOk, Stamp, Contiguous, Writers;
    forall i | 0 <= i < |now.finished| && AddedBy(now.finished[i], e)
      ensures e.seqno <= s.last <==> i < |s.finished|
    {
      AllOrNone(states, steps, t, n, i);
      StampRange(Ops(now.finished[i].writer), now.finished[i].first, e);
      assert Fair(now.finished[i], now.log, now.durable);
    }
  }

  lemma {:induction false} LastGrows(states: seq<State>, steps: seq<Step>, t: nat, n: nat)
    requires IsRun(states, steps) && t <= n < |states|
    ensures states[t].last <= states[n].last
  {
    if t < n {
      LastGrows(states, steps, t, n - 1);
      assert Next(states[n - 1], steps[n - 1], states[n]);
    }
  }
}
