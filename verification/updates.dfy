/** What the entries of applied updates answer: a put sets its key, a deletion removes it. */
module Updates {
  import opened Entries
  import opened Files
  import opened GroupCommit
  import Database
  import Recovery

  type Contents = map<UserKey, Value>

  /** The updates carried out on m one after the other. */
  function Play(m: Contents, ops: seq<Update>): Contents {
    if ops == [] then m
    else
      var sofar := Play(m, ops[..|ops| - 1]);
      match ops[|ops| - 1]
      case PutOp(key, value) => sofar[key := value]
      case DeleteOp(key) => sofar - {key}
  }

  function Lookup(m: Contents, k: UserKey): Answer { if k in m then Found(m[k]) else NotFound }

  /** A read of k at s answers as the map does, and in no other way. */
  ghost predicate Means(es: set<Entry>, k: UserKey, s: nat, m: Contents) {
    forall r :: ReadIs(es, k, s, r) <==> r == Lookup(m, k)
  }

  /** How many of n updates numbered from `first` on a read at s sees. */
  function Seen(n: nat, first: nat, s: nat): (r: nat)
    ensures r <= n
  {
    if s < first then 0 else if s - first < n then s - first + 1 else n
  }

  // ----- Numbered updates -----

  lemma NothingMeans(k: UserKey, s: nat)
    ensures Means({}, k, s, map[])
  {
    assert NoneVisible({}, k, s);
  }

  /** A newer entry answers for its key wherever it is seen, and changes no other read. */
  lemma OneMore(es: set<Entry>, e: Entry, k: UserKey, s: nat, r: Answer)
    requires forall x :: x in es ==> x.seqno < e.seqno
    ensures ReadIs(es + {e}, k, s, r) <==> if Visible(e, k, s) then r == AnswerOf(e) else ReadIs(es, k, s, r)
  {
    if Visible(e, k, s) {
      assert IsNewest(es + {e}, k, s, e);
    } else {
      forall x ensures IsNewest(es + {e}, k, s, x) <==> IsNewest(es, k, s, x) {}
    }
  }

  lemma StampLast(ops: seq<Update>, first: nat)
    requires ops != []
    ensures var n := |ops| - 1;
      EntrySet(Stamp(ops, first)) == EntrySet(Stamp(ops[..n], first)) + {Stamp(ops, first)[n]}
  {
    var n := |ops| - 1;
    var all := Stamp(ops, first);
    assert all[..n] == Stamp(ops[..n], first);
    assert all == all[..n] + [all[n]];
  }

  /** One more update, newer than everything, acts on the map as an update acts. */
  lemma PlayNext(es: set<Entry>, m: Contents, ops: seq<Update>, first: nat, k: UserKey, s: nat)
    requires ops != [] && (forall x :: x in es ==> x.seqno < first + |ops| - 1)
    requires var n := |ops| - 1; Means(es, k, s, Play(m, ops[..n][..Seen(n, first, s)]))
    ensures Means(es + {Stamp(ops, first)[|ops| - 1]}, k, s, Play(m, ops[..Seen(|ops|, first, s)]))
  {
    var n := |ops| - 1;
    var e, u := Stamp(ops, first)[n], ops[n];
    if first + n <= s {
      assert ops[..Seen(|ops|, first, s)] == ops && ops[..n][..Seen(n, first, s)] == ops[..n];
    } else {
      assert ops[..Seen(|ops|, first, s)] == ops[..n][..Seen(n, first, s)];
    }
    forall r ensures ReadIs(es + {e}, k, s, r) <==> r == Lookup(Play(m, ops[..Seen(|ops|, first, s)]), k) {
      OneMore(es, e, k, s, r);
    }
  }

  /** Numbered updates above all entries carry the map on by those of them the read sees. */
  lemma {:induction false} PlayStamp(es: set<Entry>, m: Contents, ops: seq<Update>, first: nat, k: UserKey, s: nat)
    requires Means(es, k, s, m) && forall x :: x in es ==> x.seqno < first
    ensures Means(es + EntrySet(Stamp(ops, first)), k, s, Play(m, ops[..Seen(|ops|, first, s)]))
    decreases |ops|
  {
    hide Means, Play;
    if ops == [] {
      assert es + EntrySet(Stamp(ops, first)) == es;
      PlayNone(m);
    } else {
      var n := |ops| - 1;
      PlayStamp(es, m, ops[..n], first, k, s);
      var sofar := es + EntrySet(Stamp(ops[..n], first));
      StampLast(ops, first);
      assert es + EntrySet(Stamp(ops, first)) == sofar + {Stamp(ops, first)[n]};
      PlayNext(sofar, m, ops, first, k, s);
    }
  }

  lemma PlayNone(m: Contents) ensures Play(m, []) == m {}

  /** Updates numbered from `first` on answer every read at s as the map that those up to s make. */
  lemma StampReads(ops: seq<Update>, first: nat, k: UserKey, s: nat, r: Answer)
    ensures ReadIs(EntrySet(Stamp(ops, first)), k, s, r) <==>
      r == Lookup(Play(map[], ops[..Seen(|ops|, first, s)]), k)
    ensures s + 1 >= first + |ops| ==>
      (ReadIs(EntrySet(Stamp(ops, first)), k, s, r) <==> r == Lookup(Play(map[], ops), k))
  {
    hide Play, ReadIs;
    NothingMeans(k, s);
    PlayStamp({}, map[], ops, first, k, s);
    assert {} + EntrySet(Stamp(ops, first)) == EntrySet(Stamp(ops, first));
    assert s + 1 >= first + |ops| ==> ops[..Seen(|ops|, first, s)] == ops;
  }

  lemma {:induction false} PlayConcat(m: Contents, a: seq<Update>, b: seq<Update>)
    ensures Play(m, a + b) == Play(Play(m, a), b)
    decreases |b|
  {
    if b == [] {
      assert a + b == a;
    } else {
      var n := |b| - 1;
      PlayConcat(m, a, b[..n]);
      assert (a + b)[..|a + b| - 1] == a + b[..n];
    }
  }

  // ----- Records -----

  /** Each record is numbered above those before it, and none above `last`. */
  ghost predicate Following(rs: seq<Record>, last: nat) {
    if rs == [] then true
    else
      var r := rs[|rs| - 1];
      r.first >= 1 && r.first + |r.ops| <= last + 1 && Following(rs[..|rs| - 1], r.first - 1)
  }

  /** The updates of the records, as far as a read at s sees them. */
  function OpsUpTo(rs: seq<Record>, s: nat): seq<Update> {
    if rs == [] then []
    else
      var r := rs[|rs| - 1];
      OpsUpTo(rs[..|rs| - 1], s) + r.ops[..Seen(|r.ops|, r.first, s)]
  }

  /** The records' entries answer every read as the map that their updates up to its number make. */
  lemma {:induction false} JoinedReads(rs: seq<Record>, last: nat, k: UserKey, s: nat)
    requires Following(rs, last)
    ensures forall x :: x in Recovery.Joined(rs) ==> x.seqno <= last
    ensures Means(EntrySet(Recovery.Joined(rs)), k, s, Play(map[], OpsUpTo(rs, s)))
    decreases |rs|
  {
    hide Means, Play, Stamp;
    if rs == [] {
      NothingMeans(k, s);
      PlayNone(map[]);
      assert EntrySet(Recovery.Joined(rs)) == {};
    } else {
      var init, r := rs[..|rs| - 1], rs[|rs| - 1];
      JoinedReads(init, r.first - 1, k, s);
      var own := Stamp(r.ops, r.first);
      assert Recovery.Joined(rs) == Recovery.Joined(init) + own;
      forall x | x in own ensures x.seqno <= last {
        StampRange(r.ops, r.first, x);
      }
      Database.HistAppend(Recovery.Joined(init), own);
      PlayStamp(EntrySet(Recovery.Joined(init)), Play(map[], OpsUpTo(init, s)), r.ops, r.first, k, s);
      PlayConcat(map[], OpsUpTo(init, s), r.ops[..Seen(|r.ops|, r.first, s)]);
    }
  }

  lemma {:induction false} FollowingPrefix(rs: seq<Record>, last: nat, n: nat)
    requires Following(rs, last) && n <= |rs|
    ensures Following(rs[..n], last)
    decreases |rs|
  {
    if n < |rs| {
      var k := |rs| - 1;
      FollowingPrefix(rs[..k], rs[k].first - 1, n);
      assert rs[..k][..n] == rs[..n];
    } else {
      assert rs[..n] == rs;
    }
  }

  // ----- Group commit -----

  /** The successful writers' updates under their numbers. */
  function OkRecords(ds: seq<Done>): seq<Record> {
    if ds == [] then []
    else
      var d := ds[|ds| - 1];
      OkRecords(ds[..|ds| - 1]) + if d.ok then [Record(d.first, Ops(d.writer))] else []
  }

  lemma {:induction false} AppliedIsJoined(ds: seq<Done>)
    ensures Applied(ds) == Recovery.Joined(OkRecords(ds))
    decreases |ds|
  {
    hide Stamp;
    if ds != [] {
      var init, d := ds[..|ds| - 1], ds[|ds| - 1];
      AppliedIsJoined(init);
      if d.ok {
        Recovery.JoinedNext(OkRecords(init), Record(d.first, Ops(d.writer)));
      } else {
        assert OkRecords(ds) == OkRecords(init) && Applied(ds) == Applied(init);
      }
    }
  }

  ghost predicate Spans(ds: seq<Done>) {
    forall i :: 0 <= i < |ds| && ds[i].ok ==> ds[i].span == |Ops(ds[i].writer)|
  }

  lemma {:induction false} OkFollowing(ds: seq<Done>, base: nat, last: nat, limit: nat)
    requires Contiguous(ds, base, last) && Spans(ds) && last <= limit
    ensures Following(OkRecords(ds), limit)
    decreases |ds|
  {
    if ds != [] {
      var init, d := ds[..|ds| - 1], ds[|ds| - 1];
      OkFollowing(init, base, d.first - 1, if d.ok then d.first - 1 else limit);
      if d.ok {
        var rs := OkRecords(init) + [Record(d.first, Ops(d.writer))];
        assert rs[..|rs| - 1] == OkRecords(init);
      } else {
        assert OkRecords(ds) == OkRecords(init);
      }
    }
  }

  /** The entries of finished writers answer every read as the map the successful ones' updates make, in the order
      the writers arrived, cut at the read's number. */
  lemma AppliedReads(ds: seq<Done>, base: nat, last: nat, k: UserKey, s: nat, r: Answer)
    requires Contiguous(ds, base, last) && Spans(ds)
    ensures ReadIs(EntrySet(Applied(ds)), k, s, r) <==> r == Lookup(Play(map[], OpsUpTo(OkRecords(ds), s)), k)
  {
    hide Applied, Contiguous, ReadIs, Play, Following;
    AppliedIsJoined(ds);
    OkFollowing(ds, base, last, last);
    JoinedReads(OkRecords(ds), last, k, s);
  }

  /** The updates of the writers that succeeded, one after the other. */
  function Succeeded(ds: seq<Done>): seq<Update> {
    if ds == [] then []
    else Succeeded(ds[..|ds| - 1]) + if ds[|ds| - 1].ok then Ops(ds[|ds| - 1].writer) else []
  }

  lemma {:induction false} AllSucceeded(ds: seq<Done>, base: nat, last: nat, s: nat)
    requires Contiguous(ds, base, last) && Spans(ds) && last <= s
    ensures OpsUpTo(OkRecords(ds), s) == Succeeded(ds)
    decreases |ds|
  {
    if ds != [] {
      var init, d := ds[..|ds| - 1], ds[|ds| - 1];
      AllSucceeded(init, base, d.first - 1, s);
      if d.ok {
        var rs := OkRecords(init) + [Record(d.first, Ops(d.writer))];
        assert rs[..|rs| - 1] == OkRecords(init);
        assert Ops(d.writer)[..Seen(|Ops(d.writer)|, d.first, s)] == Ops(d.writer);
      } else {
        assert OkRecords(ds) == OkRecords(init) && Succeeded(ds) == Succeeded(init);
      }
    }
  }

  lemma VisibleReads(a: set<Entry>, b: set<Entry>, k: UserKey, s: nat, r: Answer)
    requires forall e :: e in a && e.seqno <= s <==> e in b && e.seqno <= s
    ensures ReadIs(a, k, s, r) <==> ReadIs(b, k, s, r)
  {
    assert NoneVisible(a, k, s) <==> NoneVisible(b, k, s);
    forall e ensures IsNewest(a, k, s, e) <==> IsNewest(b, k, s, e) {
      if e in a && Visible(e, k, s) {
        assert e in b;
      }
    }
  }

  lemma RunSpans(states: seq<State>, steps: seq<Step>, n: nat)
    requires GroupCommit.IsRun(states, steps) && n < |states|
    ensures Contiguous(states[n].finished, states[0].last, states[n].last) && Spans(states[n].finished)
  {
    hide GroupCommit.IsRun, PhaseOk, Contiguous, Writers;
    GroupCommit.RunInv(states, steps, n);
    var ds := states[n].finished;
    forall i | 0 <= i < |ds| && ds[i].ok ensures ds[i].span == |Ops(ds[i].writer)| {
      assert Fair(ds[i], states[n].log, states[n].durable);
    }
  }

  /** Whatever is being inserted by then, a snapshot taken at time t answers as the map made by the updates of the
      writers that had finished successfully, in order of arrival. */
  lemma SnapshotReads(states: seq<State>, steps: seq<Step>, t: nat, n: nat, k: UserKey, r: Answer)
    requires GroupCommit.IsRun(states, steps) && t <= n < |states|
    ensures ReadIs(EntrySet(states[n].mem), k, states[t].last, r) <==>
      r == Lookup(Play(map[], Succeeded(states[t].finished)), k)
  {
    hide GroupCommit.IsRun, Applied, Contiguous, ReadIs, Play, Succeeded, Spans, OkRecords, OpsUpTo;
    var s, ds := states[t].last, states[t].finished;
    forall e ensures e in EntrySet(states[n].mem) && e.seqno <= s <==> e in EntrySet(Applied(ds)) && e.seqno <= s {
      SnapshotSees(states, steps, t, n, e);
    }
    VisibleReads(EntrySet(states[n].mem), EntrySet(Applied(ds)), k, s, r);
    RunSpans(states, steps, t);
    AppliedReads(ds, states[0].last, s, k, s, r);
    AllSucceeded(ds, states[0].last, s, s);
  }

  // ----- The database -----

  /** The updates of the groups, one after the other. */
  function GroupOps(events: seq<Recovery.Event>): seq<Update> {
    if events == [] then []
    else GroupOps(events[..|events| - 1]) + if events[|events| - 1].Group? then events[|events| - 1].ops else []
  }

  /** The history is made of the groups' updates, numbered from 1 on. */
  lemma {:induction false} HistoryIs(states: seq<Database.DB>, events: seq<Recovery.Event>, n: nat)
    requires Recovery.IsLogged(states, events) && n < |states|
    ensures n <= |events| && states[n].history == Stamp(GroupOps(events[..n]), 1)
  {
    hide Recovery.EventAt;
    if n > 0 {
      HistoryIs(states, events, n - 1);
      hide Stamp;
      var ops, e := GroupOps(events[..n - 1]), events[n - 1];
      Recovery.HistoryGrows(states[n - 1], e, states[n]);
      assert events[..n][..n - 1] == events[..n - 1];
      assert GroupOps(events[..n]) == ops + if e.Group? then e.ops else [];
      if e.Group? {
        StampConcat(ops, e.ops, 1);
      }
    }
  }

  /** After any run, a read at any number the snapshots allow is answered with what the first updates up to that
      number make of its key, whatever was flushed, compacted or moved. */
  method GetAnswers(ghost states: seq<Database.DB>, ghost events: seq<Recovery.Event>, ghost n: nat, db: Database.DB,
                    k: UserKey, s: nat) returns (r: Answer)
    requires Recovery.IsLogged(states, events) && n < |states| && n <= |events| && db == states[n] && s >= Database.Oldest(db)
    ensures var ops := GroupOps(events[..n]); r == Lookup(Play(map[], if s < |ops| then ops[..s] else ops), k)
  {
    hide Recovery.IsLogged, ReadIs, Play, GroupOps, Database.Inv, Stamp;
    Recovery.RunRecoverable(states, events, n);
    r := Database.Get(db, k, s);
    HistoryIs(states, events, n);
    StampReads(GroupOps(events[..n]), 1, k, s, r);
  }

  /** Every read that sees all of them answers as the map of the first p updates. */
  ghost predicate ReadsAsFirst(es: set<Entry>, ops: seq<Update>, p: nat) {
    p <= |ops| && forall k: UserKey, s: nat :: p <= s ==> Means(es, k, s, Play(map[], ops[..p]))
  }

  /** What reads as the history up to its p-th write reads as the first p updates. */
  lemma RecoveredReads(states: seq<Database.DB>, events: seq<Recovery.Event>, n: nat, p: nat, es: set<Entry>)
    requires Recovery.IsLogged(states, events) && n < |states| && n <= |events| && p <= |states[n].history|
    requires SameReads(EntrySet(states[n].history[..p]), es, p)
    ensures ReadsAsFirst(es, GroupOps(events[..n]), p)
  {
    hide Recovery.IsLogged, ReadIs, Play, GroupOps;
    HistoryIs(states, events, n);
    var ops := GroupOps(events[..n]);
    assert states[n].history[..p] == Stamp(ops[..p], 1);
    forall k: UserKey, s: nat, r: Answer | p <= s ensures ReadIs(es, k, s, r) <==> r == Lookup(Play(map[], ops[..p]), k) {
      StampReads(ops[..p], 1, k, s, r);
    }
  }
}
