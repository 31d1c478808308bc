/** Recovery from the bytes: the MANIFEST and the log files as they were left by a crash. */
module RecoveryFiles {
  import opened Bytes
  import opened Coding
  import opened Entries
  import opened Files
  import opened Versions
  import opened Database
  import opened Recovery
  import Log
  import ManifestRuns
  import Updates
  import VersionEdits
  import WriteBatches

  // ----- Records as write batches -----

  /** How user keys and values are written, and read back. */
  datatype Coder = Coder(
    keyBytes: UserKey -> seq<Byte>,
    valueBytes: Value -> seq<Byte>,
    keyOf: seq<Byte> -> UserKey,
    valueOf: seq<Byte> -> Value)

  function ToOp(c: Coder, u: GroupCommit.Update): WriteBatches.Op {
    match u
    case PutOp(key, value) => WriteBatches.PutOp(c.keyBytes(key), c.valueBytes(value))
    case DeleteOp(key) => WriteBatches.DeleteOp(c.keyBytes(key))
  }

  function FromOp(c: Coder, op: WriteBatches.Op): GroupCommit.Update {
    match op
    case PutOp(key, value) => GroupCommit.PutOp(c.keyOf(key), c.valueOf(value))
    case DeleteOp(key) => GroupCommit.DeleteOp(c.keyOf(key))
  }

  function ToOps(c: Coder, us: seq<GroupCommit.Update>): (r: seq<WriteBatches.Op>)
    ensures |r| == |us|
  {
    seq(|us|, i requires 0 <= i < |us| => ToOp(c, us[i]))
  }

  /** The record fits the batch format, and its keys and values are read back as they were written. */
  predicate Storable(c: Coder, r: Record) {
    && r.first < U64 && |r.ops| < U32
    && forall i :: 0 <= i < |r.ops| ==> WriteBatches.Fits(ToOp(c, r.ops[i])) && FromOp(c, ToOp(c, r.ops[i])) == r.ops[i]
  }

  function Payload(c: Coder, r: Record): seq<Byte>
    requires Storable(c, r)
  {
    WriteBatches.Encode(r.first, ToOps(c, r.ops))
  }

  predicate AllStorable(c: Coder, rs: seq<Record>) { forall i :: 0 <= i < |rs| ==> Storable(c, rs[i]) }

  function Payloads(c: Coder, rs: seq<Record>): (r: seq<seq<Byte>>)
    requires AllStorable(c, rs)
    ensures |r| == |rs|
  {
    seq(|rs|, i requires 0 <= i < |rs| => Payload(c, rs[i]))
  }

  /** What RecoverLogFile inserts for one record. */
  method ReplayRecord(c: Coder, payload: seq<Byte>, ghost r: Record) returns (es: seq<Entry>)
    requires Storable(c, r) && payload == Payload(c, r)
    ensures es == Stamped(r)
  {
    hide WriteBatches.Encode, WriteBatches.Contents, DecodeFixed64, WriteBatches.Fits;
    PayloadBack(c, r);
    var first := DecodeFixed64(payload[..8]);
    var batch := WriteBatches.Iterate(payload);
    var us: seq<GroupCommit.Update> := [];
    while |us| < |batch.ops|
      invariant |us| <= |batch.ops| && us == r.ops[..|us|]
    {
      us := us + [FromOp(c, batch.ops[|us|])];
    }
    assert us == r.ops;
    es := GroupCommit.Stamp(us, first);
  }

  lemma PayloadBack(c: Coder, r: Record)
    requires Storable(c, r)
    ensures |Payload(c, r)| >= 8 && DecodeFixed64(Payload(c, r)[..8]) == r.first
    ensures WriteBatches.Contents(Payload(c, r)) == WriteBatches.Good(ToOps(c, r.ops))
  {
    hide WriteBatches.Contents, DecodeFixed64, WriteBatches.Fits, WriteBatches.Encode, FromOp;
    var ops := ToOps(c, r.ops);
    BatchSize(r.first, ops);
    WriteBatches.RoundTrip(r.first, ops);
  }

  lemma BatchSize(sequence: nat, ops: seq<WriteBatches.Op>)
    requires sequence < U64 && |ops| < U32
    ensures |WriteBatches.Encode(sequence, ops)| >= 12
  {
    hide WriteBatches.EncodeOps, EncodeFixed64, EncodeFixed32;
  }

  /** A log is written, cut at any byte, read and replayed: the writes of the records that are whole. */
  method ReplayLog(c: Coder, step: CrcStep, records: seq<Record>, cut: nat) returns (es: seq<Entry>)
    requires AllStorable(c, records)
    ensures es == Joined(records[..Log.Whole(step, Payloads(c, records), cut)])
    ensures forall last: nat, k: UserKey, s: nat :: Updates.Following(records, last) ==>
      Updates.Means(EntrySet(es), k, s,
                    Updates.Play(map[], Updates.OpsUpTo(records[..Log.Whole(step, Payloads(c, records), cut)], s)))
  {
    hide Storable, Payload, Log.Whole, Stamped, Updates.Following, Updates.Means, Updates.Play, Updates.OpsUpTo;
    var payloads := Payloads(c, records);
    var back, _ := Log.WriteCutRead(step, true, payloads, cut);
    es := [];
    var i := 0;
    NothingJoined();
    assert records[..0] == [];
    while i < |back|
      invariant 0 <= i <= |back| && es == Joined(records[..i])
    {
      var more := ReplayRecord(c, back[i], records[i]);
      JoinedNext(records[..i], records[i]);
      assert records[..i] + [records[i]] == records[..i + 1];
      es := es + more;
      i := i + 1;
    }
    forall last: nat, k: UserKey, s: nat | Updates.Following(records, last)
      ensures Updates.Means(EntrySet(es), k, s, Updates.Play(map[], Updates.OpsUpTo(records[..i], s)))
    {
      Updates.FollowingPrefix(records, last, i);
      Updates.JoinedReads(records[..i], last, k, s);
    }
  }

  /** Synced bytes are not cut off. */
  ghost predicate KeepsSynced(c: Coder, step: CrcStep, records: seq<Record>, synced: nat, cut: nat)
    requires synced <= |records| && AllStorable(c, records)
  {
    |Log.LogBytes(step, Payloads(c, records)[..synced])| <= cut
  }

  lemma WholeSynced(c: Coder, step: CrcStep, records: seq<Record>, synced: nat, cut: nat)
    requires synced <= |records| && AllStorable(c, records) && KeepsSynced(c, step, records, synced, cut)
    ensures synced <= Log.Whole(step, Payloads(c, records), cut) <= |records|
  {
    hide Payload, Log.LogBytes;
    Log.WholeIff(step, Payloads(c, records), cut, synced);
  }

  // ----- The database -----

  /** What is in the files and logs that are left. */
  ghost function Rebuilt(v: Version, prev: seq<Entry>, cur: seq<Entry>): set<Entry> {
    VersionEntries(v) + (EntrySet(prev) + EntrySet(cur))
  }

  /** A read that sees all there is, of the key of a write whose group was synced before state n. */
  ghost predicate SyncedRead(states: seq<DB>, events: seq<Event>, n: nat, es: set<Entry>, i: nat, x: Entry, s: nat, r: Answer)
    requires n < |states| && n <= |events|
  {
    && i < n && events[i].Group? && events[i].sync && x in GroupCommit.Stamp(events[i].ops, |states[i].history| + 1)
    && (forall e :: e in es ==> e.seqno <= s) && ReadIs(es, x.key, s, r)
  }

  /** Such a read is answered with that write or a later one of its key. */
  ghost predicate SyncedHeld(states: seq<DB>, events: seq<Event>, n: nat, es: set<Entry>)
    requires n < |states| && n <= |events|
  {
    forall i: nat, x: Entry, s: nat, r: Answer :: SyncedRead(states, events, n, es, i, x, s, r) ==> NotOlder(states[n], x, r)
  }

  /** A crash at any point of a run cuts the two log files anywhere behind their synced records.  Opening the
      database again rebuilds the version from the MANIFEST, which is synced with every edit, and replays the
      logs.  If the old log lost nothing or the current one everything, the result reads as the history up to
      the last write left; otherwise exactly when what is lost in between is harmless.  In any case no synced
      write is lost. */
  method Reopen(c: Coder, step: CrcStep, check: bool, ghost states: seq<DB>, ghost events: seq<Event>, ghost n: nat,
                ghost enc: ManifestRuns.KeyBytes, records: seq<VersionEdits.Edit>, orders: seq<seq<(nat, nat)>>,
                disk: map<nat, File>, manifestCut: nat,
                prev: seq<Record>, prevCut: nat, cur: seq<Record>, curCut: nat)
    returns (v: Version, prevLeft: seq<Entry>, curLeft: seq<Entry>, ghost a: nat, ghost b: nat)
    requires IsLogged(states, events) && n < |states| && n <= |events|
    requires AllStorable(c, prev) && AllStorable(c, cur)
    requires var l := RunLogs(states, events, n);
      && prev == l.prev && cur == l.cur && l.prevSynced <= |prev| && l.curSynced <= |cur|
      && KeepsSynced(c, step, prev, l.prevSynced, prevCut) && KeepsSynced(c, step, cur, l.curSynced, curCut)
    requires var edits := ManifestRuns.RunEdits(StepsOf(states, events), n);
      && ManifestRuns.OnDisk(disk, edits) && |records| == |edits| == |orders|
      && (forall i :: 0 <= i < |edits| ==> ManifestRuns.Records(enc, edits[i], records[i]) && VersionEdits.Storable(records[i], orders[i]))
    requires |Log.LogBytes(step, ManifestRuns.Payloads(records, orders))| <= manifestCut
    ensures v == states[n].version
    ensures a == Log.Whole(step, Payloads(c, prev), prevCut) && b == Log.Whole(step, Payloads(c, cur), curCut)
    ensures Crash(RunLogs(states, events, n), a, b) && prevLeft == Joined(prev[..a]) && curLeft == Joined(cur[..b])
    ensures Joined(prev[a..]) == [] || curLeft == [] ==>
      var p := RunLogs(states, events, n).flushed + |prevLeft| + |curLeft|;
      && p <= |states[n].history| && SameReads(EntrySet(states[n].history[..p]), Rebuilt(v, prevLeft, curLeft), p)
      && Updates.ReadsAsFirst(Rebuilt(v, prevLeft, curLeft), Updates.GroupOps(events[..n]), p)
    ensures var l := RunLogs(states, events, n);
      && l.flushed <= |states[n].history| && EndOf(l, b) <= |states[n].history|
      && (SameReads(EntrySet(states[n].history[..EndOf(l, b)]), Rebuilt(v, prevLeft, curLeft), EndOf(l, b)) <==> Harmless(states[n], l, a, b))
    ensures SyncedHeld(states, events, n, Rebuilt(v, prevLeft, curLeft))
  {
    hide IsLogged, RunLogs, Joined, EntrySet, VersionEntries, SameReads, ReadIs, NotOlder, GroupCommit.Stamp, AllStorable, KeepsSynced,
      Log.LogBytes, Log.Whole, ManifestRuns.RunEdits, ManifestRuns.OnDisk, ManifestRuns.Records, VersionEdits.Storable, Payload, Inv,
      Recoverable, ManifestRuns.Payloads, Payloads, Harmless, EndOf, Updates.ReadsAsFirst, Updates.GroupOps, Updates.Means, Updates.Following;
    LoggedIsRun(states, events);
    ghost var l := RunLogs(states, events, n);
    RunRecoverable(states, events, n);
    AllWhole(step, ManifestRuns.Payloads(records, orders), manifestCut);
    ghost var m;
    v, m := ManifestRuns.RecoverFromManifest(step, check, states, StepsOf(states, events), n,
      ManifestRuns.RunEdits(StepsOf(states, events), n), enc, records, orders, disk, manifestCut);
    prevLeft := ReplayLog(c, step, prev, prevCut);
    curLeft := ReplayLog(c, step, cur, curCut);
    a, b := Log.Whole(step, Payloads(c, prev), prevCut), Log.Whole(step, Payloads(c, cur), curCut);
    WholeSynced(c, step, prev, l.prevSynced, prevCut);
    WholeSynced(c, step, cur, l.curSynced, curCut);
    if Joined(prev[a..]) == [] || curLeft == [] {
      PrefixReads(states[n], l, a, b);
      Updates.RecoveredReads(states, events, n, l.flushed + |prevLeft| + |curLeft|, Rebuilt(v, prevLeft, curLeft));
    }
    GapReadsIff(states[n], l, a, b);
    forall i: nat, x: Entry, s: nat, r: Answer | SyncedRead(states, events, n, Rebuilt(v, prevLeft, curLeft), i, x, s, r) ensures NotOlder(states[n], x, r) {
      SyncedKept(states, events, i, n, x, a, b, s, r);
    }
  }

  lemma AllWhole(step: CrcStep, records: seq<seq<Byte>>, cut: nat)
    requires |Log.LogBytes(step, records)| <= cut
    ensures Log.Whole(step, records, cut) == |records|
  {
    hide Log.LogBytes;
  }
}
