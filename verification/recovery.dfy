/** Recovery after a crash: the version in the MANIFEST and the log files of the memtables, each cut behind what
    was synced of it. */
module Recovery {
  import opened Wrappers
  import opened Entries
  import opened Files
  import opened Versions
  import opened Compactions
  import opened Steps
  import opened Database
  import GroupCommit

  // ----- Runs with their logs -----

  /** A log record is a group of writes. */
  type Record = GroupCommit.Record

  function Stamped(r: Record): seq<Entry> { GroupCommit.Stamp(r.ops, r.first) }

  /** The writes of the records, in order. */
  function Joined(rs: seq<Record>): seq<Entry> {
    if rs == [] then [] else Joined(rs[..|rs| - 1]) + Stamped(rs[|rs| - 1])
  }

  /** A group of writes is committed, with its log record synced or not; or another step of the database. */
  datatype Event = Group(ops: seq<GroupCommit.Update>, sync: bool) | Other(step: Database.Step)

  ghost function StepOf(db: DB, e: Event): Database.Step {
    if e.Group? then Write(GroupCommit.Stamp(e.ops, |db.history| + 1)) else e.step
  }

  ghost predicate IsLogged(states: seq<DB>, events: seq<Event>) {
    && |states| == |events| + 1 && Start(states[0])
    && forall i :: 0 <= i < |events| ==> EventAt(states[i], events[i], states[i + 1])
  }

  ghost predicate EventAt(db: DB, e: Event, db': DB) {
    Next(db, StepOf(db, e), db') && (e.Other? ==> !e.step.Write?)
  }

  ghost function StepsOf(states: seq<DB>, events: seq<Event>): (steps: seq<Database.Step>)
    requires |states| == |events| + 1
    ensures |steps| == |events|
  {
    seq(|events|, i requires 0 <= i < |events| => StepOf(states[i], events[i]))
  }

  lemma LoggedIsRun(states: seq<DB>, events: seq<Event>)
    requires IsLogged(states, events)
    ensures |states| == |events| + 1 && IsRun(states, StepsOf(states, events))
  {
    hide Next, StepOf;
    var steps := StepsOf(states, events);
    forall i | 0 <= i < |steps| ensures Next(states[i], steps[i], states[i + 1]) {
      assert EventAt(states[i], events[i], states[i + 1]);
    }
  }

  /** The log files: records of the current one and of that of the memtable being flushed, how many of them are
      known to be synced, and how many writes are in table files and need no log any more. */
  datatype Logs = Logs(flushed: nat, prev: seq<Record>, prevSynced: nat, cur: seq<Record>, curSynced: nat)

  ghost function LogsAfter(db: DB, l: Logs, e: Event): Logs {
    match e
    case Group(ops, sync) =>
      var cur := l.cur + [GroupCommit.Record(|db.history| + 1, ops)];
      l.(cur := cur, curSynced := if sync then |cur| else l.curSynced)
    case Other(step) =>
      match step
      case SwitchMemTable => l.(prev := l.cur, prevSynced := l.curSynced, cur := [], curSynced := 0)
      case FlushEmpty => l.(flushed := l.flushed + |Joined(l.prev)|, prev := [], prevSynced := 0)
      case Flush(_, _) => l.(flushed := l.flushed + |Joined(l.prev)|, prev := [], prevSynced := 0)
      case _ => l
  }

  ghost function RunLogs(states: seq<DB>, events: seq<Event>, n: nat): Logs
    requires n <= |events| < |states|
  {
    if n == 0 then Logs(0, [], 0, [], 0) else LogsAfter(states[n - 1], RunLogs(states, events, n - 1), events[n - 1])
  }

  // ----- What the logs and the files hold together -----

  /** The history is what is in files, then the old log, then the current one. */
  ghost predicate Covers(db: DB, l: Logs) {
    && l.prevSynced <= |l.prev| && l.curSynced <= |l.cur| && l.flushed <= |db.history|
    && db.history == db.history[..l.flushed] + (Joined(l.prev) + Joined(l.cur))
    && EntrySet(db.mem) == EntrySet(Joined(l.cur)) && ImmSet(db) == EntrySet(Joined(l.prev)) && (db.imm.None? ==> l.prev == [])
  }

  /** The files read as the writes flushed so far. */
  ghost predicate FilesRead(db: DB, l: Logs)
    requires l.flushed <= |db.history|
  {
    && VersionEntries(db.version) <= EntrySet(db.history[..l.flushed])
    && SameReads(EntrySet(db.history[..l.flushed]), VersionEntries(db.version), l.flushed)
  }

  ghost predicate Recoverable(db: DB, l: Logs) { Covers(db, l) && FilesRead(db, l) }

  lemma JoinedNext(rs: seq<Record>, r: Record)
    ensures Joined(rs + [r]) == Joined(rs) + Stamped(r)
  {
    assert (rs + [r])[..|rs|] == rs;
  }

  lemma {:induction false} JoinedSplit(rs: seq<Record>, k: nat)
    requires k <= |rs|
    ensures Joined(rs) == Joined(rs[..k]) + Joined(rs[k..])
    decreases |rs| - k
  {
    hide Stamped;
    if k == |rs| {
      assert rs[..k] == rs && rs[k..] == [];
    } else {
      var m := |rs| - 1;
      if k < m {
        JoinedSplit(rs[..m], k);
        assert rs[..m][..k] == rs[..k] && rs[..m][k..] == rs[k..][..m - k];
        assert rs[k..][..|rs[k..]| - 1] == rs[k..][..m - k];
      } else {
        assert rs[k..] == [rs[m]];
        assert [rs[m]][..0] == [];
      }
    }
  }

  // ----- Every step keeps it -----

  lemma GroupCovers(db: DB, l: Logs, ops: seq<GroupCommit.Update>, sync: bool, db': DB)
    requires Covers(db, l) && EventAt(db, Group(ops, sync), db')
    ensures Covers(db', LogsAfter(db, l, Group(ops, sync))) && db'.history[..l.flushed] == db.history[..l.flushed]
  {
    hide Sorted, Joined, EntrySet, GroupCommit.Stamp;
    var batch := GroupCommit.Stamp(ops, |db.history| + 1);
    JoinedNext(l.cur, GroupCommit.Record(|db.history| + 1, ops));
    HistAppend(Joined(l.cur), batch);
    assert db.history[..l.flushed] + (Joined(l.prev) + Joined(l.cur)) + batch ==
           db.history[..l.flushed] + (Joined(l.prev) + (Joined(l.cur) + batch));
    assert (db.history + batch)[..l.flushed] == db.history[..l.flushed];
  }

  lemma SwitchCovers(db: DB, l: Logs, db': DB)
    requires Covers(db, l) && Next(db, SwitchMemTable, db')
    ensures Covers(db', LogsAfter(db, l, Other(SwitchMemTable)))
  {
    hide Joined;
    NothingJoined();
    assert [] + Joined(l.cur) == Joined(l.cur) && Joined(l.cur) + [] == Joined(l.cur);
  }

  lemma NothingJoined() ensures Joined([]) == [] {}

  lemma FlushCovers(db: DB, l: Logs, db': DB)
    requires Covers(db, l) && db' == db.(imm := None, version := db'.version, nextFile := db'.nextFile)
    ensures var l' := l.(flushed := l.flushed + |Joined(l.prev)|, prev := [], prevSynced := 0);
      Covers(db', l') && db'.history[..l'.flushed] == db.history[..l.flushed] + Joined(l.prev)
  {
    hide Joined;
    NothingJoined();
    var h := db.history[..l.flushed];
    assert h + (Joined(l.prev) + Joined(l.cur)) == (h + Joined(l.prev)) + Joined(l.cur);
    assert ((h + Joined(l.prev)) + Joined(l.cur))[..l.flushed + |Joined(l.prev)|] == h + Joined(l.prev);
    assert [] + Joined(l.cur) == Joined(l.cur);
  }

  /** Writes numbered later are newer. */
  lemma PartNewer(db: DB, n: nat, part: seq<Entry>, a: set<Entry>)
    requires Numbered1(db.history) && n <= |db.history| && part <= db.history[n..] && a <= EntrySet(db.history[..n])
    ensures Newer(EntrySet(part), a)
  {
    forall x, y | x in EntrySet(part) && y in a ensures Tag(x) > Tag(y) {
      var i :| 0 <= i < |part| && part[i] == x;
      assert db.history[n + i] == x;
      var j :| 0 <= j < n && db.history[j] == y;
    }
  }

  lemma FlushReads(db: DB, l: Logs, at: nat, f: File, db': DB)
    requires Inv(db) && Recoverable(db, l) && Next(db, Flush(at, f), db')
    ensures FilesRead(db', LogsAfter(db, l, Other(Flush(at, f))))
  {
    hide Valid, FreshNumber, Sorted, SameReads, VersionEntries, Numbered1, SnapshotsOk, EntrySet, Placeable, Added, Newer, Joined, Store;
    FlushedFileOk(db, f);
    FlushKeepsValid(db.version, db'.version, at, f);
    FlushCovers(db, l, db');
    TailStarts(db.history, l.flushed, Joined(l.prev), Joined(l.cur));
    PartReads(db, l.flushed, VersionEntries(db.version), Joined(l.prev));
  }

  /** Files that read as the first n writes read, with the next few added, as so many more. */
  lemma PartReads(db: DB, n: nat, files: set<Entry>, part: seq<Entry>)
    requires Numbered1(db.history) && n <= |db.history| && part <= db.history[n..]
    requires files <= EntrySet(db.history[..n]) && SameReads(EntrySet(db.history[..n]), files, n)
    ensures n + |part| <= |db.history| && db.history[..n + |part|] == db.history[..n] + part
    ensures files + EntrySet(part) <= EntrySet(db.history[..n + |part|])
    ensures SameReads(EntrySet(db.history[..n + |part|]), files + EntrySet(part), n + |part|)
  {
    hide SameReads, EntrySet, Newer, Numbered1;
    var h := db.history[..n];
    PartNewer(db, n, part, EntrySet(h));
    PartNewer(db, n, part, files);
    SameReadsExtend(EntrySet(h), files, EntrySet(part), n);
    HistAppend(h, part);
    assert db.history[..n + |part|] == h + part;
    SameReadsLater(EntrySet(h + part), files + EntrySet(part), n, n + |part|);
  }

  lemma TailStarts(h: seq<Entry>, n: nat, a: seq<Entry>, b: seq<Entry>)
    requires n <= |h| && h == h[..n] + (a + b)
    ensures h[n..] == a + b && a <= h[n..]
  {
    assert (h[..n] + (a + b))[n..] == a + b;
  }

  lemma FlushEmptyReads(db: DB, l: Logs, db': DB)
    requires Recoverable(db, l) && Next(db, FlushEmpty, db')
    ensures FilesRead(db', LogsAfter(db, l, Other(FlushEmpty)))
  {
    hide SameReads, VersionEntries, Joined;
    FlushCovers(db, l, db');
    NoMembers(Joined(l.prev));
    assert db.history[..l.flushed] + [] == db.history[..l.flushed];
  }

  lemma NoMembers(es: seq<Entry>)
    ensures EntrySet(es) == {} ==> es == []
  {
    if es != [] {
      assert es[0] in EntrySet(es);
    }
  }

  /** With every number at or below n, a read at n or later sees everything. */
  lemma AllVisible(a: set<Entry>, b: set<Entry>, n: nat, oldest: nat)
    requires (forall e :: e in a ==> e.seqno <= n) && (forall e :: e in b ==> e.seqno <= n) && SameReads(a, b, oldest)
    ensures SameReads(a, b, n)
  {
    forall k: UserKey, s: nat, r: Answer | s >= n ensures ReadIs(a, k, s, r) <==> ReadIs(b, k, s, r) {
      var later := if s < oldest then oldest else s;
      SeesAll(a, k, s, later, r);
      SeesAll(b, k, s, later, r);
    }
  }

  lemma SeesAll(a: set<Entry>, k: UserKey, s: nat, later: nat, r: Answer)
    requires s <= later && forall e :: e in a ==> e.seqno <= s
    ensures ReadIs(a, k, s, r) <==> ReadIs(a, k, later, r)
  {
    forall e ensures IsNewest(a, k, s, e) <==> IsNewest(a, k, later, e) {}
  }

  lemma BelowStays(v: Version, level: nat, rest: set<Entry>, more: set<Entry>, input: seq<Entry>, oldest: nat)
    requires NothingBelow(v, level, rest, input, oldest) && more <= rest
    ensures NothingBelow(v, level, more, input, oldest)
  {
    hide Obsolete, Tag;
  }

  /** A compaction changes no read of the files alone. */
  lemma CompactReads(db: DB, level: nat, in0: seq<File>, in1: seq<File>, input: seq<Entry>, outs: seq<File>, db': DB)
    requires Inv(db) && Next(db, Compact(level, in0, in1, input, outs), db')
    ensures VersionEntries(db'.version) <= VersionEntries(db.version)
    ensures SameReads(VersionEntries(db.version), VersionEntries(db'.version), Oldest(db))
  {
    hide Valid, FreshNumber, Sorted, SameReads, VersionEntries, Numbered1, SnapshotsOk, EntrySet, Newer, Distinct,
         CompactionOk, Replaced, Kept, Flatten, Numbered, NothingBelow, Staying, InputEntries, OutputsOk, MemoryNewer;
    var rest := EntrySet(db.mem) + ImmSet(db) + Staying(db.version, level, in0, in1);
    KeptOutputsOk(db, level, in0, in1, input, outs);
    ChosenIn(db.version, level, in0, in1);
    SplitEntries(db.version, level, in0, in1);
    ReplacedVersionEntries(db.version, db'.version, level, in0, in1, outs);
    CompactionNothingBelow(db, level, in0, in1, input);
    BelowStays(db.version, level, rest, Staying(db.version, level, in0, in1), input, Oldest(db));
    HistDistinct(db);
    SubDistinct(VersionEntries(db.version), Hist(db));
    DropKeepsReads(db.version, level, Staying(db.version, level, in0, in1), input, Oldest(db));
    OutputsAreInputs(db.version, level, in0, in1, input, outs);
  }

  lemma FlushedNumbers(db: DB, l: Logs)
    requires Numbered1(db.history) && l.flushed <= |db.history|
    ensures forall e :: e in EntrySet(db.history[..l.flushed]) ==> e.seqno <= l.flushed
  {}

  lemma StillRead(db: DB, l: Logs, db': DB)
    requires Inv(db) && Recoverable(db, l) && db'.history == db.history
    requires VersionEntries(db'.version) <= VersionEntries(db.version)
    requires SameReads(VersionEntries(db.version), VersionEntries(db'.version), Oldest(db))
    ensures FilesRead(db', l)
  {
    hide SameReads, VersionEntries, Valid, FreshNumber, Sorted, SnapshotsOk, MemoryNewer, Joined;
    FlushedNumbers(db, l);
    AllVisible(VersionEntries(db.version), VersionEntries(db'.version), l.flushed, Oldest(db));
    SameReadsTrans(EntrySet(db.history[..l.flushed]), VersionEntries(db.version), VersionEntries(db'.version), l.flushed);
  }

  lemma SameReadsSelf(a: set<Entry>, oldest: nat) ensures SameReads(a, a, oldest) {}

  lemma MoveReads(db: DB, level: nat, f: File, db': DB)
    requires Inv(db) && Next(db, TrivialMove(level, f), db')
    ensures VersionEntries(db'.version) == VersionEntries(db.version)
  {
    hide Valid, FreshNumber, Sorted, SameReads, VersionEntries, Numbered1, SnapshotsOk, EntrySet, Newer,
         CompactionOk, Replaced, Flatten, Staying, InputEntries, OutputsOk;
    MoveOutputsOk(db.version, level, f);
    ChosenIn(db.version, level, [f], []);
    SplitEntries(db.version, level, [f], []);
    ReplacedVersionEntries(db.version, db'.version, level, [f], [], [f]);
  }

  lemma SameCovers(db: DB, l: Logs, db': DB)
    requires Covers(db, l) && db'.history == db.history && db'.mem == db.mem && db'.imm == db.imm
    ensures Covers(db', l)
  {
    hide Joined;
  }

  lemma StepRecoverable(db: DB, l: Logs, e: Event, db': DB)
    requires Inv(db) && Recoverable(db, l) && EventAt(db, e, db')
    ensures Recoverable(db', LogsAfter(db, l, e))
  {
    hide Inv, Covers, FilesRead, SameReads, VersionEntries;
    CoversBound(db, l);
    match e
    case Group(ops, sync) =>
      GroupCovers(db, l, ops, sync, db');
      SameFiles(db, l, db');
    case Other(step) =>
      match step {
        case SwitchMemTable =>
          SwitchCovers(db, l, db');
          SameFiles(db, l, db');
        case FlushEmpty =>
          FlushCovers(db, l, db');
          FlushEmptyReads(db, l, db');
        case Flush(at, f) =>
          FlushCovers(db, l, db');
          FlushReads(db, l, at, f, db');
        case Compact(level, in0, in1, input, outs) =>
          SameCovers(db, l, db');
          CompactReads(db, level, in0, in1, input, outs, db');
          StillRead(db, l, db');
        case TrivialMove(level, f) =>
          SameCovers(db, l, db');
          MoveReads(db, level, f, db');
          SameReadsSelf(VersionEntries(db.version), Oldest(db));
          StillRead(db, l, db');
        case TakeSnapshot =>
          SameCovers(db, l, db');
          SameFiles(db, l, db');
        case ReleaseSnapshot(_) =>
          SameCovers(db, l, db');
          SameFiles(db, l, db');
      }
  }

  lemma CoversBound(db: DB, l: Logs)
    requires Covers(db, l)
    ensures l.flushed <= |db.history| && l.prevSynced <= |l.prev| && l.curSynced <= |l.cur|
  {}

  lemma SameFiles(db: DB, l: Logs, db': DB)
    requires Recoverable(db, l) && db'.version == db.version && l.flushed <= |db'.history|
    requires db'.history[..l.flushed] == db.history[..l.flushed]
    ensures forall l': Logs :: l'.flushed == l.flushed ==> FilesRead(db', l')
  {
    hide SameReads, VersionEntries, Joined;
  }

  /** On every run the files and the logs hold the whole history between them. */
  lemma {:induction false} RunRecoverable(states: seq<DB>, events: seq<Event>, n: nat)
    requires IsLogged(states, events) && n < |states|
    ensures Inv(states[n]) && Recoverable(states[n], RunLogs(states, events, n))
  {
    hide Inv, Recoverable, EventAt;
    LoggedIsRun(states, events);
    RunInv(states, StepsOf(states, events), n);
    if n == 0 {
      StartRecoverable(states[0]);
    } else {
      RunRecoverable(states, events, n - 1);
      assert EventAt(states[n - 1], events[n - 1], states[n]);
      StepRecoverable(states[n - 1], RunLogs(states, events, n - 1), events[n - 1], states[n]);
    }
  }

  lemma StartRecoverable(db: DB)
    requires Start(db)
    ensures Recoverable(db, Logs(0, [], 0, [], 0))
  {
    assert VersionEntries(db.version) == {} by {
      forall e ensures e !in VersionEntries(db.version) {}
    }
    assert EntrySet(db.history[..0]) == {};
  }

  // ----- What a crash leaves -----

  /** Of each log at least the synced records are left, and of the others a prefix. */
  ghost predicate Crash(l: Logs, a: nat, b: nat) { l.prevSynced <= a <= |l.prev| && l.curSynced <= b <= |l.cur| }

  /** The writes left in the logs. */
  ghost function Left(l: Logs, a: nat, b: nat): set<Entry>
    requires a <= |l.prev| && b <= |l.cur|
  {
    EntrySet(Joined(l.prev[..a])) + EntrySet(Joined(l.cur[..b]))
  }

  /** What the recovered database is made of: the files, and the replayed logs. */
  ghost function Recovered(db: DB, l: Logs, a: nat, b: nat): set<Entry>
    requires a <= |l.prev| && b <= |l.cur|
  {
    VersionEntries(db.version) + Left(l, a, b)
  }

  /** What is left follows what is in files, unless writes are missing in between. */
  lemma LeftIsPart(db: DB, l: Logs, a: nat, b: nat)
    requires Covers(db, l) && a <= |l.prev| && b <= |l.cur|
    requires Joined(l.prev[a..]) == [] || Joined(l.cur[..b]) == []
    ensures Joined(l.prev[..a]) + Joined(l.cur[..b]) <= db.history[l.flushed..]
    ensures Left(l, a, b) == EntrySet(Joined(l.prev[..a]) + Joined(l.cur[..b]))
  {
    hide Joined, EntrySet;
    JoinedSplit(l.prev, a);
    JoinedSplit(l.cur, b);
    TailStarts(db.history, l.flushed, Joined(l.prev), Joined(l.cur));
    HistAppend(Joined(l.prev[..a]), Joined(l.cur[..b]));
    var p, q, c, d := Joined(l.prev[..a]), Joined(l.prev[a..]), Joined(l.cur[..b]), Joined(l.cur[b..]);
    if q == [] {
      assert (p + q) + (c + d) == (p + c) + d;
    } else {
      assert (p + q) + (c + d) == (p + c) + (q + (c + d));
    }
  }

  /** If no write is missing in between, the recovered database reads as the history up to the last write left. */
  lemma PrefixReads(db: DB, l: Logs, a: nat, b: nat)
    requires Inv(db) && Recoverable(db, l) && Crash(l, a, b)
    requires Joined(l.prev[a..]) == [] || Joined(l.cur[..b]) == []
    ensures var p := l.flushed + |Joined(l.prev[..a])| + |Joined(l.cur[..b])|;
      p <= |db.history| && SameReads(EntrySet(db.history[..p]), Recovered(db, l, a, b), p)
  {
    hide SameReads, VersionEntries, Valid, FreshNumber, Sorted, SnapshotsOk, MemoryNewer, Joined, EntrySet, Newer, Store, Numbered1, Left;
    LeftIsPart(db, l, a, b);
    PartReads(db, l.flushed, VersionEntries(db.version), Joined(l.prev[..a]) + Joined(l.cur[..b]));
  }

  // ----- When writes can be missing in between -----

  /** No write is left while an earlier one is lost. */
  ghost predicate NoHole(db: DB, l: Logs, a: nat, b: nat)
    requires a <= |l.prev| && b <= |l.cur|
  {
    forall x, y :: x in db.history && y in Left(l, a, b) && l.flushed < x.seqno < y.seqno ==> x in Left(l, a, b)
  }

  lemma PartHasNoHole(db: DB, l: Logs, part: seq<Entry>, x: Entry, y: Entry)
    requires Numbered1(db.history) && l.flushed <= |db.history| && part <= db.history[l.flushed..]
    requires x in db.history && y in part && l.flushed < x.seqno < y.seqno
    ensures x in part
  {
    var i :| 0 <= i < |db.history| && db.history[i] == x;
    var j :| 0 <= j < |part| && part[j] == y;
    assert db.history[l.flushed + j] == y;
    assert part[i - l.flushed] == x;
  }

  /** The numbers of the writes of the two logs. */
  lemma LogNumbers(db: DB, l: Logs, a: nat)
    requires Numbered1(db.history) && Covers(db, l) && a <= |l.prev|
    ensures forall i :: 0 <= i < |Joined(l.prev[..a])| ==> Joined(l.prev[..a])[i].seqno == l.flushed + i + 1
    ensures forall i :: 0 <= i < |Joined(l.prev[a..])| ==>
      Joined(l.prev[a..])[i].seqno == l.flushed + |Joined(l.prev[..a])| + i + 1 && Joined(l.prev[a..])[i] in db.history
    ensures forall i :: 0 <= i < |Joined(l.cur)| ==> Joined(l.cur)[i].seqno == l.flushed + |Joined(l.prev)| + i + 1
    ensures |Joined(l.prev)| == |Joined(l.prev[..a])| + |Joined(l.prev[a..])|
  {
    hide Joined, EntrySet;
    JoinedSplit(l.prev, a);
    TailStarts(db.history, l.flushed, Joined(l.prev), Joined(l.cur));
    var p, q, c, h := Joined(l.prev[..a]), Joined(l.prev[a..]), Joined(l.cur), db.history[..l.flushed];
    assert db.history == h + p + (q + c) == (h + p) + q + c == (h + (p + q)) + c + [];
    PartNumbers(db.history, h, p, q + c);
    PartNumbers(db.history, h + p, q, c);
    PartNumbers(db.history, h + (p + q), c, []);
  }

  lemma PartNumbers(history: seq<Entry>, a: seq<Entry>, b: seq<Entry>, c: seq<Entry>)
    requires Numbered1(history) && history == a + b + c
    ensures forall i :: 0 <= i < |b| ==> b[i].seqno == |a| + i + 1 && b[i] in history
  {
    forall i | 0 <= i < |b| ensures b[i].seqno == |a| + i + 1 && b[i] in history {
      assert history[|a| + i] == b[i];
    }
  }

  /** The first lost write of the old log is missing while the first of the current one is left. */
  lemma LostBefore(db: DB, l: Logs)
    requires Numbered1(db.history) && Covers(db, l) && Joined(l.prev[l.prevSynced..]) != [] && Joined(l.cur) != []
    ensures Crash(l, l.prevSynced, |l.cur|) && !NoHole(db, l, l.prevSynced, |l.cur|)
  {
    hide Joined;
    var a, b := l.prevSynced, |l.cur|;
    LogNumbers(db, l, a);
    assert l.cur[..b] == l.cur;
    var x, y := Joined(l.prev[a..])[0], Joined(l.cur)[0];
    assert y in Left(l, a, b);
    forall e | e in Left(l, a, b) ensures e.seqno != x.seqno {
      if e in Joined(l.prev[..a]) {
        var i :| 0 <= i < |Joined(l.prev[..a])| && Joined(l.prev[..a])[i] == e;
      } else {
        var i :| 0 <= i < |Joined(l.cur)| && Joined(l.cur)[i] == e;
      }
    }
    assert x in db.history && x !in Left(l, a, b);
  }

  /** A memtable switch does not sync the old log.  So no crash loses a write and keeps a later one exactly when
      the old log is synced to its last write, or nothing was written since the switch. */
  lemma NoHoleIff(db: DB, l: Logs)
    requires Inv(db) && Covers(db, l)
    ensures (forall a, b :: Crash(l, a, b) ==> NoHole(db, l, a, b)) <==> Joined(l.prev[l.prevSynced..]) == [] || Joined(l.cur) == []
  {
    hide Joined, Covers, SameReads, VersionEntries, Valid, FreshNumber, Sorted, SnapshotsOk, MemoryNewer, NoHole;
    CoversBound(db, l);
    if Joined(l.prev[l.prevSynced..]) == [] || Joined(l.cur) == [] {
      forall a, b | Crash(l, a, b) ensures NoHole(db, l, a, b) {
        NothingBetween(l, a, b);
        PartsNoHole(db, l, a, b);
      }
    } else {
      LostBefore(db, l);
    }
  }

  lemma NothingBetween(l: Logs, a: nat, b: nat)
    requires l.prevSynced <= a <= |l.prev| && b <= |l.cur|
    requires Joined(l.prev[l.prevSynced..]) == [] || Joined(l.cur) == []
    ensures Joined(l.prev[a..]) == [] || Joined(l.cur[..b]) == []
  {
    hide Joined;
    JoinedSplit(l.prev[l.prevSynced..], a - l.prevSynced);
    assert l.prev[l.prevSynced..][a - l.prevSynced..] == l.prev[a..];
    JoinedSplit(l.cur, b);
  }

  lemma PartsNoHole(db: DB, l: Logs, a: nat, b: nat)
    requires Numbered1(db.history) && Covers(db, l) && a <= |l.prev| && b <= |l.cur|
    requires Joined(l.prev[a..]) == [] || Joined(l.cur[..b]) == []
    ensures NoHole(db, l, a, b)
  {
    hide Joined, Left;
    LeftIsPart(db, l, a, b);
    var part := Joined(l.prev[..a]) + Joined(l.cur[..b]);
    forall x, y | x in db.history && y in Left(l, a, b) && l.flushed < x.seqno < y.seqno ensures x in Left(l, a, b) {
      PartHasNoHole(db, l, part, x, y);
    }
  }

  // ----- Synced writes -----

  /** In files, or in the synced part of a log. */
  ghost predicate Safe(l: Logs, x: Entry)
    requires l.prevSynced <= |l.prev| && l.curSynced <= |l.cur|
  {
    x.seqno <= l.flushed || x in Joined(l.prev[..l.prevSynced]) || x in Joined(l.cur[..l.curSynced])
  }

  lemma SafeStep(db: DB, l: Logs, e: Event, db': DB, x: Entry)
    requires Numbered1(db.history) && Covers(db, l) && Safe(l, x) && EventAt(db, e, db')
    ensures var l' := LogsAfter(db, l, e); l'.prevSynced <= |l'.prev| && l'.curSynced <= |l'.cur| && Safe(l', x)
  {
    hide Joined, Sorted, CompactionOk, Replaced, Added, Kept, Flatten, InputEntries, EntrySet, GroupCommit.Stamp;
    var l' := LogsAfter(db, l, e);
    if e.Group? {
      var r := GroupCommit.Record(|db.history| + 1, e.ops);
      assert l'.cur[..l.curSynced] == l.cur[..l.curSynced] && l'.cur[..|l'.cur|] == l'.cur;
      JoinedSplit(l.cur, l.curSynced);
      JoinedNext(l.cur, r);
    } else if e.step.SwitchMemTable? {
      NothingJoined();
      assert l.prev == [] && l.prev[..l.prevSynced] == [];
    } else if x in Joined(l.prev[..l.prevSynced]) {
      LogNumbers(db, l, l.prevSynced);
    }
  }

  /** A write whose group was synced is in files or in the synced part of a log ever after. */
  lemma {:induction false} SyncedSafe(states: seq<DB>, events: seq<Event>, i: nat, n: nat, x: Entry)
    requires IsLogged(states, events) && i < n < |states| && events[i].Group? && events[i].sync
    requires x in GroupCommit.Stamp(events[i].ops, |states[i].history| + 1)
    ensures var l := RunLogs(states, events, n);
      l.prevSynced <= |l.prev| && l.curSynced <= |l.cur| && Safe(l, x) && x in states[n].history
    decreases n
  {
    hide Inv, Covers, FilesRead, EventAt, LogsAfter, Safe, GroupCommit.Stamp, Joined;
    RunRecoverable(states, events, n - 1);
    var db, l, e := states[n - 1], RunLogs(states, events, n - 1), events[n - 1];
    InvNumbered(db);
    CoversBound(db, l);
    assert EventAt(db, e, states[n]);
    if i < n - 1 {
      SyncedSafe(states, events, i, n - 1, x);
      SafeStep(db, l, e, states[n], x);
    } else {
      JustSynced(db, l, e, x);
    }
    HistoryGrows(db, e, states[n]);
  }

  lemma InvNumbered(db: DB) requires Inv(db) ensures Numbered1(db.history) {
    hide Valid, SameReads, MemoryNewer, Store;
  }

  lemma JustSynced(db: DB, l: Logs, e: Event, x: Entry)
    requires Covers(db, l) && e.Group? && e.sync && x in GroupCommit.Stamp(e.ops, |db.history| + 1)
    ensures var l' := LogsAfter(db, l, e); l'.prevSynced <= |l'.prev| && l'.curSynced <= |l'.cur| && Safe(l', x)
  {
    hide Joined, GroupCommit.Stamp, EntrySet;
    var l', r := LogsAfter(db, l, e), GroupCommit.Record(|db.history| + 1, e.ops);
    JoinedNext(l.cur, r);
    assert l'.cur[..|l'.cur|] == l'.cur;
  }

  lemma HistoryGrows(db: DB, e: Event, db': DB)
    requires EventAt(db, e, db')
    ensures db.history <= db'.history
    ensures e.Group? ==> db'.history == db.history + GroupCommit.Stamp(e.ops, |db.history| + 1)
    ensures e.Other? ==> db'.history == db.history
  {
    hide Sorted, CompactionOk, Replaced, Added, Kept, Flatten, InputEntries, EntrySet, GroupCommit.Stamp;
  }

  lemma SafeIsLeft(l: Logs, x: Entry, a: nat, b: nat)
    requires l.prevSynced <= |l.prev| && l.curSynced <= |l.cur| && Safe(l, x) && Crash(l, a, b)
    ensures x.seqno <= l.flushed || x in Left(l, a, b)
  {
    hide Joined;
    JoinedSplit(l.prev[..a], l.prevSynced);
    JoinedSplit(l.cur[..b], l.curSynced);
    assert l.prev[..a][..l.prevSynced] == l.prev[..l.prevSynced] && l.cur[..b][..l.curSynced] == l.cur[..l.curSynced];
  }

  /** The write itself or a later one of its key. */
  ghost predicate NotOlder(db: DB, x: Entry, r: Answer) {
    exists y :: y in db.history && y.key == x.key && Tag(y) >= Tag(x) && r == AnswerOf(y)
  }

  /** A write whose group was synced is not lost by any crash: the recovered database answers a read of its key,
      at any number not below those recovered, with that write or a later one. */
  lemma SyncedKept(states: seq<DB>, events: seq<Event>, i: nat, n: nat, x: Entry, a: nat, b: nat, s: nat, r: Answer)
    requires IsLogged(states, events) && i < n < |states| && events[i].Group? && events[i].sync
    requires x in GroupCommit.Stamp(events[i].ops, |states[i].history| + 1)
    requires Crash(RunLogs(states, events, n), a, b)
    requires forall e :: e in Recovered(states[n], RunLogs(states, events, n), a, b) ==> e.seqno <= s
    requires ReadIs(Recovered(states[n], RunLogs(states, events, n), a, b), x.key, s, r)
    ensures NotOlder(states[n], x, r)
  {
    hide Inv, Covers, FilesRead, EventAt, LogsAfter, Safe, GroupCommit.Stamp, Joined, ReadIs, Recovered, NotOlder;
    RunRecoverable(states, events, n);
    SyncedSafe(states, events, i, n, x);
    SafeIsLeft(RunLogs(states, events, n), x, a, b);
    var later := if s < |states[n].history| then |states[n].history| else s;
    SeesAll(Recovered(states[n], RunLogs(states, events, n), a, b), x.key, s, later, r);
    ReadsNotOlder(states[n], RunLogs(states, events, n), x, a, b, later, r);
  }

  lemma LeftInHistory(db: DB, l: Logs, a: nat, b: nat)
    requires Numbered1(db.history) && Covers(db, l) && a <= |l.prev| && b <= |l.cur|
    ensures forall e :: e in Left(l, a, b) ==> e in db.history && e.seqno > l.flushed
  {
    hide Joined;
    JoinedSplit(l.prev, a);
    JoinedSplit(l.cur, b);
    LogNumbers(db, l, |l.prev|);
    assert l.prev[..|l.prev|] == l.prev;
    TailStarts(db.history, l.flushed, Joined(l.prev), Joined(l.cur));
    forall e | e in Left(l, a, b) ensures e in db.history && e.seqno > l.flushed {
      assert e in Joined(l.prev) || e in Joined(l.cur);
      InTail(db.history, l.flushed, Joined(l.prev) + Joined(l.cur), e);
    }
  }

  lemma InTail(h: seq<Entry>, n: nat, tail: seq<Entry>, e: Entry)
    requires Numbered1(h) && n <= |h| && h[n..] == tail && e in tail
    ensures e in h && e.seqno > n
  {
    var i :| 0 <= i < |tail| && tail[i] == e;
    assert h[n + i] == e;
  }

  lemma ReadsNotOlder(db: DB, l: Logs, x: Entry, a: nat, b: nat, s: nat, r: Answer)
    requires Inv(db) && Recoverable(db, l) && Crash(l, a, b) && x in db.history && (x.seqno <= l.flushed || x in Left(l, a, b))
    requires s >= |db.history| && ReadIs(Recovered(db, l, a, b), x.key, s, r)
    ensures NotOlder(db, x, r)
  {
    hide SameReads, Valid, FreshNumber, Sorted, SnapshotsOk, MemoryNewer, Joined, EntrySet, Store, Left, Numbered1, VersionEntries;
    InvNumbered(db);
    LeftInHistory(db, l, a, b);
    LeftNewer(db, l, a, b);
    InFlushed(db, l, x);
    ReadExtend(VersionEntries(db.version), Left(l, a, b), x.key, s, r);
    if NoneVisible(Left(l, a, b), x.key, s) {
      XNotLeft(db, l, a, b, x, s);
      FromFiles(db, l, x, s, r);
    } else {
      FromLogs(db, l, a, b, x, s, r);
    }
  }

  lemma InFlushed(db: DB, l: Logs, x: Entry)
    requires Numbered1(db.history) && l.flushed <= |db.history| && x in db.history
    ensures x.seqno <= l.flushed ==> x in EntrySet(db.history[..l.flushed])
    ensures x.seqno <= |db.history|
  {
    var i :| 0 <= i < |db.history| && db.history[i] == x;
    assert i < l.flushed ==> db.history[..l.flushed][i] == x;
  }

  lemma LeftNewer(db: DB, l: Logs, a: nat, b: nat)
    requires Numbered1(db.history) && Covers(db, l) && FilesRead(db, l) && a <= |l.prev| && b <= |l.cur|
    ensures Newer(Left(l, a, b), VersionEntries(db.version))
  {
    hide Joined, SameReads, VersionEntries, Left;
    LeftInHistory(db, l, a, b);
    FlushedNumbers(db, l);
    hide Covers;
    forall e, y | e in Left(l, a, b) && y in VersionEntries(db.version) ensures Tag(e) > Tag(y) {
      assert y in EntrySet(db.history[..l.flushed]);
    }
  }

  lemma XNotLeft(db: DB, l: Logs, a: nat, b: nat, x: Entry, s: nat)
    requires a <= |l.prev| && b <= |l.cur| && NoneVisible(Left(l, a, b), x.key, s) && x.seqno <= s
    requires x.seqno <= l.flushed || x in Left(l, a, b)
    ensures x.seqno <= l.flushed
  {
    hide Left;
  }

  /** No log holds the key: the files answer as the flushed history. */
  lemma FromFiles(db: DB, l: Logs, x: Entry, s: nat, r: Answer)
    requires Numbered1(db.history) && l.flushed <= |db.history| && FilesRead(db, l) && x in EntrySet(db.history[..l.flushed])
    requires s >= |db.history| && x.seqno <= s && ReadIs(VersionEntries(db.version), x.key, s, r)
    ensures NotOlder(db, x, r)
  {
    hide VersionEntries;
    var h := EntrySet(db.history[..l.flushed]);
    assert ReadIs(h, x.key, s, r);
    assert Visible(x, x.key, s);
    var y :| IsNewest(h, x.key, s, y) && r == AnswerOf(y);
    assert y in db.history;
  }

  /** Some log holds the key: its newest write there is later than all of the files, and than x. */
  lemma FromLogs(db: DB, l: Logs, a: nat, b: nat, x: Entry, s: nat, r: Answer)
    requires a <= |l.prev| && b <= |l.cur| && ReadIs(Left(l, a, b), x.key, s, r) && !NoneVisible(Left(l, a, b), x.key, s)
    requires forall e :: e in Left(l, a, b) ==> e in db.history && e.seqno > l.flushed
    requires (x.seqno <= l.flushed || x in Left(l, a, b)) && x.seqno <= s
    ensures NotOlder(db, x, r)
  {
    hide Left;
    var y :| IsNewest(Left(l, a, b), x.key, s, y) && r == AnswerOf(y);
    assert y in db.history;
    if x in Left(l, a, b) {
      assert Visible(x, x.key, s);
    }
  }

  // ----- What lost writes do to reads -----

  /** The newest of the lost writes of its key, of which no write is kept after them. */
  ghost predicate LastLost(lost: set<Entry>, after: set<Entry>, x: Entry) {
    && x in lost && (forall y :: y in lost && y.key == x.key ==> Tag(y) <= Tag(x))
    && forall y :: y in after ==> y.key != x.key
  }

  /** A lost write that repeats what a read of its key answers without it. */
  ghost predicate Repeats(before: set<Entry>, s: nat, x: Entry) { ReadIs(before, x.key, s, AnswerOf(x)) }

  /** One key, with and without the lost writes. */
  lemma GapAtKey(before: set<Entry>, lost: set<Entry>, after: set<Entry>, k: UserKey, s: nat, r: Answer)
    requires Newer(lost, before) && Newer(after, before + lost) && Distinct(before) && Distinct(lost)
    requires forall x :: LastLost(lost, after, x) && x.key == k ==> x.seqno <= s && Repeats(before, s, x)
    requires forall e :: e in before + lost + after ==> e.seqno <= s
    ensures ReadIs((before + lost) + after, k, s, r) <==> ReadIs(before + after, k, s, r)
  {
    hide Distinct, ReadIs;
    NewerSub(after, before + lost, before);
    ReadExtend(before + lost, after, k, s, r);
    ReadExtend(before, after, k, s, r);
    hide Newer;
    if NoneVisible(after, k, s) {
      ReadExtend(before, lost, k, s, r);
      if !NoneVisible(lost, k, s) {
        var x := NewestExists(lost, k, s);
        NewestIsLast(before, lost, after, k, s, x);
        LostRead(before, lost, x, s, r);
      }
    }
  }

  lemma NewestIsLast(before: set<Entry>, lost: set<Entry>, after: set<Entry>, k: UserKey, s: nat, x: Entry)
    requires (forall e :: e in before + lost + after ==> e.seqno <= s) && IsNewest(lost, k, s, x) && NoneVisible(after, k, s)
    ensures LastLost(lost, after, x) && x.key == k
  {
    forall y | y in lost && y.key == x.key ensures Tag(y) <= Tag(x) {
      assert Visible(y, k, s);
    }
    forall y | y in after ensures y.key != x.key {
      assert y.seqno <= s;
    }
  }

  lemma LostRead(before: set<Entry>, lost: set<Entry>, x: Entry, s: nat, r: Answer)
    requires IsNewest(lost, x.key, s, x) && Distinct(before) && Distinct(lost) && Repeats(before, s, x)
    ensures ReadIs(lost, x.key, s, r) <==> ReadIs(before, x.key, s, r)
  {
    assert ReadIs(lost, x.key, s, AnswerOf(x));
    hide Distinct, ReadIs;
    if ReadIs(lost, x.key, s, r) {
      ReadFunctional(lost, x.key, s, r, AnswerOf(x));
    }
    if ReadIs(before, x.key, s, r) {
      ReadFunctional(before, x.key, s, r, AnswerOf(x));
    }
  }

  /** Reads go on as if nothing were lost exactly when every lost write is followed by a kept one of its key, or
      the last one of its key repeats what was there before. */
  lemma GapIff(before: set<Entry>, lost: set<Entry>, after: set<Entry>, p: nat)
    requires Newer(lost, before) && Newer(after, before + lost) && Distinct(before) && Distinct(lost)
    requires forall e :: e in before + lost + after ==> e.seqno <= p
    ensures SameReads((before + lost) + after, before + after, p) <==> forall x :: LastLost(lost, after, x) ==> Repeats(before, p, x)
  {
    if forall x :: LastLost(lost, after, x) ==> Repeats(before, p, x) {
      forall k: UserKey, s: nat, r: Answer | s >= p
        ensures ReadIs((before + lost) + after, k, s, r) <==> ReadIs(before + after, k, s, r)
      {
        forall x | LastLost(lost, after, x) && x.key == k ensures x.seqno <= s && Repeats(before, s, x) {
          SeesAll(before, x.key, p, s, AnswerOf(x));
        }
        GapAtKey(before, lost, after, k, s, r);
      }
    }
    if SameReads((before + lost) + after, before + after, p) {
      forall x | LastLost(lost, after, x) ensures Repeats(before, p, x) {
        GapShows(before, lost, after, p, x);
      }
    }
  }

  lemma GapShows(before: set<Entry>, lost: set<Entry>, after: set<Entry>, p: nat, x: Entry)
    requires Newer(lost, before) && Newer(after, before + lost) && LastLost(lost, after, x)
    requires forall e :: e in before + lost + after ==> e.seqno <= p
    requires SameReads((before + lost) + after, before + after, p)
    ensures Repeats(before, p, x)
  {
    NewerSub(after, before + lost, before);
    var r := AnswerOf(x);
    assert NoneVisible(after, x.key, p);
    assert Visible(x, x.key, p) && IsNewest(lost, x.key, p, x);
    assert ReadIs(lost, x.key, p, r);
    hide ReadIs, Newer, IsNewest;
    ReadExtend(before, lost, x.key, p, r);
    ReadExtend(before + lost, after, x.key, p, r);
    ReadExtend(before, after, x.key, p, r);
  }

  /** Every write lost between kept ones is followed by a kept one of its key or repeats what was there before. */
  ghost predicate Harmless(db: DB, l: Logs, a: nat, b: nat)
    requires l.flushed <= |db.history| && a <= |l.prev| && b <= |l.cur|
  {
    forall x :: LastLost(EntrySet(Joined(l.prev[a..])), EntrySet(Joined(l.cur[..b])), x) ==>
      Repeats(EntrySet(db.history[..l.flushed] + Joined(l.prev[..a])), EndOf(l, b), x)
  }

  /** The number of the last write left by the current log. */
  ghost function EndOf(l: Logs, b: nat): nat
    requires b <= |l.cur|
  {
    l.flushed + |Joined(l.prev)| + |Joined(l.cur[..b])|
  }

  /** Whatever a crash left, the recovered database reads as the history up to the last write left exactly when
      the writes lost in between are harmless. */
  lemma GapReadsIff(db: DB, l: Logs, a: nat, b: nat)
    requires Inv(db) && Recoverable(db, l) && Crash(l, a, b)
    ensures l.flushed <= |db.history| && EndOf(l, b) <= |db.history|
    ensures SameReads(EntrySet(db.history[..EndOf(l, b)]), Recovered(db, l, a, b), EndOf(l, b)) <==> Harmless(db, l, a, b)
  {
    hide SameReads, VersionEntries, Valid, FreshNumber, Sorted, SnapshotsOk, MemoryNewer, Joined, EntrySet, Newer, Store, Numbered1, Distinct,
      LastLost, Repeats;
    InvNumbered(db);
    CoversBound(db, l);
    var h, p, lost, after := db.history[..l.flushed], Joined(l.prev[..a]), Joined(l.prev[a..]), Joined(l.cur[..b]);
    JoinedSplit(l.prev, a);
    JoinedSplit(l.cur, b);
    var rest := Joined(l.cur[b..]);
    assert db.history == (h + p) + lost + (after + rest) by {
      assert h + ((p + lost) + (after + rest)) == (h + p) + lost + (after + rest);
    }
    GapParts(db, h + p, lost, after, rest);
    HistAppend(h + p, lost);
    HistAppend(h + p + lost, after);
    assert db.history[..EndOf(l, b)] == h + p + lost + after;
    GapIff(EntrySet(h + p), EntrySet(lost), EntrySet(after), EndOf(l, b));
    RecoveredReads(db, l, a, b);
    SameReadsSwap(EntrySet(db.history[..EndOf(l, b)]), EntrySet(h + p) + EntrySet(after), Recovered(db, l, a, b), EndOf(l, b));
  }

  lemma SameReadsSwap(a: set<Entry>, b: set<Entry>, c: set<Entry>, p: nat)
    requires SameReads(b, c, p)
    ensures SameReads(a, b, p) <==> SameReads(a, c, p)
  {
    if SameReads(a, b, p) {
      SameReadsTrans(a, b, c, p);
    }
    if SameReads(a, c, p) {
      SameReadsTrans(a, c, b, p);
    }
  }

  lemma GapParts(db: DB, g: seq<Entry>, lost: seq<Entry>, after: seq<Entry>, rest: seq<Entry>)
    requires Numbered1(db.history) && db.history == g + lost + (after + rest)
    ensures Newer(EntrySet(lost), EntrySet(g)) && Newer(EntrySet(after), EntrySet(g) + EntrySet(lost))
    ensures Distinct(EntrySet(g)) && Distinct(EntrySet(lost))
    ensures forall e :: e in EntrySet(g) + EntrySet(lost) + EntrySet(after) ==> e.seqno <= |g| + |lost| + |after|
  {
    hide EntrySet, Newer, Distinct, Numbered1;
    assert db.history[..|g|] == g && lost <= db.history[|g|..];
    assert db.history[..|g + lost|] == g + lost && after <= db.history[|g + lost|..];
    PartNewer(db, |g|, lost, EntrySet(g));
    HistAppend(g, lost);
    PartNewer(db, |g + lost|, after, EntrySet(g) + EntrySet(lost));
    HistDistinct(db);
    AllIn(db.history, g, lost, after, rest);
    SubDistinct(EntrySet(g), Hist(db));
    SubDistinct(EntrySet(lost), Hist(db));
    var n := |g| + |lost| + |after|;
    assert g + lost + (after + rest) == (g + lost + after) + rest;
    assert db.history[..n] == g + lost + after;
    PrefixNumbers(db.history, n);
    HistAppend(g + lost, after);
  }

  lemma AllIn(h: seq<Entry>, g: seq<Entry>, lost: seq<Entry>, after: seq<Entry>, rest: seq<Entry>)
    requires h == g + lost + (after + rest)
    ensures EntrySet(g) <= EntrySet(h) && EntrySet(lost) <= EntrySet(h)
  {}

  lemma PrefixNumbers(h: seq<Entry>, n: nat)
    requires Numbered1(h) && n <= |h|
    ensures forall e :: e in EntrySet(h[..n]) ==> e.seqno <= n
  {}

  /** Without the lost writes: the files and what is left of both logs read as the writes they are. */
  lemma RecoveredReads(db: DB, l: Logs, a: nat, b: nat)
    requires Inv(db) && Recoverable(db, l) && Crash(l, a, b)
    ensures l.flushed <= |db.history|
    ensures SameReads(EntrySet(db.history[..l.flushed] + Joined(l.prev[..a])) + EntrySet(Joined(l.cur[..b])), Recovered(db, l, a, b), EndOf(l, b))
  {
    hide SameReads, VersionEntries, Valid, FreshNumber, Sorted, SnapshotsOk, MemoryNewer, Joined, EntrySet, Newer, Store, Numbered1;
    InvNumbered(db);
    CoversBound(db, l);
    var h, p, c := db.history[..l.flushed], Joined(l.prev[..a]), Joined(l.cur[..b]);
    var m, lost, rest := l.flushed + |p|, Joined(l.prev[a..]), Joined(l.cur[b..]);
    HistoryParts(db, l, a, b);
    PartReads(db, l.flushed, VersionEntries(db.version), p);
    GapParts(db, h + p, lost, c, rest);
    AfterGap(EntrySet(h + p), EntrySet(lost), EntrySet(c), VersionEntries(db.version) + EntrySet(p), m, EndOf(l, b));
    assert Recovered(db, l, a, b) == VersionEntries(db.version) + EntrySet(p) + EntrySet(c);
  }

  /** The history: what is in files, what is left and lost of the old log, what is left and lost of the current one. */
  lemma HistoryParts(db: DB, l: Logs, a: nat, b: nat)
    requires Covers(db, l) && a <= |l.prev| && b <= |l.cur|
    ensures var h, p, lost, c, rest :=
        db.history[..l.flushed], Joined(l.prev[..a]), Joined(l.prev[a..]), Joined(l.cur[..b]), Joined(l.cur[b..]);
      db.history == (h + p) + lost + (c + rest) && p <= db.history[l.flushed..] && |Joined(l.prev)| == |p| + |lost|
  {
    hide Joined, EntrySet;
    JoinedSplit(l.prev, a);
    JoinedSplit(l.cur, b);
    TailStarts(db.history, l.flushed, Joined(l.prev), Joined(l.cur));
    var h, p, lost, c, rest :=
      db.history[..l.flushed], Joined(l.prev[..a]), Joined(l.prev[a..]), Joined(l.cur[..b]), Joined(l.cur[b..]);
    Regroup(h, p, lost, c, rest);
    assert db.history[l.flushed..] == p + (lost + (c + rest));
  }

  lemma Regroup(h: seq<Entry>, p: seq<Entry>, lost: seq<Entry>, c: seq<Entry>, rest: seq<Entry>)
    ensures h + ((p + lost) + (c + rest)) == (h + p) + lost + (c + rest)
    ensures (p + lost) + (c + rest) == p + (lost + (c + rest))
  {}

  lemma AfterGap(before: set<Entry>, lost: set<Entry>, after: set<Entry>, files: set<Entry>, m: nat, p: nat)
    requires Newer(after, before + lost) && files <= before && SameReads(before, files, m) && m <= p
    ensures SameReads(before + after, files + after, p)
  {
    hide SameReads, Newer;
    NewerSub(after, before + lost, before);
    NewerSub(after, before + lost, files);
    SameReadsExtend(before, files, after, m);
    SameReadsLater(before + after, files + after, m, p);
  }

  /** Two sets of entries that answer every key alike at s. */
  ghost predicate ReadAlike(a: set<Entry>, b: set<Entry>, s: nat) {
    forall k: UserKey, r: Answer :: ReadIs(a, k, s, r) <==> ReadIs(b, k, s, r)
  }

  /** A lost put whose key is written nowhere else, and a key found although all its writes are later: no prefix
      of the history reads like that. */
  lemma ReadsAsNoPrefix(db: DB, l: Logs, a: nat, b: nat, x: Entry, k: UserKey, v: Value, s: nat)
    requires Inv(db) && Recoverable(db, l) && Crash(l, a, b) && s >= |db.history|
    requires x in db.history && x.kind.Put? && x.seqno > l.flushed && x !in Left(l, a, b)
    requires forall e :: e in db.history && e.key == x.key ==> e == x
    requires forall e :: e in db.history && e.key == k ==> e.seqno > x.seqno
    requires ReadIs(Recovered(db, l, a, b), k, s, Found(v))
    ensures forall q :: 0 <= q <= |db.history| ==> !ReadAlike(EntrySet(db.history[..q]), Recovered(db, l, a, b), s)
  {
    hide SameReads, Valid, FreshNumber, Sorted, SnapshotsOk, MemoryNewer, Joined, Store, VersionEntries, Left;
    InvNumbered(db);
    CoversBound(db, l);
    LeftInHistory(db, l, a, b);
    LostKeyGone(db, l, a, b, x, s);
    forall q | 0 <= q <= |db.history| ensures !ReadAlike(EntrySet(db.history[..q]), Recovered(db, l, a, b), s) {
      if x in db.history[..q] {
        PutShows(db, q, x, s);
      } else {
        EarlierPrefix(db, q, x, k, v, s);
      }
    }
  }

  lemma LostKeyGone(db: DB, l: Logs, a: nat, b: nat, x: Entry, s: nat)
    requires Numbered1(db.history) && Recoverable(db, l) && a <= |l.prev| && b <= |l.cur| && x.seqno > l.flushed && x !in Left(l, a, b)
    requires forall e :: e in Left(l, a, b) ==> e in db.history
    requires forall e :: e in db.history && e.key == x.key ==> e == x
    ensures ReadIs(Recovered(db, l, a, b), x.key, s, NotFound)
  {
    hide SameReads, VersionEntries, Left, Joined;
    FlushedNumbers(db, l);
    forall e | e in Recovered(db, l, a, b) ensures e.key != x.key {
      if e in VersionEntries(db.version) {
        assert e in EntrySet(db.history[..l.flushed]);
        assert e in db.history;
      }
    }
  }

  lemma PutShows(db: DB, q: nat, x: Entry, s: nat)
    requires Numbered1(db.history) && q <= |db.history| <= s && x in db.history[..q] && x.kind.Put?
    requires forall e :: e in db.history && e.key == x.key ==> e == x
    ensures !ReadIs(EntrySet(db.history[..q]), x.key, s, NotFound)
  {
    var es := EntrySet(db.history[..q]);
    PrefixNumbers(db.history, q);
    assert Visible(x, x.key, s);
    assert forall e :: e in es ==> e in db.history;
  }

  lemma EarlierPrefix(db: DB, q: nat, x: Entry, k: UserKey, v: Value, s: nat)
    requires Numbered1(db.history) && q <= |db.history| && x in db.history && x !in db.history[..q]
    requires forall e :: e in db.history && e.key == k ==> e.seqno > x.seqno
    ensures !ReadIs(EntrySet(db.history[..q]), k, s, Found(v))
  {
    NotInPrefix(db.history, q, x);
    PrefixNumbers(db.history, q);
    assert forall e :: e in EntrySet(db.history[..q]) ==> e in db.history && e.key != k;
  }

  lemma NotInPrefix(h: seq<Entry>, q: nat, x: Entry)
    requires Numbered1(h) && q <= |h| && x in h && x !in h[..q]
    ensures x.seqno > q
  {
    assert h == h[..q] + h[q..];
    InTail(h, q, h[q..], x);
  }

  // ----- A write can be lost before a synced one -----

  /** One write that is not synced, a memtable switch, and one write that is: a crash can keep the second and
      lose the first, and then the database reads as no prefix of the history does. */
  lemma LostBeforeSynced() returns (states: seq<DB>, events: seq<Event>)
    ensures IsLogged(states, events) && |events| == 3 && |states[3].history| == 2
    ensures events[0] == Group([GroupCommit.PutOp(1.0, "a")], false) && events[2] == Group([GroupCommit.PutOp(2.0, "b")], true)
    ensures var l := RunLogs(states, events, 3);
      && Crash(l, 0, 1)
      && ReadIs(Recovered(states[3], l, 0, 1), 1.0, 2, NotFound) && ReadIs(Recovered(states[3], l, 0, 1), 2.0, 2, Found("b"))
    ensures forall p :: 0 <= p <= 2 ==>
      !(ReadIs(EntrySet(states[3].history[..p]), 1.0, 2, NotFound) && ReadIs(EntrySet(states[3].history[..p]), 2.0, 2, Found("b")))
  {
    var x, y := Entry(1.0, 1, Put, "a"), Entry(2.0, 2, Put, "b");
    var db0 := DB([], [], None, seq(NUM_LEVELS, _ => []), [], 1);
    var db1 := db0.(history := [x], mem := [x]);
    var db2 := db1.(mem := [], imm := Some([x]));
    var db3 := db2.(history := [x, y], mem := [y]);
    states := [db0, db1, db2, db3];
    events := [Group([GroupCommit.PutOp(1.0, "a")], false), Other(SwitchMemTable), Group([GroupCommit.PutOp(2.0, "b")], true)];
    assert GroupCommit.Stamp([GroupCommit.PutOp(1.0, "a")], 1) == [x];
    assert GroupCommit.Stamp([GroupCommit.PutOp(2.0, "b")], 2) == [y];
    assert EventAt(db0, events[0], db1) by { assert EntrySet([x]) == EntrySet([]) + EntrySet([x]); }
    assert EventAt(db2, events[2], db3) by { assert EntrySet([y]) == EntrySet([]) + EntrySet([y]); }
    var l := RunLogs(states, events, 3);
    ExampleLogs(states, events);
    ExampleReads(db3, l, x, y);
  }

  lemma ExampleLogs(states: seq<DB>, events: seq<Event>)
    requires |states| == 4 && |events| == 3 && states[0].history == [] && |states[2].history| == 1
    requires events[0] == Group([GroupCommit.PutOp(1.0, "a")], false) && events[1] == Other(SwitchMemTable)
    requires events[2] == Group([GroupCommit.PutOp(2.0, "b")], true)
    ensures RunLogs(states, events, 3) ==
      Logs(0, [GroupCommit.Record(1, [GroupCommit.PutOp(1.0, "a")])], 0, [GroupCommit.Record(2, [GroupCommit.PutOp(2.0, "b")])], 1)
  {
    assert RunLogs(states, events, 1) == Logs(0, [], 0, [GroupCommit.Record(1, [GroupCommit.PutOp(1.0, "a")])], 0);
    assert RunLogs(states, events, 2) == Logs(0, [GroupCommit.Record(1, [GroupCommit.PutOp(1.0, "a")])], 0, [], 0);
  }

  lemma ExampleReads(db: DB, l: Logs, x: Entry, y: Entry)
    requires x == Entry(1.0, 1, Put, "a") && y == Entry(2.0, 2, Put, "b") && db.history == [x, y] && db.version == seq(NUM_LEVELS, _ => [])
    requires l == Logs(0, [GroupCommit.Record(1, [GroupCommit.PutOp(1.0, "a")])], 0, [GroupCommit.Record(2, [GroupCommit.PutOp(2.0, "b")])], 1)
    ensures ReadIs(Recovered(db, l, 0, 1), 1.0, 2, NotFound) && ReadIs(Recovered(db, l, 0, 1), 2.0, 2, Found("b"))
    ensures forall p :: 0 <= p <= 2 ==>
      !(ReadIs(EntrySet(db.history[..p]), 1.0, 2, NotFound) && ReadIs(EntrySet(db.history[..p]), 2.0, 2, Found("b")))
  {
    assert VersionEntries(db.version) == {} by {
      forall e ensures e !in VersionEntries(db.version) {}
    }
    assert l.prev[..0] == [] && l.cur[..1] == l.cur;
    assert l.cur[..0] == [];
    assert Joined(l.cur) == Joined([]) + Stamped(l.cur[0]) == [y];
    hide VersionEntries, Joined;
    NothingJoined();
    var rec := Recovered(db, l, 0, 1);
    assert rec == {y};
    assert IsNewest(rec, 2.0, 2, y);
    forall p | 0 <= p <= 2
      ensures !(ReadIs(EntrySet(db.history[..p]), 1.0, 2, NotFound) && ReadIs(EntrySet(db.history[..p]), 2.0, 2, Found("b")))
    {
      ExamplePrefix(db.history, x, y, p);
    }
  }

  lemma ExamplePrefix(h: seq<Entry>, x: Entry, y: Entry, p: nat)
    requires x == Entry(1.0, 1, Put, "a") && y == Entry(2.0, 2, Put, "b") && h == [x, y] && p <= 2
    ensures ReadIs(EntrySet(h[..p]), 2.0, 2, Found("b")) ==> !ReadIs(EntrySet(h[..p]), 1.0, 2, NotFound)
  {
    var es := EntrySet(h[..p]);
    if ReadIs(es, 2.0, 2, Found("b")) {
      assert y in es;
      assert p == 2;
      assert h[0] == x && x in es && Visible(x, 1.0, 2);
    }
  }

  // ----- The log that group commit writes -----

  /** The group a leader finishes, as an event of the database; nothing for a writer without a batch. */
  ghost function EventsOf(s: GroupCommit.State, step: GroupCommit.Step): seq<Event> {
    if step.Finish? && s.phase.Finishing? && s.phase.n <= |s.queue| && s.queue != [] && s.queue[0].batch.Some?
    then [Group(GroupCommit.AllOps(s.queue[..s.phase.n]), s.queue[0].sync)] else []
  }

  ghost function GroupEvents(states: seq<GroupCommit.State>, steps: seq<GroupCommit.Step>, n: nat): seq<Event>
    requires n <= |steps| < |states|
  {
    if n == 0 then [] else GroupEvents(states, steps, n - 1) + EventsOf(states[n - 1], steps[n - 1])
  }

  /** The log of a database that had `base` writes before these events. */
  ghost function LogOf(base: nat, events: seq<Event>): Logs {
    if events == [] then Logs(0, [], 0, [], 0)
    else
      var l, e := LogOf(base, events[..|events| - 1]), events[|events| - 1];
      if e.Other? then l
      else
        var cur := l.cur + [GroupCommit.Record(base + |Joined(l.cur)| + 1, e.ops)];
        l.(cur := cur, curSynced := if e.sync then |cur| else l.curSynced)
  }

  lemma LogOfNext(base: nat, events: seq<Event>, e: Event)
    requires e.Group?
    ensures var l := LogOf(base, events);
      var cur := l.cur + [GroupCommit.Record(base + |Joined(l.cur)| + 1, e.ops)];
      LogOf(base, events + [e]) == l.(cur := cur, curSynced := if e.sync then |cur| else l.curSynced)
  {
    hide Joined;
    assert (events + [e])[..|events|] == events;
  }

  /** A step that is reported to have gone well. */
  predicate WentWell(step: GroupCommit.Step) { !step.NoRoom? && (step.Append? ==> step.ok) && (step.Sync? ==> step.ok) }

  /** The log is that of the finished groups, with the record of the leader's group behind it once it is written. */
  ghost predicate LogIs(s: GroupCommit.State, base: nat, events: seq<Event>) {
    var l := LogOf(base, events);
    && s.last == base + |Joined(l.cur)| && Joined(l.cur) == GroupCommit.Applied(s.finished)
    && !s.phase.Refused? && (s.phase.Finishing? ==> s.phase.ok)
    && (if Unlogged(s) then s.log == l.cur && s.durable == l.curSynced
        else
          && s.phase.n <= |s.queue| && s.queue != [] && s.queue[0].batch.Some?
          && s.log == l.cur + [GroupCommit.Record(s.last + 1, GroupCommit.AllOps(s.queue[..s.phase.n]))]
          && s.durable == if s.queue[0].sync && !s.phase.Syncing? then |s.log| else l.curSynced)
  }

  /** No group of the leader is in the log: there is none yet, or its writer had no batch. */
  ghost predicate Unlogged(s: GroupCommit.State) {
    s.phase.Idle? || s.phase.Refused? || s.phase.Logging? || (s.phase.Finishing? && (s.queue == [] || s.queue[0].batch.None?))
  }

  lemma FinishLog(s: GroupCommit.State, s': GroupCommit.State, base: nat, events: seq<Event>)
    requires GroupCommit.Inv(s, base) && LogIs(s, base, events) && s.phase.Finishing? && GroupCommit.Next(s, GroupCommit.Finish, s')
    ensures LogIs(s', base, events + EventsOf(s, GroupCommit.Finish))
  {
    hide GroupCommit.Applied, GroupCommit.Contiguous, GroupCommit.Fair, GroupCommit.Fates, GroupCommit.AllOps, GroupCommit.Stamp, Joined, LogOf,
      GroupCommit.Writers;
    var n, l := s.phase.n, LogOf(base, events);
    var ops := GroupCommit.AllOps(s.queue[..n]);
    GroupCommit.FatesApplied(s.finished, s.queue[..n], s.last + 1, true);
    if s.queue[0].batch.Some? {
      LogOfNext(base, events, Group(ops, s.queue[0].sync));
      JoinedNext(l.cur, GroupCommit.Record(s.last + 1, ops));
    } else {
      NoOps(s.queue);
      assert events + [] == events;
      assert GroupCommit.Applied(s.finished) + [] == GroupCommit.Applied(s.finished);
    }
  }

  lemma NoOps(queue: seq<GroupCommit.Writer>)
    requires queue != [] && queue[0].batch.None?
    ensures GroupCommit.AllOps(queue[..1]) == [] && GroupCommit.Stamp([], 1) == []
  {
    assert queue[..1][..0] == [];
  }

  lemma StepLog(s: GroupCommit.State, step: GroupCommit.Step, s': GroupCommit.State, base: nat, events: seq<Event>)
    requires GroupCommit.Inv(s, base) && LogIs(s, base, events) && WentWell(step) && GroupCommit.Next(s, step, s')
    ensures LogIs(s', base, events + EventsOf(s, step))
  {
    hide GroupCommit.Applied, GroupCommit.Contiguous, GroupCommit.Fair, GroupCommit.Fates, GroupCommit.AllOps, GroupCommit.Stamp, Joined, LogOf,
      GroupCommit.Writers, GroupCommit.IsGroup;
    assert events + [] == events;
    match step
    case Enqueue(w) =>
      assert s.phase.Logging? || s.phase.Syncing? || s.phase.Inserting? || s.phase.Finishing? ==>
        s.phase.n <= |s.queue| && s'.queue[..s.phase.n] == s.queue[..s.phase.n];
    case Finish => FinishLog(s, s', base, events);
    case _ =>
  }

  /** On every run of group commit on which all goes well, the log between two groups is the log of the finished
      groups, synced up to the last group that asked for it, and its writes are those applied to the memtable. */
  lemma {:induction false} GroupsLogged(states: seq<GroupCommit.State>, steps: seq<GroupCommit.Step>, n: nat)
    requires GroupCommit.IsRun(states, steps) && n < |states| && forall i :: 0 <= i < n ==> WentWell(steps[i])
    ensures n <= |steps| < |states| && LogIs(states[n], states[0].last, GroupEvents(states, steps, n))
    ensures states[n].phase.Idle? ==>
      var l := LogOf(states[0].last, GroupEvents(states, steps, n));
      states[n].log == l.cur && states[n].durable == l.curSynced && Joined(l.cur) == states[n].mem
  {
    hide GroupCommit.Next, LogOf, Joined, EventsOf, GroupCommit.Applied, GroupCommit.Contiguous, GroupCommit.Fair;
    GroupCommit.RunInv(states, steps, n);
    if n == 0 {
      NoGroups(states[0]);
    } else {
      GroupsLogged(states, steps, n - 1);
      GroupCommit.RunInv(states, steps, n - 1);
      StepLog(states[n - 1], steps[n - 1], states[n], states[0].last, GroupEvents(states, steps, n - 1));
    }
  }

  lemma NoGroups(s: GroupCommit.State)
    requires GroupCommit.Start(s)
    ensures LogIs(s, s.last, [])
  {}

  lemma NothingLogged(base: nat) ensures LogOf(base, []) == Logs(0, [], 0, [], 0) {}

  /** Groups committed one after the other, from the start or from a memtable switch on, leave the database's
      logs with that log as the current one. */
  lemma {:induction false} GroupsInRun(states: seq<DB>, events: seq<Event>, k: nat, n: nat)
    requires IsLogged(states, events) && k <= n < |states| && RunLogs(states, events, k).cur == []
    requires RunLogs(states, events, k).curSynced == 0 && forall i :: k <= i < n ==> events[i].Group?
    ensures var l, now := LogOf(|states[k].history|, events[k..n]), RunLogs(states, events, n);
      now.cur == l.cur && now.curSynced == l.curSynced && |states[n].history| == |states[k].history| + |Joined(l.cur)|
    decreases n
  {
    hide Joined, EventAt, GroupCommit.Stamp, LogOf;
    if n == k {
      NothingJoined();
      NothingLogged(|states[k].history|);
      assert events[k..n] == [];
    } else {
      GroupsInRun(states, events, k, n - 1);
      var e := events[n - 1];
      assert events[k..n] == events[k..n - 1] + [e];
      LogOfNext(|states[k].history|, events[k..n - 1], e);
      var l := LogOf(|states[k].history|, events[k..n - 1]);
      JoinedNext(l.cur, GroupCommit.Record(|states[k].history| + |Joined(l.cur)| + 1, e.ops));
      assert EventAt(states[n - 1], e, states[n]);
      HistoryGrows(states[n - 1], e, states[n]);
    }
  }

  /** The log group commit writes is the log the database recovers from: where the groups since a memtable switch
      are those of a run of group commit, the current log is that run's, record by record, and as much of it is
      synced. */
  lemma GroupCommitsLog(states: seq<DB>, events: seq<Event>, k: nat, n: nat,
                        gs: seq<GroupCommit.State>, steps: seq<GroupCommit.Step>, m: nat)
    requires IsLogged(states, events) && k <= n < |states| && n <= |events|
    requires RunLogs(states, events, k).cur == [] && RunLogs(states, events, k).curSynced == 0
    requires GroupCommit.IsRun(gs, steps) && m < |gs| && m <= |steps| < |gs| && gs[m].phase.Idle? && gs[0].last == |states[k].history|
    requires (forall i :: 0 <= i < m ==> WentWell(steps[i])) && events[k..n] == GroupEvents(gs, steps, m)
    ensures RunLogs(states, events, n).cur == gs[m].log && RunLogs(states, events, n).curSynced == gs[m].durable
    ensures |states[n].history| == gs[m].last
  {
    hide IsLogged, GroupCommit.IsRun, RunLogs, LogOf, Joined, LogIs;
    GroupsLogged(gs, steps, m);
    LastIs(gs[m], gs[0].last, GroupEvents(gs, steps, m));
    forall i | k <= i < n ensures events[i].Group? {
      assert events[k..n][i - k] == events[i];
      OnlyGroups(gs, steps, m, events[i]);
    }
    GroupsInRun(states, events, k, n);
  }

  lemma LastIs(s: GroupCommit.State, base: nat, events: seq<Event>)
    requires LogIs(s, base, events)
    ensures s.last == base + |Joined(LogOf(base, events).cur)|
  {}

  lemma {:induction false} OnlyGroups(gs: seq<GroupCommit.State>, steps: seq<GroupCommit.Step>, m: nat, e: Event)
    requires m <= |steps| < |gs| && e in GroupEvents(gs, steps, m)
    ensures e.Group?
  {
    if m > 0 && e in GroupEvents(gs, steps, m - 1) {
      OnlyGroups(gs, steps, m - 1, e);
    }
  }
}
