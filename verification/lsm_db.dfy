/** The database as a state machine: writes, memtable switches, flushes, compactions, trivial moves
    and snapshots, against the history of everything ever written. */
module Database {
  import opened Wrappers
  import opened Entries
  import opened Files
  import opened Inputs
  import opened Versions
  import opened Compactions
  import opened Steps

  /** `history[i]` is the write with sequence number i + 1; `snapshots` are in order of creation. */
  datatype DB = DB(
    history: seq<Entry>,
    mem: seq<Entry>,
    imm: Option<seq<Entry>>,
    version: Version,
    snapshots: seq<nat>,
    nextFile: nat)

  ghost function Hist(db: DB): set<Entry> { EntrySet(db.history) }

  ghost function ImmSet(db: DB): set<Entry> { if db.imm.Some? then EntrySet(db.imm.value) else {} }

  /** Everything still stored, in memory or in files. */
  ghost function Store(db: DB): set<Entry> { EntrySet(db.mem) + ImmSet(db) + VersionEntries(db.version) }

  /** The smallest snapshot a compaction has to respect. */
  function Oldest(db: DB): nat { if db.snapshots == [] then |db.history| else db.snapshots[0] }

  // ----- Steps -----

  datatype Step =
    | Write(batch: seq<Entry>)
    | SwitchMemTable
    | FlushEmpty
    | Flush(at: nat, file: File)
    | Compact(level: nat, in0: seq<File>, in1: seq<File>, input: seq<Entry>, outs: seq<File>)
    | TrivialMove(level: nat, moved: File)
    | TakeSnapshot
    | ReleaseSnapshot(index: nat)

  /** A batch gets the sequence numbers following the last one. */
  ghost predicate Batch(db: DB, batch: seq<Entry>) {
    forall i :: 0 <= i < |batch| ==> batch[i].seqno == |db.history| + i + 1
  }

  ghost predicate Next(db: DB, step: Step, db': DB) {
    match step
    case Write(batch) =>
      && Batch(db, batch) && |db.history| + |batch| < MAX_SEQUENCE
      && Sorted(db'.mem) && EntrySet(db'.mem) == EntrySet(db.mem) + EntrySet(batch)
      && db' == db.(history := db.history + batch, mem := db'.mem)
    case SwitchMemTable =>
      db.imm.None? && db' == db.(mem := [], imm := Some(db.mem))
    case FlushEmpty =>
      db.imm == Some([]) && db' == db.(imm := None)
    case Flush(at, f) =>
      && db.imm == Some(f.entries) && f.number == db.nextFile
      && Placeable(db.version, f, at) && Added(db.version, db'.version, at, f)
      && db' == db.(imm := None, version := db'.version, nextFile := db.nextFile + 1)
    case Compact(level, in0, in1, input, outs) =>
      && CompactionOk(db.version, level, in0, in1)
      && Sorted(input) && EntrySet(input) == InputEntries(in0, in1)
      && Flatten(outs) == Kept(db.version, level, input, Oldest(db), |input|) && Numbered(outs, db.nextFile)
      && Replaced(db.version, db'.version, level, in0, in1, outs)
      && db' == db.(version := db'.version, nextFile := db.nextFile + |outs|)
    case TrivialMove(level, f) =>
      && CompactionOk(db.version, level, [f], [])
      && Replaced(db.version, db'.version, level, [f], [], [f])
      && db' == db.(version := db'.version)
    case TakeSnapshot =>
      db' == db.(snapshots := db.snapshots + [|db.history|])
    case ReleaseSnapshot(i) =>
      i < |db.snapshots| && db' == db.(snapshots := db.snapshots[..i] + db.snapshots[i + 1..])
  }

  ghost predicate Start(db: DB) {
    db.history == [] && db.mem == [] && db.imm.None? && db.snapshots == [] && db.version == seq(NUM_LEVELS, _ => [])
  }

  // ----- The invariant -----

  ghost predicate Numbered1(history: seq<Entry>) {
    |history| < MAX_SEQUENCE && forall i :: 0 <= i < |history| ==> history[i].seqno == i + 1
  }

  ghost predicate SnapshotsOk(snapshots: seq<nat>, last: nat) {
    && (forall i, j :: 0 <= i < j < |snapshots| ==> snapshots[i] <= snapshots[j])
    && forall i :: 0 <= i < |snapshots| ==> snapshots[i] <= last
  }

  ghost predicate MemoryNewer(db: DB) {
    && Newer(EntrySet(db.mem), ImmSet(db))
    && Newer(EntrySet(db.mem), VersionEntries(db.version))
    && Newer(ImmSet(db), VersionEntries(db.version))
  }

  ghost predicate Inv(db: DB) {
    && Valid(db.version) && FreshNumber(db.version, db.nextFile)
    && Sorted(db.mem) && (db.imm.Some? ==> Sorted(db.imm.value))
    && Numbered1(db.history) && SnapshotsOk(db.snapshots, |db.history|) && MemoryNewer(db)
    && Store(db) <= Hist(db)
    && SameReads(Hist(db), Store(db), Oldest(db))
  }

  lemma HistSeqnos(db: DB, e: Entry)
    requires Numbered1(db.history) && e in Hist(db)
    ensures 1 <= e.seqno <= |db.history| < MAX_SEQUENCE && db.history[e.seqno - 1] == e
  {}

  lemma HistDistinct(db: DB)
    requires Numbered1(db.history)
    ensures Distinct(Hist(db))
  {
    forall x, y | x in Hist(db) && y in Hist(db) && x.key == y.key && Tag(x) == Tag(y) ensures x == y {
      HistSeqnos(db, x);
      HistSeqnos(db, y);
    }
  }

  lemma SubDistinct(a: set<Entry>, b: set<Entry>) requires a <= b && Distinct(b) ensures Distinct(a) {}

  lemma SameReadsTrans(a: set<Entry>, b: set<Entry>, c: set<Entry>, oldest: nat)
    requires SameReads(a, b, oldest) && SameReads(b, c, oldest)
    ensures SameReads(a, c, oldest)
  {}

  lemma SameReadsLater(a: set<Entry>, b: set<Entry>, oldest: nat, later: nat)
    requires SameReads(a, b, oldest) && oldest <= later
    ensures SameReads(a, b, later)
  {}

  // ----- Writes -----

  lemma ReadExtend(a: set<Entry>, n: set<Entry>, k: UserKey, s: nat, r: Answer)
    requires Newer(n, a)
    ensures ReadIs(a + n, k, s, r) <==> if NoneVisible(n, k, s) then ReadIs(a, k, s, r) else ReadIs(n, k, s, r)
  {
    if NoneVisible(n, k, s) {
      forall e ensures IsNewest(a + n, k, s, e) <==> IsNewest(a, k, s, e) {}
    } else {
      var top := NewestExists(n, k, s);
      forall e ensures IsNewest(a + n, k, s, e) <==> IsNewest(n, k, s, e) {}
    }
  }

  lemma SameReadsExtend(a: set<Entry>, b: set<Entry>, n: set<Entry>, oldest: nat)
    requires SameReads(a, b, oldest) && Newer(n, a) && Newer(n, b)
    ensures SameReads(a + n, b + n, oldest)
  {
    forall k: UserKey, s: nat, r: Answer | s >= oldest ensures ReadIs(a + n, k, s, r) <==> ReadIs(b + n, k, s, r) {
      ReadExtend(a, n, k, s, r);
      ReadExtend(b, n, k, s, r);
    }
  }

  lemma BatchNewer(db: DB, batch: seq<Entry>, a: set<Entry>)
    requires Numbered1(db.history) && Batch(db, batch) && a <= Hist(db)
    ensures Newer(EntrySet(batch), a)
  {
    forall x, y | x in batch && y in a ensures Tag(x) > Tag(y) {
      HistSeqnos(db, y);
    }
  }

  lemma HistAppend(h: seq<Entry>, batch: seq<Entry>)
    ensures EntrySet(h + batch) == EntrySet(h) + EntrySet(batch)
  {}

  lemma NewerUnion(a: set<Entry>, b: set<Entry>, c: set<Entry>)
    requires Newer(a, c) && Newer(b, c)
    ensures Newer(a + b, c)
  {}

  lemma NewerSub(a: set<Entry>, b: set<Entry>, c: set<Entry>)
    requires Newer(a, b) && c <= b
    ensures Newer(a, c)
  {}

  lemma WriteMemoryNewer(db: DB, batch: seq<Entry>, db': DB)
    requires MemoryNewer(db) && Newer(EntrySet(batch), Store(db)) && EntrySet(db'.mem) == EntrySet(db.mem) + EntrySet(batch)
    requires db'.imm == db.imm && db'.version == db.version
    ensures MemoryNewer(db')
  {
    hide Newer, EntrySet, VersionEntries;
    NewerSub(EntrySet(batch), Store(db), ImmSet(db));
    NewerSub(EntrySet(batch), Store(db), VersionEntries(db.version));
    NewerUnion(EntrySet(db.mem), EntrySet(batch), ImmSet(db));
    NewerUnion(EntrySet(db.mem), EntrySet(batch), VersionEntries(db.version));
  }

  lemma WriteKeepsInv(db: DB, batch: seq<Entry>, db': DB)
    requires Inv(db) && Next(db, Write(batch), db')
    ensures Inv(db')
  {
    hide Valid, FreshNumber, Sorted, SameReads, VersionEntries, EntrySet;
    var n := EntrySet(batch);
    BatchNewer(db, batch, Hist(db));
    BatchNewer(db, batch, Store(db));
    SameReadsExtend(Hist(db), Store(db), n, Oldest(db));
    assert Hist(db') == Hist(db) + n by { HistAppend(db.history, batch); }
    assert Store(db') == Store(db) + n;
    assert MemoryNewer(db') by { WriteMemoryNewer(db, batch, db'); }
    SameReadsLater(Hist(db'), Store(db'), Oldest(db), Oldest(db'));
  }

  // ----- Memtable switch and flush -----

  lemma SwitchKeepsInv(db: DB, db': DB)
    requires Inv(db) && Next(db, SwitchMemTable, db')
    ensures Inv(db')
  {
    hide Valid, FreshNumber, Sorted, SameReads, VersionEntries, Numbered1, SnapshotsOk;
    SortedNothing();
    assert Store(db') == Store(db);
  }

  lemma SortedNothing() ensures Sorted([]) {}

  lemma FlushEmptyKeepsInv(db: DB, db': DB)
    requires Inv(db) && Next(db, FlushEmpty, db')
    ensures Inv(db')
  {
    hide Valid, FreshNumber, Sorted, SameReads, VersionEntries, Numbered1, SnapshotsOk;
    assert Store(db') == Store(db);
  }

  lemma FlushedFileOk(db: DB, f: File)
    requires Inv(db) && db.imm == Some(f.entries)
    ensures FileOk(f)
  {
    hide SameReads, Valid, VersionEntries;
    forall i | 0 <= i < |f.entries| ensures f.entries[i].seqno <= MAX_SEQUENCE {
      assert f.entries[i] in ImmSet(db);
      assert f.entries[i] in Store(db);
      HistSeqnos(db, f.entries[i]);
    }
  }

  lemma FlushFresh(db: DB, at: nat, f: File, v': Version)
    requires FreshNumber(db.version, db.nextFile) && f.number == db.nextFile && Added(db.version, v', at, f)
    ensures FreshNumber(v', db.nextFile + 1)
  {
    forall l, g | 0 <= l < |v'| && g in v'[l] ensures g.number < db.nextFile + 1 {
      assert AddedLevel(db.version[l], v'[l], l, at, f);
    }
  }

  lemma FlushKeepsInv(db: DB, at: nat, f: File, db': DB)
    requires Inv(db) && Next(db, Flush(at, f), db')
    ensures Inv(db')
  {
    hide Valid, FreshNumber, Sorted, SameReads, VersionEntries, Numbered1, SnapshotsOk, EntrySet, Placeable, Added, Newer;
    FlushedFileOk(db, f);
    FlushKeepsValid(db.version, db'.version, at, f);
    FlushFresh(db, at, f, db'.version);
    assert Store(db') == Store(db);
    NewerUnionRight(EntrySet(db.mem), VersionEntries(db.version), EntrySet(f.entries));
    NewerNothing(EntrySet(db.mem), VersionEntries(db'.version));
  }

  lemma NewerUnionRight(a: set<Entry>, b: set<Entry>, c: set<Entry>)
    requires Newer(a, b) && Newer(a, c)
    ensures Newer(a, b + c)
  {}

  lemma NewerNothing(a: set<Entry>, b: set<Entry>) ensures Newer(a, {}) && Newer({}, b) {}

  // ----- Compaction -----

  ghost predicate StaysSomewhere(v: Version, e: Entry, level: nat, in0: seq<File>, in1: seq<File>) {
    exists l :: 0 <= l < |v| && StaysEntry(v, l, e, level, in0, in1)
  }

  /** The version's entries that are held by a file that stays. */
  ghost function Staying(v: Version, level: nat, in0: seq<File>, in1: seq<File>): (s: set<Entry>)
    ensures forall e :: e in s <==> StaysSomewhere(v, e, level, in0, in1)
  {
    var s := set e | e in VersionEntries(v) && StaysSomewhere(v, e, level, in0, in1);
    assert forall e :: e in s <==> StaysSomewhere(v, e, level, in0, in1) by {
      forall e | StaysSomewhere(v, e, level, in0, in1) ensures e in VersionEntries(v) {
        var l :| 0 <= l < |v| && StaysEntry(v, l, e, level, in0, in1);
        StaysInLevel(v, l, e, level, in0, in1);
      }
    }
    s
  }

  lemma SplitEntry(v: Version, level: nat, in0: seq<File>, in1: seq<File>, l: nat, f: File, e: Entry)
    requires l < |v| && f in v[l] && e in f.entries
    ensures StaysSomewhere(v, e, level, in0, in1) || e in InputEntries(in0, in1)
  {
    if Removed(l, f, level, in0, in1) {
      assert InFiles(in0, e) || InFiles(in1, e);
    } else {
      assert Stays(v, l, f, level, in0, in1);
      assert StaysEntry(v, l, e, level, in0, in1);
    }
  }

  /** A version's entries are those that stay and those of the inputs. */
  lemma SplitEntries(v: Version, level: nat, in0: seq<File>, in1: seq<File>)
    requires InputsIn(v, level, in0, in1)
    ensures VersionEntries(v) == Staying(v, level, in0, in1) + InputEntries(in0, in1)
  {
    hide VersionEntries, Staying, LevelEntries, Valid, From;
    hide InputsIn, InputEntries, StaysSomewhere, InVersion;
    forall e ensures e in VersionEntries(v) <==> e in Staying(v, level, in0, in1) + InputEntries(in0, in1) {
      SplitOne(v, level, in0, in1, e);
    }
  }

  lemma SplitOne(v: Version, level: nat, in0: seq<File>, in1: seq<File>, e: Entry)
    requires InputsIn(v, level, in0, in1)
    ensures InVersion(v, e) <==> StaysSomewhere(v, e, level, in0, in1) || e in InputEntries(in0, in1)
  {
    hide LevelEntries, InputsIn, StaysEntry;
    InputLevels(v, level, in0, in1);
    InputInLevel(v, level, in0, in1, e);
    if InVersion(v, e) {
      var l :| 0 <= l < |v| && InFiles(v[l], e);
      var f :| f in v[l] && e in f.entries;
      SplitEntry(v, level, in0, in1, l, f, e);
    }
    if StaysSomewhere(v, e, level, in0, in1) {
      var l :| 0 <= l < |v| && StaysEntry(v, l, e, level, in0, in1);
      StaysInLevel(v, l, e, level, in0, in1);
      assert InFiles(v[l], e);
    }
    if e in InputEntries(in0, in1) {
      assert InFiles(v[level], e) || InFiles(v[level + 1], e);
    }
  }

  lemma InputLevels(v: Version, level: nat, in0: seq<File>, in1: seq<File>)
    requires InputsIn(v, level, in0, in1)
    ensures |v| == NUM_LEVELS && level + 1 < |v|
  {}

  lemma CompactionLevels(v: Version, level: nat, in0: seq<File>, in1: seq<File>)
    requires CompactionOk(v, level, in0, in1)
    ensures |v| == NUM_LEVELS && level + 1 < |v|
  {}

  lemma ReplacedVersionEntry(v: Version, v': Version, level: nat, in0: seq<File>, in1: seq<File>, outs: seq<File>, e: Entry)
    requires |v| == NUM_LEVELS && level + 1 < |v| && Replaced(v, v', level, in0, in1, outs)
    ensures InVersion(v', e) <==> StaysSomewhere(v, e, level, in0, in1) || e in Flatten(outs)
  {
    assert |v'| == |v|;
    hide LevelEntries, Replaced, Flatten, StaysEntry;
    if InVersion(v', e) {
      var l :| 0 <= l < |v'| && InFiles(v'[l], e);
      ReplacedEntries(v, v', level, in0, in1, outs, l, e);
    }
    if StaysSomewhere(v, e, level, in0, in1) {
      var l :| 0 <= l < |v| && StaysEntry(v, l, e, level, in0, in1);
      ReplacedEntries(v, v', level, in0, in1, outs, l, e);
      assert InFiles(v'[l], e);
    }
    if e in Flatten(outs) {
      ReplacedEntries(v, v', level, in0, in1, outs, level + 1, e);
      assert InFiles(v'[level + 1], e);
    }
  }

  lemma ReplacedVersionEntries(v: Version, v': Version, level: nat, in0: seq<File>, in1: seq<File>, outs: seq<File>)
    requires InputsIn(v, level, in0, in1) && Replaced(v, v', level, in0, in1, outs)
    ensures VersionEntries(v') == Staying(v, level, in0, in1) + EntrySet(Flatten(outs))
  {
    hide VersionEntries, Staying, InputsIn, Replaced, Flatten, StaysSomewhere, InVersion, EntrySet;
    InputLevels(v, level, in0, in1);
    forall e ensures e in VersionEntries(v') <==> e in Staying(v, level, in0, in1) + EntrySet(Flatten(outs)) {
      ReplacedVersionEntry(v, v', level, in0, in1, outs, e);
    }
  }

  /** A file below the base level of x.key holds no entry of that key. */
  lemma BelowBaseLevel(v: Version, level: nat, in0: seq<File>, in1: seq<File>, l: nat, k: UserKey, y: Entry)
    requires Valid(v) && BaseLevel(v, level, k) && level + 2 <= l < |v| && StaysEntry(v, l, y, level, in0, in1)
    ensures y.key != k
  {
    ValidLevel(v, l);
    hide Valid;
    var f :| Stays(v, l, f, level, in0, in1) && y in f.entries;
    FileOkOf(v[l], f);
    EntryBounds(f, y);
    assert !InRange(f, k);
  }

  /** Nothing that stays in the version is older than a deletion dropped at its base level. */
  lemma StayingNotBelow(v: Version, level: nat, in0: seq<File>, in1: seq<File>, x: Entry, y: Entry)
    requires CompactionOk(v, level, in0, in1) && x in InputEntries(in0, in1) && BaseLevel(v, level, x.key)
    requires StaysSomewhere(v, y, level, in0, in1) && y.key == x.key
    ensures Tag(y) > Tag(x)
  {
    assert Valid(v);
    hide Valid, GoodInputs, BaseLevel, StaysEntry, InputEntries, Tag;
    var l :| 0 <= l < |v| && StaysEntry(v, l, y, level, in0, in1);
    if l <= level + 1 {
      StaysNewer(v, level, in0, in1, l, y, x);
    } else {
      BelowBaseLevel(v, level, in0, in1, l, x.key, y);
    }
  }

  lemma CompactionNothingBelow(db: DB, level: nat, in0: seq<File>, in1: seq<File>, input: seq<Entry>)
    requires CompactionOk(db.version, level, in0, in1) && EntrySet(input) == InputEntries(in0, in1) && MemoryNewer(db)
    requires VersionEntries(db.version) == Staying(db.version, level, in0, in1) + InputEntries(in0, in1)
    ensures NothingBelow(db.version, level, EntrySet(db.mem) + ImmSet(db) + Staying(db.version, level, in0, in1), input, Oldest(db))
  {
    hide VersionEntries, Staying, CompactionOk, InputEntries, Tag, BaseLevel;
    var v := db.version;
    forall x, y | x in input && Obsolete(v, level, x, Oldest(db)) && y in EntrySet(db.mem) + ImmSet(db) + Staying(v, level, in0, in1) && y.key == x.key
      ensures Tag(y) > Tag(x)
    {
      assert x in EntrySet(input);
      assert x in VersionEntries(v);
      if y in Staying(v, level, in0, in1) {
        StayingNotBelow(v, level, in0, in1, x, y);
      }
    }
  }

  lemma KeptOutputsOk(db: DB, level: nat, in0: seq<File>, in1: seq<File>, input: seq<Entry>, outs: seq<File>)
    requires FreshNumber(db.version, db.nextFile) && Sorted(input) && EntrySet(input) == InputEntries(in0, in1)
    requires Flatten(outs) == Kept(db.version, level, input, Oldest(db), |input|) && Numbered(outs, db.nextFile)
    ensures OutputsOk(db.version, level, in0, in1, outs)
  {
    hide Kept, Flatten, InputEntries;
    KeptSorted(db.version, level, input, Oldest(db), |input|);
    assert input[..|input|] == input;
    forall x | x in Flatten(outs) ensures x in InputEntries(in0, in1) {
      assert x in EntrySet(input);
    }
  }

  lemma CompactFresh(db: DB, level: nat, in0: seq<File>, in1: seq<File>, outs: seq<File>, v': Version)
    requires FreshNumber(db.version, db.nextFile) && Numbered(outs, db.nextFile) && Replaced(db.version, v', level, in0, in1, outs)
    ensures FreshNumber(v', db.nextFile + |outs|)
  {
    forall l, g | 0 <= l < |v'| && g in v'[l] ensures g.number < db.nextFile + |outs| {
      assert ReplacedLevel(db.version[l], v'[l], l, level, in0, in1, outs);
    }
  }

  lemma StoreSplit(db: DB, rest: set<Entry>, part: set<Entry>)
    requires VersionEntries(db.version) == rest + part
    ensures Store(db) == (EntrySet(db.mem) + ImmSet(db) + rest) + part
  {}

  lemma MemoryNewerSub(db: DB, db': DB)
    requires MemoryNewer(db) && db'.mem == db.mem && db'.imm == db.imm && VersionEntries(db'.version) <= VersionEntries(db.version)
    ensures MemoryNewer(db')
  {
    hide VersionEntries, EntrySet;
  }

  /** A compaction keeps the invariant: every read at or after the oldest snapshot is unchanged. */
  lemma CompactKeepsInv(db: DB, level: nat, in0: seq<File>, in1: seq<File>, input: seq<Entry>, outs: seq<File>, db': DB)
    requires Inv(db) && Next(db, Compact(level, in0, in1, input, outs), db')
    ensures Inv(db')
  {
    hide Valid, FreshNumber, Sorted, SameReads, VersionEntries, Numbered1, SnapshotsOk, EntrySet, Newer, Distinct,
         CompactionOk, Replaced, Kept, Flatten, Numbered, NothingBelow, Staying, InputEntries, OutputsOk, MemoryNewer, InputsIn;
    var rest := EntrySet(db.mem) + ImmSet(db) + Staying(db.version, level, in0, in1);
    KeptOutputsOk(db, level, in0, in1, input, outs);
    ReplaceKeepsValid(db.version, db'.version, level, in0, in1, outs);
    CompactFresh(db, level, in0, in1, outs, db'.version);
    ChosenIn(db.version, level, in0, in1);
    SplitEntries(db.version, level, in0, in1);
    ReplacedVersionEntries(db.version, db'.version, level, in0, in1, outs);
    StoreSplit(db, Staying(db.version, level, in0, in1), EntrySet(input));
    StoreSplit(db', Staying(db.version, level, in0, in1), EntrySet(Flatten(outs)));
    CompactionNothingBelow(db, level, in0, in1, input);
    HistDistinct(db);
    SubDistinct(Store(db), Hist(db));
    DropKeepsReads(db.version, level, rest, input, Oldest(db));
    SameReadsTrans(Hist(db), Store(db), Store(db'), Oldest(db));
    OutputsAreInputs(db.version, level, in0, in1, input, outs);
    assert VersionEntries(db'.version) <= VersionEntries(db.version);
    MemoryNewerSub(db, db');
  }

  lemma OutputsAreInputs(v: Version, level: nat, in0: seq<File>, in1: seq<File>, input: seq<Entry>, outs: seq<File>)
    requires OutputsOk(v, level, in0, in1, outs) && EntrySet(input) == InputEntries(in0, in1)
    ensures EntrySet(Flatten(outs)) <= EntrySet(input)
  {}

  lemma InputApart(db: DB, input: seq<Entry>)
    requires Numbered1(db.history) && Sorted(input) && EntrySet(input) <= Hist(db)
    ensures OneEach(input)
  {
    forall i, j | 0 <= i < j < |input| && input[i].key == input[j].key ensures input[i].seqno != input[j].seqno {
      assert Before(IKey(input[i]), IKey(input[j]));
      HistSeqnos(db, input[i]);
      HistSeqnos(db, input[j]);
    }
  }

  /** A compaction writes exactly the entries of its inputs that a reader at the first snapshot left, at the last
      number where there is none, or later finds first, without the deletions all of them see and nothing can need. */
  lemma CompactWrites(db: DB, level: nat, in0: seq<File>, in1: seq<File>, input: seq<Entry>, outs: seq<File>, db': DB, e: Entry)
    requires Inv(db) && Next(db, Compact(level, in0, in1, input, outs), db')
    ensures e in Flatten(outs) <==>
      && e in InputEntries(in0, in1)
      && Wanted(db.version, level, InputEntries(in0, in1), if db.snapshots == [] then |db.history| else db.snapshots[0], e)
  {
    hide Valid, FreshNumber, Sorted, SameReads, VersionEntries, Numbered1, SnapshotsOk, Newer, OneEach,
         CompactionOk, Replaced, Kept, Flatten, Numbered, Staying, InputEntries, MemoryNewer, Wanted, InputsIn;
    ChosenIn(db.version, level, in0, in1);
    SplitEntries(db.version, level, in0, in1);
    assert EntrySet(input) <= Hist(db);
    InputApart(db, input);
    KeptWanted(db.version, level, input, Oldest(db));
    assert e in input <==> e in EntrySet(input);
  }

  lemma FlattenOne(f: File) ensures Flatten([f]) == f.entries { assert [f][..0] == []; }

  lemma MoveEntries(f: File)
    ensures forall e :: e in InputEntries([f], []) <==> e in f.entries
  {
    assert f in [f];
  }

  lemma MoveOutputsOk(v: Version, level: nat, f: File)
    requires CompactionOk(v, level, [f], [])
    ensures OutputsOk(v, level, [f], [], [f]) && EntrySet(Flatten([f])) == InputEntries([f], [])
  {
    hide Valid, GoodInputs, InputEntries, Flatten, FilesOk, Disjoint, NumberOrder, Stays;
    MovedFile(v, level, f);
    ValidLevel(v, level);
    FlattenOne(f);
    MoveEntries(f);
    FileOkOf(v[level], f);
    MoveNumbers(v, level, f);
  }

  lemma MovedFile(v: Version, level: nat, f: File)
    requires CompactionOk(v, level, [f], [])
    ensures Valid(v) && level < NUM_LEVELS && |v| == NUM_LEVELS && f in v[level]
  {
    hide LevelOrder, FilesOk, Disjoint, UniqueNumbers, NumberOrder, BoundaryClosed, Convex, TakesOverlap, Anchored, Covers;
    assert f in [f];
  }

  lemma MoveNumbers(v: Version, level: nat, f: File)
    requires Valid(v) && level < |v| && f in v[level]
    ensures forall h, l, g :: h in [f] && Stays(v, l, g, level, [f], []) ==> h.number != g.number
  {
    hide Valid;
    forall l, g | Stays(v, l, g, level, [f], []) ensures f.number != g.number {
      if f.number == g.number {
        MovedNumber(v, level, f, l, g);
      }
    }
  }

  lemma MovedNumber(v: Version, level: nat, f: File, l: nat, g: File)
    requires Valid(v) && level < |v| && f in v[level] && l < |v| && g in v[l] && f.number == g.number
    ensures l == level && g == f
  {
    hide LevelOrder, NumberOrder, FilesOk, Disjoint;
  }

  lemma MoveKeepsInv(db: DB, level: nat, f: File, db': DB)
    requires Inv(db) && Next(db, TrivialMove(level, f), db')
    ensures Inv(db')
  {
    hide Valid, FreshNumber, Sorted, SameReads, VersionEntries, Numbered1, SnapshotsOk, EntrySet, Newer,
         CompactionOk, Replaced, Flatten, Staying, InputEntries, OutputsOk;
    MoveOutputsOk(db.version, level, f);
    ReplaceKeepsValid(db.version, db'.version, level, [f], [], [f]);
    MoveFresh(db, level, f, db'.version);
    ChosenIn(db.version, level, [f], []);
    SplitEntries(db.version, level, [f], []);
    ReplacedVersionEntries(db.version, db'.version, level, [f], [], [f]);
    assert VersionEntries(db'.version) == VersionEntries(db.version);
    assert Store(db') == Store(db);
  }

  lemma MoveFresh(db: DB, level: nat, f: File, v': Version)
    requires FreshNumber(db.version, db.nextFile) && CompactionOk(db.version, level, [f], [])
    requires Replaced(db.version, v', level, [f], [], [f])
    ensures FreshNumber(v', db.nextFile)
  {
    CompactionLevels(db.version, level, [f], []);
    assert f in [f] && f in db.version[level];
    forall l, g | 0 <= l < |v'| && g in v'[l] ensures g.number < db.nextFile {
      assert ReplacedLevel(db.version[l], v'[l], l, level, [f], [], [f]);
    }
  }

  // ----- Snapshots -----

  lemma SnapshotKeepsInv(db: DB, db': DB)
    requires Inv(db) && Next(db, TakeSnapshot, db')
    ensures Inv(db')
  {
    hide Valid, FreshNumber, Sorted, SameReads, VersionEntries, EntrySet, Newer;
    assert Store(db') == Store(db) && Oldest(db') == Oldest(db);
  }

  lemma ReleaseKeepsInv(db: DB, i: nat, db': DB)
    requires Inv(db) && Next(db, ReleaseSnapshot(i), db')
    ensures Inv(db')
  {
    hide Valid, FreshNumber, Sorted, SameReads, VersionEntries, EntrySet, Newer;
    assert Store(db') == Store(db);
    assert Oldest(db) <= Oldest(db');
    SameReadsLater(Hist(db), Store(db), Oldest(db), Oldest(db'));
  }

  // ----- Runs -----

  lemma StepKeepsInv(db: DB, step: Step, db': DB)
    requires Inv(db) && Next(db, step, db')
    ensures Inv(db')
  {
    match step
    case Write(batch) => WriteKeepsInv(db, batch, db');
    case SwitchMemTable => SwitchKeepsInv(db, db');
    case FlushEmpty => FlushEmptyKeepsInv(db, db');
    case Flush(at, f) => FlushKeepsInv(db, at, f, db');
    case Compact(level, in0, in1, input, outs) => CompactKeepsInv(db, level, in0, in1, input, outs, db');
    case TrivialMove(level, f) => MoveKeepsInv(db, level, f, db');
    case TakeSnapshot => SnapshotKeepsInv(db, db');
    case ReleaseSnapshot(i) => ReleaseKeepsInv(db, i, db');
  }

  lemma StartInv(db: DB)
    requires Start(db)
    ensures Inv(db)
  {
    forall a, b | 0 <= a < b < |db.version| ensures Newer(LevelEntries(db.version[a]), LevelEntries(db.version[b])) {
      assert db.version[a] == [];
    }
    assert VersionEntries(db.version) == {} by {
      forall e ensures e !in VersionEntries(db.version) {}
    }
    assert Store(db) == {} && Hist(db) == {};
  }

  /** A run: states[0] is a new database and each state follows from the one before by some step. */
  ghost predicate IsRun(states: seq<DB>, steps: seq<Step>) {
    && |states| == |steps| + 1 && Start(states[0])
    && forall i :: 0 <= i < |steps| ==> Next(states[i], steps[i], states[i + 1])
  }

  lemma {:induction false} RunInv(states: seq<DB>, steps: seq<Step>, n: nat)
    requires IsRun(states, steps) && n < |states|
    ensures Inv(states[n])
  {
    if n == 0 {
      StartInv(states[0]);
    } else {
      RunInv(states, steps, n - 1);
      StepKeepsInv(states[n - 1], steps[n - 1], states[n]);
    }
  }

  // ----- Levels keep their files in order, on every run -----

  ghost predicate LevelsSorted(v: Version) { forall l :: 0 <= l < |v| ==> SortedBySmallest(v[l]) }

  lemma StepKeepsSorted(db: DB, step: Step, db': DB)
    requires Next(db, step, db') && LevelsSorted(db.version)
    ensures LevelsSorted(db'.version)
  {
    hide SortedBySmallest, AddedLevel, ReplacedLevel, CompactionOk, Placeable;
  }

  lemma {:induction false} RunSorted(states: seq<DB>, steps: seq<Step>, n: nat)
    requires IsRun(states, steps) && n < |states|
    ensures LevelsSorted(states[n].version)
  {
    hide Next;
    if n > 0 {
      RunSorted(states, steps, n - 1);
      StepKeepsSorted(states[n - 1], steps[n - 1], states[n]);
    }
  }

  // ----- Reads -----

  /** DBImpl::Get: memtable, then the memtable being flushed, then the files. */
  method Get(db: DB, k: UserKey, s: nat) returns (r: Answer)
    requires Inv(db) && s >= Oldest(db)
    ensures ReadIs(Hist(db), k, s, r)
  {
    hide Valid, FreshNumber, Sorted, VersionEntries, Numbered1, SnapshotsOk, EntrySet;
    var hit := MemGet(db.mem, k, s);
    if hit.Some? {
      StoreHit(db, k, s, hit.value);
      return AnswerOf(hit.value);
    }
    if db.imm.Some? {
      hit := MemGet(db.imm.value, k, s);
      if hit.Some? {
        StoreHit(db, k, s, hit.value);
        return AnswerOf(hit.value);
      }
    }
    r := Versions.Get(db.version, k, s);
    StoreMiss(db, k, s, r);
  }

  /** MemTable::Get: the first entry of the sorted table at or after the sought key. */
  method MemGet(es: seq<Entry>, k: UserKey, s: nat) returns (r: Option<Entry>)
    requires Sorted(es)
    ensures r.None? ==> NoneVisible(EntrySet(es), k, s)
    ensures r.Some? ==> IsNewest(EntrySet(es), k, s, r.value)
  {
    if es == [] {
      return None;
    }
    var i := SeekIndex(es, SeekKey(k, s), 0);
    r := if i < |es| && es[i].key == k then Some(es[i]) else None;
    SeekNewest(es, k, s);
  }

  lemma StoreHit(db: DB, k: UserKey, s: nat, e: Entry)
    requires MemoryNewer(db) && SameReads(Hist(db), Store(db), Oldest(db)) && s >= Oldest(db)
    requires IsNewest(EntrySet(db.mem), k, s, e) || (NoneVisible(EntrySet(db.mem), k, s) && IsNewest(ImmSet(db), k, s, e))
    ensures ReadIs(Hist(db), k, s, AnswerOf(e))
  {
    hide VersionEntries, EntrySet;
    assert IsNewest(Store(db), k, s, e);
    assert ReadIs(Store(db), k, s, AnswerOf(e));
  }

  lemma StoreMiss(db: DB, k: UserKey, s: nat, r: Answer)
    requires SameReads(Hist(db), Store(db), Oldest(db)) && s >= Oldest(db) && ReadIs(VersionEntries(db.version), k, s, r)
    requires NoneVisible(EntrySet(db.mem), k, s) && NoneVisible(ImmSet(db), k, s)
    ensures ReadIs(Hist(db), k, s, r)
  {
    hide VersionEntries, EntrySet;
    if NoneVisible(VersionEntries(db.version), k, s) {
      assert NoneVisible(Store(db), k, s);
    } else {
      var e :| IsNewest(VersionEntries(db.version), k, s, e) && r == AnswerOf(e);
      assert IsNewest(Store(db), k, s, e);
    }
    assert ReadIs(Store(db), k, s, r);
  }

  /** Later writes do not change what a snapshot reads. */
  lemma SnapshotStable(history: seq<Entry>, more: seq<Entry>, k: UserKey, s: nat, r: Answer)
    requires Numbered1(history + more) && s <= |history|
    ensures ReadIs(EntrySet(history + more), k, s, r) <==> ReadIs(EntrySet(history), k, s, r)
  {
    var all := history + more;
    forall e ensures e in EntrySet(all) && e.seqno <= s <==> e in EntrySet(history) && e.seqno <= s {
      if e in EntrySet(all) && e.seqno <= s {
        var i :| 0 <= i < |all| && all[i] == e;
        assert i < |history|;
        assert history[i] == e;
      }
      if e in EntrySet(history) {
        var i :| 0 <= i < |history| && history[i] == e;
        assert all[i] == e;
      }
    }
    SameVisible(EntrySet(all), EntrySet(history), k, s, r);
  }

  lemma SameVisible(a: set<Entry>, b: set<Entry>, k: UserKey, s: nat, r: Answer)
    requires forall e :: e in a && e.seqno <= s <==> e in b && e.seqno <= s
    ensures ReadIs(a, k, s, r) <==> ReadIs(b, k, s, r)
  {
    forall e ensures IsNewest(a, k, s, e) <==> IsNewest(b, k, s, e) {}
  }
}
