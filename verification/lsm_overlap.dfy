/** A compaction that runs while the database goes on: writes, flushes and snapshots between the moment its inputs
    are chosen and the moment its outputs are installed. */
module Overlapped {
  import opened Wrappers
  import opened Entries
  import opened Files
  import opened Inputs
  import opened Versions
  import opened Compactions
  import opened Steps
  import opened Database

  /** The inputs, their merged entries, and the version and the oldest snapshot of the moment they were chosen. */
  datatype Running = Running(level: nat, in0: seq<File>, in1: seq<File>, input: seq<Entry>, base: Version, oldest: nat,
                             numbers: seq<nat>)

  datatype State = State(db: DB, run: Option<Running>)

  /** A step of the others; or the compaction begins, takes a number for its next output, installs its outputs, or
      gives up. */
  datatype Turn =
    | Other(step: Step)
    | Begin(level: nat, in0: seq<File>, in1: seq<File>, input: seq<Entry>)
    | NewNumber
    | Install(outs: seq<File>)
    | GiveUp

  ghost predicate NumberedBy(outs: seq<File>, numbers: seq<nat>) {
    |outs| <= |numbers| && forall i :: 0 <= i < |outs| ==> outs[i].number == numbers[i]
  }

  ghost predicate Turns(s: State, t: Turn, s': State) {
    match t
    case Other(step) =>
      Next(s.db, step, s'.db) && s'.run == s.run && (s.run.Some? ==> !step.Compact? && !step.TrivialMove?)
    case Begin(level, in0, in1, input) =>
      && s.run.None? && CompactionOk(s.db.version, level, in0, in1)
      && Sorted(input) && EntrySet(input) == InputEntries(in0, in1)
      && s' == s.(run := Some(Running(level, in0, in1, input, s.db.version, Oldest(s.db), [])))
    case NewNumber =>
      && s.run.Some? && s'.db == s.db.(nextFile := s.db.nextFile + 1)
      && s'.run == Some(s.run.value.(numbers := s.run.value.numbers + [s.db.nextFile]))
    case Install(outs) =>
      && s.run.Some?
      && (var r := s.run.value;
          && Flatten(outs) == Kept(r.base, r.level, r.input, r.oldest, |r.input|) && NumberedBy(outs, r.numbers)
          && Replaced(s.db.version, s'.db.version, r.level, r.in0, r.in1, outs))
      && s'.db == s.db.(version := s'.db.version) && s'.run.None?
    case GiveUp => s'.db == s.db && s'.run.None?
  }

  // ----- The invariant -----

  /** What stays is newer than any entry the compaction may drop for want of older ones below. */
  ghost predicate DropsSafe(v: Version, r: Running) {
    forall x, y :: MayGo(r, x) && StaysSomewhere(v, y, r.level, r.in0, r.in1) && y.key == x.key ==> Tag(y) > Tag(x)
  }

  ghost predicate MayGo(r: Running, x: Entry) { x in InputEntries(r.in0, r.in1) && BaseLevel(r.base, r.level, x.key) }

  ghost predicate NumbersOk(v: Version, next: nat, ns: seq<nat>) {
    && (forall i, j :: 0 <= i < j < |ns| ==> ns[i] != ns[j])
    && (forall i :: 0 <= i < |ns| ==> ns[i] < next)
    && forall i, l, g :: 0 <= i < |ns| && 0 <= l < |v| && g in v[l] ==> g.number != ns[i]
  }

  /** All inputs lie on one side of g. */
  ghost predicate Aside(g: File, in0: seq<File>, in1: seq<File>) {
    || (forall x :: x in InputEntries(in0, in1) ==> Before(Largest(g), IKey(x)))
    || (forall x :: x in InputEntries(in0, in1) ==> Before(IKey(x), Smallest(g)))
  }

  /** Every file that stays where the outputs go was there before, beside the inputs, or shares no user key with any. */
  ghost predicate Beside(v: Version, r: Running) {
    forall g :: Stays(v, r.level + 1, g, r.level, r.in0, r.in1) ==>
      Aside(g, r.in0, r.in1) || (NoOverlap(r.in0, g) && NoOverlap(r.in1, g))
  }

  ghost predicate RunOk(db: DB, r: Running) {
    && InputsIn(db.version, r.level, r.in0, r.in1) && LeavesNewer(db.version, r.level, r.in0, r.in1)
    && DropsSafe(db.version, r) && Beside(db.version, r)
    && Sorted(r.input) && EntrySet(r.input) == InputEntries(r.in0, r.in1)
    && r.oldest <= Oldest(db) && NumbersOk(db.version, db.nextFile, r.numbers)
  }

  ghost predicate Sound(s: State) { Inv(s.db) && (s.run.Some? ==> RunOk(s.db, s.run.value)) }

  // ----- Beginning -----

  lemma BeginSafe(v: Version, r: Running)
    requires CompactionOk(v, r.level, r.in0, r.in1) && r.base == v
    ensures DropsSafe(v, r)
  {
    hide CompactionOk, InputEntries, BaseLevel, StaysSomewhere, Tag;
    forall x, y | MayGo(r, x) && StaysSomewhere(v, y, r.level, r.in0, r.in1) && y.key == x.key ensures Tag(y) > Tag(x) {
      StayingNotBelow(v, r.level, r.in0, r.in1, x, y);
    }
  }

  lemma BeginBeside(v: Version, r: Running)
    requires CompactionOk(v, r.level, r.in0, r.in1)
    ensures Beside(v, r)
  {
    hide CompactionOk, InputEntries, Before, Stays;
    forall g | Stays(v, r.level + 1, g, r.level, r.in0, r.in1) ensures Aside(g, r.in0, r.in1) {
      InputsOnOneSide(v, r.level, r.in0, r.in1, g);
    }
  }

  lemma BeginKeeps(s: State, level: nat, in0: seq<File>, in1: seq<File>, input: seq<Entry>, s': State)
    requires Sound(s) && Turns(s, Begin(level, in0, in1, input), s')
    ensures Sound(s')
  {
    hide Inv, CompactionOk, InputsIn, LeavesNewer, DropsSafe, Beside, Sorted, EntrySet, InputEntries;
    var r := s'.run.value;
    ChosenInputs(s.db.version, level, in0, in1);
    BeginSafe(s.db.version, r);
    BeginBeside(s.db.version, r);
  }

  // ----- Going on -----

  lemma OldestGrows(db: DB, step: Step, db': DB)
    requires Inv(db) && Next(db, step, db') && !step.Compact? && !step.TrivialMove?
    ensures Oldest(db) <= Oldest(db')
  {
    hide Valid, FreshNumber, Sorted, SameReads, VersionEntries, EntrySet, Newer, MemoryNewer, Numbered1, Placeable, Added;
  }

  /** Steps that leave the version alone. */
  lemma QuietKeeps(s: State, step: Step, s': State)
    requires Sound(s) && s.run.Some? && Turns(s, Other(step), s') && s'.db.version == s.db.version && s'.db.nextFile == s.db.nextFile
    ensures Sound(s')
  {
    StepKeepsInv(s.db, step, s'.db);
    OldestGrows(s.db, step, s'.db);
    hide Inv, Next, InputsIn, LeavesNewer, DropsSafe, Beside, Sorted, EntrySet, InputEntries, NumbersOk;
  }

  /** After a flush a file stays that did before, or it is the new one. */
  lemma FlushStays(v: Version, v': Version, at: nat, f: File, l: nat, g: File, level: nat, in0: seq<File>, in1: seq<File>)
    requires Added(v, v', at, f) && Stays(v', l, g, level, in0, in1)
    ensures Stays(v, l, g, level, in0, in1) || (l == at && g == f)
  {
    assert AddedLevel(v[l], v'[l], l, at, f);
  }

  lemma FlushStaysEntry(v: Version, v': Version, at: nat, f: File, l: nat, y: Entry, level: nat, in0: seq<File>, in1: seq<File>)
    requires Added(v, v', at, f) && StaysEntry(v', l, y, level, in0, in1)
    ensures StaysEntry(v, l, y, level, in0, in1) || y in f.entries
    ensures l < |v|
  {
    hide Added, Stays;
    var g :| Stays(v', l, g, level, in0, in1) && y in g.entries;
    FlushStays(v, v', at, f, l, g, level, in0, in1);
    StaysLevel(v', l, g, level, in0, in1);
    AddedLength(v, v', at, f);
  }

  lemma StaysLevel(v: Version, l: nat, g: File, level: nat, in0: seq<File>, in1: seq<File>)
    requires Stays(v, l, g, level, in0, in1)
    ensures l < |v|
  {}

  lemma FlushedNewer(db: DB, f: File, level: nat, in0: seq<File>, in1: seq<File>, x: Entry, y: Entry)
    requires MemoryNewer(db) && db.imm == Some(f.entries) && InputsIn(db.version, level, in0, in1)
    requires x in InputEntries(in0, in1) && y in f.entries && x.key == y.key
    ensures Tag(y) > Tag(x)
  {
    InputInLevel(db.version, level, in0, in1, x);
    InputLevels(db.version, level, in0, in1);
    hide InputsIn, LevelEntries, Tag;
    assert InVersion(db.version, x) by {
      assert InFiles(db.version[level], x) || InFiles(db.version[level + 1], x);
    }
    assert y in ImmSet(db) && x in VersionEntries(db.version);
  }

  lemma FlushLeaves(db: DB, at: nat, f: File, v': Version, level: nat, in0: seq<File>, in1: seq<File>)
    requires MemoryNewer(db) && db.imm == Some(f.entries) && Added(db.version, v', at, f)
    requires InputsIn(db.version, level, in0, in1) && LeavesNewer(db.version, level, in0, in1)
    ensures LeavesNewer(v', level, in0, in1)
  {
    hide MemoryNewer, Added, InputsIn, InputEntries, StaysEntry, Tag;
    forall l, x, y | 0 <= l <= level + 1 && StaysEntry(v', l, y, level, in0, in1) && x in InputEntries(in0, in1) && x.key == y.key
      ensures Tag(y) > Tag(x)
    {
      FlushStaysEntry(db.version, v', at, f, l, y, level, in0, in1);
      if y in f.entries {
        FlushedNewer(db, f, level, in0, in1, x, y);
      }
    }
  }

  lemma FlushDrops(db: DB, at: nat, f: File, v': Version, r: Running)
    requires MemoryNewer(db) && db.imm == Some(f.entries) && Added(db.version, v', at, f)
    requires InputsIn(db.version, r.level, r.in0, r.in1) && DropsSafe(db.version, r)
    ensures DropsSafe(v', r)
  {
    hide MemoryNewer, Added, InputsIn, InputEntries, StaysEntry, Tag, BaseLevel;
    forall x, y | MayGo(r, x) && StaysSomewhere(v', y, r.level, r.in0, r.in1) && y.key == x.key ensures Tag(y) > Tag(x) {
      var l :| 0 <= l < |v'| && StaysEntry(v', l, y, r.level, r.in0, r.in1);
      FlushStaysEntry(db.version, v', at, f, l, y, r.level, r.in0, r.in1);
      if y in f.entries {
        FlushedNewer(db, f, r.level, r.in0, r.in1, x, y);
      } else {
        assert StaysSomewhere(db.version, y, r.level, r.in0, r.in1);
      }
    }
  }

  lemma FlushBeside(v: Version, at: nat, f: File, v': Version, r: Running)
    requires InputsIn(v, r.level, r.in0, r.in1) && Beside(v, r) && Placeable(v, f, at) && Added(v, v', at, f)
    ensures Beside(v', r)
  {
    InputLevels(v, r.level, r.in0, r.in1);
    hide Valid, Aside, Added;
    forall g | Stays(v', r.level + 1, g, r.level, r.in0, r.in1)
      ensures Aside(g, r.in0, r.in1) || (NoOverlap(r.in0, g) && NoOverlap(r.in1, g))
    {
      FlushStays(v, v', at, f, r.level + 1, g, r.level, r.in0, r.in1);
      if !Stays(v, r.level + 1, g, r.level, r.in0, r.in1) {
        assert NoOverlap(v[r.level], f) && NoOverlap(v[r.level + 1], f);
      }
    }
  }

  lemma FlushInputs(v: Version, at: nat, f: File, v': Version, level: nat, in0: seq<File>, in1: seq<File>)
    requires InputsIn(v, level, in0, in1) && Added(v, v', at, f) && Valid(v')
    ensures InputsIn(v', level, in0, in1)
  {
    InputLevels(v, level, in0, in1);
    assert AddedLevel(v[level], v'[level], level, at, f) && AddedLevel(v[level + 1], v'[level + 1], level + 1, at, f);
    hide Valid;
  }

  lemma FlushNumbersOk(v: Version, at: nat, f: File, v': Version, next: nat, ns: seq<nat>)
    requires NumbersOk(v, next, ns) && Added(v, v', at, f) && f.number == next
    ensures NumbersOk(v', next + 1, ns)
  {
    forall i, l, g | 0 <= i < |ns| && 0 <= l < |v'| && g in v'[l] ensures g.number != ns[i] {
      assert AddedLevel(v[l], v'[l], l, at, f);
    }
  }

  lemma InvParts(db: DB)
    requires Inv(db)
    ensures Valid(db.version) && FreshNumber(db.version, db.nextFile) && MemoryNewer(db) && Numbered1(db.history)
    ensures Store(db) <= Hist(db) && SameReads(Hist(db), Store(db), Oldest(db))
  {
    hide Valid, FreshNumber, Sorted, SameReads, Store, Numbered1, SnapshotsOk, MemoryNewer, Hist;
  }

  lemma FlushShape(db: DB, at: nat, f: File, db': DB)
    requires Next(db, Flush(at, f), db')
    ensures db.imm == Some(f.entries) && f.number == db.nextFile && Placeable(db.version, f, at)
    ensures Added(db.version, db'.version, at, f) && db'.nextFile == db.nextFile + 1 && Oldest(db') == Oldest(db)
  {
    hide Placeable, Added;
  }

  lemma FlushRunOk(db: DB, at: nat, f: File, db': DB, r: Running)
    requires RunOk(db, r) && MemoryNewer(db) && Valid(db'.version) && db.imm == Some(f.entries) && f.number == db.nextFile
    requires Placeable(db.version, f, at) && Added(db.version, db'.version, at, f)
    requires db'.nextFile == db.nextFile + 1 && Oldest(db') == Oldest(db)
    ensures RunOk(db', r)
  {
    hide InputsIn, LeavesNewer, DropsSafe, Beside, Sorted, EntrySet, InputEntries, NumbersOk, Valid, MemoryNewer, Added, Placeable, Oldest;
    FlushInputs(db.version, at, f, db'.version, r.level, r.in0, r.in1);
    FlushLeaves(db, at, f, db'.version, r.level, r.in0, r.in1);
    FlushDrops(db, at, f, db'.version, r);
    FlushBeside(db.version, at, f, db'.version, r);
    FlushNumbersOk(db.version, at, f, db'.version, db.nextFile, r.numbers);
  }

  /** A flush while the compaction runs, to whatever level it may go. */
  lemma FlushKeeps(s: State, at: nat, f: File, s': State)
    requires Sound(s) && s.run.Some? && Turns(s, Other(Flush(at, f)), s')
    ensures Sound(s')
  {
    hide Inv, Next, RunOk, Valid, FreshNumber, MemoryNewer, Numbered1, SameReads, Store, Hist, Oldest, Added, Placeable;
    StepKeepsInv(s.db, Flush(at, f), s'.db);
    InvParts(s.db);
    InvParts(s'.db);
    FlushShape(s.db, at, f, s'.db);
    FlushRunOk(s.db, at, f, s'.db, s.run.value);
  }

  lemma NextFileKeeps(db: DB)
    requires Inv(db)
    ensures Inv(db.(nextFile := db.nextFile + 1))
  {
    hide Valid, Sorted, SameReads, VersionEntries, Numbered1, SnapshotsOk, EntrySet, Newer;
    assert Store(db.(nextFile := db.nextFile + 1)) == Store(db);
  }

  lemma OneMoreNumber(v: Version, next: nat, ns: seq<nat>)
    requires FreshNumber(v, next) && NumbersOk(v, next, ns)
    ensures NumbersOk(v, next + 1, ns + [next])
  {}

  lemma NumberKeeps(s: State, s': State)
    requires Sound(s) && Turns(s, NewNumber, s')
    ensures Sound(s')
  {
    hide Inv, Valid, FreshNumber, MemoryNewer, Numbered1, SameReads, Store, Hist;
    var r, r' := s.run.value, s'.run.value;
    NextFileKeeps(s.db);
    InvParts(s.db);
    OneMoreNumber(s.db.version, s.db.nextFile, r.numbers);
    SameRun(s.db.version, r, r');
    hide InputsIn, LeavesNewer, DropsSafe, Beside, Sorted, EntrySet, InputEntries, NumbersOk;
  }

  lemma SameRun(v: Version, r: Running, r': Running)
    requires DropsSafe(v, r) && Beside(v, r) && r' == r.(numbers := r'.numbers)
    ensures DropsSafe(v, r') && Beside(v, r')
  {
    hide Aside, InputEntries, BaseLevel, StaysSomewhere, Tag, Stays, NoOverlap;
  }

  // ----- Installing -----

  lemma InstallOutputsOk(db: DB, r: Running, outs: seq<File>)
    requires RunOk(db, r) && Flatten(outs) == Kept(r.base, r.level, r.input, r.oldest, |r.input|) && NumberedBy(outs, r.numbers)
    ensures OutputsOk(db.version, r.level, r.in0, r.in1, outs)
  {
    hide Kept, Flatten, InputEntries, InputsIn, LeavesNewer, DropsSafe, Beside;
    KeptSorted(r.base, r.level, r.input, r.oldest, |r.input|);
    assert r.input[..|r.input|] == r.input;
    forall x | x in Flatten(outs) ensures x in InputEntries(r.in0, r.in1) {
      assert x in EntrySet(r.input);
    }
  }

  lemma InstallFresh(db: DB, r: Running, outs: seq<File>, v': Version)
    requires FreshNumber(db.version, db.nextFile) && NumbersOk(db.version, db.nextFile, r.numbers) && NumberedBy(outs, r.numbers)
    requires Replaced(db.version, v', r.level, r.in0, r.in1, outs)
    ensures FreshNumber(v', db.nextFile)
  {
    forall l, g | 0 <= l < |v'| && g in v'[l] ensures g.number < db.nextFile {
      assert ReplacedLevel(db.version[l], v'[l], l, r.level, r.in0, r.in1, outs);
    }
  }

  lemma InstallNothingBelow(db: DB, r: Running)
    requires RunOk(db, r) && MemoryNewer(db)
    requires VersionEntries(db.version) == Staying(db.version, r.level, r.in0, r.in1) + InputEntries(r.in0, r.in1)
    ensures NothingBelow(r.base, r.level, EntrySet(db.mem) + ImmSet(db) + Staying(db.version, r.level, r.in0, r.in1), r.input, r.oldest)
  {
    hide VersionEntries, Staying, InputsIn, LeavesNewer, Beside, InputEntries, Tag, BaseLevel, StaysSomewhere, NumbersOk;
    forall x, y | x in r.input && Obsolete(r.base, r.level, x, r.oldest)
      && y in EntrySet(db.mem) + ImmSet(db) + Staying(db.version, r.level, r.in0, r.in1) && y.key == x.key ensures Tag(y) > Tag(x)
    {
      assert x in EntrySet(r.input);
      assert x in VersionEntries(db.version) && MayGo(r, x);
    }
  }

  /** The store before and after: what stays, and the inputs or what is kept of them. */
  lemma InstallStores(db: DB, r: Running, outs: seq<File>, db': DB)
    requires InputsIn(db.version, r.level, r.in0, r.in1) && Replaced(db.version, db'.version, r.level, r.in0, r.in1, outs)
    requires EntrySet(r.input) == InputEntries(r.in0, r.in1) && EntrySet(Flatten(outs)) <= EntrySet(r.input)
    requires db'.mem == db.mem && db'.imm == db.imm
    ensures var stay := Staying(db.version, r.level, r.in0, r.in1);
      && VersionEntries(db.version) == stay + InputEntries(r.in0, r.in1)
      && VersionEntries(db'.version) <= VersionEntries(db.version)
      && Store(db) == (EntrySet(db.mem) + ImmSet(db) + stay) + EntrySet(r.input)
      && Store(db') == (EntrySet(db.mem) + ImmSet(db) + stay) + EntrySet(Flatten(outs))
  {
    hide InputsIn, Replaced, Flatten, VersionEntries, Staying, InputEntries, EntrySet;
    SplitEntries(db.version, r.level, r.in0, r.in1);
    ReplacedVersionEntries(db.version, db'.version, r.level, r.in0, r.in1, outs);
    StoreSplit(db, Staying(db.version, r.level, r.in0, r.in1), EntrySet(r.input));
    StoreSplit(db', Staying(db.version, r.level, r.in0, r.in1), EntrySet(Flatten(outs)));
  }

  /** Whatever happened since the inputs were chosen, no read at a live snapshot notices the outputs. */
  lemma InstallReads(db: DB, r: Running, outs: seq<File>, db': DB)
    requires Inv(db) && RunOk(db, r) && Flatten(outs) == Kept(r.base, r.level, r.input, r.oldest, |r.input|)
    requires NumberedBy(outs, r.numbers) && Replaced(db.version, db'.version, r.level, r.in0, r.in1, outs)
    requires db' == db.(version := db'.version)
    ensures SameReads(Hist(db), Store(db'), Oldest(db)) && Store(db') <= Store(db)
    ensures VersionEntries(db'.version) <= VersionEntries(db.version)
  {
    InvParts(db);
    InstallOutputsOk(db, r, outs);
    OutputsAreInputs(db.version, r.level, r.in0, r.in1, r.input, outs);
    hide Inv, Valid, FreshNumber, Sorted, SameReads, Numbered1, EntrySet, Newer, Distinct, Replaced, Kept, Flatten, NumberedBy,
         NothingBelow, Staying, InputEntries, OutputsOk, MemoryNewer, VersionEntries;
    InstallStores(db, r, outs, db');
    InstallNothingBelow(db, r);
    hide InputsIn, LeavesNewer, DropsSafe, Beside, NumbersOk, Store, Hist;
    HistDistinct(db);
    SubDistinct(Store(db), Hist(db));
    DropKeepsReads(r.base, r.level, EntrySet(db.mem) + ImmSet(db) + Staying(db.version, r.level, r.in0, r.in1), r.input, r.oldest);
    SameReadsLater(Store(db), Store(db'), r.oldest, Oldest(db));
    SameReadsTrans(Hist(db), Store(db), Store(db'), Oldest(db));
  }

  lemma InstallInv(db: DB, r: Running, outs: seq<File>, db': DB)
    requires Inv(db) && RunOk(db, r) && Flatten(outs) == Kept(r.base, r.level, r.input, r.oldest, |r.input|)
    requires NumberedBy(outs, r.numbers) && Replaced(db.version, db'.version, r.level, r.in0, r.in1, outs)
    requires db' == db.(version := db'.version) && Valid(db'.version)
    ensures Inv(db')
  {
    hide *;
    InstallReads(db, r, outs, db');
    InvParts(db);
    RunParts(db, r);
    InstallFresh(db, r, outs, db'.version);
    MemoryNewerSub(db, db');
    NewVersionInv(db, db');
  }

  lemma RunParts(db: DB, r: Running)
    requires RunOk(db, r)
    ensures InputsIn(db.version, r.level, r.in0, r.in1) && LeavesNewer(db.version, r.level, r.in0, r.in1)
    ensures NumbersOk(db.version, db.nextFile, r.numbers)
  {
    hide InputsIn, LeavesNewer, DropsSafe, Beside, NumbersOk, EntrySet, InputEntries, Sorted;
  }

  lemma NewVersionInv(db: DB, db': DB)
    requires Inv(db) && db' == db.(version := db'.version) && Valid(db'.version) && FreshNumber(db'.version, db.nextFile)
    requires MemoryNewer(db') && Store(db') <= Store(db) && SameReads(Hist(db), Store(db'), Oldest(db))
    ensures Inv(db')
  {
    hide Valid, FreshNumber, Sorted, SameReads, Numbered1, SnapshotsOk, MemoryNewer, Store;
    assert Hist(db') == Hist(db) && Oldest(db') == Oldest(db);
  }

  /** Installing keeps the invariant exactly when no file that stays on the level of the outputs, flushed there in the
      meantime, is in the range of one of them. */
  lemma InstallKeepsIff(s: State, outs: seq<File>, s': State)
    requires Sound(s) && Turns(s, Install(outs), s')
    ensures var r := s.run.value; Sound(s') <==> OutputsApart(s.db.version, r.level, r.in0, r.in1, outs)
  {
    InstallIff(s.db, s.run.value, outs, s'.db) by {
      hide Inv, RunOk, Kept, Flatten, Replaced, NumberedBy;
    }
    hide Inv, RunOk, Kept, Flatten, Replaced, NumberedBy, OutputsApart;
  }

  lemma InstallIff(db: DB, r: Running, outs: seq<File>, db': DB)
    requires Inv(db) && RunOk(db, r) && Flatten(outs) == Kept(r.base, r.level, r.input, r.oldest, |r.input|)
    requires NumberedBy(outs, r.numbers) && Replaced(db.version, db'.version, r.level, r.in0, r.in1, outs)
    requires db' == db.(version := db'.version)
    ensures Inv(db') <==> OutputsApart(db.version, r.level, r.in0, r.in1, outs)
  {
    hide *;
    InstallOutputsOk(db, r, outs);
    RunParts(db, r);
    ReplaceKeepsValidIff(db.version, db'.version, r.level, r.in0, r.in1, outs);
    if Valid(db'.version) {
      InstallInv(db, r, outs, db');
    } else if Inv(db') {
      InvParts(db');
    }
  }

  lemma OtherKeeps(s: State, step: Step, s': State)
    requires Sound(s) && Turns(s, Other(step), s')
    ensures Sound(s')
  {
    if s.run.None? {
      hide Next, Inv;
      StepKeepsInv(s.db, step, s'.db);
    } else if step.Flush? {
      FlushKeeps(s, step.at, step.file, s');
    } else {
      hide Inv, RunOk, Sorted, EntrySet;
      QuietKeeps(s, step, s');
    }
  }

  /** Every turn keeps the invariant, but for installing outputs over a file flushed into their range. */
  lemma TurnKeepsIff(s: State, t: Turn, s': State)
    requires Sound(s) && Turns(s, t, s')
    ensures Sound(s') <==> (t.Install? ==> var r := s.run.value; OutputsApart(s.db.version, r.level, r.in0, r.in1, t.outs))
  {
    hide Inv, RunOk, OutputsApart;
    match t
    case Other(step) => OtherKeeps(s, step, s');
    case Begin(level, in0, in1, input) => BeginKeeps(s, level, in0, in1, input, s');
    case NewNumber => NumberKeeps(s, s');
    case Install(outs) => InstallKeepsIff(s, outs, s');
    case GiveUp =>
  }
}
