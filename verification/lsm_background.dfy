/** The background work as a whole: picking inputs, merging and thinning them, writing the outputs and
    installing the edit is one step of the database; so is writing out the memtable. */
module Background {
  import opened Wrappers
  import opened Entries
  import opened Files
  import opened Inputs
  import opened Versions
  import opened Compactions
  import opened Steps
  import opened Database
  import opened Iterators
  import opened Listings
  import Manifest

  // ----- The merged input -----

  /** Walking a merging iterator from the first entry to the end lists all entries in order. */
  method MergeAll(kids: seq<seq<Entry>>) returns (input: seq<Entry>)
    requires MergingIter.Mergeable(kids)
    ensures Sorted(input) && EntrySet(input) == MergingIter.AllEntries(kids)
  {
    hide MergingIter.Mergeable, Sorted, MergingIter.AllEntries, MergingIter.Follows;
    var it := new MergingIter.Iter(kids);
    ghost var es := MergingIter.ListingOf(kids);
    MergingIter.FollowsStart(it, es);
    MergingIter.WalkToFirst(it, es, None);
    ghost var p := FirstIndex(es);
    input := [];
    MergingIter.FollowsAt(it, es, p);
    while it.current.Some?
      invariant it.kids == kids && fresh(it) && MergingIter.Follows(it, es, p) && (it.current.Some? <==> p.Some?)
      invariant if p.Some? then p.value < |es| && input == es[..p.value] else input == es
      decreases |es| - |input|
    {
      MergingIter.FollowsAt(it, es, p);
      input := input + [it.Current().value];
      MergingIter.WalkNext(it, es, p.value);
      p := NextIndex(es, p.value);
      MergingIter.FollowsAt(it, es, p);
    }
  }

  lemma InputFilesOk(v: Version, l: nat, inputs: seq<File>)
    requires Valid(v) && l < NUM_LEVELS && |v| == NUM_LEVELS && From(v[l], inputs)
    ensures FilesOk(inputs)
  {
    ValidLevel(v, l);
    hide Valid, FileOk;
    forall i | 0 <= i < |inputs| ensures FileOk(inputs[i]) {
      assert inputs[i] in inputs;
    }
  }

  lemma Level0FilesApart(v: Version, f: File, g: File, d: Entry, e: Entry)
    requires Valid(v) && |v| == NUM_LEVELS && f in v[0] && g in v[0] && f != g && d in f.entries && e in g.entries
    ensures IKey(d) != IKey(e)
  {
    ValidLevel(v, 0);
    if f.number == g.number {
      SameNumber(v, 0, f, g);
    }
    hide Valid, FilesOk;
    if f.number < g.number {
      NewerApart(EntrySet(g.entries), EntrySet(f.entries), e, d);
    } else if f.number > g.number {
      NewerApart(EntrySet(f.entries), EntrySet(g.entries), d, e);
    }
  }

  lemma Level0Child(v: Version, in0: seq<File>, kids: seq<seq<Entry>>, i: nat)
    requires Valid(v) && |v| == NUM_LEVELS && From(v[0], in0) && NoRepeats(in0) && i < |in0|
    requires MergingIter.Mergeable(kids) && MergingIter.AllEntries(kids) == LevelEntries(in0[..i])
    ensures MergingIter.Mergeable(kids + [in0[i].entries])
    ensures MergingIter.AllEntries(kids + [in0[i].entries]) == LevelEntries(in0[..i + 1])
  {
    hide Valid, MergingIter.Mergeable, Sorted, LevelEntries;
    InputFilesOk(v, 0, in0);
    var f := in0[i];
    assert FileOk(f) && Sorted(f.entries);
    forall d, e | d in MergingIter.AllEntries(kids) && e in f.entries ensures IKey(d) != IKey(e) {
      var g :| g in in0[..i] && d in g.entries;
      assert f in in0 && g in in0 && f != g;
      Level0FilesApart(v, g, f, d, e);
    }
    JoinChild(kids, f.entries);
    LevelGrows(in0, i);
  }

  lemma LevelChild(v: Version, l: nat, inputs: seq<File>, kids: seq<seq<Entry>>, above: set<Entry>)
    requires Valid(v) && |v| == NUM_LEVELS && 1 <= l < NUM_LEVELS && From(v[l], inputs) && Disjoint(inputs)
    requires MergingIter.Mergeable(kids) && MergingIter.AllEntries(kids) == above
    requires above == {} || above <= LevelEntries(v[l - 1])
    ensures MergingIter.Mergeable(kids + [Flatten(inputs)])
    ensures MergingIter.AllEntries(kids + [Flatten(inputs)]) == above + LevelEntries(inputs)
  {
    hide Valid, MergingIter.Mergeable, Sorted, LevelEntries, Flatten, Newer;
    InputFilesOk(v, l, inputs);
    FlattenDisjoint(inputs);
    FlattenLevel(inputs);
    forall d, e | d in MergingIter.AllEntries(kids) && e in Flatten(inputs) ensures IKey(d) != IKey(e) {
      assert e in EntrySet(Flatten(inputs));
      FromLevel(v[l], inputs, e);
      LevelsNewer(v, l - 1, l);
      NewerApart(LevelEntries(v[l - 1]), LevelEntries(v[l]), d, e);
    }
    JoinChild(kids, Flatten(inputs));
  }

  lemma FromLevel(fs: seq<File>, inputs: seq<File>, e: Entry)
    requires From(fs, inputs) && e in LevelEntries(inputs)
    ensures e in LevelEntries(fs)
  {
    var f :| f in inputs && e in f.entries;
    assert f in fs;
  }

  /** MakeInputIterator: each level-0 input by itself, the inputs of another level as one. */
  method MakeInputIterator(v: Version, level: nat, in0: seq<File>, in1: seq<File>) returns (kids: seq<seq<Entry>>)
    requires Valid(v) && |v| == NUM_LEVELS && level + 1 < NUM_LEVELS && From(v[level], in0) && From(v[level + 1], in1)
    requires Disjoint(in1) && if level == 0 then NoRepeats(in0) else Disjoint(in0)
    ensures MergingIter.Mergeable(kids) && MergingIter.AllEntries(kids) == InputEntries(in0, in1)
  {
    hide Valid, MergingIter.Mergeable, MergingIter.AllEntries, LevelEntries, Disjoint, NoRepeats;
    kids := [];
    NoChildren();
    NoEntries();
    if level == 0 {
      var i := 0;
      assert in0[..0] == [];
      while i < |in0|
        invariant 0 <= i <= |in0| && MergingIter.Mergeable(kids) && MergingIter.AllEntries(kids) == LevelEntries(in0[..i])
      {
        Level0Child(v, in0, kids, i);
        kids := kids + [in0[i].entries];
        i := i + 1;
      }
      assert in0[..i] == in0;
    } else if in0 != [] {
      LevelChild(v, level, in0, kids, {});
      kids := kids + [Flatten(in0)];
    }
    if in1 != [] {
      InputsBelow(v[level], in0);
      LevelChild(v, level + 1, in1, kids, LevelEntries(in0));
      kids := kids + [Flatten(in1)];
    }
  }

  lemma InputsBelow(fs: seq<File>, inputs: seq<File>)
    requires From(fs, inputs)
    ensures LevelEntries(inputs) <= LevelEntries(fs)
  {
    hide LevelEntries;
    forall e | e in LevelEntries(inputs) ensures e in LevelEntries(fs) {
      FromLevel(fs, inputs, e);
    }
  }

  lemma NoEntries() ensures LevelEntries([]) == {} {}

  // ----- Installing an edit in the current version -----

  lemma CompactionFits(v: Version, level: nat, in0: seq<File>, in1: seq<File>, outs: seq<File>, first: nat, l: nat)
    requires FreshNumber(v, first) && Numbered(outs, first) && |v| == NUM_LEVELS && level + 1 < NUM_LEVELS && l < NUM_LEVELS
    ensures Manifest.Fits(v[l], Manifest.CompactionEditOf(level, in0, in1, outs), l)
  {
    var e := Manifest.CompactionEditOf(level, in0, in1, outs);
    Manifest.CompactionEditIs(level, in0, in1, outs);
    hide Manifest.CompactionEditOf;
    forall f ensures f in Manifest.AddedAt(e, l) ==> f in outs && f.number >= first {
      Manifest.AddedByCompaction(e, level, in0, in1, outs, l, f);
    }
  }

  lemma MoveFits(v: Version, level: nat, f: File, l: nat)
    requires Valid(v) && |v| == NUM_LEVELS && level + 1 < NUM_LEVELS && f in v[level] && l < NUM_LEVELS
    ensures Manifest.Fits(v[l], Manifest.CompactionEditOf(level, [f], [], [f]), l)
  {
    var e := Manifest.CompactionEditOf(level, [f], [], [f]);
    Manifest.CompactionEditIs(level, [f], [], [f]);
    hide Manifest.CompactionEditOf, Valid;
    forall g ensures g in Manifest.AddedAt(e, l) ==> g == f && l == level + 1 {
      Manifest.AddedByCompaction(e, level, [f], [], [f], l, g);
    }
    forall g, h | g in v[l] && h in Manifest.AddedAt(e, l) ensures g.number != h.number {
      if g.number == f.number {
        MovedNumber(v, level, f, l, g);
      }
    }
  }

  lemma EditLevels(level: nat, in0: seq<File>, in1: seq<File>, outs: seq<File>)
    requires level + 1 < NUM_LEVELS
    ensures Manifest.LevelsInRange(Manifest.CompactionEditOf(level, in0, in1, outs))
  {}

  /** LogAndApply of a compaction's edit: the inputs are replaced by the outputs. */
  method InstallCompaction(v: Version, level: nat, in0: seq<File>, in1: seq<File>, outs: seq<File>) returns (v': Version)
    requires CompactionOk(v, level, in0, in1) && LevelsSorted(v)
    requires forall l :: 0 <= l < NUM_LEVELS && l < |v| ==> Manifest.Fits(v[l], Manifest.CompactionEditOf(level, in0, in1, outs), l)
    ensures Replaced(v, v', level, in0, in1, outs)
  {
    hide Valid, Manifest.CompactionEditOf, Manifest.Fits, SortedBySmallest, GoodInputs, Replaced, Manifest.Install, Manifest.LevelsInRange,
         Manifest.FileSet;
    CompactionLevels(v, level, in0, in1);
    var e := Manifest.CompactionEditOf(level, in0, in1, outs);
    EditLevels(level, in0, in1, outs);
    v' := Manifest.InstallEdit(v, e);
    assert Manifest.InstalledFrom(v, v', e);
    Manifest.CompactionEditIs(level, in0, in1, outs);
    FromLevels(v, level, in0, in1);
    assert forall f, g :: f in outs && g in v[level + 1] ==> f.number != g.number by {
      forall f, g | f in outs && g in v[level + 1] ensures f.number != g.number {
        OutputNumber(v, level, in0, in1, outs, f, g);
      }
    }
    Manifest.CompactionInstalls(v, v', e, level, in0, in1, outs);
  }

  lemma OutputNumber(v: Version, level: nat, in0: seq<File>, in1: seq<File>, outs: seq<File>, f: File, g: File)
    requires level + 1 < |v| && f in outs && g in v[level + 1]
    requires Manifest.Fits(v[level + 1], Manifest.CompactionEditOf(level, in0, in1, outs), level + 1)
    ensures f.number != g.number
  {
    Manifest.CompactionEditIs(level, in0, in1, outs);
    hide Manifest.CompactionEditOf;
    Manifest.AddedByCompaction(Manifest.CompactionEditOf(level, in0, in1, outs), level, in0, in1, outs, level + 1, f);
  }

  lemma FromLevels(v: Version, level: nat, in0: seq<File>, in1: seq<File>)
    requires CompactionOk(v, level, in0, in1)
    ensures UniqueNumbers(v) && |v| == NUM_LEVELS && From(v[level], in0) && From(v[level + 1], in1)
  {
    hide LevelOrder, FilesOk, Disjoint, NumberOrder, BoundaryClosed, Convex, TakesOverlap, Anchored, Covers, UniqueNumbers;
  }

  // ----- Compaction -----

  /** What starts a compaction: the level's compaction pointer, or a range of user keys asked for. */
  datatype Choice = Automatic(pointer: Option<InternalKey>) | Manual(begin: Option<UserKey>, end: Option<UserKey>, limit: nat)

  /** The files a compaction starts from: the file after the pointer, or those overlapping the range up to the size
      limit; on level 0 with all that touch them. */
  ghost predicate IsStart(level: nat, fs: seq<File>, choice: Choice, start: seq<File>) {
    match choice
    case Automatic(pointer) => exists i: nat :: Picked(fs, pointer, i) && StartsAt(level, fs, i, start)
    case Manual(begin, end, limit) =>
      if level == 0 then LeastClosed(fs, begin, end, start) else LimitedPrefix(Overlapping(fs, begin, end), start, limit)
  }

  ghost predicate StartsAt(level: nat, fs: seq<File>, i: nat, start: seq<File>) {
    i < |fs| &&
    if level == 0 then LeastClosed(fs, Some(Smallest(fs[i]).key), Some(Largest(fs[i]).key), start) else start == [fs[i]]
  }

  /** There is a file to start from. */
  ghost predicate Anything(fs: seq<File>, choice: Choice) {
    match choice
    case Automatic(_) => fs != []
    case Manual(begin, end, _) => exists f :: f in fs && Overlaps(f, begin, end)
  }

  method StartInputs(level: nat, fs: seq<File>, choice: Choice) returns (start: seq<File>)
    requires FilesOk(fs) && (level != 0 ==> Disjoint(fs))
    ensures start != [] ==> InitialInputs(level == 0, fs, start) && Listed(level == 0, fs, start) && IsStart(level, fs, choice, start)
    ensures start != [] <==> Anything(fs, choice)
  {
    hide LeastClosed, LimitedPrefix, Overlapping, InitialInputs, Listed, FilesOk, Disjoint, Picked;
    match choice
    case Automatic(pointer) =>
      if fs == [] {
        return [];
      }
      var i := PickFile(fs, pointer);
      PickedIndex(fs, pointer, i);
      start := PickCompaction(level == 0, fs, fs[i]);
      assert StartsAt(level, fs, i, start);
    case Manual(begin, end, limit) =>
      start := CompactRange(level == 0, fs, begin, end, limit);
  }

  lemma PickedIndex(fs: seq<File>, pointer: Option<InternalKey>, i: nat) requires Picked(fs, pointer, i) ensures i < |fs| {}

  lemma SortedNoRepeats(fs: seq<File>)
    requires SortedBySmallest(fs)
    ensures NoRepeats(fs)
  {
    forall i, j | 0 <= i < j < |fs| ensures fs[i] != fs[j] {
      assert BySmallestKey(fs[i], fs[j]);
    }
  }

  lemma OldestBound(db: DB)
    requires Inv(db)
    ensures Oldest(db) < MAX_SEQUENCE
  {}

  /** DoCompactionWork on the merged inputs, and its result installed: a Compact step. */
  method Compact(db: DB, level: nat, in0: seq<File>, in1: seq<File>, stop: nat -> bool, full: nat -> bool, size: nat -> nat)
    returns (ghost input: seq<Entry>, ghost outs: seq<File>, db': DB)
    requires Inv(db) && LevelsSorted(db.version) && CompactionOk(db.version, level, in0, in1)
    requires Disjoint(in1) && if level == 0 then NoRepeats(in0) else Disjoint(in0)
    ensures Next(db, Step.Compact(level, in0, in1, input, outs), db')
  {
    hide Inv, Valid, LevelsSorted, CompactionOk, Disjoint, NoRepeats, Sorted, Kept, Flatten, Replaced, FreshNumber, InputEntries,
         MergingIter.Mergeable, MergingIter.AllEntries, Manifest.Fits, Manifest.CompactionEditOf, Numbered;
    var v := db.version;
    FromLevels(v, level, in0, in1);
    CompactionOkValid(v, level, in0, in1);
    OldestBound(db);
    InvFresh(db);
    var kids := MakeInputIterator(v, level, in0, in1);
    var merged := MergeAll(kids);
    var c := new Compaction(v, level);
    var outputs := DoCompactionWork(c, merged, Oldest(db), db.nextFile, stop, full, size);
    forall l | 0 <= l < NUM_LEVELS && l < |v| ensures Manifest.Fits(v[l], Manifest.CompactionEditOf(level, in0, in1, outputs), l) {
      CompactionFits(v, level, in0, in1, outputs, db.nextFile, l);
    }
    var v' := InstallCompaction(v, level, in0, in1, outputs);
    db' := db.(version := v', nextFile := db.nextFile + |outputs|);
    input, outs := merged, outputs;
  }

  lemma CompactionOkValid(v: Version, level: nat, in0: seq<File>, in1: seq<File>)
    requires CompactionOk(v, level, in0, in1)
    ensures Valid(v) && level + 1 < NUM_LEVELS
  {}

  lemma InvFresh(db: DB) requires Inv(db) ensures FreshNumber(db.version, db.nextFile) {}

  /** One file with nothing to merge it with goes down a level as it is. */
  method Move(db: DB, level: nat, f: File) returns (db': DB)
    requires Inv(db) && LevelsSorted(db.version) && CompactionOk(db.version, level, [f], [])
    ensures Next(db, TrivialMove(level, f), db')
  {
    hide Inv, Valid, LevelsSorted, GoodInputs, Replaced, Manifest.Fits, Manifest.CompactionEditOf;
    var v := db.version;
    MovedFile(v, level, f);
    forall l | 0 <= l < NUM_LEVELS && l < |v| ensures Manifest.Fits(v[l], Manifest.CompactionEditOf(level, [f], [], [f]), l) {
      MoveFits(v, level, f, l);
    }
    var v' := InstallCompaction(v, level, [f], [], [f]);
    db' := db.(version := v');
  }

  /** One input, none below it, and no more bytes two levels down in its range than the limit. */
  ghost predicate Movable(v: Version, level: nat, in0: seq<File>, in1: seq<File>, overlapLimit: nat) {
    && |in0| == 1 && in1 == []
    && (level + 2 < |v| ==>
          TotalFileSize(Overlapping(v[level + 2], Some(Smallest(in0[0]).key), Some(Largest(in0[0]).key))) <= overlapLimit)
  }

  method IsTrivialMove(v: Version, level: nat, in0: seq<File>, in1: seq<File>, overlapLimit: nat) returns (r: bool)
    requires Valid(v)
    ensures r <==> Movable(v, level, in0, in1, overlapLimit)
  {
    r := |in0| == 1 && in1 == [];
    if r && level + 2 < |v| {
      ValidLevel(v, level + 2);
      hide Valid, Overlapping, TotalFileSize;
      var lo, hi := GetRange(in0 + in1);
      assert in0 + in1 == [in0[0]];
      assert lo == Smallest(in0[0]) && hi == Largest(in0[0]);
      var grandparents, _, _ := GetOverlappingInputs(false, v[level + 2], Some(lo.key), Some(hi.key));
      r := TotalFileSize(grandparents) <= overlapLimit;
    }
  }

  /** BackgroundCompaction below the memtable: pick inputs, move the one file or compact them all.  Whatever it does is
      a step of the database on that level with exactly the inputs set up from the files the choice starts from; it
      does nothing exactly when there are none, and moves exactly when it may. */
  method BackgroundCompaction(db: DB, level: nat, choice: Choice, byteLimit: nat, overlapLimit: nat,
                              stop: nat -> bool, full: nat -> bool, size: nat -> nat)
    returns (ghost step: Option<Step>, db': DB)
    requires Inv(db) && LevelsSorted(db.version) && level + 1 < NUM_LEVELS
    ensures if step.Some? then Next(db, step.value, db') else db' == db
    ensures level + 1 < |db.version| && (step.Some? <==> Anything(db.version[level], choice))
    ensures step.Some? ==>
      exists start, in0, in1 :: StartedFrom(db.version, level, choice, start, byteLimit, in0, in1) &&
        Takes(level, step.value, in0, in1, choice.Automatic? && Movable(db.version, level, in0, in1, overlapLimit))
  {
    hide Inv, Valid, LevelsSorted, GoodInputs, Next, FilesOk, Disjoint, NoRepeats, SortedBySmallest, InitialInputs, IsStart, Anything,
      SetUp, Movable;
    var v := db.version;
    InvVersion(db);
    ValidLevel(v, level);
    ValidLevel(v, level + 1);
    var start := StartInputs(level, v[level], choice);
    if start == [] {
      return None, db;
    }
    var in0, in1 := SetupOtherInputs(level == 0, v[level], v[level + 1], start, byteLimit);
    assert CompactionOk(v, level, in0, in1);
    assert StartedFrom(v, level, choice, start, byteLimit, in0, in1);
    LevelNoRepeats(v, level);
    var movable := IsTrivialMove(v, level, in0, in1, overlapLimit);
    if choice.Automatic? && movable {
      MovesOne(v, level, in0, in1, overlapLimit);
      db' := Move(db, level, in0[0]);
      step := Some(TrivialMove(level, in0[0]));
    } else {
      ghost var input, outs;
      input, outs, db' := Compact(db, level, in0, in1, stop, full, size);
      step := Some(Step.Compact(level, in0, in1, input, outs));
    }
    assert Takes(level, step.value, in0, in1, choice.Automatic? && movable);
  }

  lemma MovesOne(v: Version, level: nat, in0: seq<File>, in1: seq<File>, overlapLimit: nat)
    requires Movable(v, level, in0, in1, overlapLimit)
    ensures |in0| == 1 && in0 == [in0[0]] && in1 == []
  {}

  /** The step moves the one file of the inputs, or compacts them all. */
  ghost predicate Takes(level: nat, step: Step, in0: seq<File>, in1: seq<File>, move: bool) {
    if move then in1 == [] && step.TrivialMove? && step.level == level && in0 == [step.moved]
    else step.Compact? && step.level == level && step.in0 == in0 && step.in1 == in1
  }

  /** The inputs are those set up from the files the choice starts from. */
  ghost predicate StartedFrom(v: Version, level: nat, choice: Choice, start: seq<File>, byteLimit: nat, in0: seq<File>, in1: seq<File>)
    requires level + 1 < |v|
  {
    && start != [] && IsStart(level, v[level], choice, start) && (forall f :: f in start ==> f in in0)
    && SetUp(level == 0, v[level], v[level + 1], start, byteLimit, in0, in1)
  }

  lemma LevelNoRepeats(v: Version, level: nat)
    requires LevelsSorted(v) && level < |v|
    ensures NoRepeats(v[level])
  {
    SortedNoRepeats(v[level]);
  }

  // ----- The memtable -----

  /** The file has the size it is given, and the level is the deepest it may be pushed to. */
  ghost predicate FlushesTo(v: Version, limit: nat, size: nat, step: Step) {
    && step.Flush? && step.file.size == size && |v| == NUM_LEVELS && step.at <= MAX_MEM_COMPACT_LEVEL
    && (step.at > 0 ==> NoOverlap(v[0], step.file) && forall l :: 0 <= l < step.at ==> MayPush(v, step.file, l, limit))
    && (step.at < MAX_MEM_COMPACT_LEVEL ==> !(NoOverlap(v[0], step.file) && MayPush(v, step.file, step.at, limit)))
  }

  /** CompactMemTable: the frozen memtable becomes a file on the level picked for it. */
  method CompactMemTable(db: DB, limit: nat, size: nat) returns (ghost step: Step, db': DB)
    requires Inv(db) && LevelsSorted(db.version) && db.imm.Some?
    ensures Next(db, step, db') && if db.imm.value == [] then step.FlushEmpty? else FlushesTo(db.version, limit, size, step)
  {
    hide Inv, Valid, LevelsSorted, Placeable, Added, FreshNumber, Manifest.Fits, SortedBySmallest, Manifest.Install, Manifest.FileSet,
         NoOverlap, MayPush, FileOk;
    if db.imm.value == [] {
      return FlushEmpty, db.(imm := None);
    }
    var v := db.version;
    InvVersion(db);
    InvFresh(db);
    var f: File := FileData(db.nextFile, size, db.imm.value);
    FlushedFileOk(db, f);
    var level := PickLevelForMemTableOutput(v, f, limit);
    var e := Manifest.Edit({}, [(level, f)]);
    forall l | 0 <= l < NUM_LEVELS ensures SortedBySmallest(v[l]) && Manifest.Fits(v[l], e, l) {
      SortedAt(v, l);
      FlushFits(v, level, f, l);
    }
    var v' := Manifest.InstallEdit(v, e);
    assert Manifest.InstalledFrom(v, v', e);
    Manifest.FlushInstalls(v, v', level, f);
    step, db' := Flush(level, f), db.(imm := None, version := v', nextFile := db.nextFile + 1);
  }

  lemma SortedAt(v: Version, l: nat) requires LevelsSorted(v) && l < |v| ensures SortedBySmallest(v[l]) {}

  lemma FlushFits(v: Version, at: nat, f: File, l: nat)
    requires FreshNumber(v, f.number) && |v| == NUM_LEVELS && l < NUM_LEVELS
    ensures Manifest.Fits(v[l], Manifest.Edit({}, [(at, f)]), l)
  {
    var e := Manifest.Edit({}, [(at, f)]);
    forall g | g in Manifest.AddedAt(e, l) ensures g == f {
      assert (l, g) in e.added;
    }
  }
}
