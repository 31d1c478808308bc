/** The MANIFEST of a run of the database: the edits its steps write lead back to its current version. */
module ManifestRuns {
  import opened Bytes
  import opened Entries
  import opened Files
  import opened Inputs
  import opened Versions
  import opened Compactions
  import opened Steps
  import opened Database
  import opened Manifest
  import Background
  import VersionEdits
  import Log

  // ----- The edits of a run -----

  /** The edit a step logs, if it changes the version. */
  ghost function EditOf(step: Database.Step): seq<Edit> {
    match step
    case Flush(at, f) => [Edit({}, [(at, f)])]
    case Compact(level, in0, in1, _, outs) => [CompactionEditOf(level, in0, in1, outs)]
    case TrivialMove(level, f) => [CompactionEditOf(level, [f], [], [f])]
    case _ => []
  }

  ghost function RunEdits(steps: seq<Database.Step>, n: nat): seq<Edit>
    requires n <= |steps|
  {
    if n == 0 then [] else RunEdits(steps, n - 1) + EditOf(steps[n - 1])
  }

  ghost predicate Adds(e: Edit, f: File) { exists l :: (l, f) in e.added }

  ghost predicate Ever(edits: seq<Edit>, f: File) { exists i :: 0 <= i < |edits| && Adds(edits[i], f) }

  /** No number ever names two files, all numbers given out are below the next, and the version's files are
      all ones that were added. */
  ghost predicate Named(db: DB, edits: seq<Edit>) {
    && (forall f :: Ever(edits, f) ==> f.number < db.nextFile)
    && (forall f, g :: Ever(edits, f) && Ever(edits, g) && f.number == g.number ==> f == g)
    && (forall l, f :: 0 <= l < |db.version| && f in db.version[l] ==> Ever(edits, f))
  }

  lemma EverNext(edits: seq<Edit>, e: Edit, f: File)
    ensures Ever(edits + [e], f) <==> Ever(edits, f) || Adds(e, f)
  {
    var edits' := edits + [e];
    if Ever(edits, f) {
      var i :| 0 <= i < |edits| && Adds(edits[i], f);
      assert Adds(edits'[i], f);
    }
    if Adds(e, f) {
      assert Adds(edits'[|edits|], f);
    }
  }

  lemma CompactionAdds(level: nat, in0: seq<File>, in1: seq<File>, outs: seq<File>, f: File)
    ensures Adds(CompactionEditOf(level, in0, in1, outs), f) <==> f in outs
  {
    var e := CompactionEditOf(level, in0, in1, outs);
    CompactionEditIs(level, in0, in1, outs);
    assert (level + 1, f) in e.added <==> f in outs;
  }

  lemma FlushAdds(at: nat, f: File, g: File)
    ensures Adds(Edit({}, [(at, f)]), g) <==> g == f
  {
    assert (at, f) in [(at, f)];
  }

  /** New files take the next numbers; a moved file is one that was added before. */
  lemma StepKeepsNamed(db: DB, step: Database.Step, db': DB, edits: seq<Edit>)
    requires Named(db, edits) && Next(db, step, db') && |db.version| == NUM_LEVELS
    ensures Named(db', edits + EditOf(step))
  {
    match step
    case Flush(at, f) =>
      var e := Edit({}, [(at, f)]);
      hide Placeable, SortedBySmallest;
      forall g ensures Ever(edits + [e], g) <==> Ever(edits, g) || g == f {
        EverNext(edits, e, g);
        FlushAdds(at, f, g);
      }
      forall l, g | 0 <= l < |db'.version| && g in db'.version[l] ensures Ever(edits + [e], g) {
        assert AddedLevel(db.version[l], db'.version[l], l, at, f);
      }
    case Compact(level, in0, in1, input, outs) =>
      CompactKeepsNamed(db, level, in0, in1, outs, db', edits, db.nextFile);
    case TrivialMove(level, f) =>
      MovedFile(db.version, level, f);
      CompactKeepsNamed(db, level, [f], [], [f], db', edits, db.nextFile);
    case _ => assert edits + [] == edits;
  }

  lemma CompactKeepsNamed(db: DB, level: nat, in0: seq<File>, in1: seq<File>, outs: seq<File>, db': DB, edits: seq<Edit>, first: nat)
    requires Named(db, edits) && first == db.nextFile && Replaced(db.version, db'.version, level, in0, in1, outs)
    requires (Numbered(outs, first) && db'.nextFile == first + |outs|) ||
             ((forall f :: f in outs ==> Ever(edits, f)) && db'.nextFile == first)
    ensures Named(db', edits + [CompactionEditOf(level, in0, in1, outs)])
  {
    hide SortedBySmallest, CompactionEditOf, Removed;
    var e := CompactionEditOf(level, in0, in1, outs);
    forall g ensures Ever(edits + [e], g) <==> Ever(edits, g) || g in outs {
      EverNext(edits, e, g);
      CompactionAdds(level, in0, in1, outs, g);
    }
    hide Ever;
    forall l, g | 0 <= l < |db'.version| && g in db'.version[l] ensures Ever(edits + [e], g) {
      assert ReplacedLevel(db.version[l], db'.version[l], l, level, in0, in1, outs);
    }
  }

  // ----- Installing them one by one gives the version -----

  lemma StepInstalls(db: DB, step: Database.Step, db': DB, l: nat)
    requires Inv(db) && Next(db, step, db') && l < NUM_LEVELS
    ensures |db.version| == NUM_LEVELS == |db'.version|
    ensures FileSet(db'.version[l]) ==
      if EditOf(step) == [] then FileSet(db.version[l]) else Install(FileSet(db.version[l]), EditOf(step)[0], l)
  {
    hide Inv, Next, Install, FileSet, CompactionEditOf;
    VersionLength(db);
    match step
    case Flush(at, f) => FlushStepInstalls(db, at, f, db', l);
    case Compact(level, in0, in1, input, outs) => CompactStepInstalls(db, level, in0, in1, input, outs, db', l);
    case TrivialMove(level, f) => MoveStepInstalls(db, level, f, db', l);
    case _ => SameVersion(db, step, db');
  }

  lemma SameVersion(db: DB, step: Database.Step, db': DB)
    requires Next(db, step, db') && EditOf(step) == []
    ensures db'.version == db.version
  {}

  lemma FlushStepInstalls(db: DB, at: nat, f: File, db': DB, l: nat)
    requires Next(db, Flush(at, f), db') && l < NUM_LEVELS == |db.version|
    ensures |db'.version| == NUM_LEVELS && FileSet(db'.version[l]) == Install(FileSet(db.version[l]), Edit({}, [(at, f)]), l)
  {
    hide Install, SortedBySmallest, Placeable;
    forall g ensures g in FileSet(db'.version[l]) <==> g in Install(FileSet(db.version[l]), Edit({}, [(at, f)]), l) {
      assert AddedLevel(db.version[l], db'.version[l], l, at, f);
      FlushInstallsFile(db.version[l], at, f, l, g);
    }
  }

  lemma CompactStepInstalls(db: DB, level: nat, in0: seq<File>, in1: seq<File>, input: seq<Entry>, outs: seq<File>, db': DB, l: nat)
    requires Inv(db) && Next(db, Database.Step.Compact(level, in0, in1, input, outs), db') && l < NUM_LEVELS == |db.version|
    ensures |db'.version| == NUM_LEVELS
    ensures FileSet(db'.version[l]) == Install(FileSet(db.version[l]), CompactionEditOf(level, in0, in1, outs), l)
  {
    hide Inv, Install, FileSet, SortedBySmallest, CompactionOk, FreshNumber, Numbered, CompactionEditOf, Sorted, Kept, Flatten, InputEntries;
    Background.InvFresh(db);
    CompactionLevels(db.version, level, in0, in1);
    Background.FromLevels(db.version, level, in0, in1);
    NewNumbers(db.version, outs, db.nextFile, level + 1);
    ReplacedInstalls(db.version, db'.version, level, in0, in1, outs, l);
  }

  lemma MoveStepInstalls(db: DB, level: nat, f: File, db': DB, l: nat)
    requires Next(db, TrivialMove(level, f), db') && l < NUM_LEVELS == |db.version|
    ensures |db'.version| == NUM_LEVELS
    ensures FileSet(db'.version[l]) == Install(FileSet(db.version[l]), CompactionEditOf(level, [f], [], [f]), l)
  {
    hide Install, FileSet, CompactionEditOf, Replaced, CompactionOk;
    MoveInstalls(db.version, db'.version, level, f, l);
  }

  lemma VersionLength(db: DB) requires Inv(db) ensures |db.version| == NUM_LEVELS && Valid(db.version) {
    hide LevelOrder, FilesOk, Disjoint, UniqueNumbers, NumberOrder, MemoryNewer, SameReads, Store, Hist;
  }

  lemma FlushInstallsFile(fs: seq<File>, at: nat, f: File, l: nat, g: File)
    ensures g in Install(FileSet(fs), Edit({}, [(at, f)]), l) <==> g in fs || (l == at && g == f)
  {
    var e := Edit({}, [(at, f)]);
    assert DeletedAt(e, l) == {};
    assert (at, f) in e.added;
    assert g in AddedAt(e, l) <==> l == at && g == f;
  }

  lemma NewNumbers(v: Version, outs: seq<File>, first: nat, l: nat)
    requires FreshNumber(v, first) && Numbered(outs, first) && l < |v|
    ensures forall f, g :: f in outs && g in v[l] ==> f.number != g.number
  {}

  lemma ReplacedInstalls(v: Version, v': Version, level: nat, in0: seq<File>, in1: seq<File>, outs: seq<File>, l: nat)
    requires UniqueNumbers(v) && level + 1 < |v| && l < |v| && Replaced(v, v', level, in0, in1, outs)
    requires From(v[level], in0) && From(v[level + 1], in1)
    requires forall f, g :: f in outs && g in v[level + 1] ==> f.number != g.number
    ensures FileSet(v'[l]) == Install(FileSet(v[l]), CompactionEditOf(level, in0, in1, outs), l)
  {
    hide Install, CompactionEditOf, SortedBySmallest, UniqueNumbers, CompactionEdit, Removed;
    CompactionEditIs(level, in0, in1, outs);
    var e := CompactionEditOf(level, in0, in1, outs);
    assert ReplacedLevel(v[l], v'[l], l, level, in0, in1, outs);
    forall f ensures f in FileSet(v'[l]) <==> f in Install(FileSet(v[l]), e, l) {
      CompactionInstallsFile(v, e, level, in0, in1, outs, l, f);
    }
  }

  lemma MoveInstalls(v: Version, v': Version, level: nat, f: File, l: nat)
    requires CompactionOk(v, level, [f], []) && Replaced(v, v', level, [f], [], [f]) && l < NUM_LEVELS
    ensures |v| == NUM_LEVELS == |v'|
    ensures FileSet(v'[l]) == Install(FileSet(v[l]), CompactionEditOf(level, [f], [], [f]), l)
  {
    hide Install, FileSet, CompactionEditOf, SortedBySmallest, Valid, GoodInputs;
    Background.FromLevels(v, level, [f], []);
    MovedFile(v, level, f);
    forall h, g | h in [f] && g in v[level + 1] ensures h.number != g.number {
    }
    ReplacedInstalls(v, v', level, [f], [], [f], l);
  }

  /** On every run, the edits logged so far, installed one by one from nothing, give the current version. */
  lemma {:induction false} RunInstalls(states: seq<DB>, steps: seq<Database.Step>, n: nat)
    requires IsRun(states, steps) && n < |states|
    ensures |states[n].version| == NUM_LEVELS && Named(states[n], RunEdits(steps, n))
    ensures forall l :: 0 <= l < NUM_LEVELS ==> InstallAll({}, RunEdits(steps, n), l) == FileSet(states[n].version[l])
  {
    hide Next, Inv, Install, InstallAll, Named, FileSet, EditOf;
    if n == 0 {
      StartNamed(states[0]);
    } else {
      RunInstalls(states, steps, n - 1);
      RunInv(states, steps, n - 1);
      OneEdit(steps[n - 1]);
      var db, step, db' := states[n - 1], steps[n - 1], states[n];
      StepKeepsNamed(db, step, db', RunEdits(steps, n - 1));
      StepInstalls(db, step, db', 0);
      forall l | 0 <= l < NUM_LEVELS ensures InstallAll({}, RunEdits(steps, n), l) == FileSet(db'.version[l]) {
        StepInstalls(db, step, db', l);
        InstallNext(RunEdits(steps, n - 1), EditOf(step), l);
      }
    }
  }

  lemma OneEdit(step: Database.Step) ensures |EditOf(step)| <= 1 {}

  lemma StartNamed(db: DB)
    requires Start(db)
    ensures |db.version| == NUM_LEVELS && Named(db, []) && forall l :: 0 <= l < NUM_LEVELS ==> InstallAll({}, [], l) == FileSet(db.version[l])
  {}

  lemma InstallNext(edits: seq<Edit>, more: seq<Edit>, l: nat)
    requires |more| <= 1
    ensures InstallAll({}, edits + more, l) ==
      if more == [] then InstallAll({}, edits, l) else Install(InstallAll({}, edits, l), more[0], l)
  {
    if more == [] {
      assert edits + more == edits;
    } else {
      assert (edits + more)[..|edits|] == edits;
    }
  }

  lemma NamedNames(db: DB, edits: seq<Edit>, l: nat)
    requires Named(db, edits)
    ensures NumberNamesFile({}, edits, l)
  {
    forall f | Mentioned({}, edits, l, f) ensures Ever(edits, f) {
      var i :| 0 <= i < |edits| && f in AddedAt(edits[i], l);
      assert (l, f) in edits[i].added;
      assert Adds(edits[i], f);
    }
  }

  // ----- Recovery -----

  lemma EditInRange(db: DB, step: Database.Step, db': DB, e: Edit)
    requires Next(db, step, db') && e in EditOf(step)
    ensures LevelsInRange(e)
  {
    hide SortedBySmallest, Sorted, Kept, Flatten, InputEntries, Valid, GoodInputs, Replaced, Added, NoOverlap;
    match step
    case Flush(at, f) =>
    case Compact(level, in0, in1, _, outs) => Background.EditLevels(level, in0, in1, outs);
    case TrivialMove(level, f) => Background.EditLevels(level, [f], [], [f]);
  }

  lemma {:induction false} RunInRange(states: seq<DB>, steps: seq<Database.Step>, n: nat, e: Edit)
    requires IsRun(states, steps) && n < |states| && e in RunEdits(steps, n)
    ensures LevelsInRange(e)
    decreases n
  {
    hide Next, EditOf, LevelsInRange;
    if e in RunEdits(steps, n - 1) {
      RunInRange(states, steps, n - 1, e);
    } else {
      EditInRange(states[n - 1], steps[n - 1], states[n], e);
    }
  }

  /** Files in order: the set of files determines the list. */
  lemma {:induction false} SortedUnique(a: seq<File>, b: seq<File>)
    requires SortedBySmallest(a) && SortedBySmallest(b) && FileSet(a) == FileSet(b)
    ensures a == b
    decreases |a|
  {
    BothEmpty(a, b);
    if a != [] {
      var k, m := |a| - 1, |b| - 1;
      SameLast(a, b);
      hide BySmallestKey;
      forall f ensures f in FileSet(a[..k]) <==> f in FileSet(b[..m]) {
        WithoutLast(a, f);
        WithoutLast(b, f);
      }
      SortedUnique(a[..k], b[..m]);
      assert a == a[..k] + [a[k]] && b == b[..m] + [b[m]];
    }
  }

  lemma BothEmpty(a: seq<File>, b: seq<File>)
    requires FileSet(a) == FileSet(b)
    ensures a == [] <==> b == []
  {
    assert a != [] ==> a[0] in FileSet(a);
    assert b != [] ==> b[0] in FileSet(b);
  }

  lemma SameLast(a: seq<File>, b: seq<File>)
    requires SortedBySmallest(a) && SortedBySmallest(b) && FileSet(a) == FileSet(b) && a != [] && b != []
    ensures a[|a| - 1] == b[|b| - 1]
  {
    var x, y := a[|a| - 1], b[|b| - 1];
    assert x in FileSet(b) && y in FileSet(a);
    var i :| 0 <= i < |b| && b[i] == x;
    var j :| 0 <= j < |a| && a[j] == y;
    BySmallestKeyTotal(x, y);
    assert i < |b| - 1 ==> BySmallestKey(x, y);
    assert j < |a| - 1 ==> BySmallestKey(y, x);
  }

  lemma WithoutLast(a: seq<File>, f: File)
    requires SortedBySmallest(a) && a != []
    ensures f in FileSet(a[..|a| - 1]) <==> f in FileSet(a) && f != a[|a| - 1]
  {
    var k := |a| - 1;
    if f in a[..k] {
      var i :| 0 <= i < k && a[i] == f;
      assert BySmallestKey(a[i], a[k]);
    }
  }

  /** Recovery from a run's edits rebuilds exactly its current version, level by level and file by file. */
  method RecoverRun(ghost states: seq<DB>, ghost steps: seq<Database.Step>, ghost n: nat, edits: seq<Edit>) returns (v: Version)
    requires IsRun(states, steps) && n < |states| && edits == RunEdits(steps, n)
    ensures v == states[n].version
  {
    hide IsRun, RunEdits, LevelsInRange, NumberNamesFile, Named, InstallAll, FileSet, SortedBySmallest, LevelsSorted;
    RunInstalls(states, steps, n);
    forall i | 0 <= i < |edits| ensures LevelsInRange(edits[i]) {
      RunInRange(states, steps, n, edits[i]);
    }
    forall l | 0 <= l < NUM_LEVELS ensures NumberNamesFile({}, edits, l) {
      NamedNames(states[n], edits, l);
    }
    v := Recover(edits);
    RunSorted(states, steps, n);
    forall l | 0 <= l < NUM_LEVELS ensures v[l] == states[n].version[l] {
      Background.SortedAt(states[n].version, l);
      SortedUnique(v[l], states[n].version[l]);
    }
  }

  // ----- Through the bytes of the MANIFEST -----

  type KeyBytes = InternalKey -> seq<Byte>

  function MetaOf(enc: KeyBytes, f: File): VersionEdits.FileMeta {
    VersionEdits.FileMeta(f.number, f.size, enc(Smallest(f)), enc(Largest(f)))
  }

  /** The record lists what the edit deletes and adds; its other fields may be anything. */
  ghost predicate Records(enc: KeyBytes, e: Edit, r: VersionEdits.Edit) {
    && r.deleted == e.deleted && |r.newFiles| == |e.added|
    && forall i :: 0 <= i < |e.added| ==> r.newFiles[i] == (e.added[i].0, MetaOf(enc, e.added[i].1))
  }

  /** Every file the edits add is on disk under its number. */
  ghost predicate OnDisk(disk: map<nat, File>, edits: seq<Edit>) {
    forall f :: Ever(edits, f) ==> f.number in disk && disk[f.number] == f
  }

  /** Reading a record: files are known by their numbers. */
  method ReadEdit(r: VersionEdits.Edit, disk: map<nat, File>, ghost enc: KeyBytes, ghost edits: seq<Edit>, ghost i: nat) returns (e: Edit)
    requires i < |edits| && Records(enc, edits[i], r) && OnDisk(disk, edits)
    ensures e == edits[i]
  {
    var added: seq<(nat, File)> := [];
    while |added| < |r.newFiles|
      invariant |added| <= |r.newFiles| && added == edits[i].added[..|added|]
    {
      var k := |added|;
      AddedOnDisk(disk, edits, i, k);
      added := added + [(r.newFiles[k].0, disk[r.newFiles[k].1.number])];
    }
    e := Edit(r.deleted, added);
  }

  lemma AddedOnDisk(disk: map<nat, File>, edits: seq<Edit>, i: nat, k: nat)
    requires OnDisk(disk, edits) && i < |edits| && k < |edits[i].added|
    ensures var f := edits[i].added[k].1; f.number in disk && disk[f.number] == f
  {
    var p := edits[i].added[k];
    assert (p.0, p.1) in edits[i].added;
    assert Adds(edits[i], p.1);
    assert Ever(edits, p.1);
  }

  /** Some earlier state of the run had logged exactly the first k edits. */
  lemma {:induction false} PrefixState(steps: seq<Database.Step>, n: nat, k: nat) returns (m: nat)
    requires n <= |steps| && k <= |RunEdits(steps, n)|
    ensures m <= n && RunEdits(steps, m) == RunEdits(steps, n)[..k]
    ensures k == |RunEdits(steps, n)| ==> m == n
    decreases n
  {
    hide EditOf;
    if k == |RunEdits(steps, n)| {
      m := n;
      assert RunEdits(steps, n)[..k] == RunEdits(steps, n);
    } else {
      OneEdit(steps[n - 1]);
      var before := RunEdits(steps, n - 1);
      m := PrefixState(steps, n - 1, k);
      assert RunEdits(steps, n)[..k] == before[..k];
    }
  }

  /** The MANIFEST's records: every edit as it is encoded. */
  function Payloads(records: seq<VersionEdits.Edit>, orders: seq<seq<(nat, nat)>>): (r: seq<seq<Byte>>)
    requires |records| == |orders|
    ensures |r| == |records|
  {
    seq(|records|, i requires 0 <= i < |records| => VersionEdits.EncodeFields(VersionEdits.Fields(records[i], orders[i])))
  }

  /** The edits of a run are encoded and logged, the MANIFEST is cut at any byte, and what is left of it is read,
      decoded and replayed: the result is the version some state of the run had, and the current one if nothing
      was cut off. */
  method RecoverFromManifest(step: CrcStep, check: bool, ghost states: seq<DB>, ghost steps: seq<Database.Step>, ghost n: nat,
                             ghost edits: seq<Edit>, ghost enc: KeyBytes, records: seq<VersionEdits.Edit>,
                             orders: seq<seq<(nat, nat)>>, disk: map<nat, File>, cut: nat)
    returns (v: Version, ghost m: nat)
    requires IsRun(states, steps) && n < |states| && edits == RunEdits(steps, n) && OnDisk(disk, edits)
    requires |records| == |edits| == |orders|
    requires forall i :: 0 <= i < |edits| ==> Records(enc, edits[i], records[i]) && VersionEdits.Storable(records[i], orders[i])
    ensures m <= n && m < |states| && v == states[m].version
    ensures RunEdits(steps, m) == edits[..Log.Whole(step, Payloads(records, orders), cut)]
    ensures Log.Whole(step, Payloads(records, orders), cut) == |edits| ==> m == n
  {
    hide IsRun, RunEdits, Records, OnDisk, VersionEdits.Storable, VersionEdits.EncodeFields, VersionEdits.Fields, VersionEdits.Decode,
         Log.Whole;
    RunLength(states, steps);
    var payloads: seq<seq<Byte>> := [];
    while |payloads| < |records|
      invariant |payloads| <= |records|
      invariant forall i :: 0 <= i < |payloads| ==> payloads[i] == VersionEdits.EncodeFields(VersionEdits.Fields(records[i], orders[i]))
    {
      var p := VersionEdits.EncodeTo(records[|payloads|], orders[|payloads|]);
      payloads := payloads + [p];
    }
    assert payloads == Payloads(records, orders);
    var back, _ := Log.WriteCutRead(step, check, payloads, cut);
    var found: seq<Edit> := [];
    while |found| < |back|
      invariant |found| <= |back| && found == edits[..|found|]
    {
      var i := |found|;
      var d := VersionEdits.DecodeFrom(back[i]);
      VersionEdits.RoundTrip(records[i], orders[i]);
      var e := ReadEdit(d.edit, disk, enc, edits, i);
      found := found + [e];
    }
    m := PrefixState(steps, n, |back|);
    v := RecoverRun(states, steps, m, found);
  }

  lemma RunLength(states: seq<DB>, steps: seq<Database.Step>) requires IsRun(states, steps) ensures |states| == |steps| + 1 {}
}
