/** The merge loop of a compaction: which entries are dropped, how the rest is cut into files, and
    why no read at or after the oldest snapshot notices. */
module Compactions {
  import opened Wrappers
  import opened Entries
  import opened Files
  import opened Versions

  // ----- The base level test -----

  predicate InRange(f: File, k: UserKey) { Smallest(f).key <= k <= Largest(f).key }

  /** No file two or more levels below `level` can hold user key k. */
  ghost predicate BaseLevel(v: Version, level: nat, k: UserKey) {
    forall l, f :: level + 2 <= l < |v| && f in v[l] ==> !InRange(f, k)
  }

  /** The part of a Compaction object that IsBaseLevelForKey advances. */
  class Compaction {
    const version: Version
    const level: nat
    const levelPtrs: array<nat>
    ghost var lastKey: Option<UserKey>

    ghost predicate Ready()
      reads this, levelPtrs
    {
      && |version| == NUM_LEVELS && level + 1 < NUM_LEVELS && levelPtrs.Length == NUM_LEVELS
      && (forall l :: 1 <= l < NUM_LEVELS ==> FilesOk(version[l]) && Disjoint(version[l]))
      && forall l :: level + 2 <= l < NUM_LEVELS ==> PtrOk(version[l], levelPtrs[l], lastKey)
    }

    constructor (v: Version, lvl: nat)
      requires Valid(v) && lvl + 1 < NUM_LEVELS
      ensures Ready() && fresh(levelPtrs) && version == v && level == lvl && lastKey == None
    {
      version, level, lastKey := v, lvl, None;
      levelPtrs := new nat[NUM_LEVELS](_ => 0);
      new;
      forall l | 1 <= l < NUM_LEVELS ensures FilesOk(v[l]) && Disjoint(v[l]) { ValidLevel(v, l); }
    }

    /** Asked about user keys in ascending order, the incremental test equals the full scan. */
    method IsBaseLevelForKey(k: UserKey) returns (r: bool)
      requires Ready() && (lastKey.Some? ==> lastKey.value <= k)
      modifies this, levelPtrs
      ensures Ready() && lastKey == Some(k)
      ensures r <==> BaseLevel(version, level, k)
    {
      lastKey := Some(k);
      var lvl := level + 2;
      while lvl < NUM_LEVELS
        invariant level + 2 <= lvl && (lvl <= NUM_LEVELS || lvl == level + 2)
        invariant Ready() && lastKey == Some(k)
        invariant forall l, f :: level + 2 <= l < lvl && l < NUM_LEVELS && f in version[l] ==> !InRange(f, k)
      {
        var files := version[lvl];
        while levelPtrs[lvl] < |files|
          invariant Ready() && lastKey == Some(k)
          decreases |files| - levelPtrs[lvl]
        {
          var f := files[levelPtrs[lvl]];
          if k <= Largest(f).key {
            if Smallest(f).key <= k {
              assert f in version[lvl] && InRange(f, k);
              return false;
            }
            break;
          }
          levelPtrs[lvl] := levelPtrs[lvl] + 1;
        }
        PtrSettles(files, levelPtrs[lvl], k);
        lvl := lvl + 1;
      }
      r := true;
    }
  }

  /** Every file the pointer has passed ends before the last key asked about. */
  ghost predicate PtrOk(fs: seq<File>, ptr: nat, last: Option<UserKey>) {
    && ptr <= |fs|
    && (last.None? ==> ptr == 0)
    && (last.Some? ==> forall j :: 0 <= j < ptr ==> Largest(fs[j]).key < last.value)
  }

  lemma PtrSettles(fs: seq<File>, ptr: nat, k: UserKey)
    requires FilesOk(fs) && Disjoint(fs) && PtrOk(fs, ptr, Some(k))
    requires ptr < |fs| ==> k <= Largest(fs[ptr]).key && k < Smallest(fs[ptr]).key
    ensures forall f :: f in fs ==> !InRange(f, k)
  {
    forall j | 0 <= j < |fs| ensures !InRange(fs[j], k) {
      FileBounds(fs[j]);
      if ptr < j {
        FileBounds(fs[ptr]);
        assert Before(Largest(fs[ptr]), Smallest(fs[j]));
      }
    }
  }

  // ----- The drop rules -----

  /** Rule (A): an entry right after one of the same user key that the oldest snapshot already sees. */
  predicate Hidden(input: seq<Entry>, i: nat, oldest: nat)
    requires i < |input|
  {
    i > 0 && input[i - 1].key == input[i].key && input[i - 1].seqno <= oldest
  }

  /** A deletion marker every snapshot sees, with nothing older below. */
  ghost predicate Obsolete(v: Version, level: nat, e: Entry, oldest: nat) {
    e.kind.Deletion? && e.seqno <= oldest && BaseLevel(v, level, e.key)
  }

  ghost predicate IsKept(v: Version, level: nat, input: seq<Entry>, i: nat, oldest: nat)
    requires i < |input|
  {
    !Hidden(input, i, oldest) && !Obsolete(v, level, input[i], oldest)
  }

  ghost function Kept(v: Version, level: nat, input: seq<Entry>, oldest: nat, n: nat): (r: seq<Entry>)
    requires n <= |input|
  {
    if n == 0 then []
    else
      Kept(v, level, input, oldest, n - 1) + if IsKept(v, level, input, n - 1, oldest) then [input[n - 1]] else []
  }

  lemma {:induction false} KeptMembers(v: Version, level: nat, input: seq<Entry>, oldest: nat, n: nat)
    requires n <= |input|
    ensures forall e :: e in Kept(v, level, input, oldest, n) <==>
              exists i :: 0 <= i < n && IsKept(v, level, input, i, oldest) && input[i] == e
  {
    if n > 0 {
      KeptMembers(v, level, input, oldest, n - 1);
    }
  }

  lemma {:induction false} KeptSorted(v: Version, level: nat, input: seq<Entry>, oldest: nat, n: nat)
    requires n <= |input| && Sorted(input)
    ensures Sorted(Kept(v, level, input, oldest, n))
    ensures forall e :: e in Kept(v, level, input, oldest, n) ==> e in input[..n]
  {
    if n > 0 {
      KeptSorted(v, level, input, oldest, n - 1);
      assert forall e :: e in input[..n - 1] ==> Before(IKey(e), IKey(input[n - 1]));
      assert input[..n] == input[..n - 1] + [input[n - 1]];
    }
  }

  /** Below an entry the oldest snapshot sees, all entries of its user key are hidden. */
  lemma OlderHidden(input: seq<Entry>, i: nat, j: nat, oldest: nat)
    requires Sorted(input) && i < j < |input| && input[i].key == input[j].key && input[i].seqno <= oldest
    ensures Hidden(input, j, oldest)
  {
    if i < j - 1 {
      assert Before(IKey(input[i]), IKey(input[j - 1]));
    }
    assert Before(IKey(input[j - 1]), IKey(input[j]));
  }

  /** No entry outside the inputs is older than a deletion the inputs may drop. */
  ghost predicate NothingBelow(v: Version, level: nat, rest: set<Entry>, input: seq<Entry>, oldest: nat) {
    forall x, y :: x in input && Obsolete(v, level, x, oldest) && y in rest && y.key == x.key ==> Tag(y) > Tag(x)
  }

  lemma DroppedIsRedundant(v: Version, level: nat, rest: set<Entry>, input: seq<Entry>, oldest: nat, k: UserKey, s: nat)
    requires Sorted(input) && NothingBelow(v, level, rest, input, oldest) && s >= oldest
    ensures Redundant(rest + EntrySet(input), rest + EntrySet(Kept(v, level, input, oldest, |input|)), k, s)
  {
    var all := rest + EntrySet(input);
    var kept := rest + EntrySet(Kept(v, level, input, oldest, |input|));
    KeptMembers(v, level, input, oldest, |input|);
    forall e | IsNewest(all, k, s, e) && e !in kept ensures e.kind.Deletion? && NoneVisible(kept, k, s) {
      var i :| 0 <= i < |input| && input[i] == e;
      DroppedNewest(v, level, all, input, oldest, k, s, i);
      forall y | y in kept && Visible(y, k, s) ensures false {
        KeptBelow(v, level, rest, input, oldest, k, s, i, y);
      }
    }
  }

  lemma HiddenBy(input: seq<Entry>, i: nat, oldest: nat)
    requires Sorted(input) && i < |input| && Hidden(input, i, oldest)
    ensures input[i - 1] in input && Tag(input[i - 1]) > Tag(input[i])
  {
    assert Before(IKey(input[i - 1]), IKey(input[i]));
  }

  /** A dropped entry that is the newest visible one was dropped as an obsolete deletion. */
  lemma DroppedNewest(v: Version, level: nat, all: set<Entry>, input: seq<Entry>, oldest: nat, k: UserKey, s: nat, i: nat)
    requires Sorted(input) && i < |input| && s >= oldest && IsNewest(all, k, s, input[i])
    requires (forall x :: x in input ==> x in all) && !IsKept(v, level, input, i, oldest)
    ensures Obsolete(v, level, input[i], oldest)
  {
    if Hidden(input, i, oldest) {
      HiddenBy(input, i, oldest);
      assert false;
    }
  }

  /** Nothing visible that is kept is older than an obsolete deletion. */
  lemma KeptBelow(v: Version, level: nat, rest: set<Entry>, input: seq<Entry>, oldest: nat, k: UserKey, s: nat, i: nat, y: Entry)
    requires Sorted(input) && NothingBelow(v, level, rest, input, oldest) && i < |input|
    requires input[i].key == k && Obsolete(v, level, input[i], oldest) && y.key == k && Tag(y) <= Tag(input[i])
    ensures y !in rest
    ensures y !in Kept(v, level, input, oldest, |input|)
  {
    KeptMembers(v, level, input, oldest, |input|);
    if y in Kept(v, level, input, oldest, |input|) {
      var j :| 0 <= j < |input| && IsKept(v, level, input, j, oldest) && input[j] == y;
      if i < j {
        OlderHidden(input, i, j, oldest);
      }
    }
  }

  /** The drop loop changes no read at or after the oldest snapshot. */
  lemma DropKeepsReads(v: Version, level: nat, rest: set<Entry>, input: seq<Entry>, oldest: nat)
    requires Sorted(input) && NothingBelow(v, level, rest, input, oldest) && Distinct(rest + EntrySet(input))
    ensures SameReads(rest + EntrySet(input), rest + EntrySet(Kept(v, level, input, oldest, |input|)), oldest)
  {
    forall k: UserKey, s: nat | s >= oldest
      ensures Redundant(rest + EntrySet(input), rest + EntrySet(Kept(v, level, input, oldest, |input|)), k, s)
    {
      DroppedIsRedundant(v, level, rest, input, oldest, k, s);
    }
    KeptSorted(v, level, input, oldest, |input|);
    ThinningKeepsReads(rest + EntrySet(input), rest + EntrySet(Kept(v, level, input, oldest, |input|)), oldest);
  }

  // ----- What a compaction has to write -----

  /** No two entries of one user key carry the same sequence number. */
  ghost predicate OneEach(input: seq<Entry>) {
    forall i, j :: 0 <= i < j < |input| && input[i].key == input[j].key ==> input[i].seqno != input[j].seqno
  }

  /** Some reader at or after `oldest` finds e first, and e is not a deletion all of them see with no file from
      two levels below on whose range takes in its key. */
  ghost predicate Wanted(v: Version, level: nat, es: set<Entry>, oldest: nat, e: Entry) {
    && (exists s: nat :: s >= oldest && IsNewest(es, e.key, s, e))
    && (e.kind.Deletion? && e.seqno <= oldest ==>
          exists l, f :: level + 2 <= l < |v| && f in v[l] && Smallest(f).key <= e.key <= Largest(f).key)
  }

  /** A hidden entry is the newest for nobody. */
  lemma HiddenUnseen(input: seq<Entry>, i: nat, oldest: nat, s: nat)
    requires Sorted(input) && i < |input| && Hidden(input, i, oldest) && s >= oldest
    ensures !IsNewest(EntrySet(input), input[i].key, s, input[i])
  {
    HiddenBy(input, i, oldest);
    assert Visible(input[i - 1], input[i].key, s);
  }

  /** An entry that is not hidden is the newest for a reader at its own number or at the oldest one. */
  lemma UnhiddenSeen(input: seq<Entry>, i: nat, oldest: nat)
    requires Sorted(input) && OneEach(input) && i < |input| && !Hidden(input, i, oldest)
    ensures exists s: nat :: s >= oldest && IsNewest(EntrySet(input), input[i].key, s, input[i])
  {
    var e := input[i];
    var s := if e.seqno < oldest then oldest else e.seqno;
    forall x | x in EntrySet(input) && Visible(x, e.key, s) ensures Tag(x) <= Tag(e) {
      var j :| 0 <= j < |input| && input[j] == x;
      if j < i {
        NewerAbove(input, i, j, oldest);
      } else if i < j {
        assert Before(IKey(input[i]), IKey(input[j]));
      }
    }
    assert IsNewest(EntrySet(input), e.key, s, e);
  }

  lemma NewerAbove(input: seq<Entry>, i: nat, j: nat, oldest: nat)
    requires Sorted(input) && OneEach(input) && j < i < |input| && !Hidden(input, i, oldest)
    requires input[j].key == input[i].key
    ensures input[j].seqno > oldest && input[j].seqno > input[i].seqno
  {
    assert Before(IKey(input[i - 1]), IKey(input[i]));
    if j < i - 1 {
      assert Before(IKey(input[j]), IKey(input[i - 1]));
    }
    assert input[j].seqno >= input[i - 1].seqno > input[i].seqno;
  }

  lemma NotBase(v: Version, level: nat, k: UserKey)
    ensures !BaseLevel(v, level, k) <==>
      exists l, f :: level + 2 <= l < |v| && f in v[l] && Smallest(f).key <= k <= Largest(f).key
  {
    if !BaseLevel(v, level, k) {
      var l, f :| level + 2 <= l < |v| && f in v[l] && InRange(f, k);
    } else {
      forall l, f | level + 2 <= l < |v| && f in v[l] ensures !(Smallest(f).key <= k <= Largest(f).key) {
        assert !InRange(f, k);
      }
    }
  }

  /** What survives is what is wanted, entry by entry. */
  lemma KeptIsWanted(v: Version, level: nat, input: seq<Entry>, oldest: nat, i: nat)
    requires Sorted(input) && OneEach(input) && i < |input|
    ensures IsKept(v, level, input, i, oldest) <==> Wanted(v, level, EntrySet(input), oldest, input[i])
  {
    hide Sorted, IsNewest, OneEach, BaseLevel;
    NotBase(v, level, input[i].key);
    if Hidden(input, i, oldest) {
      forall s: nat | s >= oldest ensures !IsNewest(EntrySet(input), input[i].key, s, input[i]) {
        HiddenUnseen(input, i, oldest, s);
      }
    } else {
      UnhiddenSeen(input, i, oldest);
    }
  }

  /** The output is neither more nor less than what is wanted of the input. */
  lemma KeptWanted(v: Version, level: nat, input: seq<Entry>, oldest: nat)
    requires Sorted(input) && OneEach(input)
    ensures forall e :: e in Kept(v, level, input, oldest, |input|) <==>
              e in input && Wanted(v, level, EntrySet(input), oldest, e)
  {
    hide Sorted, OneEach, Wanted, IsKept, Kept;
    KeptMembers(v, level, input, oldest, |input|);
    forall i | 0 <= i < |input|
      ensures IsKept(v, level, input, i, oldest) <==> Wanted(v, level, EntrySet(input), oldest, input[i])
    {
      KeptIsWanted(v, level, input, oldest, i);
    }
  }

  // ----- The loop -----

  function Flatten(fs: seq<File>): seq<Entry> {
    if fs == [] then [] else Flatten(fs[..|fs| - 1]) + fs[|fs| - 1].entries
  }

  lemma FlattenAppend(fs: seq<File>, f: File)
    ensures Flatten(fs + [f]) == Flatten(fs) + f.entries
  {
    assert (fs + [f])[..|fs|] == fs;
  }

  // ----- Where output files end -----

  /** Between entries a and b of the input a file is closed: a filled it, or some entry up to b may not join it. */
  ghost predicate EndsBetween(stop: nat -> bool, full: nat -> bool, a: nat, b: nat) {
    full(a) || exists m :: a < m <= b && stop(m)
  }

  /** The places in the input of one file's entries: nothing closed it on the way. */
  ghost predicate Together(stop: nat -> bool, full: nat -> bool, ids: seq<nat>) {
    ids != [] && forall p, q :: 0 <= p && q == p + 1 < |ids| ==> ids[p] < ids[q] && !EndsBetween(stop, full, ids[p], ids[q])
  }

  /** One file after the other, each begun because the one before was closed. */
  ghost predicate CutWhere(stop: nat -> bool, full: nat -> bool, ids: seq<seq<nat>>) {
    && (forall j :: 0 <= j < |ids| ==> Together(stop, full, ids[j]))
    && forall j, k :: 0 <= j && k == j + 1 < |ids| ==> ids[j] != [] && ids[k] != [] && Follows(stop, full, ids[j], ids[k])
  }

  ghost predicate Follows(stop: nat -> bool, full: nat -> bool, a: seq<nat>, b: seq<nat>)
    requires a != [] && b != []
  {
    a[|a| - 1] < b[0] && EndsBetween(stop, full, a[|a| - 1], b[0])
  }

  ghost predicate At(input: seq<Entry>, ids: seq<nat>, es: seq<Entry>) {
    |ids| == |es| && forall p :: 0 <= p < |ids| ==> ids[p] < |input| && es[p] == input[ids[p]]
  }

  /** The files hold the entries at those places. */
  ghost predicate Hold(input: seq<Entry>, ids: seq<seq<nat>>, outputs: seq<File>) {
    |ids| == |outputs| && forall j :: 0 <= j < |ids| ==> At(input, ids[j], outputs[j].entries)
  }

  /** The output is cut exactly where an entry filled its file or a later one may not join it. */
  ghost predicate CutInto(input: seq<Entry>, stop: nat -> bool, full: nat -> bool, outputs: seq<File>) {
    exists ids: seq<seq<nat>> :: CutWhere(stop, full, ids) && Hold(input, ids, outputs)
  }

  /** The last place used, if any, is before i. */
  ghost predicate UsedBefore(ids: seq<seq<nat>>, open: seq<nat>, i: nat) {
    && (ids != [] ==> ids[|ids| - 1] != [] && ids[|ids| - 1][|ids[|ids| - 1]| - 1] < i)
    && (open != [] ==> open[|open| - 1] < i)
  }

  /** Before entry i: the last file was closed, or nothing would have closed the open one. */
  ghost predicate CutSoFar(stop: nat -> bool, full: nat -> bool, ids: seq<seq<nat>>, open: seq<nat>, i: nat) {
    && CutWhere(stop, full, ids) && UsedBefore(ids, open, i)
    && (if open == [] then ids != [] ==> Closed(stop, full, ids[|ids| - 1], i)
        else Together(stop, full, open) && !Closed(stop, full, open, i)
             && (ids != [] ==> Follows(stop, full, ids[|ids| - 1], open)))
  }

  ghost predicate Closed(stop: nat -> bool, full: nat -> bool, ids: seq<nat>, i: nat) {
    ids != [] && (full(ids[|ids| - 1]) || exists m :: ids[|ids| - 1] < m < i && stop(m))
  }

  lemma CloseFile(stop: nat -> bool, full: nat -> bool, ids: seq<seq<nat>>, open: seq<nat>)
    requires CutWhere(stop, full, ids) && Together(stop, full, open)
    requires ids != [] ==> ids[|ids| - 1] != [] && Follows(stop, full, ids[|ids| - 1], open)
    ensures CutWhere(stop, full, ids + [open])
  {}

  /** The open file is closed before entry i, or i might join it. */
  lemma StopFile(stop: nat -> bool, full: nat -> bool, ids: seq<seq<nat>>, open: seq<nat>, i: nat)
    requires CutSoFar(stop, full, ids, open, i)
    ensures stop(i) && open != [] ==> CutSoFar(stop, full, ids + [open], [], i + 1) && UsedBefore(ids + [open], [], i)
    ensures !(stop(i) && open != []) ==> CutSoFar(stop, full, ids, open, i + 1)
  {
    if open != [] {
      CloseFile(stop, full, ids, open);
    }
    hide CutWhere, Together, Follows;
  }

  /** Entry i joins the open file, or begins one. */
  lemma JoinFile(stop: nat -> bool, full: nat -> bool, ids: seq<seq<nat>>, open: seq<nat>, i: nat)
    requires CutSoFar(stop, full, ids, open, i + 1) && UsedBefore(ids, open, i)
    ensures full(i) ==> CutSoFar(stop, full, ids + [open + [i]], [], i + 1)
    ensures !full(i) ==> CutSoFar(stop, full, ids, open + [i], i + 1)
  {
    var more := open + [i];
    MoreTogether(stop, full, open, i);
    assert ids != [] ==> Follows(stop, full, ids[|ids| - 1], more) by {
      hide CutWhere, Together;
    }
    if full(i) {
      CloseFile(stop, full, ids, more);
    }
    hide CutWhere, Together, Follows;
  }

  lemma MoreTogether(stop: nat -> bool, full: nat -> bool, open: seq<nat>, i: nat)
    requires open != [] ==> Together(stop, full, open) && open[|open| - 1] < i && !Closed(stop, full, open, i + 1)
    ensures Together(stop, full, open + [i])
  {
    var more := open + [i];
    forall p, q | 0 <= p && q == p + 1 < |more| ensures more[p] < more[q] && !EndsBetween(stop, full, more[p], more[q]) {
      if q < |open| {
        assert more[p] == open[p] && more[q] == open[q];
      }
    }
  }

  /** What the open output file holds, if one is open. */
  ghost function Open(builder: Option<seq<Entry>>): seq<Entry> { if builder.Some? then builder.value else [] }

  ghost predicate Numbered(fs: seq<File>, first: nat) { forall i :: 0 <= i < |fs| ==> fs[i].number == first + i }

  /** The drop decision for entry i, given the user key and sequence number of the entry before it. */
  method ShouldDrop(c: Compaction, input: seq<Entry>, i: nat, oldest: nat, currentUserKey: Option<UserKey>, lastSequence: nat)
    returns (drop: bool)
    requires c.Ready() && Sorted(input) && i < |input| && oldest < MAX_SEQUENCE
    requires if i == 0 then currentUserKey.None? else currentUserKey == Some(input[i - 1].key) && lastSequence == input[i - 1].seqno
    requires c.lastKey.Some? ==> i > 0 && c.lastKey.value <= input[i - 1].key
    modifies c, c.levelPtrs
    ensures c.Ready() && (c.lastKey.Some? ==> c.lastKey.value <= input[i].key)
    ensures drop <==> !IsKept(c.version, c.level, input, i, oldest)
    ensures OneEach(input) ==> (drop <==> !Wanted(c.version, c.level, EntrySet(input), oldest, input[i]))
  {
    hide BaseLevel, Wanted, OneEach;
    if OneEach(input) {
      KeptIsWanted(c.version, c.level, input, oldest, i);
    }
    var e := input[i];
    var lastSequenceForKey := lastSequence;
    if currentUserKey.None? || e.key != currentUserKey.value {
      lastSequenceForKey := MAX_SEQUENCE;
    }
    assert i > 0 ==> Before(IKey(input[i - 1]), IKey(e));
    drop := false;
    if lastSequenceForKey <= oldest {
      drop := true;
    } else if e.kind.Deletion? && e.seqno <= oldest {
      drop := c.IsBaseLevelForKey(e.key);
    }
  }

  /** DoCompactionWork over the merged input.  `stop` and `full` say where an output file is closed
      (grandparent overlap, file size) and `size` what a finished file weighs: policy, left open. */
  method DoCompactionWork(c: Compaction, input: seq<Entry>, oldest: nat, first: nat,
                          stop: nat -> bool, full: nat -> bool, size: nat -> nat) returns (outputs: seq<File>)
    requires c.Ready() && c.lastKey.None? && Sorted(input) && oldest < MAX_SEQUENCE
    modifies c, c.levelPtrs
    ensures Flatten(outputs) == Kept(c.version, c.level, input, oldest, |input|)
    ensures Numbered(outputs, first)
    ensures OneEach(input) ==>
      forall e :: e in Flatten(outputs) <==> e in input && Wanted(c.version, c.level, EntrySet(input), oldest, e)
    ensures CutInto(input, stop, full, outputs)
  {
    hide Flatten, Kept, IsKept, Sorted, Compaction.Ready, OneEach, Wanted, Output, UsedBefore, CutInto, Numbered;
    if OneEach(input) {
      KeptWanted(c.version, c.level, input, oldest);
    }
    KeptNothing(c.version, c.level, input, oldest);
    NothingOut(input, stop, full, first);
    outputs := [];
    var builder: Option<seq<Entry>> := None;
    ghost var ids: seq<seq<nat>>, open: seq<nat> := [], [];
    var currentUserKey: Option<UserKey> := None;
    var lastSequenceForKey := MAX_SEQUENCE;
    var i: nat := 0;
    while i < |input|
      invariant 0 <= i <= |input| && c.Ready()
      invariant Output(input, stop, full, first, outputs, builder, ids, open, Kept(c.version, c.level, input, oldest, i), i)
      invariant i == 0 ==> currentUserKey.None?
      invariant i > 0 ==> currentUserKey == Some(input[i - 1].key) && lastSequenceForKey == input[i - 1].seqno
      invariant c.lastKey.Some? ==> i > 0 && c.lastKey.value <= input[i - 1].key
    {
      ghost var kept := Kept(c.version, c.level, input, oldest, i);
      outputs, builder, ids, open := StopBefore(input, stop, full, first, size, outputs, builder, ids, open, kept, i);
      var drop := ShouldDrop(c, input, i, oldest, currentUserKey, lastSequenceForKey);
      currentUserKey, lastSequenceForKey := Some(input[i].key), input[i].seqno;
      KeptStep(c.version, c.level, input, oldest, i);
      assert kept + [] == kept;
      if !drop {
        outputs, builder, ids, open := Add(input, stop, full, first, size, outputs, builder, ids, open, kept, i);
      }
      i := i + 1;
    }
    ghost var kept := Kept(c.version, c.level, input, oldest, i);
    if builder.Some? {
      LastFile(input, stop, full, first, outputs, builder, ids, open, kept, i);
      ghost var before := outputs;
      outputs := Finish(outputs, builder.value, first, size);
      LastHeld(input, stop, full, ids, open, before, outputs);
    } else {
      AllOut(input, stop, full, first, outputs, builder, ids, open, kept, i);
    }
  }

  /** The files written and the open one hold what was kept so far, cut where they have to be. */
  ghost predicate Output(input: seq<Entry>, stop: nat -> bool, full: nat -> bool, first: nat, outputs: seq<File>,
                         builder: Option<seq<Entry>>, ids: seq<seq<nat>>, open: seq<nat>, kept: seq<Entry>, i: nat) {
    && (builder.Some? ==> builder.value != []) && Flatten(outputs) + Open(builder) == kept && Numbered(outputs, first)
    && CutSoFar(stop, full, ids, open, i) && Hold(input, ids, outputs) && At(input, open, Open(builder))
  }

  lemma NothingOut(input: seq<Entry>, stop: nat -> bool, full: nat -> bool, first: nat)
    ensures Output(input, stop, full, first, [], None, [], [], [], 0)
  {}

  /** Close the open file before entry i if it may not join it. */
  method StopBefore(input: seq<Entry>, stop: nat -> bool, full: nat -> bool, first: nat, size: nat -> nat, outputs: seq<File>,
                    builder: Option<seq<Entry>>, ghost ids: seq<seq<nat>>, ghost open: seq<nat>, ghost kept: seq<Entry>, i: nat)
    returns (outputs': seq<File>, builder': Option<seq<Entry>>, ghost ids': seq<seq<nat>>, ghost open': seq<nat>)
    requires Output(input, stop, full, first, outputs, builder, ids, open, kept, i)
    ensures Output(input, stop, full, first, outputs', builder', ids', open', kept, i + 1) && UsedBefore(ids', open', i)
  {
    hide Flatten, CutWhere, Hold, At, Together, Follows, Closed, Numbered;
    StopFile(stop, full, ids, open, i);
    OpenAt(input, open, builder);
    hide CutSoFar;
    outputs', builder', ids', open' := outputs, builder, ids, open;
    if stop(i) && builder.Some? {
      outputs' := Finish(outputs, builder.value, first, size);
      OneMoreFile(input, ids, outputs, open, outputs');
      builder', ids', open' := None, ids + [open], [];
    }
  }

  /** Append entry i to the open file, opening one if need be and closing it once it is big enough. */
  method Add(input: seq<Entry>, stop: nat -> bool, full: nat -> bool, first: nat, size: nat -> nat, outputs: seq<File>,
             builder: Option<seq<Entry>>, ghost ids: seq<seq<nat>>, ghost open: seq<nat>, ghost kept: seq<Entry>, i: nat)
    returns (outputs': seq<File>, builder': Option<seq<Entry>>, ghost ids': seq<seq<nat>>, ghost open': seq<nat>)
    requires i < |input| && Output(input, stop, full, first, outputs, builder, ids, open, kept, i + 1) && UsedBefore(ids, open, i)
    ensures Output(input, stop, full, first, outputs', builder', ids', open', kept + [input[i]], i + 1)
  {
    hide Flatten, CutSoFar, Hold, At, Numbered, UsedBefore;
    JoinFile(stop, full, ids, open, i);
    OneMoreEntry(input, open, Open(builder), i);
    outputs', builder' := outputs, Some(if builder.Some? then builder.value + [input[i]] else [input[i]]);
    assert builder'.value == Open(builder) + [input[i]];
    assert Flatten(outputs) + Open(builder') == (Flatten(outputs) + Open(builder)) + [input[i]];
    ids', open' := ids, open + [i];
    if full(i) {
      outputs' := Finish(outputs', builder'.value, first, size);
      OneMoreFile(input, ids, outputs, open', outputs');
      builder', ids', open' := None, ids + [open'], [];
    }
  }

  lemma OneMoreFile(input: seq<Entry>, ids: seq<seq<nat>>, outputs: seq<File>, open: seq<nat>, r: seq<File>)
    requires Hold(input, ids, outputs) && |r| == |outputs| + 1 && r[..|outputs|] == outputs && At(input, open, r[|outputs|].entries)
    ensures Hold(input, ids + [open], r) && At(input, [], [])
  {
    hide At;
    NothingAt(input);
    var all := ids + [open];
    forall j | 0 <= j < |all| ensures At(input, all[j], r[j].entries) {
      assert j < |outputs| ==> r[j] == r[..|outputs|][j];
    }
  }

  lemma NothingAt(input: seq<Entry>) ensures At(input, [], []) {}

  lemma OneMoreEntry(input: seq<Entry>, open: seq<nat>, es: seq<Entry>, i: nat)
    requires At(input, open, es) && i < |input|
    ensures At(input, open + [i], es + [input[i]])
  {}

  lemma OpenAt(input: seq<Entry>, open: seq<nat>, builder: Option<seq<Entry>>)
    requires At(input, open, Open(builder))
    ensures open != [] <==> Open(builder) != []
  {}

  lemma AllOut(input: seq<Entry>, stop: nat -> bool, full: nat -> bool, first: nat, outputs: seq<File>,
               builder: Option<seq<Entry>>, ids: seq<seq<nat>>, open: seq<nat>, kept: seq<Entry>, i: nat)
    requires Output(input, stop, full, first, outputs, builder, ids, open, kept, i) && builder.None?
    ensures Flatten(outputs) == kept && Numbered(outputs, first) && CutInto(input, stop, full, outputs)
  {
    hide Flatten, CutWhere, Hold, Numbered;
    assert Flatten(outputs) + [] == Flatten(outputs);
  }

  lemma LastFile(input: seq<Entry>, stop: nat -> bool, full: nat -> bool, first: nat, outputs: seq<File>,
                 builder: Option<seq<Entry>>, ids: seq<seq<nat>>, open: seq<nat>, kept: seq<Entry>, i: nat)
    requires Output(input, stop, full, first, outputs, builder, ids, open, kept, i) && builder.Some?
    ensures builder.value != [] && Flatten(outputs) + builder.value == kept && Numbered(outputs, first)
    ensures CutWhere(stop, full, ids + [open]) && Hold(input, ids, outputs) && At(input, open, builder.value)
  {
    OpenAt(input, open, builder);
    hide Flatten, Hold, Numbered;
    CloseFile(stop, full, ids, open);
  }

  lemma LastHeld(input: seq<Entry>, stop: nat -> bool, full: nat -> bool, ids: seq<seq<nat>>, open: seq<nat>,
                 outputs: seq<File>, r: seq<File>)
    requires CutWhere(stop, full, ids + [open]) && Hold(input, ids, outputs)
    requires |r| == |outputs| + 1 && r[..|outputs|] == outputs && At(input, open, r[|outputs|].entries)
    ensures CutInto(input, stop, full, r)
  {
    hide CutWhere, Hold, At;
    OneMoreFile(input, ids, outputs, open, r);
  }

  lemma KeptNothing(v: Version, level: nat, input: seq<Entry>, oldest: nat)
    ensures Kept(v, level, input, oldest, 0) == [] && Flatten([]) == []
  {}

  lemma KeptStep(v: Version, level: nat, input: seq<Entry>, oldest: nat, i: nat)
    requires i < |input|
    ensures Kept(v, level, input, oldest, i + 1) ==
            Kept(v, level, input, oldest, i) + if IsKept(v, level, input, i, oldest) then [input[i]] else []
  {}

  /** FinishCompactionOutputFile: the entries collected become the next numbered file. */
  method Finish(outputs: seq<File>, entries: seq<Entry>, first: nat, size: nat -> nat) returns (r: seq<File>)
    requires entries != [] && Numbered(outputs, first)
    ensures r != [] && Flatten(r) == Flatten(outputs) + entries && Numbered(r, first)
    ensures |r| == |outputs| + 1 && r[..|outputs|] == outputs && r[|outputs|].entries == entries
  {
    var n := first + |outputs|;
    var f: File := FileData(n, size(n), entries);
    r := outputs + [f];
    FlattenAppend(outputs, f);
    assert r[|outputs|] == f;
  }
}
