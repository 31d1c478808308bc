/** A manual compaction, a flush while it runs, and a read that then goes wrong. */
module GapExample {
  import opened Wrappers
  import opened Entries
  import opened Files
  import opened Inputs
  import opened Versions
  import opened Compactions
  import opened Steps
  import opened Database
  import opened Overlapped
  import opened InputCover
  import Background

  function E(key: UserKey, seqno: nat): Entry { Entry(key, seqno, Put, "v") }

  function F(number: nat, es: seq<Entry>): File
    requires es != []
  {
    FileData(number, 1, es)
  }

  /** A version with files on levels 1 and 2 only. */
  function V(one: seq<File>, two: seq<File>): Version { [[], one, two, [], [], [], []] }

  function At(history: seq<Entry>, mem: seq<Entry>, imm: Option<seq<Entry>>, one: seq<File>, two: seq<File>, next: nat): DB {
    DB(history, mem, imm, V(one, two), [], next)
  }

  lemma OneSorted(e: Entry) ensures Sorted([e]) && EntrySet([e]) == {e} && EntrySet([]) == {} {}

  lemma WriteOne(h: seq<Entry>, e: Entry, one: seq<File>, two: seq<File>, next: nat)
    requires e.seqno == |h| + 1 && |h| < 10
    ensures Next(At(h, [], None, one, two, next), Write([e]), At(h + [e], [e], None, one, two, next))
  {
    OneSorted(e);
  }

  lemma SwitchOne(h: seq<Entry>, e: Entry, one: seq<File>, two: seq<File>, next: nat)
    ensures Next(At(h, [e], None, one, two, next), SwitchMemTable, At(h, [], Some([e]), one, two, next))
  {}

  ghost predicate Fits(fs: seq<File>, f: File, fs': seq<File>) {
    SortedBySmallest(fs') && forall g :: g in fs' <==> g in fs || g == f
  }

  lemma FlushOne(h: seq<Entry>, e: Entry, one: seq<File>, two: seq<File>, next: nat, at: nat, fs': seq<File>)
    requires 1 <= at <= 2 && NoOverlap(one, F(next, [e])) && (at == 2 ==> NoOverlap(two, F(next, [e])))
    requires SortedBySmallest(one) && SortedBySmallest(two) && Fits(if at == 1 then one else two, F(next, [e]), fs')
    ensures var one', two' := if at == 1 then fs' else one, if at == 2 then fs' else two;
      Next(At(h, [], Some([e]), one, two, next), Flush(at, F(next, [e])), At(h, [], None, one', two', next + 1))
  {
    var f, v := F(next, [e]), V(one, two);
    var v' := V(if at == 1 then fs' else one, if at == 2 then fs' else two);
    hide NoOverlap;
    assert NoOverlap([], f) by { NothingOverlaps(f); }
    forall l | 0 <= l < |v| ensures SortedBySmallest(v'[l]) && AddedLevel(v[l], v'[l], l, at, f) {
      assert SortedBySmallest([]);
      assert v[l] == if l == 1 then one else if l == 2 then two else [];
      assert v'[l] == if l == at then fs' else v[l];
    }
    assert Added(v, v', at, f);
    assert Placeable(v, f, at);
  }

  lemma NothingOverlaps(f: File) ensures NoOverlap([], f) {}

  lemma AppendTurn(states: seq<State>, turns: seq<Turn>, t: Turn, s: State)
    requires IsTurns(states, turns) && Turns(states[|turns|], t, s)
    ensures IsTurns(states + [s], turns + [t])
  {
    hide Turns;
    var more, all := states + [s], turns + [t];
    forall i | 0 <= i < |all| ensures Turns(more[i], all[i], more[i + 1]) {
      if i < |turns| {
        assert Turns(states[i], turns[i], states[i + 1]);
      }
    }
  }

  ghost predicate NoneBegun(turns: seq<Turn>) { forall i :: 0 <= i < |turns| ==> !turns[i].Begin? }

  /** An entry is written and flushed to a level. */
  lemma Put3(states: seq<State>, turns: seq<Turn>, h: seq<Entry>, e: Entry, one: seq<File>, two: seq<File>, next: nat, at: nat, fs': seq<File>)
    returns (states': seq<State>, turns': seq<Turn>)
    requires IsTurns(states, turns) && states[|turns|] == State(At(h, [], None, one, two, next), None)
    requires e.seqno == |h| + 1 && |h| < 10
    requires 1 <= at <= 2 && NoOverlap(one, F(next, [e])) && (at == 2 ==> NoOverlap(two, F(next, [e])))
    requires SortedBySmallest(one) && SortedBySmallest(two) && Fits(if at == 1 then one else two, F(next, [e]), fs')
    ensures IsTurns(states', turns') && (NoneBegun(turns) ==> NoneBegun(turns'))
    ensures states'[|turns'|] ==
      State(At(h + [e], [], None, if at == 1 then fs' else one, if at == 2 then fs' else two, next + 1), None)
  {
    hide Next, NoOverlap, SortedBySmallest, Fits;
    var s1 := State(At(h + [e], [e], None, one, two, next), None);
    var s2 := State(At(h + [e], [], Some([e]), one, two, next), None);
    var s3 := State(At(h + [e], [], None, if at == 1 then fs' else one, if at == 2 then fs' else two, next + 1), None);
    WriteOne(h, e, one, two, next);
    SwitchOne(h + [e], e, one, two, next);
    FlushOne(h + [e], e, one, two, next, at, fs');
    AppendTurn(states, turns, Other(Write([e])), s1);
    AppendTurn(states + [s1], turns + [Other(Write([e]))], Other(SwitchMemTable), s2);
    AppendTurn(states + [s1] + [s2], turns + [Other(Write([e]))] + [Other(SwitchMemTable)], Other(Flush(at, F(next, [e]))), s3);
    states' := states + [s1] + [s2] + [s3];
    turns' := turns + [Other(Write([e]))] + [Other(SwitchMemTable)] + [Other(Flush(at, F(next, [e])))];
  }

  // ----- The files -----

  const P: File := F(1, [E(1.0, 1)])
  const Q: File := F(2, [E(3.0, 2)])
  const A: File := F(3, [E(1.0, 3)])
  const C: File := F(4, [E(3.0, 4)])
  /** The file flushed while the compaction runs, and the compaction's output. */
  const G: File := F(6, [E(2.0, 5)])
  const O: File := F(5, [E(1.0, 3), E(3.0, 4)])

  lemma Empty()
    ensures SortedBySmallest([]) && Start(At([], [], None, [], [], 1))
  {
    assert V([], []) == seq(NUM_LEVELS, _ => []);
  }

  lemma Levels()
    ensures SortedBySmallest([P]) && SortedBySmallest([P, Q]) && SortedBySmallest([A]) && SortedBySmallest([A, C])
    ensures SortedBySmallest([P, G, Q]) && SortedBySmallest([O, G])
    ensures Fits([], P, [P]) && Fits([P], Q, [P, Q]) && Fits([], A, [A]) && Fits([A], C, [A, C]) && Fits([P, Q], G, [P, G, Q])
    ensures NoOverlap([], P) && NoOverlap([P], Q) && NoOverlap([], Q) && NoOverlap([], A) && NoOverlap([A], C)
    ensures NoOverlap([A, C], G) && NoOverlap([P, Q], G)
  {}

  /** Two files each on levels 1 and 2, with nothing of the user keys between 1 and 3. */
  lemma FourFiles() returns (states: seq<State>, turns: seq<Turn>)
    ensures IsTurns(states, turns) && NoneBegun(turns)
    ensures states[|turns|] == State(At([E(1.0, 1), E(3.0, 2), E(1.0, 3), E(3.0, 4)], [], None, [A, C], [P, Q], 5), None)
  {
    Empty();
    Levels();
    hide Start, Next, NoOverlap, SortedBySmallest, Fits, Turns;
    states, turns := [State(At([], [], None, [], [], 1), None)], [];
    states, turns := Put3(states, turns, [], E(1.0, 1), [], [], 1, 2, [P]);
    states, turns := Put3(states, turns, [E(1.0, 1)], E(3.0, 2), [], [P], 2, 2, [P, Q]);
    states, turns := Put3(states, turns, [E(1.0, 1), E(3.0, 2)], E(1.0, 3), [], [P, Q], 3, 1, [A]);
    states, turns := Put3(states, turns, [E(1.0, 1), E(3.0, 2), E(1.0, 3)], E(3.0, 4), [A], [P, Q], 4, 1, [A, C]);
  }

  // ----- The compaction -----

  lemma WholeLevel(fs: seq<File>)
    ensures From(fs, fs) && Convex(fs, fs)
  {}

  lemma ClosedOnes()
    ensures BoundaryClosed([A, C], [A, C]) && BoundaryClosed([P, Q], [P, Q])
  {
    assert IsLargest([A, C], Largest(C)) && NoBoundary([A, C], Largest(C)) by {
      assert C in [A, C];
    }
    assert IsLargest([P, Q], Largest(Q)) && NoBoundary([P, Q], Largest(Q)) by {
      assert Q in [P, Q];
    }
  }

  lemma Good()
    ensures GoodInputs(false, [A, C], [P, Q], [A, C], [P, Q])
  {
    WholeLevel([A, C]);
    WholeLevel([P, Q]);
    ClosedOnes();
    var lo, hi := Smallest(A), Largest(C);
    assert Covers([A, C], lo, hi) && TakesOverlap([P, Q], [P, Q], lo, hi);
    assert P in [P, Q] && Overlaps(P, Some(lo.key), Some(hi.key));
    assert Anchored([P, Q], lo, hi);
  }

  function Merged(): seq<Entry> { [E(1.0, 3), E(1.0, 1), E(3.0, 4), E(3.0, 2)] }

  lemma MergedIs()
    ensures Sorted(Merged()) && EntrySet(Merged()) == InputEntries([A, C], [P, Q])
  {
    assert A in [A, C] && C in [A, C] && P in [P, Q] && Q in [P, Q];
    forall e ensures e in EntrySet(Merged()) <==> e in InputEntries([A, C], [P, Q]) {
      if e in Merged() {
        assert InFiles([A, C], e) || InFiles([P, Q], e);
      }
    }
  }

  /** All snapshots see the newer entries, so the older ones go. */
  lemma KeptIs(v: Version)
    ensures Kept(v, 1, Merged(), 5, 4) == [E(1.0, 3), E(3.0, 4)] == Flatten([O])
  {
    hide Kept;
    var input := Merged();
    KeptNothing(v, 1, input, 5);
    KeptStep(v, 1, input, 5, 0);
    KeptStep(v, 1, input, 5, 1);
    KeptStep(v, 1, input, 5, 2);
    KeptStep(v, 1, input, 5, 3);
    FlattenOne(O);
  }

  function History(): seq<Entry> { [E(1.0, 1), E(3.0, 2), E(1.0, 3), E(3.0, 4), E(2.0, 5)] }

  function Run(numbers: seq<nat>): Running { Running(1, [A, C], [P, Q], Merged(), V([A, C], [P, Q]), 5, numbers) }

  lemma BeginTurn()
    requires Valid(V([A, C], [P, Q]))
    ensures var db := At(History(), [], Some([E(2.0, 5)]), [A, C], [P, Q], 5);
      Turns(State(db, None), Begin(1, [A, C], [P, Q], Merged()), State(db, Some(Run([]))))
  {
    hide Valid, GoodInputs, Sorted, EntrySet, InputEntries;
    Good();
    MergedIs();
  }

  lemma FlushTurn()
    ensures Turns(State(At(History(), [], Some([E(2.0, 5)]), [A, C], [P, Q], 6), Some(Run([5]))), Other(Flush(2, G)),
                  State(At(History(), [], None, [A, C], [P, G, Q], 7), Some(Run([5]))))
  {
    Levels();
    hide NoOverlap, SortedBySmallest, Fits, Next;
    FlushOne(History(), E(2.0, 5), [A, C], [P, Q], 6, 2, [P, G, Q]);
  }

  lemma ReplacedBy()
    ensures Replaced(V([A, C], [P, G, Q]), V([], [O, G]), 1, [A, C], [P, Q], [O])
  {
    Levels();
    Empty();
    hide SortedBySmallest;
    var v, v' := V([A, C], [P, G, Q]), V([], [O, G]);
    forall l | 0 <= l < |v| ensures SortedBySmallest(v'[l]) && ReplacedLevel(v[l], v'[l], l, 1, [A, C], [P, Q], [O]) {
      assert v[l] == if l == 1 then [A, C] else if l == 2 then [P, G, Q] else [];
      assert v'[l] == if l == 2 then [O, G] else [];
    }
  }

  lemma InstallTurn()
    ensures Turns(State(At(History(), [], None, [A, C], [P, G, Q], 7), Some(Run([5]))), Install([O]),
                  State(At(History(), [], None, [], [O, G], 7), None))
  {
    ReplacedBy();
    KeptIs(V([A, C], [P, Q]));
    hide Kept, Flatten, Replaced;
  }

  /** The level of the outputs is out of order. */
  lemma OutOfOrder()
    ensures !Valid(V([], [O, G]))
  {
    var v := V([], [O, G]);
    assert !Before(Largest(v[2][0]), Smallest(v[2][1]));
    assert !Disjoint(v[2]);
  }

  lemma NumberTurn()
    ensures Turns(State(At(History(), [], Some([E(2.0, 5)]), [A, C], [P, Q], 5), Some(Run([]))), NewNumber,
                  State(At(History(), [], Some([E(2.0, 5)]), [A, C], [P, Q], 6), Some(Run([5]))))
  {
    hide V, E, F, Merged, History;
    assert [] + [5] == [5];
  }

  lemma OtherTurn(db: DB, step: Step, db': DB)
    requires Next(db, step, db')
    ensures Turns(State(db, None), Other(step), State(db', None))
  {
    hide Next;
  }

  lemma More(states: seq<State>, turns: seq<Turn>, t: Turn, s: State) returns (states': seq<State>, turns': seq<Turn>)
    requires IsTurns(states, turns) && Turns(states[|turns|], t, s)
    ensures IsTurns(states', turns') && |states'| == |turns'| + 1 && states'[|turns'|] == s
  {
    hide Turns;
    AppendTurn(states, turns, t, s);
    states', turns' := states + [s], turns + [t];
  }

  lemma ValidSoFar(states: seq<State>, turns: seq<Turn>)
    requires IsTurns(states, turns) && NoneBegun(turns)
    ensures |states| == |turns| + 1 && Valid(states[|turns|].db.version)
  {
    hide Turns, Start;
    RunAlone(states, turns, |turns|);
    hide RunOk;
    InvParts(states[|turns|].db);
  }

  /** What is wrong in the end. */
  lemma WrongRead()
    ensures var db := At(History(), [], None, [], [O, G], 7);
      && db.mem == [] && db.imm.None? && db.version == V([], [O, G]) && !Sound(State(db, None))
      && !Before(Largest(O), SeekKey(2.0, 5)) && TableGet(O, 2.0, 5).None? && ReadIs(Hist(db), 2.0, 5, Found("v"))
  {
    OutOfOrder();
    var db := At(History(), [], None, [], [O, G], 7);
    assert !Sound(State(db, None)) by {
      hide Valid, V;
      if Inv(db) {
        InvParts(db);
      }
    }
    hide Valid;
    assert SeekIndex(O.entries, SeekKey(2.0, 5), 0) == 1;
    assert IsNewest(Hist(db), 2.0, 5, E(2.0, 5)) by {
      assert History()[4] == E(2.0, 5);
    }
  }

  /** A manual compaction runs over files with a gap between them, and a memtable flushed while it runs goes into that
      gap, on the level of the output.  The output then spans it: the level is out of order, and the search for the
      flushed key ends in the output file, which does not have it. */
  lemma FlushedIntoGap() returns (states: seq<State>, turns: seq<Turn>)
    ensures IsTurns(states, turns) && !Sound(states[|turns|])
    ensures var db := states[|turns|].db;
      && db.mem == [] && db.imm.None? && db.version == V([], [O, G])
      && !Before(Largest(O), SeekKey(2.0, 5)) && TableGet(O, 2.0, 5).None? && ReadIs(Hist(db), 2.0, 5, Found("v"))
  {
    var h, e := [E(1.0, 1), E(3.0, 2), E(1.0, 3), E(3.0, 4)], E(2.0, 5);
    assert h + [e] == History();
    hide *;
    states, turns := FourFiles();
    ValidSoFar(states, turns);
    BeforeBegin(states, turns, h, e);
    states, turns := More(states, turns, Other(Write([e])), State(At(History(), [e], None, [A, C], [P, Q], 5), None));
    states, turns := More(states, turns, Other(SwitchMemTable), State(At(History(), [], Some([e]), [A, C], [P, Q], 5), None));
    BeginTurn();
    states, turns := More(states, turns, Begin(1, [A, C], [P, Q], Merged()), State(At(History(), [], Some([e]), [A, C], [P, Q], 5), Some(Run([]))));
    NumberTurn();
    states, turns := More(states, turns, NewNumber, State(At(History(), [], Some([e]), [A, C], [P, Q], 6), Some(Run([5]))));
    FlushTurn();
    states, turns := More(states, turns, Other(Flush(2, G)), State(At(History(), [], None, [A, C], [P, G, Q], 7), Some(Run([5]))));
    InstallTurn();
    states, turns := More(states, turns, Install([O]), State(At(History(), [], None, [], [O, G], 7), None));
    WrongRead();
  }

  lemma BeforeBegin(states: seq<State>, turns: seq<Turn>, h: seq<Entry>, e: Entry)
    requires |states| == |turns| + 1 && h == [E(1.0, 1), E(3.0, 2), E(1.0, 3), E(3.0, 4)] && e == E(2.0, 5) && h + [e] == History()
    requires states[|turns|] == State(At(h, [], None, [A, C], [P, Q], 5), None) && Valid(states[|turns|].db.version)
    ensures Valid(V([A, C], [P, Q]))
    ensures Turns(states[|turns|], Other(Write([e])), State(At(History(), [e], None, [A, C], [P, Q], 5), None))
    ensures Turns(State(At(History(), [e], None, [A, C], [P, Q], 5), None), Other(SwitchMemTable),
                  State(At(History(), [], Some([e]), [A, C], [P, Q], 5), None))
  {
    hide Next, Turns, Valid;
    WriteOne(h, e, [A, C], [P, Q], 5);
    SwitchOne(History(), e, [A, C], [P, Q], 5);
    OtherTurn(At(h, [], None, [A, C], [P, Q], 5), Write([e]), At(History(), [e], None, [A, C], [P, Q], 5));
    OtherTurn(At(History(), [e], None, [A, C], [P, Q], 5), SwitchMemTable, At(History(), [], Some([e]), [A, C], [P, Q], 5));
  }

  // ----- As the code chooses -----

  lemma Sizes(f: File)
    ensures TotalFileSize([]) == 0 && TotalFileSize([f]) == f.size
  {
    assert [f][..0] == [];
  }

  /** Every flush of the example goes to the level the code picks, whatever the limit of at least one file's bytes. */
  lemma AsPicked(limit: nat)
    requires limit >= 1
    ensures Background.FlushesTo(V([], []), limit, 1, Flush(2, P)) && Background.FlushesTo(V([], [P]), limit, 1, Flush(2, Q))
    ensures Background.FlushesTo(V([], [P, Q]), limit, 1, Flush(1, A)) && Background.FlushesTo(V([A], [P, Q]), limit, 1, Flush(1, C))
    ensures Background.FlushesTo(V([A, C], [P, Q]), limit, 1, Flush(2, G))
  {
    PickedTwo([], [], P, limit);
    PickedTwo([], [P], Q, limit);
    PickedTwo([A, C], [P, Q], G, limit);
    PickedOne([], A, limit);
    PickedOne([A], C, limit);
  }

  lemma PickedTwo(one: seq<File>, two: seq<File>, f: File, limit: nat)
    requires NoOverlap(one, f) && NoOverlap(two, f) && f.size == 1
    ensures Background.FlushesTo(V(one, two), limit, 1, Flush(2, f))
  {
    var v := V(one, two);
    hide TotalFileSize;
    NothingOverlaps(f);
    Sizes(f);
    NoneOverlapping(two, f);
    NoneOverlapping([], f);
    assert MayPush(v, f, 0, limit) && MayPush(v, f, 1, limit);
  }

  lemma {:induction false} NoneOverlapping(fs: seq<File>, f: File)
    requires NoOverlap(fs, f)
    ensures Overlapping(fs, Some(Smallest(f).key), Some(Largest(f).key)) == []
  {
    var r := Overlapping(fs, Some(Smallest(f).key), Some(Largest(f).key));
    if r != [] {
      assert r[0] in r && Touches(r[0], f);
    }
  }

  lemma PickedOne(one: seq<File>, f: File, limit: nat)
    requires limit >= 1 && NoOverlap(one, f) && f.size == 1 && (f == A || f == C)
    ensures Background.FlushesTo(V(one, [P, Q]), limit, 1, Flush(1, f))
  {
    var v := V(one, [P, Q]);
    NothingOverlaps(f);
    OneOverlaps(f);
    TouchesOne(f);
    hide NoOverlap, Overlapping, TotalFileSize, E, F;
    assert MayPush(v, f, 0, limit);
  }

  lemma TouchesOne(f: File)
    requires f == A || f == C
    ensures !NoOverlap([P, Q], f)
  {
    assert P in [P, Q] && Q in [P, Q];
    assert Touches(P, A) && Touches(Q, C);
  }

  function OverlapBytesOf(f: File): nat { TotalFileSize(Overlapping([P, Q], Some(Smallest(f).key), Some(Largest(f).key))) }

  lemma OneOverlaps(f: File)
    requires f == A || f == C
    ensures OverlapBytesOf(f) == 1
  {
    var b, e := Some(Smallest(f).key), Some(Largest(f).key);
    OverlappingAppend([P, Q], 0, b, e);
    OverlappingAppend([P, Q], 1, b, e);
    assert [P, Q][..0] == [] && [P, Q][..2] == [P, Q];
    Sizes(P);
    Sizes(Q);
  }

  lemma AllOverlap(a: File, b: File, begin: Option<UserKey>, end: Option<UserKey>)
    requires Overlaps(a, begin, end) && Overlaps(b, begin, end)
    ensures Overlapping([a, b], begin, end) == [a, b]
  {
    hide Overlapping, Overlaps;
    OverlappingNothing(begin, end);
    OverlappingAppend([a, b], 0, begin, end);
    OverlappingAppend([a, b], 1, begin, end);
    assert [a, b][..0] == [] && [a, b][..2] == [a, b];
  }

  lemma Extended()
    ensures LeastExtension([A, C], [A, C], [A, C]) && LeastExtension([P, Q], [P, Q], [P, Q])
  {
    ClosedOnes();
    hide BoundaryClosed;
  }

  lemma Ranges()
    ensures RangeOf([A, C], Smallest(A), Largest(C)) && RangeOf([A, C] + [P, Q], Smallest(A), Largest(Q))
  {
    assert A in [A, C] && C in [A, C] && A in [A, C] + [P, Q] && Q in [A, C] + [P, Q];
  }

  lemma TakesBelow()
    ensures TakenBelow([P, Q], [A, C], [P, Q])
  {
    AllOverlap(P, Q, Some(1.0), Some(3.0));
    Extended();
    Ranges();
    hide Overlapping, LeastExtension, RangeOf;
    assert Smallest(A).key == 1.0 && Largest(C).key == 3.0;
  }

  lemma TakesAlong()
    ensures TakenAlong(false, [A, C], [A, C], [P, Q], [A, C])
  {
    AllOverlap(A, C, Some(1.0), Some(3.0));
    Extended();
    Ranges();
    assert Listed(false, [A, C], [A, C]);
    assert Smallest(A).key == 1.0 && Largest(Q).key == 3.0;
    hide *;
    AlongFrom([A, C], [A, C], [P, Q], Smallest(A), Largest(Q), [A, C]);
  }

  lemma AlongFrom(fs: seq<File>, in0: seq<File>, in1: seq<File>, lo: InternalKey, hi: InternalKey, o: seq<File>)
    requires RangeOf(in0 + in1, lo, hi) && Listed(false, fs, o) && o == Overlapping(fs, Some(lo.key), Some(hi.key)) && LeastExtension(fs, o, o)
    ensures TakenAlong(false, fs, in0, in1, o)
  {
    hide RangeOf, Listed, Overlapping, LeastExtension;
    assert AllOverlapping(false, fs, lo.key, hi.key, o);
  }

  lemma TakesAll(limit: nat)
    requires limit >= 2
    ensures LimitedPrefix(Overlapping([A, C], None, None), [A, C], limit)
  {
    AllOverlap(A, C, None, None);
    Sizes(A);
    assert [A, C][..1] == [A];
    hide Overlapping, TotalFileSize;
  }

  lemma NotGrown(fs: seq<File>, next: seq<File>, start: seq<File>, s: seq<File>, t: seq<File>, byteLimit: nat)
    requires LeastExtension(fs, start, s) && TakenBelow(next, s, t) && t != [] && TakenAlong(false, fs, s, t, s)
    ensures SetUp(false, fs, next, start, byteLimit, s, t)
  {
    hide LeastExtension, TakenBelow, TakenAlong, TotalFileSize;
    assert Grown(false, fs, next, s, t, byteLimit, s, t);
  }

  lemma AskedFor(v: Version, level: nat, limit: nat, start: seq<File>, byteLimit: nat, in1: seq<File>)
    requires level > 0 && level + 1 < |v| && start != [] && LimitedPrefix(Overlapping(v[level], None, None), start, limit)
    requires SetUp(false, v[level], v[level + 1], start, byteLimit, start, in1)
    ensures Background.StartedFrom(v, level, Background.Manual(None, None, limit), start, byteLimit, start, in1)
  {
    hide Overlapping, LimitedPrefix, SetUp;
  }

  lemma LevelsOf(one: seq<File>, two: seq<File>) ensures |V(one, two)| == 7 && V(one, two)[1] == one && V(one, two)[2] == two {}

  /** And the compaction's inputs are those of a manual compaction of level 1 over all keys. */
  lemma AsAsked(limit: nat, byteLimit: nat)
    requires limit >= 2
    ensures Background.StartedFrom(V([A, C], [P, Q]), 1, Background.Manual(None, None, limit), [A, C], byteLimit, [A, C], [P, Q])
  {
    hide *;
    TakesBelow();
    TakesAlong();
    TakesAll(limit);
    Extended();
    LevelsOf([A, C], [P, Q]);
    NotGrown([A, C], [P, Q], [A, C], [A, C], [P, Q], byteLimit);
    AskedFor(V([A, C], [P, Q]), 1, limit, [A, C], byteLimit, [P, Q]);
  }
}
