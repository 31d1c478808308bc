/** Sorted tables: data blocks, shortened index keys and the keys of each filter, and what a lookup leads to. */
module Tables {
  import opened Bytes
  import opened Coding
  import opened Comparators
  import opened FilterBlocks
  import opened TableFormat

  datatype Entry = Entry(key: IKey, value: seq<Byte>)

  /** A data block, where its contents start in the file and what they take. */
  datatype Block = Block(offset: nat, size: nat, entries: seq<Entry>)

  datatype IndexEntry = IndexEntry(sep: IKey, handle: Handle)

  datatype Table = Table(blocks: seq<Block>, index: seq<IndexEntry>, groups: seq<seq<Key>>)

  function HandleOf(b: Block): Handle { Handle(b.offset, b.size) }

  // ----- Order -----

  ghost predicate Ascending(es: seq<Entry>) {
    forall i, j :: 0 <= i < j < |es| ==> ILess(es[i].key, es[j].key)
  }

  predicate AtMost(a: IKey, b: IKey) { a == b || ILess(a, b) }

  ghost predicate AllAtMost(es: seq<Entry>, k: IKey) { forall e :: e in es ==> AtMost(e.key, k) }

  ghost predicate BlockBefore(x: seq<Entry>, y: seq<Entry>) { forall a, b :: a in x && b in y ==> ILess(a.key, b.key) }

  function LastKey(es: seq<Entry>): IKey requires es != [] { es[|es| - 1].key }

  /** What the index key after a block must be for the lookup: in [last, next), and its user key before the
      next one's unless it is the last key itself. */
  ghost predicate Separates(sep: IKey, last: IKey, next: IKey) {
    AtMost(last, sep) && ILess(sep, next) && (sep == last || Less(sep.user, next.user))
  }

  /** Index entry i has the handle of block i and separates it from what comes next: the next block, or the block being filled. */
  ghost predicate SepAt(blocks: seq<Block>, data: seq<Entry>, index: seq<IndexEntry>, i: nat)
    requires i < |index|
  {
    && i < |blocks| && index[i].handle == HandleOf(blocks[i]) && blocks[i].entries != []
    && (if i + 1 < |blocks|
        then blocks[i + 1].entries != [] && Separates(index[i].sep, LastKey(blocks[i].entries), blocks[i + 1].entries[0].key)
        else data != [] && Separates(index[i].sep, LastKey(blocks[i].entries), data[0].key))
  }

  // ----- Filters -----

  /** The user key is among those of the filter for the offset, made or still waiting. */
  ghost predicate InFilter(groups: seq<seq<Key>>, pending: seq<Key>, offset: nat, user: Key) {
    var i := offset / BASE;
    if i < |groups| then user in groups[i] else i == |groups| && user in pending
  }

  ghost predicate BlockInFilter(groups: seq<seq<Key>>, pending: seq<Key>, offset: nat, es: seq<Entry>) {
    forall e :: e in es ==> InFilter(groups, pending, offset, e.key.user)
  }

  lemma FilterAdvances(groups: seq<seq<Key>>, pending: seq<Key>, n: nat, offset: nat, es: seq<Entry>)
    requires BlockInFilter(groups, pending, offset, es)
    ensures BlockInFilter(Advance(groups, pending, n).0, Advance(groups, pending, n).1, offset, es)
  {
    forall e | e in es ensures InFilter(Advance(groups, pending, n).0, Advance(groups, pending, n).1, offset, e.key.user) {
      assert InFilter(groups, pending, offset, e.key.user);
    }
  }

  // ----- The builder's state -----

  datatype State = State(
    blocks: seq<Block>,
    index: seq<IndexEntry>,
    data: seq<Entry>,
    lastKey: IKey,
    pendingIndex: bool,
    offset: nat,
    groups: seq<seq<Key>>,
    waiting: seq<Key>)

  /** A written block: before the one being filled, and its user keys in the filter of its offset. */
  ghost predicate Written(s: State, b: Block) {
    && b.entries != [] && Ascending(b.entries) && BlockBefore(b.entries, s.data) && AllAtMost(b.entries, s.lastKey)
    && b.offset < s.offset && BlockInFilter(s.groups, s.waiting, b.offset, b.entries)
  }

  ghost predicate Ordered(blocks: seq<Block>) {
    forall i, j :: 0 <= i < j < |blocks| ==> BlockBefore(blocks[i].entries, blocks[j].entries)
  }

  ghost predicate Inv(s: State) {
    && s.offset / BASE == |s.groups|
    && Ordered(s.blocks) && (forall i :: 0 <= i < |s.blocks| ==> Written(s, s.blocks[i]))
    && Ascending(s.data) && AllAtMost(s.data, s.lastKey) && (forall e :: e in s.data ==> e.key.user in s.waiting)
    && (s.pendingIndex <==> s.blocks != [] && s.data == [])
    && (s.data != [] ==> LastKey(s.data) == s.lastKey)
    && (s.pendingIndex ==> LastKey(s.blocks[|s.blocks| - 1].entries) == s.lastKey)
    && |s.index| == |s.blocks| - (if s.pendingIndex then 1 else 0)
    && (forall i: nat :: i < |s.index| ==> SepAt(s.blocks, s.data, s.index, i))
  }

  ghost predicate Accepts(s: State, key: IKey) { (s.blocks == [] && s.data == []) || ILess(s.lastKey, key) }

  lemma AtMostThen(a: IKey, b: IKey, c: IKey)
    requires AtMost(a, b) && ILess(b, c)
    ensures ILess(a, c)
  {
    if a != b {
      ITrans(a, b, c);
    }
  }

  /** The state after an entry is added, before any flush. */
  ghost function Added(s: State, e: Entry): State {
    s.(index := if s.pendingIndex && s.blocks != []
                then s.index + [IndexEntry(ISeparator(s.lastKey, e.key), HandleOf(s.blocks[|s.blocks| - 1]))] else s.index,
       data := s.data + [e], lastKey := e.key, pendingIndex := false, waiting := s.waiting + [e.key.user])
  }

  lemma AddWritten(s: State, e: Entry, b: Block)
    requires Written(s, b) && ILess(s.lastKey, e.key)
    ensures Written(Added(s, e), b)
  {
    forall x | x in b.entries ensures ILess(x.key, e.key) {
      AtMostThen(x.key, s.lastKey, e.key);
    }
    forall x | x in b.entries ensures InFilter(s.groups, s.waiting + [e.key.user], b.offset, x.key.user) {
      assert InFilter(s.groups, s.waiting, b.offset, x.key.user);
    }
  }

  lemma AddData(s: State, e: Entry)
    requires Ascending(s.data) && AllAtMost(s.data, s.lastKey) && (s.data == [] || ILess(s.lastKey, e.key))
    ensures Ascending(s.data + [e]) && AllAtMost(s.data + [e], e.key)
  {
    forall x | x in s.data ensures ILess(x.key, e.key) {
      AtMostThen(x.key, s.lastKey, e.key);
    }
    hide ILess;
    var es := s.data + [e];
    forall i, j | 0 <= i < j < |es| ensures ILess(es[i].key, es[j].key) {
      if j == |s.data| {
        assert es[i] in s.data;
      }
    }
  }

  lemma AddSep(s: State, e: Entry, i: nat)
    requires Inv(s) && Accepts(s, e.key) && i < |Added(s, e).index|
    ensures var s' := Added(s, e); SepAt(s'.blocks, s'.data, s'.index, i)
  {
    var s' := Added(s, e);
    if i < |s.index| {
      assert SepAt(s.blocks, s.data, s.index, i);
    } else {
      ISeparatorBetween(s.lastKey, e.key);
      assert s'.data[0] == e;
      assert Written(s, s.blocks[i]);
    }
  }

  lemma AddKeeps(s: State, e: Entry)
    requires Inv(s) && Accepts(s, e.key)
    ensures Inv(Added(s, e))
  {
    var s' := Added(s, e);
    AddData(s, e);
    forall i | 0 <= i < |s.blocks| ensures Written(s', s.blocks[i]) {
      AddWritten(s, e, s.blocks[i]);
    }
    forall i: nat | i < |s'.index| ensures SepAt(s'.blocks, s'.data, s'.index, i) {
      AddSep(s, e, i);
    }
    hide Written, SepAt, Ordered, Ascending, AllAtMost;
  }

  /** The state after the block being filled, if there is one, is written with the given size. */
  ghost function Flushed(s: State, size: nat): State {
    if s.data == [] then s
    else
      var end := s.offset + size + TRAILER;
      var (groups, waiting) := Advance(s.groups, s.waiting, end / BASE);
      s.(blocks := s.blocks + [Block(s.offset, size, s.data)], data := [], pendingIndex := true,
         offset := end, groups := groups, waiting := waiting)
  }

  lemma FlushWritten(s: State, size: nat, b: Block)
    requires Written(s, b) && s.data != []
    ensures Written(Flushed(s, size), b)
  {
    FilterAdvances(s.groups, s.waiting, (s.offset + size + TRAILER) / BASE, b.offset, b.entries);
  }

  lemma FlushKeeps(s: State, size: nat)
    requires Inv(s)
    ensures Inv(Flushed(s, size))
  {
    if s.data == [] {
      return;
    }
    var s', n := Flushed(s, size), (s.offset + size + TRAILER) / BASE;
    forall i | 0 <= i < |s.blocks| ensures Written(s', s.blocks[i]) {
      FlushWritten(s, size, s.blocks[i]);
    }
    assert BlockInFilter(s.groups, s.waiting, s.offset, s.data);
    FilterAdvances(s.groups, s.waiting, n, s.offset, s.data);
    assert Written(s', s'.blocks[|s.blocks|]);
    forall i, j | 0 <= i < j < |s'.blocks| ensures BlockBefore(s'.blocks[i].entries, s'.blocks[j].entries) {
      if j == |s.blocks| {
        assert Written(s, s.blocks[i]);
      }
    }
    forall i: nat | i < |s.index| ensures SepAt(s'.blocks, [], s.index, i) {
      assert SepAt(s.blocks, s.data, s.index, i);
    }
    hide Written, SepAt, BlockBefore, AllAtMost, Ascending;
  }

  lemma PendingHasBlock(s: State)
    requires Inv(s)
    ensures s.pendingIndex <==> s.blocks != [] && s.data == []
  {}

  lemma FlushOffset(s: State, size: nat)
    requires Inv(s)
    ensures (s.offset + size + TRAILER) / BASE >= |s.groups|
  {}

  /** All entries, in order. */
  ghost function Contents(blocks: seq<Block>, data: seq<Entry>): seq<Entry> {
    if blocks == [] then data else Contents(blocks[..|blocks| - 1], blocks[|blocks| - 1].entries + data)
  }

  lemma {:induction false} AddedContents(blocks: seq<Block>, data: seq<Entry>, e: Entry)
    ensures Contents(blocks, data + [e]) == Contents(blocks, data) + [e]
    decreases |blocks|
  {
    if blocks != [] {
      var b := blocks[|blocks| - 1].entries;
      AddedContents(blocks[..|blocks| - 1], b + data, e);
      assert b + (data + [e]) == (b + data) + [e];
    }
  }

  lemma FlushedContents(s: State, size: nat)
    ensures Contents(Flushed(s, size).blocks, Flushed(s, size).data) == Contents(s.blocks, s.data)
  {
    if s.data != [] {
      assert Flushed(s, size).blocks[..|s.blocks|] == s.blocks;
      assert s.data + [] == s.data;
    }
  }

  // ----- Whole runs of the builder -----

  /** When a block being filled is full, and what its contents take in the file. */
  datatype Sizes = Sizes(full: seq<Entry> -> bool, size: seq<Entry> -> nat)

  const EMPTY: State := State([], [], [], IKey([], 0), false, 0, [], [])

  ghost function Next(z: Sizes, s: State, e: Entry): State {
    var s' := Added(s, e);
    if z.full(s'.data) then Flushed(s', z.size(s'.data)) else s'
  }

  /** The state after the first n entries. */
  ghost function Run(z: Sizes, es: seq<Entry>, n: nat): State
    requires n <= |es|
  {
    if n == 0 then EMPTY else Next(z, Run(z, es, n - 1), es[n - 1])
  }

  /** The state when all entries are added and the last block is written. */
  ghost function Last(z: Sizes, es: seq<Entry>): State {
    Flushed(Run(z, es, |es|), z.size(Run(z, es, |es|).data))
  }

  function Users(es: seq<Entry>): (r: seq<Key>)
    ensures |r| == |es| && forall i :: 0 <= i < |es| ==> r[i] == es[i].key.user
  {
    seq(|es|, i requires 0 <= i < |es| => es[i].key.user)
  }

  /** What every state of a run keeps: the invariant, the entries and, cut into groups, their user keys. */
  ghost predicate Holds(s: State, es: seq<Entry>) {
    && Inv(s) && Contents(s.blocks, s.data) == es && Concat(s.groups) + s.waiting == Users(es)
    && (es != [] ==> s.lastKey == LastKey(es)) && (es == [] ==> s.blocks == [] && s.data == [])
  }

  lemma EmptyHolds() ensures Holds(EMPTY, []) {}

  lemma AddHolds(s: State, es: seq<Entry>, e: Entry)
    requires Holds(s, es) && (es != [] ==> ILess(LastKey(es), e.key))
    ensures Holds(Added(s, e), es + [e])
  {
    hide Inv, Contents, Concat, ILess;
    AddKeeps(s, e);
    AddedContents(s.blocks, s.data, e);
    assert Users(es + [e]) == Users(es) + [e.key.user];
    assert Concat(s.groups) + (s.waiting + [e.key.user]) == (Concat(s.groups) + s.waiting) + [e.key.user];
  }

  lemma FlushHolds(s: State, es: seq<Entry>, size: nat)
    requires Holds(s, es)
    ensures Holds(Flushed(s, size), es)
  {
    hide Inv, Contents, Concat, Advance;
    FlushKeeps(s, size);
    FlushedContents(s, size);
    AdvanceConcat(s.groups, s.waiting, (s.offset + size + TRAILER) / BASE);
  }

  lemma {:induction false} RunHolds(z: Sizes, es: seq<Entry>, n: nat)
    requires Ascending(es) && n <= |es|
    ensures Holds(Run(z, es, n), es[..n])
  {
    hide Holds, Added, Flushed, ILess;
    if n == 0 {
      EmptyHolds();
      assert es[..0] == [];
    } else {
      RunHolds(z, es, n - 1);
      var s, e := Run(z, es, n - 1), es[n - 1];
      assert n > 1 ==> ILess(es[n - 2].key, es[n - 1].key);
      AddHolds(s, es[..n - 1], e);
      assert es[..n - 1] + [e] == es[..n];
      FlushHolds(Added(s, e), es[..n], z.size(Added(s, e).data));
    }
  }

  // ----- The table -----

  ghost predicate TableOk(t: Table) {
    && Ordered(t.blocks) && |t.index| == |t.blocks|
    && (forall i :: 0 <= i < |t.blocks| ==> t.blocks[i].entries != [] && Ascending(t.blocks[i].entries))
    && (forall i: nat :: i < |t.index| ==> IndexAt(t.blocks, t.index, i))
  }

  ghost predicate IndexAt(blocks: seq<Block>, index: seq<IndexEntry>, i: nat)
    requires i < |index|
  {
    && i < |blocks| && index[i].handle == HandleOf(blocks[i]) && blocks[i].entries != [] && AtMost(LastKey(blocks[i].entries), index[i].sep)
    && (i + 1 < |blocks| ==>
          blocks[i + 1].entries != [] && Separates(index[i].sep, LastKey(blocks[i].entries), blocks[i + 1].entries[0].key))
  }

  /** The table a state without entries still to be written leads to. */
  ghost function TableFrom(s: State): Table {
    Table(s.blocks,
          if s.pendingIndex && s.blocks != []
          then s.index + [IndexEntry(ISuccessor(s.lastKey), HandleOf(s.blocks[|s.blocks| - 1]))] else s.index,
          Closed(s.groups, s.waiting))
  }

  /** The table of the entries: blocks, index and the user keys of each filter. */
  ghost function TableOf(z: Sizes, es: seq<Entry>): Table { TableFrom(Last(z, es)) }

  lemma FinishedTable(s: State)
    requires Inv(s) && s.data == []
    ensures TableOk(TableFrom(s))
  {
    var t := TableFrom(s);
    forall i: nat | i < |t.index| ensures IndexAt(t.blocks, t.index, i) {
      if i < |s.index| {
        assert SepAt(s.blocks, s.data, s.index, i);
      } else {
        ISuccessorAfter(s.lastKey);
        assert Written(s, s.blocks[i]);
      }
    }
    forall i | 0 <= i < |t.blocks| ensures t.blocks[i].entries != [] && Ascending(t.blocks[i].entries) {
      assert Written(s, s.blocks[i]);
    }
  }

  /** The table of any ascending entries is well formed, holds exactly them, and its filters are for exactly
      their user keys, in order. */
  lemma TableOfEntries(z: Sizes, es: seq<Entry>)
    requires Ascending(es)
    ensures var t := TableOf(z, es);
      TableOk(t) && Contents(t.blocks, []) == es && Concat(t.groups) == Users(es)
  {
    hide Inv, Contents, Concat, Run, Ascending;
    var n := |es|;
    RunHolds(z, es, n);
    assert es[..n] == es;
    FlushHolds(Run(z, es, n), es, z.size(Run(z, es, n).data));
    var s := Last(z, es);
    FinishedTable(s);
    ClosedConcat(s.groups, s.waiting);
  }

  // ----- Which block and which filter an entry goes to -----

  /** Where the block of entry m starts: at the end of the file when the entry is added. */
  ghost function OffsetOf(z: Sizes, es: seq<Entry>, m: nat): nat
    requires m < |es|
  {
    Run(z, es, m).offset
  }

  /** The keys of the filter a lookup of entry m asks. */
  ghost function GroupOf(z: Sizes, es: seq<Entry>, m: nat): seq<Key>
    requires m < |es|
  {
    var groups, i := TableOf(z, es).groups, OffsetOf(z, es, m) / BASE;
    if i < |groups| then groups[i] else []
  }

  ghost predicate Held(s: State, e: Entry, offset: nat) {
    (e in s.data && s.offset == offset) || BlockHeld(s.blocks, e, offset)
  }

  ghost predicate BlockHeld(blocks: seq<Block>, e: Entry, offset: nat) {
    exists b :: 0 <= b < |blocks| && e in blocks[b].entries && blocks[b].offset == offset
  }

  lemma FlushHeld(s: State, size: nat, e: Entry, offset: nat)
    requires Held(s, e, offset)
    ensures Held(Flushed(s, size), e, offset) && Flushed(s, size).data == []
  {
    hide Advance;
    if s.data != [] {
      var blocks := Flushed(s, size).blocks;
      if BlockHeld(s.blocks, e, offset) {
        var b :| 0 <= b < |s.blocks| && e in s.blocks[b].entries && s.blocks[b].offset == offset;
        assert blocks[b] == s.blocks[b];
      } else {
        assert blocks[|s.blocks|] == Block(s.offset, size, s.data);
      }
    }
  }

  lemma {:induction false} RunHeld(z: Sizes, es: seq<Entry>, m: nat, n: nat)
    requires m < n <= |es|
    ensures Held(Run(z, es, n), es[m], OffsetOf(z, es, m))
    decreases n
  {
    hide BlockHeld, Flushed;
    if m < n - 1 {
      RunHeld(z, es, m, n - 1);
    }
    var s := Added(Run(z, es, n - 1), es[n - 1]);
    FlushHeld(s, z.size(s.data), es[m], OffsetOf(z, es, m));
  }

  lemma InOneBlock(t: Table, i: nat, j: nat, e: Entry)
    requires TableOk(t) && i < |t.blocks| && j < |t.blocks| && e in t.blocks[i].entries && e in t.blocks[j].entries
    ensures i == j
  {
    ITotal(e.key, e.key);
    assert i < j ==> BlockBefore(t.blocks[i].entries, t.blocks[j].entries);
    assert j < i ==> BlockBefore(t.blocks[j].entries, t.blocks[i].entries);
  }

  /** The block that holds entry m starts where OffsetOf says. */
  lemma BlockOfEntry(z: Sizes, es: seq<Entry>, m: nat, i: nat)
    requires Ascending(es) && m < |es| && i < |TableOf(z, es).blocks| && es[m] in TableOf(z, es).blocks[i].entries
    ensures TableOf(z, es).blocks[i].offset == OffsetOf(z, es, m)
  {
    hide Run, Flushed, TableOk, Ascending;
    var s, t := Run(z, es, |es|), TableOf(z, es);
    TableOfEntries(z, es);
    RunHeld(z, es, m, |es|);
    FlushHeld(s, z.size(s.data), es[m], OffsetOf(z, es, m));
    var b :| 0 <= b < |t.blocks| && es[m] in t.blocks[b].entries && t.blocks[b].offset == OffsetOf(z, es, m);
    InOneBlock(t, b, i, es[m]);
  }

  /** An entry's user key is among the keys of the filter asked for it. */
  lemma KeyInGroup(z: Sizes, es: seq<Entry>, m: nat)
    requires Ascending(es) && m < |es|
    ensures OffsetOf(z, es, m) / BASE < |TableOf(z, es).groups| && es[m].key.user in GroupOf(z, es, m)
  {
    hide Run, Flushed, Ascending, Contents, Concat;
    var s, last := Run(z, es, |es|), Last(z, es);
    RunHeld(z, es, m, |es|);
    FlushHeld(s, z.size(s.data), es[m], OffsetOf(z, es, m));
    RunHolds(z, es, |es|);
    FlushHolds(s, es[..|es|], z.size(s.data));
    var b :| 0 <= b < |last.blocks| && es[m] in last.blocks[b].entries && last.blocks[b].offset == OffsetOf(z, es, m);
    WrittenKey(last, b, es[m]);
  }

  lemma WrittenKey(s: State, b: nat, e: Entry)
    requires Inv(s) && b < |s.blocks| && e in s.blocks[b].entries
    ensures var groups, i := Closed(s.groups, s.waiting), s.blocks[b].offset / BASE;
      i < |groups| && e.key.user in groups[i]
  {
    assert Written(s, s.blocks[b]);
    assert InFilter(s.groups, s.waiting, s.blocks[b].offset, e.key.user);
  }

  /** Every key of a group is the user key of an entry whose lookups ask that group's filter. */
  ghost predicate GroupsFrom(z: Sizes, es: seq<Entry>, n: nat, groups: seq<seq<Key>>)
    requires n <= |es|
  {
    forall j, u :: 0 <= j < |groups| && u in groups[j] ==> FromEntry(z, es, n, j, u)
  }

  ghost predicate FromEntry(z: Sizes, es: seq<Entry>, n: nat, j: nat, u: Key)
    requires n <= |es|
  {
    exists m :: 0 <= m < n && es[m].key.user == u && OffsetOf(z, es, m) / BASE == j
  }

  /** The waiting keys as one more group, and after it only empty ones. */
  ghost predicate StateFrom(z: Sizes, es: seq<Entry>, n: nat, s: State)
    requires n <= |es|
  {
    s.offset / BASE == |s.groups| && GroupsFrom(z, es, n, s.groups + [s.waiting])
  }

  lemma FlushFrom(z: Sizes, es: seq<Entry>, n: nat, s: State, size: nat)
    requires n <= |es| && StateFrom(z, es, n, s)
    ensures StateFrom(z, es, n, Flushed(s, size))
  {
    if s.data != [] {
      var s' := Flushed(s, size);
      forall j, u | 0 <= j < |s'.groups + [s'.waiting]| && u in (s'.groups + [s'.waiting])[j] ensures FromEntry(z, es, n, j, u) {
        assert j < |s.groups + [s.waiting]| && u in (s.groups + [s.waiting])[j];
      }
    }
  }

  lemma AddFrom(z: Sizes, es: seq<Entry>, n: nat)
    requires n < |es| && StateFrom(z, es, n, Run(z, es, n))
    ensures StateFrom(z, es, n + 1, Added(Run(z, es, n), es[n]))
  {
    var s := Run(z, es, n);
    var s' := Added(s, es[n]);
    hide Run, Added, OffsetOf;
    forall j, u | 0 <= j < |s'.groups + [s'.waiting]| && u in (s'.groups + [s'.waiting])[j]
      ensures FromEntry(z, es, n + 1, j, u)
    {
      AddedKey(z, es, n, j, u);
    }
    AddedShape(s, es[n]);
  }

  lemma AddedShape(s: State, e: Entry)
    ensures Added(s, e).groups == s.groups && Added(s, e).waiting == s.waiting + [e.key.user] && Added(s, e).offset == s.offset
  {}

  lemma AddedKey(z: Sizes, es: seq<Entry>, n: nat, j: nat, u: Key)
    requires n < |es| && StateFrom(z, es, n, Run(z, es, n))
    requires var s := Added(Run(z, es, n), es[n]); j < |s.groups + [s.waiting]| && u in (s.groups + [s.waiting])[j]
    ensures FromEntry(z, es, n + 1, j, u)
  {
    hide Run;
    var s := Run(z, es, n);
    if u in (s.groups + [s.waiting])[j] {
      assert FromEntry(z, es, n, j, u);
    } else {
      assert es[n].key.user == u && OffsetOf(z, es, n) / BASE == j;
    }
  }

  lemma {:induction false} RunFrom(z: Sizes, es: seq<Entry>, n: nat)
    requires n <= |es|
    ensures StateFrom(z, es, n, Run(z, es, n))
  {
    hide Added, Flushed, StateFrom;
    if n == 0 {
      EmptyFrom(z, es);
    } else {
      RunFrom(z, es, n - 1);
      AddFrom(z, es, n - 1);
      var s := Added(Run(z, es, n - 1), es[n - 1]);
      FlushFrom(z, es, n, s, z.size(s.data));
    }
  }

  lemma EmptyFrom(z: Sizes, es: seq<Entry>)
    ensures StateFrom(z, es, 0, EMPTY)
  {}

  /** Every key a filter is made for is the user key of an entry that filter is asked for. */
  lemma GroupMember(z: Sizes, es: seq<Entry>, j: nat, u: Key) returns (m: nat)
    requires j < |TableOf(z, es).groups| && u in TableOf(z, es).groups[j]
    ensures m < |es| && es[m].key.user == u && GroupOf(z, es, m) == TableOf(z, es).groups[j]
  {
    var s, last := Run(z, es, |es|), Last(z, es);
    RunFrom(z, es, |es|);
    FlushFrom(z, es, |es|, s, z.size(s.data));
    hide Run, Flushed;
    assert u in (last.groups + [last.waiting])[j];
    assert FromEntry(z, es, |es|, j, u);
    m :| m < |es| && es[m].key.user == u && OffsetOf(z, es, m) / BASE == j;
  }

  // ----- Lookup -----

  ghost predicate InTable(t: Table, e: Entry) { exists i :: 0 <= i < |t.blocks| && e in t.blocks[i].entries }

  /** e is the first entry of the table at or after k. */
  ghost predicate IsFirst(t: Table, k: IKey, e: Entry) {
    && InTable(t, e) && !ILess(e.key, k)
    && forall x :: InTable(t, x) && !ILess(x.key, k) ==> AtMost(e.key, x.key)
  }

  /** Position i of an index: the first separator at or after k. */
  ghost predicate IndexPos(index: seq<IndexEntry>, k: IKey, i: nat) {
    && i <= |index| && (forall j :: 0 <= j < i ==> ILess(index[j].sep, k)) && (i < |index| ==> !ILess(index[i].sep, k))
  }

  lemma BlockOfIndex(t: Table, i: nat)
    requires TableOk(t) && i < |t.index|
    ensures i < |t.blocks| && t.index[i].handle == HandleOf(t.blocks[i]) && t.blocks[i].entries != [] && Ascending(t.blocks[i].entries)
    ensures IndexAt(t.blocks, t.index, i)
  {
    assert IndexAt(t.blocks, t.index, i);
  }

  lemma EntryAtMostLast(es: seq<Entry>, e: Entry)
    requires es != [] && Ascending(es) && e in es
    ensures AtMost(e.key, LastKey(es)) && AtMost(es[0].key, e.key)
  {
    var i :| 0 <= i < |es| && es[i] == e;
    assert i < |es| - 1 ==> ILess(es[i].key, es[|es| - 1].key);
    assert 0 < i ==> ILess(es[0].key, es[i].key);
  }

  /** Entries of blocks whose separator is before k are before k. */
  lemma EarlierBlock(t: Table, k: IKey, i: nat, e: Entry)
    requires TableOk(t) && i < |t.index| && ILess(t.index[i].sep, k) && i < |t.blocks| && e in t.blocks[i].entries
    ensures ILess(e.key, k)
  {
    BlockOfIndex(t, i);
    hide TableOk, ILess;
    EntryAtMostLast(t.blocks[i].entries, e);
    AtMostThen(LastKey(t.blocks[i].entries), t.index[i].sep, k);
    AtMostThen(e.key, LastKey(t.blocks[i].entries), k);
  }

  /** The index keys ascend. */
  lemma {:induction false} SepsAscend(t: Table, i: nat, j: nat)
    requires TableOk(t) && i < j < |t.index|
    ensures ILess(t.index[i].sep, t.index[j].sep)
    decreases j
  {
    BlockOfIndex(t, j - 1);
    BlockOfIndex(t, j);
    hide TableOk, ILess;
    var es := t.blocks[j].entries;
    EntryAtMostLast(es, es[|es| - 1]);
    LessThenAtMost(t.index[j - 1].sep, es[0].key, LastKey(es));
    LessThenAtMost(t.index[j - 1].sep, LastKey(es), t.index[j].sep);
    if i < j - 1 {
      SepsAscend(t, i, j - 1);
      ITrans(t.index[i].sep, t.index[j - 1].sep, t.index[j].sep);
    }
  }

  lemma LessThenAtMost(a: IKey, b: IKey, c: IKey)
    requires ILess(a, b) && AtMost(b, c)
    ensures ILess(a, c)
  {
    if b != c {
      ITrans(a, b, c);
    }
  }

  // ----- Packed numbers -----

  ghost predicate Numbered(es: seq<Entry>) { forall e :: e in es ==> e.key.num < U64 }

  /** Every key of the state fits in 64 bits. */
  ghost predicate KeysFit(s: State) {
    && s.lastKey.num < U64 && Numbered(s.data) && (forall b :: b in s.blocks ==> Numbered(b.entries))
    && (forall x :: x in s.index ==> x.sep.num < U64)
  }

  lemma {:induction false} RunKeysFit(z: Sizes, es: seq<Entry>, n: nat)
    requires n <= |es| && Numbered(es)
    ensures KeysFit(Run(z, es, n))
  {
    hide Advance;
    if n > 0 {
      RunKeysFit(z, es, n - 1);
      assert es[n - 1] in es;
      AddKeysFit(Run(z, es, n - 1), es[n - 1]);
      FlushKeysFit(Added(Run(z, es, n - 1), es[n - 1]), z.size(Added(Run(z, es, n - 1), es[n - 1]).data));
    }
  }

  lemma AddKeysFit(s: State, e: Entry)
    requires KeysFit(s) && e.key.num < U64
    ensures KeysFit(Added(s, e))
  {
    hide Less, Separator;
    assert ISeparator(s.lastKey, e.key).num < U64;
  }

  lemma FlushKeysFit(s: State, size: nat)
    requires KeysFit(s)
    ensures KeysFit(Flushed(s, size))
  {
    hide Advance;
  }

  ghost predicate TableKeysFit(t: Table) {
    && (forall i :: 0 <= i < |t.blocks| ==> Numbered(t.blocks[i].entries))
    && (forall i :: 0 <= i < |t.index| ==> t.index[i].sep.num < U64)
  }

  lemma TableOfFits(z: Sizes, es: seq<Entry>)
    requires Numbered(es)
    ensures TableKeysFit(TableOf(z, es))
  {
    hide Run, Flushed, Less, Successor;
    var s := Run(z, es, |es|);
    RunKeysFit(z, es, |es|);
    FlushKeysFit(s, z.size(s.data));
    assert ISuccessor(Last(z, es).lastKey).num < U64;
  }

  // ----- Where a lookup leads -----

  lemma BeyondIndex(t: Table, k: IKey)
    requires TableOk(t) && IndexPos(t.index, k, |t.index|)
    ensures forall e :: !IsFirst(t, k, e)
  {
    forall e ensures !IsFirst(t, k, e) {
      if InTable(t, e) {
        var i :| 0 <= i < |t.blocks| && e in t.blocks[i].entries;
        EarlierBlock(t, k, i, e);
      }
    }
  }

  /** The first entry at or after k, if it has k's user key, is in the block the index leads to. */
  lemma RightBlock(t: Table, k: IKey, i: nat, e: Entry)
    requires TableOk(t) && IndexPos(t.index, k, i) && i < |t.index| && i < |t.blocks|
    requires IsFirst(t, k, e) && e.key.user == k.user
    ensures e in t.blocks[i].entries
  {
    var j :| 0 <= j < |t.blocks| && e in t.blocks[j].entries;
    if j < i {
      EarlierBlock(t, k, j, e);
      assert false;
    } else if j > i {
      LaterBlock(t, k, i, j, e);
      assert false;
    }
  }

  lemma LaterBlock(t: Table, k: IKey, i: nat, j: nat, e: Entry)
    requires TableOk(t) && i < j < |t.blocks| && i < |t.index| && !ILess(t.index[i].sep, k)
    requires e in t.blocks[j].entries && e.key.user == k.user
    ensures !IsFirst(t, k, e)
  {
    BlockOfIndex(t, i);
    var last, next, sep := LastKey(t.blocks[i].entries), t.blocks[i + 1].entries[0].key, t.index[i].sep;
    assert t.blocks[i].entries[|t.blocks[i].entries| - 1] in t.blocks[i].entries;
    assert BlockBefore(t.blocks[i].entries, t.blocks[j].entries);
    ITotal(sep, k);
    if sep == last {
      var x := t.blocks[i].entries[|t.blocks[i].entries| - 1];
      assert InTable(t, x);
      ITotal(x.key, e.key);
    } else {
      FirstOfLater(t, i, j, e);
      BetweenUsers(k, sep, next, e.key);
    }
  }

  lemma FirstOfLater(t: Table, i: nat, j: nat, e: Entry)
    requires TableOk(t) && i < j < |t.blocks| && e in t.blocks[j].entries
    ensures t.blocks[i + 1].entries != [] && AtMost(t.blocks[i + 1].entries[0].key, e.key)
  {
    var es := t.blocks[i + 1].entries;
    assert es != [] && Ascending(es);
    assert es[0] in es;
    if j == i + 1 {
      EntryAtMostLast(es, e);
    } else {
      assert BlockBefore(es, t.blocks[j].entries);
    }
  }

  /** A shortened separator at or after k leaves no room for k's user key behind it. */
  lemma BetweenUsers(k: IKey, sep: IKey, next: IKey, e: IKey)
    requires !ILess(sep, k) && Less(sep.user, next.user) && AtMost(next, e)
    ensures e.user != k.user
  {
    Total(sep.user, k.user);
    Total(next.user, e.user);
    if Less(k.user, sep.user) {
      Trans(k.user, sep.user, next.user);
    }
    if Less(next.user, e.user) && Less(k.user, next.user) {
      Trans(k.user, next.user, e.user);
    }
    Total(k.user, k.user);
  }

  lemma FoundInBlock(t: Table, k: IKey, i: nat, j: nat)
    requires TableOk(t) && IndexPos(t.index, k, i) && i < |t.index| && i < |t.blocks| && j < |t.blocks[i].entries|
    requires forall m :: 0 <= m < j ==> ILess(t.blocks[i].entries[m].key, k)
    requires !ILess(t.blocks[i].entries[j].key, k)
    ensures IsFirst(t, k, t.blocks[i].entries[j])
    ensures forall e :: IsFirst(t, k, e) ==> e == t.blocks[i].entries[j]
  {
    var es, f := t.blocks[i].entries, t.blocks[i].entries[j];
    assert f in es && InTable(t, f) && Ascending(es);
    forall x | InTable(t, x) && !ILess(x.key, k) ensures x == f || ILess(f.key, x.key) {
      var b :| 0 <= b < |t.blocks| && x in t.blocks[b].entries;
      if b < i {
        EarlierBlock(t, k, b, x);
        assert false;
      } else if b > i {
        assert BlockBefore(es, t.blocks[b].entries);
      } else {
        var m :| 0 <= m < |es| && es[m] == x;
        assert m > j ==> ILess(es[j].key, es[m].key);
      }
    }
    forall e | IsFirst(t, k, e) ensures e == f {
      ITotal(e.key, f.key);
    }
  }

  lemma AllOfThem(es: seq<Entry>, k: IKey, e: Entry)
    requires e in es && forall m :: 0 <= m < |es| ==> ILess(es[m].key, k)
    ensures ILess(e.key, k)
  {}

  lemma PastBlock(t: Table, k: IKey, i: nat)
    requires TableOk(t) && IndexPos(t.index, k, i) && i < |t.index| && i < |t.blocks|
    requires forall m :: 0 <= m < |t.blocks[i].entries| ==> ILess(t.blocks[i].entries[m].key, k)
    ensures forall e :: !(IsFirst(t, k, e) && e.key.user == k.user)
  {
    var es := t.blocks[i].entries;
    forall e ensures !(IsFirst(t, k, e) && e.key.user == k.user) {
      if IsFirst(t, k, e) && e.key.user == k.user {
        RightBlock(t, k, i, e);
        AllOfThem(es, k, e);
        assert false;
      }
    }
  }
}
