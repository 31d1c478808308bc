/** Where the blocks of a table end, and which keys its index has. */
module TableCuts {
  import opened Comparators
  import opened TableFormat
  import opened Tables
  import TableBuilders

  /** No block is cut later than where it first was full. */
  ghost predicate NotFullBefore(z: Sizes, es: seq<Entry>, n: nat) {
    forall i :: 1 <= i < n && i <= |es| ==> !z.full(es[..i])
  }

  /** Cut exactly where it was full, given the size it takes, and placed behind the block before. */
  ghost predicate CutAt(z: Sizes, blocks: seq<Block>, i: nat)
    requires i < |blocks|
  {
    var b := blocks[i];
    && b.entries != [] && z.full(b.entries) && NotFullBefore(z, b.entries, |b.entries|)
    && b.size == z.size(b.entries) && b.offset == EndBefore(blocks, i)
  }

  function EndBefore(blocks: seq<Block>, i: nat): nat
    requires i <= |blocks|
  {
    if i == 0 then 0 else blocks[i - 1].offset + blocks[i - 1].size + 5
  }

  /** The first key behind block i: of the next block, or of the one being filled. */
  ghost predicate KeyBehind(blocks: seq<Block>, data: seq<Entry>, i: nat, k: IKey)
    requires i < |blocks|
  {
    if i + 1 < |blocks| then blocks[i + 1].entries != [] && k == blocks[i + 1].entries[0].key
    else data != [] && k == data[0].key
  }

  /** Index key i is the shortened separator of the last key of block i and the first behind it. */
  ghost predicate IndexedAt(s: State, i: nat)
    requires i < |s.index|
  {
    && i < |s.blocks| && s.blocks[i].entries != []
    && exists k :: KeyBehind(s.blocks, s.data, i, k) && s.index[i].sep == ISeparator(LastKey(s.blocks[i].entries), k)
  }

  /** The last block waits for the key behind it. */
  ghost predicate AwaitsKey(s: State) {
    && s.blocks != [] && s.data == [] && |s.index| == |s.blocks| - 1
    && s.blocks[|s.blocks| - 1].entries != [] && s.lastKey == LastKey(s.blocks[|s.blocks| - 1].entries)
  }

  ghost predicate CutInv(z: Sizes, s: State) {
    && (forall i: nat :: i < |s.blocks| ==> CutAt(z, s.blocks, i))
    && NotFullBefore(z, s.data, |s.data| + 1) && s.offset == EndBefore(s.blocks, |s.blocks|)
    && (s.pendingIndex ==> AwaitsKey(s))
    && (!s.pendingIndex ==> |s.index| == |s.blocks|)
    && (s.blocks != [] && s.data == [] ==> s.pendingIndex) && (s.data != [] ==> s.lastKey == LastKey(s.data))
    && (forall i: nat :: i < |s.index| ==> IndexedAt(s, i))
  }

  /** What adding an entry keeps; only the block being filled may have become full. */
  ghost predicate AddInv(z: Sizes, s: State) {
    && (forall i: nat :: i < |s.blocks| ==> CutAt(z, s.blocks, i))
    && s.data != [] && NotFullBefore(z, s.data, |s.data|) && s.offset == EndBefore(s.blocks, |s.blocks|)
    && !s.pendingIndex && |s.index| == |s.blocks| && s.lastKey == LastKey(s.data)
    && (forall i: nat :: i < |s.index| ==> IndexedAt(s, i))
  }

  lemma AddCuts(z: Sizes, s: State, e: Entry)
    requires CutInv(z, s)
    ensures AddInv(z, Added(s, e))
  {
    var s' := Added(s, e);
    forall i | 1 <= i < |s'.data| ensures !z.full(s'.data[..i]) {
      assert s'.data[..i] == s.data[..i];
    }
    forall i: nat | i < |s'.index| ensures IndexedAt(s', i) {
      if i < |s.index| {
        assert IndexedAt(s, i);
        var k :| KeyBehind(s.blocks, s.data, i, k) && s.index[i].sep == ISeparator(LastKey(s.blocks[i].entries), k);
        assert KeyBehind(s'.blocks, s'.data, i, k);
      } else {
        assert KeyBehind(s'.blocks, s'.data, i, e.key);
      }
    }
  }

  lemma StillCut(z: Sizes, blocks: seq<Block>, b: Block, i: nat)
    requires i < |blocks| && CutAt(z, blocks, i)
    ensures CutAt(z, blocks + [b], i)
  {}

  lemma FlushIndexed(s: State, size: nat, i: nat)
    requires s.data != [] && i < |s.index| == |s.blocks| && IndexedAt(s, i)
    ensures i < |Flushed(s, size).index| && IndexedAt(Flushed(s, size), i)
  {
    var s' := Flushed(s, size);
    var k :| KeyBehind(s.blocks, s.data, i, k) && s.index[i].sep == ISeparator(LastKey(s.blocks[i].entries), k);
    assert KeyBehind(s'.blocks, s'.data, i, k);
  }

  lemma FlushCuts(z: Sizes, s: State)
    requires AddInv(z, s) && z.full(s.data)
    ensures CutInv(z, Flushed(s, z.size(s.data)))
  {
    var s', b := Flushed(s, z.size(s.data)), Block(s.offset, z.size(s.data), s.data);
    forall i: nat | i < |s'.blocks| ensures CutAt(z, s'.blocks, i) {
      if i < |s.blocks| {
        StillCut(z, s.blocks, b, i);
      }
    }
    forall i: nat | i < |s'.index| ensures IndexedAt(s', i) {
      FlushIndexed(s, z.size(s.data), i);
    }
    hide CutAt, IndexedAt;
  }

  lemma AddedOpen(z: Sizes, s: State)
    requires AddInv(z, s) && !z.full(s.data)
    ensures CutInv(z, s)
  {
    hide CutAt, IndexedAt;
    forall i | 1 <= i < |s.data| + 1 ensures !z.full(s.data[..i]) {
      assert i == |s.data| ==> s.data[..i] == s.data;
    }
  }

  lemma {:induction false} RunCuts(z: Sizes, es: seq<Entry>, n: nat)
    requires n <= |es|
    ensures CutInv(z, Run(z, es, n))
  {
    hide CutInv, AddInv, Added, Flushed;
    if n == 0 {
      EmptyCuts(z);
    } else {
      RunCuts(z, es, n - 1);
      var s := Added(Run(z, es, n - 1), es[n - 1]);
      AddCuts(z, Run(z, es, n - 1), es[n - 1]);
      if z.full(s.data) {
        FlushCuts(z, s);
      } else {
        AddedOpen(z, s);
      }
    }
  }

  lemma EmptyCuts(z: Sizes) ensures CutInv(z, EMPTY) {}

  /** Block i of a finished table: no proper beginning of it was full, and unless it is the last it is. */
  ghost predicate BlockCut(z: Sizes, t: Table, i: nat)
    requires i < |t.blocks|
  {
    var b := t.blocks[i];
    && b.entries != [] && (i + 1 < |t.blocks| ==> z.full(b.entries))
    && (forall n :: 1 <= n < |b.entries| ==> !z.full(b.entries[..n]))
    && b.size == z.size(b.entries)
    && b.offset == if i == 0 then 0 else t.blocks[i - 1].offset + t.blocks[i - 1].size + 5
  }

  /** Index entry i: the separator of its block and the next, or behind the last block the successor of its last key. */
  ghost predicate IndexKey(t: Table, i: nat)
    requires i < |t.blocks| == |t.index|
  {
    && t.blocks[i].entries != [] && (i + 1 < |t.blocks| ==> t.blocks[i + 1].entries != [])
    && t.index[i].sep == if i + 1 < |t.blocks|
                         then ISeparator(LastKey(t.blocks[i].entries), t.blocks[i + 1].entries[0].key)
                         else ISuccessor(LastKey(t.blocks[i].entries))
  }

  lemma FinishedCuts(z: Sizes, s: State, i: nat)
    requires CutInv(z, s)
    ensures var t := TableFrom(Flushed(s, z.size(s.data)));
      |t.index| == |t.blocks| && (i < |t.blocks| ==> BlockCut(z, t, i) && IndexKey(t, i))
  {
    var last := Flushed(s, z.size(s.data));
    var t := TableFrom(last);
    if i < |t.blocks| {
      if i < |s.blocks| {
        assert CutAt(z, s.blocks, i);
      }
      if i < |s.index| {
        assert IndexedAt(s, i);
      }
    }
  }

  /** The blocks of the table of any entries are cut as soon as they are full and not before, and its index keys are
      the shortened ones. */
  lemma TableCut(z: Sizes, es: seq<Entry>, i: nat)
    ensures var t := TableOf(z, es);
      |t.index| == |t.blocks| && (i < |t.blocks| ==> BlockCut(z, t, i) && IndexKey(t, i))
  {
    hide CutInv, Run, Flushed, TableFrom;
    RunCuts(z, es, |es|);
    FinishedCuts(z, Run(z, es, |es|), i);
  }

  /** In a built file: every block but the last takes at least the block size, and no block did before its last entry. */
  lemma BlockSizes(o: TableBuilders.Options, es: seq<Entry>, i: nat, n: nat)
    requires o.interval >= 1 && i < |TableOf(TableBuilders.SizesOf(o), es).blocks|
    ensures var blocks := TableOf(TableBuilders.SizesOf(o), es).blocks;
      && (i + 1 < |blocks| ==> |TableBuilders.DataBlock(o, blocks[i].entries)| >= o.blockSize)
      && (1 <= n < |blocks[i].entries| ==> |TableBuilders.DataBlock(o, blocks[i].entries[..n])| < o.blockSize)
  {
    hide TableBuilders.DataBlock, TableOf;
    TableCut(TableBuilders.SizesOf(o), es, i);
  }
}
