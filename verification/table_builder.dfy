/** Writing a table file: data blocks, filter block, metaindex, index and footer. */
module TableBuilders {
  import opened Bytes
  import opened Comparators
  import opened TableFormat
  import opened Tables

  /** Restart interval, block size, compression, checksum and the name of the filter policy. */
  datatype Options = Options(interval: nat, blockSize: nat, codec: Codec, step: CrcStep, name: seq<Byte>)

  // ----- The bytes of a table -----

  function Pairs(es: seq<Entry>): (r: seq<Blocks.Pair>)
    ensures |r| == |es|
  {
    seq(|es|, i requires 0 <= i < |es| => Blocks.Pair(EncodeKey(es[i].key), es[i].value))
  }

  function IndexPairs(index: seq<IndexEntry>): (r: seq<Blocks.Pair>)
    ensures |r| == |index|
  {
    seq(|index|, i requires 0 <= i < |index| => Blocks.Pair(EncodeKey(index[i].sep), EncodeHandle(index[i].handle)))
  }

  function DataBlock(o: Options, es: seq<Entry>): seq<Byte>
    requires o.interval >= 1
  {
    Blocks.BlockBytes(Pairs(es), o.interval)
  }

  function IndexBlock(index: seq<IndexEntry>): seq<Byte> { Blocks.BlockBytes(IndexPairs(index), 1) }

  const FILTER_PREFIX: seq<Byte> := [0x66, 0x69, 0x6c, 0x74, 0x65, 0x72, 0x2e]

  function MetaPairs(o: Options, filter: Handle): seq<Blocks.Pair> {
    [Blocks.Pair(FILTER_PREFIX + o.name, EncodeHandle(filter))]
  }

  function MetaBlock(o: Options, filter: Handle): seq<Byte>
    requires o.interval >= 1
  {
    Blocks.BlockBytes(MetaPairs(o, filter), o.interval)
  }

  function StoredSize(o: Options, raw: seq<Byte>): nat { |Stored(o.codec, raw).1| }

  /** A block is written when it reached the block size. */
  function SizesOf(o: Options): Sizes
    requires o.interval >= 1
  {
    Sizes((es: seq<Entry>) => |DataBlock(o, es)| >= o.blockSize, (es: seq<Entry>) => StoredSize(o, DataBlock(o, es)))
  }

  function DataBytes(o: Options, blocks: seq<Block>): seq<Byte>
    requires o.interval >= 1
  {
    if blocks == [] then []
    else DataBytes(o, blocks[..|blocks| - 1]) + FramedBlock(o.step, o.codec, DataBlock(o, blocks[|blocks| - 1].entries))
  }

  /** The file of a table. */
  function FileOf(o: Options, p: FilterBlocks.Policy, t: Table): seq<Byte>
    requires o.interval >= 1
  {
    var data, filter := DataBytes(o, t.blocks), FilterBlocks.BlockOf(p, t.groups);
    var meta, index := MetaBlock(o, Handle(|data|, |filter|)), IndexBlock(t.index);
    var metaAt := |data| + |filter| + TRAILER;
    var indexAt := metaAt + StoredSize(o, meta) + TRAILER;
    data + (Framed(o.step, 0, filter) + (FramedBlock(o.step, o.codec, meta) + (FramedBlock(o.step, o.codec, index) +
      EncodeFooter(Handle(metaAt, StoredSize(o, meta)), Handle(indexAt, StoredSize(o, index))))))
  }

  // ----- The builder -----

  class TableBuilder {
    const o: Options
    const filter: FilterBlocks.Builder
    const dataBlock: Blocks.Builder
    const indexBlock: Blocks.Builder
    var file: seq<Byte>
    var lastKey: IKey
    var pendingIndex: bool
    var pendingHandle: Handle
    ghost var s: State

    ghost predicate Parts() reads this {
      o.interval >= 1 && dataBlock != indexBlock && dataBlock.interval == o.interval && indexBlock.interval == 1
    }

    ghost predicate Ok() reads this, filter, dataBlock, indexBlock {
      && Parts() && filter.Ok() && dataBlock.Ok() && indexBlock.Ok()
      && dataBlock.es == Pairs(s.data) && indexBlock.es == IndexPairs(s.index)
      && file == DataBytes(o, s.blocks) && |file| == s.offset
      && filter.groups == s.groups && filter.pending == s.waiting && lastKey == s.lastKey && pendingIndex == s.pendingIndex
      && (pendingIndex ==> s.blocks != [] && pendingHandle == HandleOf(s.blocks[|s.blocks| - 1]))
      && Inv(s)
    }

    constructor (options: Options, p: FilterBlocks.Policy)
      requires options.interval >= 1
      ensures Ok() && s == EMPTY && o == options && filter.policy == p
      ensures fresh(filter) && fresh(dataBlock) && fresh(indexBlock)
    {
      o := options;
      filter := new FilterBlocks.Builder(p);
      dataBlock := new Blocks.Builder(options.interval);
      indexBlock := new Blocks.Builder(1);
      file, lastKey, pendingIndex, pendingHandle := [], IKey([], 0), false, Handle(0, 0);
      s := EMPTY;
      new;
      filter.StartBlock(0);
      EmptyHolds();
    }

    method WriteRawBlock(kind: Byte, contents: seq<Byte>) returns (h: Handle)
      modifies `file
      ensures file == old(file) + Framed(o.step, kind, contents) && h == Handle(|old(file)|, |contents|)
    {
      hide Crc, Extend, Mask, EncodeFixed32;
      h := Handle(|file|, |contents|);
      file := file + contents;
      var crc := Extend(o.step, Crc(o.step, contents), [kind]);
      CrcOfBoth(o.step, contents, kind);
      file := file + ([kind] + EncodeFixed32(Mask(crc)));
    }

    method WriteBlock(block: Blocks.Builder) returns (h: Handle)
      requires block.Ok()
      modifies `file, block
      ensures block.Ok() && block.es == []
      ensures var raw := Blocks.BlockBytes(old(block.es), block.interval);
        file == old(file) + FramedBlock(o.step, o.codec, raw) && h == Handle(|old(file)|, StoredSize(o, raw))
    {
      hide Blocks.BlockBytes, Framed, Blocks.Buffer, Blocks.RestartOffsets, Blocks.Counter, Blocks.KeyBefore;
      var raw := block.Finish();
      var (kind, contents) := Stored(o.codec, raw);
      h := WriteRawBlock(kind, contents);
      block.Reset();
    }

    /** Add an entry, with the index entry that waited for it, and write the block if it is full. */
    method Add(e: Entry)
      requires Ok() && Accepts(s, e.key)
      modifies this, filter, dataBlock, indexBlock
      ensures Ok() && s == Next(SizesOf(o), old(s), e)
    {
      hide Inv, DataBytes, Blocks.BlockBytes, EncodeKey, EncodeHandle, Flushed, FilterBlocks.Builder.Ok, Blocks.Builder.Ok;
      PendingHasBlock(s);
      AddKeeps(s, e);
      PairsNext(s.data, e);
      if pendingIndex {
        lastKey := ISeparator(lastKey, e.key);
        IndexPairsNext(s.index, IndexEntry(lastKey, pendingHandle));
        indexBlock.Add(EncodeKey(lastKey), EncodeHandle(pendingHandle));
        pendingIndex := false;
      }
      filter.AddKey(e.key.user);
      lastKey := e.key;
      dataBlock.Add(EncodeKey(e.key), e.value);
      s := Added(s, e);
      var size := dataBlock.CurrentSizeEstimate();
      if size >= o.blockSize {
        Flush();
      }
    }

    method Flush()
      requires Ok()
      modifies this, filter, dataBlock
      ensures Ok() && s == Flushed(old(s), SizesOf(o).size(old(s.data)))
      ensures s.data == [] && s.index == old(s.index)
    {
      hide Inv, DataBytes, Blocks.BlockBytes, EncodeKey, EncodeHandle, FilterBlocks.Builder.Ok, Blocks.Builder.Ok, FilterBlocks.Advance,
        FramedBlock, Stored, IndexPairs;
      HasEntries(dataBlock);
      if dataBlock.buffer == [] {
        assert s.data == [];
        return;
      }
      ghost var size := StoredSize(o, DataBlock(o, s.data));
      DataBytesNext(o, s.blocks, Block(s.offset, size, s.data));
      FlushOffset(s, size);
      FlushKeeps(s, size);
      pendingHandle := WriteBlock(dataBlock);
      pendingIndex := true;
      filter.StartBlock(|file|);
      s := Flushed(s, size);
    }

    /** Write the last block, the filter block, the metaindex, the index and the footer. */
    method Finish() returns (contents: seq<Byte>)
      requires Ok()
      modifies this, filter, dataBlock, indexBlock
      ensures contents == FileOf(o, filter.policy, TableFrom(Flushed(old(s), SizesOf(o).size(old(s.data)))))
    {
      hide Inv, DataBytes, MetaBlock, IndexBlock, EncodeFooter, Framed, FramedBlock, FilterBlocks.BlockOf,
        FilterBlocks.Builder.Ok, Blocks.Builder.Ok, Flushed, TableFrom, FileOf, StoredSize, SizesOf, IndexPairs, Pairs;
      Flush();
      ghost var t := TableFrom(s);
      FromShape(s);
      var filterBlock := filter.Finish();
      var filterHandle := WriteRawBlock(0, filterBlock);
      var metaHandle := WriteMeta(filterHandle);
      var indexHandle := WriteIndex();
      Assembled(o, filter.policy, t);
      file := file + EncodeFooter(metaHandle, indexHandle);
      contents := file;
    }

    /** The index entry of the last block, with a short successor of its last key, and the index block. */
    method WriteIndex() returns (h: Handle)
      requires indexBlock.Ok() && indexBlock.interval == 1 && indexBlock.es == IndexPairs(s.index)
      requires lastKey == s.lastKey && pendingIndex == s.pendingIndex
      requires pendingIndex ==> s.blocks != [] && pendingHandle == HandleOf(s.blocks[|s.blocks| - 1])
      modifies `file, `lastKey, `pendingIndex, indexBlock
      ensures var index := IndexBlock(TableFrom(s).index);
        file == old(file) + FramedBlock(o.step, o.codec, index) && h == Handle(|old(file)|, StoredSize(o, index))
    {
      hide Blocks.BlockBytes, EncodeKey, EncodeHandle, Framed, FramedBlock, Blocks.Builder.Ok, ISuccessor, Stored;
      if pendingIndex {
        lastKey := ISuccessor(lastKey);
        IndexPairsNext(s.index, IndexEntry(lastKey, pendingHandle));
        indexBlock.Add(EncodeKey(lastKey), EncodeHandle(pendingHandle));
        pendingIndex := false;
      }
      h := WriteBlock(indexBlock);
    }

    method WriteMeta(filterHandle: Handle) returns (h: Handle)
      requires o.interval >= 1
      modifies `file
      ensures var meta := MetaBlock(o, filterHandle);
        file == old(file) + FramedBlock(o.step, o.codec, meta) && h == Handle(|old(file)|, StoredSize(o, meta))
    {
      hide Blocks.BlockBytes, Framed, EncodeHandle, Blocks.Builder.Ok;
      var metaBlock := new Blocks.Builder(o.interval);
      metaBlock.Add(FILTER_PREFIX + o.name, EncodeHandle(filterHandle));
      assert metaBlock.es == MetaPairs(o, filterHandle);
      h := WriteBlock(metaBlock);
    }
  }

  lemma FromShape(s: State)
    ensures TableFrom(s).blocks == s.blocks && TableFrom(s).groups == FilterBlocks.Closed(s.groups, s.waiting)
  {}

  /** The parts of the file, one written behind the other. */
  lemma Assembled(o: Options, p: FilterBlocks.Policy, t: Table)
    requires o.interval >= 1
    ensures var data, filter := DataBytes(o, t.blocks), FilterBlocks.BlockOf(p, t.groups);
      var meta, index := MetaBlock(o, Handle(|data|, |filter|)), IndexBlock(t.index);
      var f1 := data + Framed(o.step, 0, filter);
      var f2 := f1 + FramedBlock(o.step, o.codec, meta);
      var f3 := f2 + FramedBlock(o.step, o.codec, index);
      FileOf(o, p, t) == f3 + EncodeFooter(Handle(|f1|, StoredSize(o, meta)), Handle(|f2|, StoredSize(o, index)))
  {
    hide DataBytes, FilterBlocks.BlockOf, MetaBlock, IndexBlock, Framed, EncodeFooter;
    var data, filter := DataBytes(o, t.blocks), FilterBlocks.BlockOf(p, t.groups);
    var meta, index := MetaBlock(o, Handle(|data|, |filter|)), IndexBlock(t.index);
    var f1 := data + Framed(o.step, 0, filter);
    var f2 := f1 + FramedBlock(o.step, o.codec, meta);
    Rejoined(data, Framed(o.step, 0, filter), FramedBlock(o.step, o.codec, meta), FramedBlock(o.step, o.codec, index),
             EncodeFooter(Handle(|f1|, StoredSize(o, meta)), Handle(|f2|, StoredSize(o, index))));
  }

  lemma Rejoined(a: seq<Byte>, b: seq<Byte>, c: seq<Byte>, d: seq<Byte>, e: seq<Byte>)
    ensures (((a + b) + c) + d) + e == a + (b + (c + (d + e)))
  {}

  /** A builder that is given any ascending entries writes the file of their table. */
  method Build(o: Options, p: FilterBlocks.Policy, es: seq<Entry>) returns (file: seq<Byte>)
    requires o.interval >= 1 && Ascending(es)
    ensures file == FileOf(o, p, TableOf(SizesOf(o), es))
  {
    hide FileOf, Inv, Next, Flushed, TableFrom;
    var b := new TableBuilder(o, p);
    var i := 0;
    while i < |es|
      invariant 0 <= i <= |es| && b.Ok() && fresh(b) && fresh(b.filter) && fresh(b.dataBlock) && fresh(b.indexBlock)
      invariant b.filter.policy == p && b.o == o && b.s == Run(SizesOf(o), es, i)
    {
      RunHolds(SizesOf(o), es, i);
      RunAccepts(SizesOf(o), es, i);
      b.Add(es[i]);
      i := i + 1;
    }
    file := b.Finish();
  }

  lemma RunAccepts(z: Sizes, es: seq<Entry>, i: nat)
    requires Ascending(es) && i < |es|
    ensures Accepts(Run(z, es, i), es[i].key)
  {
    RunHolds(z, es, i);
    hide Run, Inv, Contents, ILess;
    assert i > 0 ==> ILess(es[i - 1].key, es[i].key);
  }

  lemma CrcOfBoth(step: CrcStep, contents: seq<Byte>, kind: Byte)
    ensures Extend(step, Crc(step, contents), [kind]) == Crc(step, contents + [kind])
  {
    ExtendConcat(step, 0, contents, [kind]);
  }

  lemma PairsNext(es: seq<Entry>, e: Entry)
    ensures Pairs(es + [e]) == Pairs(es) + [Blocks.Pair(EncodeKey(e.key), e.value)]
  {
    hide EncodeKey;
  }

  lemma IndexPairsNext(index: seq<IndexEntry>, x: IndexEntry)
    ensures IndexPairs(index + [x]) == IndexPairs(index) + [Blocks.Pair(EncodeKey(x.sep), EncodeHandle(x.handle))]
  {
    hide EncodeKey, EncodeHandle;
  }

  lemma DataBytesNext(o: Options, blocks: seq<Block>, b: Block)
    requires o.interval >= 1
    ensures DataBytes(o, blocks + [b]) == DataBytes(o, blocks) + FramedBlock(o.step, o.codec, DataBlock(o, b.entries))
  {
    assert (blocks + [b])[..|blocks|] == blocks;
  }

  lemma HasEntries(b: Blocks.Builder)
    requires b.Ok()
    ensures b.buffer == [] <==> b.es == []
  {
    Blocks.BufferGrows(b.es, b.interval, 0, |b.es|);
    Blocks.EmptyBuffer(b.es, b.interval);
    hide Blocks.Buffer, Blocks.RestartOffsets;
  }
}
