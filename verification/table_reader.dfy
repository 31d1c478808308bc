/** Opening a table file and looking a key up in its bytes. */
module TableReaders {
  import opened Wrappers
  import opened Bytes
  import opened Coding
  import opened Comparators
  import opened TableFormat
  import opened Tables
  import opened TableBuilders
  import BlockIters

  // ----- Where the parts of a file stand -----

  /** Block i's offset and size are those of its bytes. */
  ghost predicate LaidAt(o: Options, blocks: seq<Block>, i: nat)
    requires o.interval >= 1 && i < |blocks|
  {
    blocks[i].offset == |DataBytes(o, blocks[..i])| && blocks[i].size == StoredSize(o, DataBlock(o, blocks[i].entries))
  }

  ghost predicate Laid(o: Options, s: State)
    requires o.interval >= 1
  {
    s.offset == |DataBytes(o, s.blocks)| && forall i: nat :: i < |s.blocks| ==> LaidAt(o, s.blocks, i)
  }

  lemma FlushLaid(o: Options, s: State)
    requires o.interval >= 1 && Laid(o, s)
    ensures Laid(o, Flushed(s, SizesOf(o).size(s.data)))
  {
    hide DataBytes, DataBlock, FilterBlocks.Advance, Stored;
    if s.data != [] {
      var size := StoredSize(o, DataBlock(o, s.data));
      var b, s' := Block(s.offset, size, s.data), Flushed(s, SizesOf(o).size(s.data));
      DataBytesNext(o, s.blocks, b);
      forall i: nat | i < |s'.blocks| ensures LaidAt(o, s'.blocks, i) {
        if i < |s.blocks| {
          assert LaidAt(o, s.blocks, i);
          assert s'.blocks[..i] == s.blocks[..i];
        } else {
          assert s'.blocks[..i] == s.blocks;
        }
      }
    }
  }

  lemma {:induction false} RunLaid(o: Options, es: seq<Entry>, n: nat)
    requires o.interval >= 1 && n <= |es|
    ensures Laid(o, Run(SizesOf(o), es, n))
  {
    hide DataBlock, Flushed;
    if n > 0 {
      RunLaid(o, es, n - 1);
      FlushLaid(o, Added(Run(SizesOf(o), es, n - 1), es[n - 1]));
    }
  }

  /** Every block of the table has its bytes at its offset. */
  ghost predicate TableLaid(o: Options, t: Table)
    requires o.interval >= 1
  {
    forall i: nat :: i < |t.blocks| ==> LaidAt(o, t.blocks, i)
  }

  lemma TableOfLaid(o: Options, es: seq<Entry>)
    requires o.interval >= 1
    ensures TableLaid(o, TableOf(SizesOf(o), es))
  {
    hide LaidAt, Run, Flushed;
    RunLaid(o, es, |es|);
    FlushLaid(o, Run(SizesOf(o), es, |es|));
  }

  lemma {:induction false} DataPrefix(o: Options, blocks: seq<Block>, i: nat)
    requires o.interval >= 1 && i < |blocks|
    ensures DataBytes(o, blocks[..i]) + FramedBlock(o.step, o.codec, DataBlock(o, blocks[i].entries)) <= DataBytes(o, blocks)
    decreases |blocks|
  {
    hide FramedBlock, DataBlock;
    var k := |blocks| - 1;
    if i < k {
      DataPrefix(o, blocks[..k], i);
      assert blocks[..k][..i] == blocks[..i];
    }
  }

  lemma StandsInPrefix(a: seq<Byte>, b: seq<Byte>, data: seq<Byte>, rest: seq<Byte>)
    requires a + b <= data
    ensures StandsAt(data + rest, |a|, b)
  {
    assert data[..|a| + |b|] == a + b;
    assert (data + rest)[|a|..|a| + |b|] == data[..|a| + |b|][|a|..];
  }

  lemma BlockStands(o: Options, blocks: seq<Block>, rest: seq<Byte>, i: nat)
    requires o.interval >= 1 && i < |blocks| && LaidAt(o, blocks, i)
    ensures StandsAt(DataBytes(o, blocks) + rest, blocks[i].offset, FramedBlock(o.step, o.codec, DataBlock(o, blocks[i].entries)))
  {
    hide DataBytes, FramedBlock, DataBlock;
    DataPrefix(o, blocks, i);
    StandsInPrefix(DataBytes(o, blocks[..i]), FramedBlock(o.step, o.codec, DataBlock(o, blocks[i].entries)), DataBytes(o, blocks), rest);
  }

  lemma Stands4(a: seq<Byte>, b: seq<Byte>, c: seq<Byte>, d: seq<Byte>, e: seq<Byte>)
    ensures var file := a + (b + (c + (d + e)));
      && StandsAt(file, |a|, b) && StandsAt(file, |a| + |b|, c) && StandsAt(file, |a| + |b| + |c|, d)
      && |file| == |a| + |b| + |c| + |d| + |e| && file[|file| - |e|..] == e
  {
    var file := a + (b + (c + (d + e)));
    assert file[|a|..|a| + |b|] == b;
    assert file[|a| + |b|..|a| + |b| + |c|] == c;
    assert file[|a| + |b| + |c|..|a| + |b| + |c| + |d|] == d;
  }

  // ----- Sizes -----

  function FilterHandle(o: Options, p: FilterBlocks.Policy, t: Table): Handle
    requires o.interval >= 1
  {
    Handle(|DataBytes(o, t.blocks)|, |FilterBlocks.BlockOf(p, t.groups)|)
  }

  /** Each block, before compression, and the filter block take less than 4 GB: their offsets have 32 bits.
      Handles have 64. */
  ghost predicate Sized(o: Options, p: FilterBlocks.Policy, t: Table)
    requires o.interval >= 1
  {
    && |FileOf(o, p, t)| < U64 && |FilterBlocks.BlockOf(p, t.groups)| < U32 && |IndexBlock(t.index)| < U32 && |MetaBlock(o, FilterHandle(o, p, t))| < U32
    && forall i :: 0 <= i < |t.blocks| ==> |DataBlock(o, t.blocks[i].entries)| < U32
  }

  lemma SmallBlock(es: seq<Blocks.Pair>, interval: nat)
    requires interval >= 1 && |Blocks.BlockBytes(es, interval)| < U32
    ensures Blocks.Small(es, interval)
  {
    hide Blocks.Buffer, Blocks.RestartOffsets, Blocks.BlockBytes;
    Blocks.BlockSize(es, interval);
  }

  lemma {:induction false} StoredAll(o: Options, blocks: seq<Block>, i: nat)
    requires o.interval >= 1 && o.codec.kind == 0 && i < |blocks|
    ensures |DataBlock(o, blocks[i].entries)| <= |DataBytes(o, blocks)|
  {
    hide DataBytes, DataBlock, Framed;
    DataPrefix(o, blocks, i);
  }

  /** Without compression a file below 4 GB is small enough in all its parts. */
  lemma UncompressedSized(o: Options, p: FilterBlocks.Policy, t: Table)
    requires o.interval >= 1 && o.codec.kind == 0
    ensures |FileOf(o, p, t)| < U32 ==> Sized(o, p, t)
  {
    hide DataBytes, MetaBlock, IndexBlock, FilterBlocks.BlockOf, EncodeFooter, Framed, DataBlock;
    forall i | 0 <= i < |t.blocks| ensures |DataBlock(o, t.blocks[i].entries)| <= |DataBytes(o, t.blocks)| {
      StoredAll(o, t.blocks, i);
    }
  }

  // ----- Opening -----

  /** What Open keeps: the file, the index block and the filter block. */
  datatype Reader = Reader(file: seq<Byte>, index: seq<Byte>, filter: Option<seq<Byte>>)

  /** The reader's settings: whether checksums are verified, and its decompressors. */
  datatype Reading = Reading(check: bool, unpack: Unpack)

  lemma FileParts(o: Options, p: FilterBlocks.Policy, t: Table)
    requires o.interval >= 1
    ensures var file, f := FileOf(o, p, t), FilterHandle(o, p, t);
      var meta, index := MetaBlock(o, f), IndexBlock(t.index);
      var metaAt := f.offset + f.size + TRAILER;
      var indexAt := metaAt + StoredSize(o, meta) + TRAILER;
      && StandsAt(file, f.offset, Framed(o.step, 0, FilterBlocks.BlockOf(p, t.groups)))
      && StandsAt(file, metaAt, FramedBlock(o.step, o.codec, meta))
      && StandsAt(file, indexAt, FramedBlock(o.step, o.codec, index))
      && |file| == indexAt + StoredSize(o, index) + TRAILER + FOOTER
      && file[|file| - FOOTER..] == EncodeFooter(Handle(metaAt, StoredSize(o, meta)), Handle(indexAt, StoredSize(o, index)))
  {
    hide DataBytes, MetaBlock, IndexBlock, FilterBlocks.BlockOf, EncodeFooter, Framed;
    var f := FilterHandle(o, p, t);
    var meta, index := MetaBlock(o, f), IndexBlock(t.index);
    var metaAt := f.offset + f.size + TRAILER;
    var indexAt := metaAt + StoredSize(o, meta) + TRAILER;
    Stands4(DataBytes(o, t.blocks), Framed(o.step, 0, FilterBlocks.BlockOf(p, t.groups)), FramedBlock(o.step, o.codec, meta),
            FramedBlock(o.step, o.codec, index), EncodeFooter(Handle(metaAt, StoredSize(o, meta)), Handle(indexAt, StoredSize(o, index))));
  }

  /** Table::Open on a file the builder wrote finds the index block and the filter block. */
  method Open(o: Options, rd: Reading, p: FilterBlocks.Policy, file: seq<Byte>, ghost t: Table) returns (r: Option<Reader>)
    requires o.interval >= 1 && Inverts(rd.unpack, o.codec) && file == FileOf(o, p, t) && Sized(o, p, t)
    ensures r == Some(Reader(file, IndexBlock(t.index), Some(FilterBlocks.BlockOf(p, t.groups))))
  {
    hide FileOf, MetaBlock, IndexBlock, DataBytes, FilterBlocks.BlockOf, Framed, FramedBlock, ReadBlock, EncodeFooter, DecodeFooter,
      StandsAt, Stored, DataBlock;
    FileParts(o, p, t);
    if |file| < FOOTER {
      return None;
    }
    ghost var f := FilterHandle(o, p, t);
    ghost var meta, index := MetaBlock(o, f), IndexBlock(t.index);
    ghost var metaAt := f.offset + f.size + TRAILER;
    ghost var indexAt := metaAt + StoredSize(o, meta) + TRAILER;
    FooterBack(Handle(metaAt, StoredSize(o, meta)), Handle(indexAt, StoredSize(o, index)));
    var footer := DecodeFooter(file[|file| - FOOTER..]);
    if footer.None? {
      return None;
    }
    var (metaHandle, indexHandle) := footer.value;
    BlockReads(o.step, rd.check, rd.unpack, o.codec, file, indexAt, index);
    var contents := ReadBlock(o.step, rd.check, rd.unpack, file, indexHandle);
    if contents.None? {
      return None;
    }
    BlockReads(o.step, rd.check, rd.unpack, o.codec, file, metaAt, meta);
    var filter := ReadMeta(o, rd, file, metaHandle, p, t);
    r := Some(Reader(file, contents.value, filter));
  }

  /** Table::ReadMeta and ReadFilter: the filter block named in the metaindex. */
  method ReadMeta(o: Options, rd: Reading, file: seq<Byte>, metaHandle: Handle, ghost p: FilterBlocks.Policy, ghost t: Table)
    returns (filter: Option<seq<Byte>>)
    requires o.interval >= 1 && file == FileOf(o, p, t) && Sized(o, p, t)
    requires ReadBlock(o.step, rd.check, rd.unpack, file, metaHandle) == Some(MetaBlock(o, FilterHandle(o, p, t)))
    ensures filter == Some(FilterBlocks.BlockOf(p, t.groups))
  {
    hide FileOf, DataBytes, FilterBlocks.BlockOf, Framed, FramedBlock, ReadBlock, StandsAt, Stored, Blocks.BlockBytes, Blocks.Small, Less,
      EncodeHandle, DecodeHandle, IndexBlock, DataBlock;
    FileParts(o, p, t);
    ghost var f := FilterHandle(o, p, t);
    var contents := ReadBlock(o.step, rd.check, rd.unpack, file, metaHandle);
    if contents.None? {
      return None;
    }
    ghost var es := MetaPairs(o, f);
    SmallBlock(es, o.interval);
    LessOrder();
    var key := FILTER_PREFIX + o.name;
    var found, pos := BlockIters.SeekIn(Less, contents.value, es, o.interval, key);
    OnlyEntry(es, key, pos);
    if found.None? || found.value.key != key {
      return None;
    }
    HandleBack(f, []);
    assert EncodeHandle(f) + [] == EncodeHandle(f);
    var handle := DecodeHandle(found.value.value);
    if handle.Failed? {
      return None;
    }
    FramedReads(o.step, rd.check, rd.unpack, file, f.offset, 0, FilterBlocks.BlockOf(p, t.groups));
    filter := ReadBlock(o.step, rd.check, rd.unpack, file, handle.value);
  }

  lemma LessOrder()
    ensures Blocks.IsOrder(Less)
  {
    hide Less;
    forall a, b ensures !(Less(a, b) && Less(b, a)) && (Less(a, b) || Less(b, a) || a == b) {
      Total(a, b);
    }
    forall a, b, c | Less(a, b) && Less(b, c) ensures Less(a, c) {
      Trans(a, b, c);
    }
  }

  lemma OnlyEntry(es: seq<Blocks.Pair>, key: seq<Byte>, pos: nat)
    requires |es| == 1 && es[0].key == key && BlockIters.SeekPos(Less, es, key, pos)
    ensures pos == 0
  {
    Total(key, key);
    if pos > 0 {
      FirstBefore(es, key, pos);
    }
  }

  lemma FirstBefore(es: seq<Blocks.Pair>, key: seq<Byte>, pos: nat)
    requires |es| == 1 && pos > 0 && BlockIters.SeekPos(Less, es, key, pos)
    ensures Less(es[0].key, key)
  {}

  // ----- Lookup -----

  lemma PairsAscend(es: seq<Entry>)
    requires Ascending(es) && Numbered(es)
    ensures Blocks.Ascending(KeyLess, Pairs(es))
  {
    hide KeyLess, EncodeKey, ILess;
    forall i, j | 0 <= i < j < |es| ensures KeyLess(Pairs(es)[i].key, Pairs(es)[j].key) {
      assert es[i] in es && es[j] in es;
      KeyLessIs(es[i].key, es[j].key);
    }
  }

  lemma IndexAscends(t: Table)
    requires TableOk(t) && TableKeysFit(t)
    ensures Blocks.Ascending(KeyLess, IndexPairs(t.index))
  {
    hide KeyLess, EncodeKey, ILess, TableOk;
    forall i, j | 0 <= i < j < |t.index| ensures KeyLess(IndexPairs(t.index)[i].key, IndexPairs(t.index)[j].key) {
      SepsAscend(t, i, j);
      KeyLessIs(t.index[i].sep, t.index[j].sep);
    }
  }

  /** Seeking in the index bytes finds the position in the index. */
  lemma SeekIsIndexPos(t: Table, k: IKey, pos: nat)
    requires TableKeysFit(t) && k.num < U64 && BlockIters.SeekPos(KeyLess, IndexPairs(t.index), EncodeKey(k), pos)
    ensures IndexPos(t.index, k, pos)
  {
    hide KeyLess, EncodeKey, ILess;
    var pairs := IndexPairs(t.index);
    forall j: nat | j < |t.index| ensures KeyLess(pairs[j].key, EncodeKey(k)) <==> ILess(t.index[j].sep, k) {
      KeyLessIs(t.index[j].sep, k);
    }
  }

  /** Seeking in a data block's bytes finds its first entry at or after k. */
  lemma SeekIsFirst(es: seq<Entry>, k: IKey, pos: nat)
    requires Numbered(es) && k.num < U64 && BlockIters.SeekPos(KeyLess, Pairs(es), EncodeKey(k), pos)
    ensures pos <= |es| && (forall m :: 0 <= m < pos ==> ILess(es[m].key, k)) && (pos < |es| ==> !ILess(es[pos].key, k))
  {
    hide KeyLess, EncodeKey, ILess;
    forall j: nat | j < |es| ensures KeyLess(Pairs(es)[j].key, EncodeKey(k)) <==> ILess(es[j].key, k) {
      assert es[j] in es;
      KeyLessIs(es[j].key, k);
    }
  }

  /** What a lookup needs of the opened table. */
  ghost predicate Serves(o: Options, rd: Reading, r: Reader, t: Table) {
    && o.interval >= 1 && TableOk(t) && TableKeysFit(t) && r.index == IndexBlock(t.index) && Blocks.Small(IndexPairs(t.index), 1)
    && forall i: nat :: i < |t.blocks| ==> ServesBlock(o, rd, r, t.blocks[i])
  }

  ghost predicate ServesBlock(o: Options, rd: Reading, r: Reader, b: Block) {
    && o.interval >= 1 && b.offset < U64 && b.size < U64 && Blocks.Small(Pairs(b.entries), o.interval)
    && ReadBlock(o.step, rd.check, rd.unpack, r.file, HandleOf(b)) == Some(DataBlock(o, b.entries))
  }

  /** The filter, if there is one, lets the key through to block i. */
  predicate Passes(p: FilterBlocks.Policy, r: Reader, b: Block, k: IKey) {
    r.filter.Some? ==> FilterBlocks.MayMatch(p, r.filter.value, b.offset, k.user)
  }

  /** Table::InternalGet on the bytes: what it reports is the first entry at or after k; and it reports that
      entry, if it has k's user key, exactly when the filter of the entry's block lets the key through. */
  method InternalGet(o: Options, rd: Reading, p: FilterBlocks.Policy, r: Reader, k: IKey, ghost t: Table) returns (found: Option<Entry>)
    requires Serves(o, rd, r, t) && k.num < U64
    ensures found.Some? ==> IsFirst(t, k, found.value)
    ensures forall i, e :: 0 <= i < |t.blocks| && e in t.blocks[i].entries && IsFirst(t, k, e) && e.key.user == k.user ==>
              (found == Some(e) <==> Passes(p, r, t.blocks[i], k))
  {
    hide TableOk, IsFirst, Passes, ReadBlock, Blocks.BlockBytes, Blocks.Small, KeyLess, EncodeKey, EncodeHandle, DecodeHandle,
      BlockIters.SeekPos, ServesBlock, TableKeysFit, IndexAt, Ascending;
    KeyLessOrder();
    IndexAscends(t);
    var target := EncodeKey(k);
    var entry, i := BlockIters.SeekIn(KeyLess, r.index, IndexPairs(t.index), 1, target);
    SeekIsIndexPos(t, k, i);
    if entry.None? {
      BeyondIndex(t, k);
      return None;
    }
    BlockOfIndex(t, i);
    ghost var b := t.blocks[i];
    forall j, e | 0 <= j < |t.blocks| && e in t.blocks[j].entries && IsFirst(t, k, e) && e.key.user == k.user ensures j == i {
      RightBlock(t, k, i, e);
      InOneBlock(t, i, j, e);
    }
    ServedHandle(o, rd, r, b);
    var handle := DecodeHandle(entry.value.value);
    if handle.Failed? {
      assert false;
    }
    if r.filter.Some? && !FilterBlocks.MayMatch(p, r.filter.value, handle.value.offset, k.user) {
      Denied(p, r, b, k);
      return None;
    }
    Let(p, r, b, k);
    var block := ReadBlock(o.step, rd.check, rd.unpack, r.file, handle.value);
    BlockFits(t, i);
    PairsAscend(b.entries);
    var pair, j := BlockIters.SeekIn(KeyLess, block.value, Pairs(b.entries), o.interval, target);
    SeekIsFirst(b.entries, k, j);
    if pair.None? {
      PastBlock(t, k, i);
      return None;
    }
    FoundInBlock(t, k, i, j);
    KeyFits(b.entries, j);
    KeyBack(b.entries[j].key);
    found := Some(Entry(DecodeKey(pair.value.key), pair.value.value));
  }

  lemma Denied(p: FilterBlocks.Policy, r: Reader, b: Block, k: IKey)
    requires r.filter.Some? && !FilterBlocks.MayMatch(p, r.filter.value, b.offset, k.user)
    ensures !Passes(p, r, b, k)
  {}

  lemma Let(p: FilterBlocks.Policy, r: Reader, b: Block, k: IKey)
    requires !(r.filter.Some? && !FilterBlocks.MayMatch(p, r.filter.value, b.offset, k.user))
    ensures Passes(p, r, b, k)
  {}

  lemma BlockFits(t: Table, i: nat)
    requires TableKeysFit(t) && i < |t.blocks|
    ensures Numbered(t.blocks[i].entries)
  {}

  lemma KeyFits(es: seq<Entry>, j: nat)
    requires Numbered(es) && j < |es|
    ensures es[j].key.num < U64
  {
    assert es[j] in es;
  }

  lemma ServedHandle(o: Options, rd: Reading, r: Reader, b: Block)
    requires ServesBlock(o, rd, r, b)
    ensures DecodeHandle(EncodeHandle(HandleOf(b))) == Got(HandleOf(b), [])
    ensures o.interval >= 1 && Blocks.Small(Pairs(b.entries), o.interval)
    ensures ReadBlock(o.step, rd.check, rd.unpack, r.file, HandleOf(b)) == Some(DataBlock(o, b.entries))
  {
    hide ReadBlock, EncodeHandle, DecodeHandle, Blocks.Small;
    HandleBack(HandleOf(b), []);
    assert EncodeHandle(HandleOf(b)) + [] == EncodeHandle(HandleOf(b));
  }

  // ----- A built file serves every lookup -----

  lemma {:induction false} BlockEnds(o: Options, blocks: seq<Block>, i: nat)
    requires o.interval >= 1 && i < |blocks| && LaidAt(o, blocks, i)
    ensures blocks[i].offset + blocks[i].size <= |DataBytes(o, blocks)|
  {
    hide DataBytes, DataBlock;
    DataPrefix(o, blocks, i);
  }

  lemma BuiltServes(o: Options, rd: Reading, p: FilterBlocks.Policy, es: seq<Entry>)
    requires o.interval >= 1 && Inverts(rd.unpack, o.codec) && Ascending(es) && Numbered(es)
    requires Sized(o, p, TableOf(SizesOf(o), es))
    ensures var t := TableOf(SizesOf(o), es);
      Serves(o, rd, Reader(FileOf(o, p, t), IndexBlock(t.index), Some(FilterBlocks.BlockOf(p, t.groups))), t)
  {
    hide Run, Flushed, TableOk, TableKeysFit, Ascending, Contents, FilterBlocks.Concat, FileOf, Blocks.BlockBytes, Blocks.Small,
      FilterBlocks.BlockOf, LaidAt, MetaBlock, TableFrom, ServesBlock;
    var t := TableOf(SizesOf(o), es);
    TableOfEntries(SizesOf(o), es);
    TableOfFits(SizesOf(o), es);
    TableOfLaid(o, es);
    SmallBlock(IndexPairs(t.index), 1);
    var r := Reader(FileOf(o, p, t), IndexBlock(t.index), Some(FilterBlocks.BlockOf(p, t.groups)));
    forall i: nat | i < |t.blocks| ensures ServesBlock(o, rd, r, t.blocks[i]) {
      BuiltBlock(o, rd, p, r, t, i);
    }
  }

  lemma FileStarts(o: Options, p: FilterBlocks.Policy, t: Table) returns (rest: seq<Byte>)
    requires o.interval >= 1
    ensures FileOf(o, p, t) == DataBytes(o, t.blocks) + rest
  {
    hide DataBytes, MetaBlock, IndexBlock, FilterBlocks.BlockOf, EncodeFooter, Framed;
    rest := FileOf(o, p, t)[|DataBytes(o, t.blocks)|..];
  }

  lemma BuiltBlock(o: Options, rd: Reading, p: FilterBlocks.Policy, r: Reader, t: Table, i: nat)
    requires o.interval >= 1 && Inverts(rd.unpack, o.codec) && Sized(o, p, t) && i < |t.blocks| && LaidAt(o, t.blocks, i)
    requires r.file == FileOf(o, p, t)
    ensures ServesBlock(o, rd, r, t.blocks[i])
  {
    hide FileOf, DataBytes, Blocks.BlockBytes, Blocks.Small, FramedBlock, ReadBlock, StandsAt, Stored;
    var b := t.blocks[i];
    SmallBlock(Pairs(b.entries), o.interval);
    var rest := FileStarts(o, p, t);
    BlockStands(o, t.blocks, rest, i);
    BlockEnds(o, t.blocks, i);
    BlockReads(o.step, rd.check, rd.unpack, o.codec, r.file, b.offset, DataBlock(o, b.entries));
  }
}
