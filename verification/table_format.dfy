/** The table file: block handles, blocks with their trailers, and the footer. */
module TableFormat {
  import opened Wrappers
  import opened Bytes
  import opened Coding

  // ----- Handles -----

  /** Where a block's contents stand in the file. */
  datatype Handle = Handle(offset: nat, size: nat)

  function EncodeHandle(h: Handle): seq<Byte> { Varint(h.offset) + Varint(h.size) }

  function DecodeHandle(input: seq<Byte>): Parsed<Handle> {
    match GetVarint64(input)
    case Failed => Failed
    case Got(offset, rest) =>
      match GetVarint64(rest)
      case Failed => Failed
      case Got(size, rest') => Got(Handle(offset, size), rest')
  }

  lemma HandleBack(h: Handle, rest: seq<Byte>)
    requires h.offset < U64 && h.size < U64
    ensures DecodeHandle(EncodeHandle(h) + rest) == Got(h, rest)
  {
    hide Varint, GetVarint64;
    assert EncodeHandle(h) + rest == Varint(h.offset) + (Varint(h.size) + rest);
    GetPutVarint64(h.offset, Varint(h.size) + rest);
    GetPutVarint64(h.size, rest);
  }

  lemma {:induction false} VarintSize(v: nat, limit: nat)
    requires 1 <= limit && v < Pow128(limit)
    ensures |Varint(v)| <= limit
  {
    if v >= 128 {
      VarintSize(v / 128, limit - 1);
    }
  }

  lemma HandleSize(h: Handle)
    requires h.offset < U64 && h.size < U64
    ensures |EncodeHandle(h)| <= 20
  {
    hide Varint, Pow128;
    Powers();
    VarintSize(h.offset, 10);
    VarintSize(h.size, 10);
  }

  // ----- Blocks and their trailers -----

  /** The compressor the options name, 0 for none. */
  datatype Codec = Codec(kind: Byte, compress: seq<Byte> -> Option<seq<Byte>>)

  /** The decompressors the reader knows, by the type byte of the block. */
  type Unpack = (Byte, seq<Byte>) -> Option<seq<Byte>>

  ghost predicate Inverts(unpack: Unpack, c: Codec) {
    c.kind <= 2 && (c.kind > 0 ==> forall x :: c.compress(x).Some? ==> unpack(c.kind, c.compress(x).value) == Some(x))
  }

  /** The type byte and the contents: compressed, unless that saves less than an eighth. */
  function Stored(c: Codec, raw: seq<Byte>): (Byte, seq<Byte>) {
    if c.kind == 0 then (0, raw)
    else
      var small := c.compress(raw);
      if small.Some? && |small.value| < |raw| - |raw| / 8 then (c.kind, small.value) else (0, raw)
  }

  const TRAILER: nat := 5

  /** Contents followed by the type byte and the checksum of both. */
  function Framed(step: CrcStep, kind: Byte, contents: seq<Byte>): (r: seq<Byte>)
    ensures |r| == |contents| + TRAILER
  {
    contents + ([kind] + EncodeFixed32(Mask(Crc(step, contents + [kind]))))
  }

  function FramedBlock(step: CrcStep, c: Codec, raw: seq<Byte>): (r: seq<Byte>)
    ensures |r| == |Stored(c, raw).1| + TRAILER
  {
    Framed(step, Stored(c, raw).0, Stored(c, raw).1)
  }

  /** ReadBlock: nothing for a truncated block, a checksum that does not match or an unknown type. */
  function ReadBlock(step: CrcStep, check: bool, unpack: Unpack, file: seq<Byte>, h: Handle): Option<seq<Byte>> {
    if h.offset + h.size + TRAILER > |file| then None
    else
      var contents, kind := file[h.offset..h.offset + h.size], file[h.offset + h.size];
      var sum := file[h.offset + h.size + 1..h.offset + h.size + TRAILER];
      if check && Unmask(DecodeFixed32(sum)) != Crc(step, contents + [kind]) then None
      else if kind == 0 then Some(contents)
      else if kind <= 2 then unpack(kind, contents)
      else None
  }

  /** What is stored never takes more than the block, is the compressed form wherever that saves an eighth and a byte,
      and the block itself wherever it saves less than an eighth. */
  lemma StoredSaves(c: Codec, raw: seq<Byte>)
    ensures |Stored(c, raw).1| <= |raw|
    ensures Stored(c, raw) == (0, raw) || (c.kind != 0 && c.compress(raw).Some? && Stored(c, raw) == (c.kind, c.compress(raw).value))
    ensures c.kind != 0 && c.compress(raw).Some? ==>
      var n := |c.compress(raw).value|;
      && (8 * n < 7 * |raw| ==> Stored(c, raw) == (c.kind, c.compress(raw).value))
      && (8 * n >= 7 * |raw| + 7 ==> Stored(c, raw) == (0, raw))
  {
    assert 8 * (|raw| / 8) <= |raw| <= 8 * (|raw| / 8) + 7;
  }

  /** Of whatever bytes: a block is read exactly when it and its trailer lie in the file, the stored checksum, if it is
      verified, is that of contents and type, masked, and the type is one of three that gives the result. */
  lemma ReadBlockIff(step: CrcStep, check: bool, unpack: Unpack, file: seq<Byte>, h: Handle, raw: seq<Byte>)
    ensures ReadBlock(step, check, unpack, file, h) == Some(raw) <==>
      && h.offset + h.size + 5 <= |file|
      && (var end := h.offset + h.size;
          && (check ==> DecodeFixed32(file[end + 1..end + 5]) == Mask(Crc(step, file[h.offset..end + 1])))
          && (if file[end] == 0 then file[h.offset..end] == raw
              else file[end] in {1, 2} && unpack(file[end], file[h.offset..end]) == Some(raw)))
  {
    hide Mask, Unmask, Crc, DecodeFixed32;
    if h.offset + h.size + 5 <= |file| {
      var end := h.offset + h.size;
      assert file[h.offset..end + 1] == file[h.offset..end] + [file[end]];
      UnmaskBack(DecodeFixed32(file[end + 1..end + 5]));
      MaskRoundTrip(Crc(step, file[h.offset..end + 1]));
    }
  }

  /** The bytes stand in the file at the offset. */
  ghost predicate StandsAt(file: seq<Byte>, offset: nat, bytes: seq<Byte>) {
    offset + |bytes| <= |file| && file[offset..offset + |bytes|] == bytes
  }

  lemma StandsParts(file: seq<Byte>, offset: nat, a: seq<Byte>, b: seq<Byte>)
    requires StandsAt(file, offset, a + b)
    ensures StandsAt(file, offset, a) && StandsAt(file, offset + |a|, b)
  {
    var whole := file[offset..offset + |a + b|];
    assert file[offset..offset + |a|] == whole[..|a|] && file[offset + |a|..offset + |a + b|] == whole[|a|..];
    assert (a + b)[..|a|] == a && (a + b)[|a|..] == b;
  }

  /** A framed block reads back as its contents, checksum included. */
  lemma FramedReads(step: CrcStep, check: bool, unpack: Unpack, file: seq<Byte>, offset: nat, kind: Byte, contents: seq<Byte>)
    requires StandsAt(file, offset, Framed(step, kind, contents))
    ensures ReadBlock(step, check, unpack, file, Handle(offset, |contents|)) ==
            if kind == 0 then Some(contents) else if kind <= 2 then unpack(kind, contents) else None
  {
    hide Mask, Unmask, EncodeFixed32, DecodeFixed32, Crc;
    var crc := Crc(step, contents + [kind]);
    var sum := EncodeFixed32(Mask(crc));
    StandsParts(file, offset, contents, [kind] + sum);
    StandsParts(file, offset + |contents|, [kind], sum);
    assert file[offset + |contents|..offset + |contents| + 1] == [kind];
    assert file[offset + |contents|] == kind;
    assert file[offset + |contents| + 1..offset + |contents| + TRAILER] == sum;
    MaskRoundTrip(crc);
    Fixed32RoundTrip(Mask(crc));
  }

  /** What WriteBlock stores, compressed or not, ReadBlock gives back. */
  lemma BlockReads(step: CrcStep, check: bool, unpack: Unpack, c: Codec, file: seq<Byte>, offset: nat, raw: seq<Byte>)
    requires Inverts(unpack, c) && StandsAt(file, offset, FramedBlock(step, c, raw))
    ensures ReadBlock(step, check, unpack, file, Handle(offset, |Stored(c, raw).1|)) == Some(raw)
  {
    hide ReadBlock, Framed;
    FramedReads(step, check, unpack, file, offset, Stored(c, raw).0, Stored(c, raw).1);
  }

  // ----- The footer -----

  const MAGIC_LOW: Word := 0x8b80_fb57
  const MAGIC_HIGH: Word := 0xdb47_7524
  const FOOTER: nat := 48

  function Resized(s: seq<Byte>, n: nat): (r: seq<Byte>)
    ensures |r| == n
  {
    if |s| >= n then s[..n] else s + seq(n - |s|, _ => 0)
  }

  function EncodeFooter(meta: Handle, index: Handle): (r: seq<Byte>)
    ensures |r| == FOOTER
  {
    Resized(EncodeHandle(meta) + EncodeHandle(index), 40) + (EncodeFixed32(MAGIC_LOW) + EncodeFixed32(MAGIC_HIGH))
  }

  /** The handles of the metaindex and the index; nothing without the magic number or with a bad handle. */
  function DecodeFooter(input: seq<Byte>): Option<(Handle, Handle)> {
    if |input| < FOOTER || DecodeFixed32(input[40..44]) != MAGIC_LOW || DecodeFixed32(input[44..48]) != MAGIC_HIGH then None
    else
      match DecodeHandle(input)
      case Failed => None
      case Got(meta, rest) =>
        match DecodeHandle(rest)
        case Failed => None
        case Got(index, _) => Some((meta, index))
  }

  /** Of whatever bytes: nothing passes for a footer without the eight magic bytes behind the 40 of the handles. */
  lemma FooterMagic(input: seq<Byte>)
    ensures DecodeFooter(input).Some? ==>
      |input| >= 48 && input[40..48] == [0x57, 0xfb, 0x80, 0x8b, 0x24, 0x75, 0x47, 0xdb]
    ensures |input| >= 48 && input[40..48] == [0x57, 0xfb, 0x80, 0x8b, 0x24, 0x75, 0x47, 0xdb] ==>
      (DecodeFooter(input).Some? <==> DecodeHandle(input).Got? && DecodeHandle(DecodeHandle(input).rest).Got?)
  {
    hide DecodeHandle;
    if |input| >= 48 {
      Fixed32Is(0x8b80_fb57, [0x57, 0xfb, 0x80, 0x8b]);
      Fixed32Is(0xdb47_7524, [0x24, 0x75, 0x47, 0xdb]);
      Fixed32Back(input[40..44]);
      Fixed32Back(input[44..48]);
      Fixed32RoundTrip(0x8b80_fb57);
      Fixed32RoundTrip(0xdb47_7524);
      hide EncodeFixed32, DecodeFixed32;
      assert input[40..48] == input[40..44] + input[44..48];
      assert input[40..48][..4] == input[40..44] && input[40..48][4..] == input[44..48];
    }
  }

  lemma FooterBack(meta: Handle, index: Handle)
    requires meta.offset < U64 && meta.size < U64 && index.offset < U64 && index.size < U64
    ensures DecodeFooter(EncodeFooter(meta, index)) == Some((meta, index))
  {
    hide EncodeHandle, DecodeHandle, EncodeFixed32, DecodeFixed32;
    HandleSize(meta);
    HandleSize(index);
    var m, i, lo, hi := EncodeHandle(meta), EncodeHandle(index), EncodeFixed32(MAGIC_LOW), EncodeFixed32(MAGIC_HIGH);
    var f := EncodeFooter(meta, index);
    var pad := f[|m + i|..];
    assert f == m + (i + pad);
    assert f[40..44] == lo && f[44..48] == hi;
    HandleBack(meta, i + pad);
    HandleBack(index, pad);
    Fixed32RoundTrip(MAGIC_LOW);
    Fixed32RoundTrip(MAGIC_HIGH);
  }
}
