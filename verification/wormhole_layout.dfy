/** The bytes of a wormhole filter block: the slots' tags, two bytes each and lowest first, then the
    number of buckets in eight bytes. */
module WormholeLayout {
  import opened Cells
  import opened Tags
  import opened WormholeFilter
  import Bytes
  import Coding

  type Byte = Bytes.Byte

  // ----- Tags as bytes -----

  function LowByte(t: Tag): Byte { LowFits(t); (t & 0xFF) as int }
  function HighByte(t: Tag): Byte { HighFits(t); (t >> 8) as int }

  lemma LowFits(t: Tag) ensures 0 <= (t & 0xFF) as int < 0x100 {}
  lemma HighFits(t: Tag) ensures 0 <= (t >> 8) as int < 0x100 {}

  function TagOf(lo: Byte, hi: Byte): Tag { (lo as bv16) | ((hi as bv16) << 8) }

  lemma JoinBytes(t: Tag) ensures (t & 0xFF) | ((t >> 8) << 8) == t {}

  lemma TagRoundTrip(t: Tag)
    ensures TagOf(LowByte(t), HighByte(t)) == t
  {
    TagNatRoundTrip(t & 0xFF);
    TagNatRoundTrip(t >> 8);
    JoinBytes(t);
  }

  function NatTag(x: nat): Tag { if x < 0x1_0000 then x as bv16 else 0 }

  lemma NatTagBack(t: Tag)
    ensures NatTag(t as nat) == t
  {
    TagNatFits(t);
    TagNatRoundTrip(t);
  }

  /** The tag that says what the cell holds. */
  function Encode(c: Cell): Tag { if c.Free? then 0 else NatTag(c.fpt) | NatTag(c.dis) }

  lemma EncodeDecode(t: Tag)
    ensures Encode(Decode(t)) == t
  {
    hide NatTag;
    if t != 0 {
      NatTagBack(t & 0xFFF0);
      NatTagBack(t & 0x000F);
      SplitBits(t);
    }
  }

  lemma TagNatFits(t: Tag) ensures t as nat < 0x1_0000 {}

  // ----- The slots -----

  function TagBytes(tags: seq<Tag>): (r: seq<Byte>)
    ensures |r| == 2 * |tags|
    ensures forall i :: 0 <= i < |tags| ==> r[2 * i] == LowByte(tags[i]) && r[2 * i + 1] == HighByte(tags[i])
  {
    seq(2 * |tags|, i requires 0 <= i < 2 * |tags| => if i % 2 == 0 then LowByte(tags[i / 2]) else HighByte(tags[i / 2]))
  }

  function CellTags(s: seq<Cell>): (r: seq<Tag>)
    ensures |r| == |s| && forall i :: 0 <= i < |s| ==> r[i] == Encode(s[i])
  {
    seq(|s|, i requires 0 <= i < |s| => Encode(s[i]))
  }

  function Lanes4(words: seq<Word>): (r: seq<Tag>)
    ensures |r| == 4 * |words| && forall i :: 0 <= i < |r| ==> r[i] == Lane(words[i / 4], i % 4)
  {
    seq(4 * |words|, i requires 0 <= i < 4 * |words| => Lane(words[i / 4], i % 4))
  }

  lemma LanesAreCells(words: seq<Word>)
    ensures Lanes4(words) == CellTags(CellsOf(words))
  {
    hide Lane, Decode, Encode;
    forall i | 0 <= i < 4 * |words| ensures Lanes4(words)[i] == CellTags(CellsOf(words))[i] {
      EncodeDecode(Lane(words[i / 4], i % 4));
    }
  }

  /** A filter block for a table of n buckets. */
  function BlockBytes(tags: seq<Tag>, n: nat): seq<Byte>
    requires n < Coding.U64
  {
    TagBytes(tags) + Coding.EncodeFixed64(n)
  }

  // ----- Reading -----

  /** The stored number of buckets. */
  function Count(f: seq<Byte>): nat
    requires |f| >= 8
  {
    Coding.DecodeFixed64(f[|f| - 8..])
  }

  /** What a lookup needs in order to stay inside the filter. */
  predicate Readable(f: seq<Byte>) { |f| >= 8 && 1 <= Count(f) && 8 * Count(f) <= |f| }

  function TagAt(f: seq<Byte>, i: nat): Tag
    requires 2 * i + 1 < |f|
  {
    TagOf(f[2 * i], f[2 * i + 1])
  }

  function MakeWord(a: Tag, b: Tag, c: Tag, d: Tag): Word {
    (a as bv64) | ((b as bv64) << 16) | ((c as bv64) << 32) | ((d as bv64) << 48)
  }

  lemma MakeWordLanes(a: Tag, b: Tag, c: Tag, d: Tag)
    ensures var w := MakeWord(a, b, c, d); Lane0(w) == a && Lane1(w) == b && Lane2(w) == c && Lane3(w) == d
  {}

  /** The eight bytes of bucket b as one word. */
  function WordAt(f: seq<Byte>, b: nat): Word
    requires 8 * b + 7 < |f|
  {
    MakeWord(TagAt(f, 4 * b), TagAt(f, 4 * b + 1), TagAt(f, 4 * b + 2), TagAt(f, 4 * b + 3))
  }

  lemma WordAtLane(f: seq<Byte>, b: nat, j: nat)
    requires 8 * b + 7 < |f| && j < SLOTS_PER_BUCKET
    ensures Lane(WordAt(f, b), j) == TagAt(f, 4 * b + j)
  {
    hide TagAt, MakeWord, Lane0, Lane1, Lane2, Lane3;
    MakeWordLanes(TagAt(f, 4 * b), TagAt(f, 4 * b + 1), TagAt(f, 4 * b + 2), TagAt(f, 4 * b + 3));
  }

  /** A written block reads back: the count, and the tag of every slot. */
  lemma ReadBack(tags: seq<Tag>, n: nat, i: nat)
    requires 1 <= n < Coding.U64 && |tags| == 4 * n && i < |tags|
    ensures var f := BlockBytes(tags, n); Readable(f) && |f| == 8 * n + 8 && Count(f) == n && TagAt(f, i) == tags[i]
  {
    hide TagOf, LowByte, HighByte, Coding.EncodeFixed64, Coding.DecodeFixed64;
    var f := BlockBytes(tags, n);
    assert f[|f| - 8..] == Coding.EncodeFixed64(n);
    Coding.Fixed64RoundTrip(n);
    TagRoundTrip(tags[i]);
  }
}
