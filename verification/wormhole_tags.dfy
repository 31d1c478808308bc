/** What a slot of the wormhole filter holds, read as numbers. */
module Cells {

  const SLOTS_PER_BUCKET: nat := 4
  const MAX_PROBE: nat := 16

  datatype Cell = Free | Used(fpt: nat, dis: nat)

  /** The distance field; the tag of a free slot has distance bits 0. */
  function Dis(c: Cell): nat { if c.Free? then 0 else c.dis }
}

/** The bit layer of the wormhole filter.  A bucket is one 64-bit word holding four 16-bit tags;
    a tag is a 12-bit fingerprint above a 4-bit distance from the home bucket, and an empty slot
    is the tag 0. */
module Tags {
  import opened Cells

  type Tag = bv16
  type Word = bv64

  /** The little-endian 16-bit lanes of a word. */
  function Lane0(w: Word): Tag { (w & 0xFFFF) as bv16 }
  function Lane1(w: Word): Tag { ((w >> 16) & 0xFFFF) as bv16 }
  function Lane2(w: Word): Tag { ((w >> 32) & 0xFFFF) as bv16 }
  function Lane3(w: Word): Tag { (w >> 48) as bv16 }

  /** What `((uint16_t*)&word)[j]` reads. */
  function Lane(w: Word, j: nat): Tag
    requires j < SLOTS_PER_BUCKET
  {
    if j == 0 then Lane0(w) else if j == 1 then Lane1(w) else if j == 2 then Lane2(w) else Lane3(w)
  }

  function SetLane0(w: Word, t: Tag): Word { (w & 0xFFFF_FFFF_FFFF_0000) | (t as bv64) }
  function SetLane1(w: Word, t: Tag): Word { (w & 0xFFFF_FFFF_0000_FFFF) | ((t as bv64) << 16) }
  function SetLane2(w: Word, t: Tag): Word { (w & 0xFFFF_0000_FFFF_FFFF) | ((t as bv64) << 32) }
  function SetLane3(w: Word, t: Tag): Word { (w & 0x0000_FFFF_FFFF_FFFF) | ((t as bv64) << 48) }

  /** What `((uint16_t*)&word)[j] = t` leaves in the word. */
  function SetLane(w: Word, j: nat, t: Tag): Word
    requires j < SLOTS_PER_BUCKET
  {
    if j == 0 then SetLane0(w, t) else if j == 1 then SetLane1(w, t)
    else if j == 2 then SetLane2(w, t) else SetLane3(w, t)
  }

  ghost predicate Lanes(w: Word, a: Tag, b: Tag, c: Tag, d: Tag) {
    Lane0(w) == a && Lane1(w) == b && Lane2(w) == c && Lane3(w) == d
  }

  lemma SetLane0Lanes(w: Word, t: Tag) ensures Lanes(SetLane0(w, t), t, Lane1(w), Lane2(w), Lane3(w)) {}
  lemma SetLane1Lanes(w: Word, t: Tag) ensures Lanes(SetLane1(w, t), Lane0(w), t, Lane2(w), Lane3(w)) {}
  lemma SetLane2Lanes(w: Word, t: Tag) ensures Lanes(SetLane2(w, t), Lane0(w), Lane1(w), t, Lane3(w)) {}
  lemma SetLane3Lanes(w: Word, t: Tag) ensures Lanes(SetLane3(w, t), Lane0(w), Lane1(w), Lane2(w), t) {}

  /** A lane store changes its lane and no other. */
  lemma SetLaneLane(w: Word, j: nat, t: Tag, k: nat)
    requires j < SLOTS_PER_BUCKET && k < SLOTS_PER_BUCKET
    ensures Lane(SetLane(w, j, t), k) == if k == j then t else Lane(w, k)
  {
    if j == 0 {
      SetLane0Lanes(w, t);
    } else if j == 1 {
      SetLane1Lanes(w, t);
    } else if j == 2 {
      SetLane2Lanes(w, t);
    } else {
      SetLane3Lanes(w, t);
    }
  }

  // ----- The packed comparison -----

  function HasZero16(x: Word): Word { (x - 0x0001_0001_0001_0001) & !x & 0x8000_8000_8000_8000 }

  function Replicate(n: Tag): Word { 0x0001_0001_0001_0001 * (n as bv64) }

  function HasValue16(x: Word, n: Tag): Word { HasZero16(x ^ Replicate(n)) }

  ghost function ReplicateByShifts(n: Tag): Word {
    var m := n as bv64;
    m | (m << 16) | (m << 32) | (m << 48)
  }

  lemma HasZero16Iff(x: Word)
    ensures HasZero16(x) != 0 <==> SomeLane(x, 0)
  {}

  lemma ReplicateIsShifts(n: Tag) ensures Replicate(n) == ReplicateByShifts(n) {}

  lemma ShiftsLanes(n: Tag) ensures Lanes(ReplicateByShifts(n), n, n, n, n) {}

  lemma ReplicateLanes(n: Tag, r: Word)
    requires r == Replicate(n)
    ensures Lanes(r, n, n, n, n)
  {
    ReplicateIsShifts(n);
    ShiftsLanes(n);
  }

  predicate SomeLane(w: Word, n: Tag) { Lane0(w) == n || Lane1(w) == n || Lane2(w) == n || Lane3(w) == n }

  lemma Lane0Xor(x: Word, r: Word) ensures Lane0(x ^ r) == 0 <==> Lane0(x) == Lane0(r) {}
  lemma Lane1Xor(x: Word, r: Word) ensures Lane1(x ^ r) == 0 <==> Lane1(x) == Lane1(r) {}
  lemma Lane2Xor(x: Word, r: Word) ensures Lane2(x ^ r) == 0 <==> Lane2(x) == Lane2(r) {}
  lemma Lane3Xor(x: Word, r: Word) ensures Lane3(x ^ r) == 0 <==> Lane3(x) == Lane3(r) {}

  lemma SomeLaneXor(x: Word, r: Word, n: Tag, y: Word)
    requires Lanes(r, n, n, n, n) && y == x ^ r
    ensures SomeLane(y, 0) <==> SomeLane(x, n)
  {
    Lane0Xor(x, r);
    Lane1Xor(x, r);
    Lane2Xor(x, r);
    Lane3Xor(x, r);
  }

  lemma HasZeroXorIff(x: Word, r: Word, n: Tag, y: Word)
    requires Lanes(r, n, n, n, n) && y == x ^ r
    ensures HasZero16(y) != 0 <==> SomeLane(x, n)
  {
    SomeLaneXor(x, r, n, y);
    HasZero16Iff(y);
  }

  lemma SomeLaneIff(w: Word, n: Tag)
    ensures SomeLane(w, n) <==> exists j :: 0 <= j < SLOTS_PER_BUCKET && Lane(w, j) == n
  {
    if SomeLane(w, n) {
      assert Lane(w, 0) == n || Lane(w, 1) == n || Lane(w, 2) == n || Lane(w, 3) == n;
    }
  }

  lemma HasValue16Lanes(w: Word, n: Tag, r: Word)
    requires r == Replicate(n)
    ensures HasZero16(w ^ r) != 0 <==> SomeLane(w, n)
  {
    ReplicateLanes(n, r);
    HasZeroXorIff(w, r, n, w ^ r);
  }

  lemma HasValue16SomeLane(w: Word, n: Tag)
    ensures HasValue16(w, n) != 0 <==> SomeLane(w, n)
  {
    forall r {:trigger HasZero16(w ^ r)} | r == Replicate(n) ensures HasZero16(w ^ r) != 0 <==> SomeLane(w, n) {
      HasValue16Lanes(w, n, r);
    }
  }

  /** The packed test is exact: nonzero precisely when one of the four lanes holds the sought tag. */
  lemma HasValue16Iff(w: Word, n: Tag)
    ensures HasValue16(w, n) != 0 <==> exists j :: 0 <= j < SLOTS_PER_BUCKET && Lane(w, j) == n
  {
    HasValue16SomeLane(w, n);
    SomeLaneIff(w, n);
  }

  // ----- Tags and cells -----

  /** What a tag says: nothing when it is 0, otherwise its fingerprint and distance fields. */
  function Decode(t: Tag): Cell {
    if t == 0 then Free else Used((t & 0xFFF0) as nat, (t & 0x000F) as nat)
  }

  /** A fingerprint field: no distance bits, and not zero. */
  predicate IsFpt(f: Tag) { f & 0x000F == 0 && f != 0 }

  function MakeTag(f: Tag, d: nat): Tag
    requires d < MAX_PROBE
  {
    f | (d as bv16)
  }

  lemma DecodeDis(t: Tag) ensures Dis(Decode(t)) == (t & 0x000F) as nat && Dis(Decode(t)) < MAX_PROBE {}

  lemma OrBits(f: Tag, e: Tag)
    requires f & 0x000F == 0 && e <= 0xF
    ensures (f | e) & 0xFFF0 == f && (f | e) & 0x000F == e && (f | e == 0 <==> f == 0 && e == 0)
  {}

  lemma DecodeOr(f: Tag, e: Tag)
    requires f & 0x000F == 0 && e <= 0xF && (f != 0 || e != 0)
    ensures Decode(f | e) == Used(f as nat, e as nat)
  {
    OrBits(f, e);
  }

  lemma SmallDis(d: nat) requires d < MAX_PROBE ensures d as bv16 <= 0xF && (d != 0 ==> d as bv16 != 0) {}
  lemma SmallDisRoundTrip(d: nat) requires d < MAX_PROBE ensures (d as bv16) as nat == d {}

  /** Packing a fingerprint with a distance and decoding gives both back. */
  lemma DecodeMakeTag(f: Tag, d: nat)
    requires f & 0x000F == 0 && d < MAX_PROBE && (f != 0 || d != 0)
    ensures Decode(MakeTag(f, d)) == Used(f as nat, d)
  {
    SmallDis(d);
    SmallDisRoundTrip(d);
    DecodeOr(f, d as bv16);
  }

  lemma MaskFpt(t: Tag) ensures (t & 0xFFF0) & 0x000F == 0 {}

  /** The tag written by a relocation: the source's fingerprint with the distance raised by d. */
  lemma DecodeRaised(t: Tag, d: nat)
    requires t != 0 && d >= 1 && Dis(Decode(t)) + d < MAX_PROBE
    ensures Decode(MakeTag(t & 0xFFF0, Dis(Decode(t)) + d)) == Used(Decode(t).fpt, Decode(t).dis + d)
  {
    MaskFpt(t);
    DecodeMakeTag(t & 0xFFF0, Dis(Decode(t)) + d);
  }

  lemma TagNatRoundTrip(t: Tag) ensures (t as nat) as bv16 == t {}

  lemma TagNatInjective(t: Tag, u: Tag)
    requires t as nat == u as nat
    ensures t == u
  {
    TagNatRoundTrip(t);
    TagNatRoundTrip(u);
  }

  lemma SplitBits(t: Tag) ensures (t & 0xFFF0) | (t & 0x000F) == t {}

  /** Different tags say different things. */
  lemma DecodeInjective(t: Tag, u: Tag)
    requires Decode(t) == Decode(u)
    ensures t == u
  {
    if t != 0 {
      TagNatInjective(t & 0xFFF0, u & 0xFFF0);
      TagNatInjective(t & 0x000F, u & 0x000F);
      SplitBits(t);
      SplitBits(u);
    }
  }

  /** `tag_hash`: the low 12 bits of the hash, with 0 replaced by 1, moved above the distance field. */
  function TagHash(hv: bv32): (f: Tag)
    ensures IsFpt(f)
  {
    var tag := (hv & 0xFFF) as bv16;
    (if tag == 0 then 1 else tag) << 4
  }
}
