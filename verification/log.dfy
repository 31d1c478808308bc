/** The write-ahead log: records cut into checksummed fragments that never cross a 32 KB block. */
module Log {
  import opened Wrappers
  import opened Bytes

  const BLOCK: nat := 32768
  const HEADER: nat := 7

  const ZERO: Byte := 0
  const FULL: Byte := 1
  const FIRST: Byte := 2
  const MIDDLE: Byte := 3
  const LAST: Byte := 4
  /** The reader's own results, kEof and kBadRecord, share the numbering of the record types. */
  const EOF_TYPE: Byte := 5
  const BAD_TYPE: Byte := 6

  // ----- What a record looks like in the file -----

  function Header(step: CrcStep, kind: Byte, data: seq<Byte>): (r: seq<Byte>)
    requires |data| < 0x1_0000
    ensures |r| == HEADER
  {
    EncodeFixed32(Mask(Crc(step, [kind] + data))) + [|data| % 0x100, |data| / 0x100, kind]
  }

  function Fragment(step: CrcStep, kind: Byte, data: seq<Byte>): (r: seq<Byte>)
    requires |data| < 0x1_0000
    ensures |r| == HEADER + |data|
  {
    Header(step, kind, data) + data
  }

  /** Bytes of a block too short for a header are left to zeros. */
  function Padding(pos: nat): nat {
    var o := pos % BLOCK;
    if o > BLOCK - HEADER then BLOCK - o else 0
  }

  function Zeros(n: nat): (r: seq<Byte>) ensures |r| == n { seq(n, _ => 0) }

  function Kind(begin: bool, end: bool): Byte {
    if begin && end then FULL else if begin then FIRST else if end then LAST else MIDDLE
  }

  /** Room for payload in the block holding position pos, after a header there. */
  function Avail(pos: nat): (r: nat)
    requires Padding(pos) == 0
    ensures pos % BLOCK + HEADER + r == BLOCK
  {
    BLOCK - HEADER - pos % BLOCK
  }

  function Start(pos: nat): (r: nat)
    ensures r >= pos && Padding(r) == 0
    ensures r == pos + Padding(pos)
  {
    pos + Padding(pos)
  }

  function Cut(pos: nat, data: seq<Byte>): (n: nat)
    ensures n <= |data| && n < 0x1_0000 && Start(pos) % BLOCK + HEADER + n <= BLOCK
    ensures n == 0 && data != [] ==> Start(pos) % BLOCK == BLOCK - HEADER
  {
    var avail := Avail(Start(pos));
    if |data| < avail then |data| else avail
  }

  /** The first fragment of a frame, with the padding before it. */
  function Head(step: CrcStep, pos: nat, left: seq<Byte>, begin: bool): (r: seq<Byte>)
    ensures |r| == Padding(pos) + HEADER + Cut(pos, left)
  {
    var n := Cut(pos, left);
    Zeros(Padding(pos)) + Fragment(step, Kind(begin, n == |left|), left[..n])
  }

  /** The bytes AddRecord appends at position pos for what is left of a record. */
  function Frame(step: CrcStep, pos: nat, data: seq<Byte>, begin: bool): (r: seq<Byte>)
    ensures |r| >= HEADER
    decreases |data|, if Start(pos) % BLOCK == BLOCK - HEADER then 1 else 0
  {
    var n, head := Cut(pos, data), Head(step, pos, data, begin);
    if n == |data| then head
    else
      StartOfNext(pos, n);
      head + Frame(step, pos + |head|, data[n..], false)
  }

  lemma StartOfNext(pos: nat, n: nat)
    requires Start(pos) % BLOCK + HEADER + n <= BLOCK
    ensures n == 0 && Start(pos) % BLOCK == BLOCK - HEADER ==> Start(pos + Padding(pos) + HEADER + n) % BLOCK == 0
  {}

  function LogBytes(step: CrcStep, records: seq<seq<Byte>>): seq<Byte> {
    if records == [] then []
    else
      var init := LogBytes(step, records[..|records| - 1]);
      init + Frame(step, |init|, records[|records| - 1], true)
  }

  // ----- The writer -----

  class Writer {
    const step: CrcStep
    var dest: seq<Byte>
    var blockOffset: nat

    ghost predicate Ok() reads this {
      blockOffset <= BLOCK && (blockOffset == |dest| % BLOCK || (blockOffset == BLOCK && |dest| % BLOCK == 0))
    }

    /** A writer continuing a file of the given length. */
    constructor (crc: CrcStep, file: seq<Byte>)
      ensures Ok() && dest == file && step == crc
    {
      step, dest, blockOffset := crc, file, |file| % BLOCK;
    }

    method EmitPhysicalRecord(kind: Byte, data: seq<Byte>)
      requires Ok() && blockOffset + HEADER + |data| <= BLOCK
      modifies this
      ensures Ok() && dest == old(dest) + Fragment(step, kind, data)
    {
      hide Mask, EncodeFixed32, Extend;
      OffsetMoves(|dest|, blockOffset, HEADER + |data|);
      var crc := Extend(step, Crc(step, [kind]), data);
      ExtendConcat(step, 0, [kind], data);
      var buf := EncodeFixed32(Mask(crc)) + [|data| % 0x100, |data| / 0x100, kind];
      dest := dest + buf;
      dest := dest + data;
      assert dest == old(dest) + Fragment(step, kind, data);
      blockOffset := blockOffset + HEADER + |data|;
    }

    /** Fill the trailer and start a new block when a header no longer fits. */
    method SwitchBlock()
      requires Ok()
      modifies this
      ensures Ok() && dest == old(dest) + Zeros(Padding(|old(dest)|)) && |dest| == Start(|old(dest)|)
      ensures blockOffset == |dest| % BLOCK <= BLOCK - HEADER
    {
      var leftover := BLOCK - blockOffset;
      if leftover < HEADER {
        dest := dest + Zeros(leftover);
        blockOffset := 0;
      }
    }

    /** Terminates for every record and every offset, also with exactly a header's room left in the block. */
    method AddRecord(data: seq<Byte>)
      requires Ok()
      modifies this
      ensures Ok() && dest == old(dest) + Frame(step, |old(dest)|, data, true)
    {
      hide Frame, Fragment, Padding, Start, Ok;
      var left, begin, more := data, true, true;
      ghost var want := dest + Frame(step, |dest|, data, true);
      while more
        invariant Ok()
        invariant want == if more then dest + Frame(step, |dest|, left, begin) else dest
        decreases more, |left|, if Start(|dest|) % BLOCK == BLOCK - HEADER then 1 else 0
      {
        ghost var before := dest;
        SwitchBlock();
        var avail := BLOCK - blockOffset - HEADER;
        var n := if |left| < avail then |left| else avail;
        assert n == Cut(|before|, left);
        var end := |left| == n;
        var kind := if begin && end then FULL else if begin then FIRST else if end then LAST else MIDDLE;
        EmitPhysicalRecord(kind, left[..n]);
        assert dest == before + Head(step, |before|, left, begin);
        FrameStep(step, before, left, begin, dest);
        StartOfNext(|before|, n);
        left := left[n..];
        begin, more := false, left != [];
      }
    }
  }

  lemma OffsetMoves(length: nat, offset: nat, n: nat)
    requires offset + n <= BLOCK && (offset == length % BLOCK || (offset == BLOCK && length % BLOCK == 0))
    ensures offset + n == (length + n) % BLOCK || (offset + n == BLOCK && (length + n) % BLOCK == 0)
  {}

  lemma FrameUnfold(step: CrcStep, pos: nat, left: seq<Byte>, begin: bool)
    ensures Frame(step, pos, left, begin) ==
      if Cut(pos, left) == |left| then Head(step, pos, left, begin)
      else Head(step, pos, left, begin) + Frame(step, pos + |Head(step, pos, left, begin)|, left[Cut(pos, left)..], false)
  {
    hide Head, Padding, Start, Cut;
  }

  lemma Assoc<T>(a: seq<T>, b: seq<T>, c: seq<T>) ensures a + (b + c) == (a + b) + c {}

  lemma FrameStep(step: CrcStep, before: seq<Byte>, left: seq<Byte>, begin: bool, after: seq<Byte>)
    requires after == before + Head(step, |before|, left, begin)
    ensures before + Frame(step, |before|, left, begin) ==
      if Cut(|before|, left) == |left| then after else after + Frame(step, |after|, left[Cut(|before|, left)..], false)
  {
    hide Frame, Head, Cut, Padding, Start;
    FrameUnfold(step, |before|, left, begin);
    Assoc(before, Head(step, |before|, left, begin), Frame(step, |after|, left[Cut(|before|, left)..], false));
  }

  // ----- What the reader answers on any file -----

  datatype Physical = Rec(kind: Byte, data: seq<Byte>, next: nat) | Bad(dropped: Option<nat>, next: nat) | Eof

  function BlockEnd(pos: nat): (r: nat) ensures r > pos { pos - pos % BLOCK + BLOCK }

  /** Where the bytes the reader has at hand end: with the block, or with the file. */
  function HandEnd(file: seq<Byte>, s: nat): nat { if BlockEnd(s) <= |file| then BlockEnd(s) else |file| }

  /** The physical record found at position q of an arbitrary file. */
  function PhysAt(step: CrcStep, check: bool, file: seq<Byte>, q: nat): (r: Physical)
    ensures !r.Eof? ==> q < r.next <= |file|
  {
    var s := Start(q);
    if s + HEADER > |file| then Eof
    else Parse(step, check, file[s..HandEnd(file, s)], s, BlockEnd(s) <= |file|)
  }

  function LengthOf(hand: seq<Byte>): nat
    requires |hand| >= HEADER
  {
    hand[4] as int + 0x100 * hand[5] as int
  }

  /** Parsing the bytes at hand, which start at file offset s; `whole` when they reach the end of their block. */
  function Parse(step: CrcStep, check: bool, hand: seq<Byte>, s: nat, whole: bool): (r: Physical)
    requires |hand| >= HEADER
    ensures !r.Eof? ==> s < r.next <= s + |hand|
  {
    var n := HEADER + LengthOf(hand);
    if n > |hand| then
      if whole then Bad(Some(|hand|), s + |hand|) else Eof
    else if hand[6] == ZERO && n == HEADER then Bad(None, s + |hand|)
    else if check && Unmask(DecodeFixed32(hand[..4])) != Crc(step, hand[6..n]) then Bad(Some(|hand|), s + |hand|)
    else Rec(hand[6], hand[HEADER..n], s + n)
  }

  datatype Read = Got(record: seq<Byte>, next: nat, drops: seq<nat>) | End(drops: seq<nat>, at: nat)

  function Report(drops: seq<nat>, size: Option<nat>): seq<nat> { if size.Some? then drops + [size.value] else drops }

  function Pending(frag: Option<seq<Byte>>): Option<nat> { if frag.Some? then Some(|frag.value|) else None }

  /** A record that was begun and not finished; an empty beginning is forgiven. */
  function Unfinished(frag: Option<seq<Byte>>): Option<nat> {
    if frag.Some? && frag.value != [] then Some(|frag.value|) else None
  }

  /** The next logical record from position q on, with the sizes of the corruptions reported on the way. */
  function NextRecord(step: CrcStep, check: bool, file: seq<Byte>, q: nat, frag: Option<seq<Byte>>, drops: seq<nat>): (r: Read)
    ensures r.Got? ==> q < r.next <= |file|
    decreases |file| - q
  {
    match PhysAt(step, check, file, q)
    case Eof => End(drops, |file|)
    case Bad(d, next) =>
      NextRecord(step, check, file, next, None, Report(Report(drops, d), Pending(frag)))
    case Rec(kind, data, next) =>
      if kind == FULL then Got(data, next, Report(drops, Unfinished(frag)))
      else if kind == FIRST then NextRecord(step, check, file, next, Some(data), Report(drops, Unfinished(frag)))
      else if kind == MIDDLE then
        if frag.None? then NextRecord(step, check, file, next, None, drops + [|data|])
        else NextRecord(step, check, file, next, Some(frag.value + data), drops)
      else if kind == LAST then
        if frag.None? then NextRecord(step, check, file, next, None, drops + [|data|])
        else Got(frag.value + data, next, drops)
      else if kind == EOF_TYPE then End(drops, next)
      else if kind == BAD_TYPE then NextRecord(step, check, file, next, None, Report(drops, Pending(frag)))
      else NextRecord(step, check, file, next, None, drops + [|data| + if frag.Some? then |frag.value| else 0])
  }

  /** Everything a reader returns from position q to the end. */
  function ReadAll(step: CrcStep, check: bool, file: seq<Byte>, q: nat): (seq<seq<Byte>>, seq<nat>)
    decreases |file| - q
  {
    match NextRecord(step, check, file, q, None, [])
    case End(drops, _) => ([], drops)
    case Got(record, next, drops) => var rest := ReadAll(step, check, file, next); ([record] + rest.0, drops + rest.1)
  }

  // ----- What stands in a file -----

  /** Where a header can follow position q: there, or with the next block if fewer than 7 bytes are left. */
  lemma StartIs(q: nat)
    ensures Start(q) == if 32768 - q % 32768 < 7 then q - q % 32768 + 32768 else q
  {}

  /** A fragment stands at s: within one block come the masked checksum of type and payload, the payload's length,
      the type and the payload. */
  ghost predicate StandsAt(step: CrcStep, file: seq<Byte>, s: nat, kind: Byte, data: seq<Byte>) {
    && s % 32768 + 7 + |data| <= 32768 && s + 7 + |data| <= |file|
    && DecodeFixed32(file[s..s + 4]) == Mask(Crc(step, [kind] + data))
    && file[s + 4] as int + 0x100 * file[s + 5] as int == |data|
    && file[s + 6] == kind && file[s + 7..s + 7 + |data|] == data
  }

  /** With the checksum checked, what the reader takes for a fragment is one. */
  lemma PhysStands(step: CrcStep, file: seq<Byte>, q: nat)
    requires PhysAt(step, true, file, q).Rec?
    ensures var p, s := PhysAt(step, true, file, q), Start(q);
      StandsAt(step, file, s, p.kind, p.data) && p.next == s + 7 + |p.data|
  {
    hide Mask, Unmask, DecodeFixed32, Crc;
    var s := Start(q);
    var hand, p := file[s..HandEnd(file, s)], PhysAt(step, true, file, q);
    var n := HEADER + LengthOf(hand);
    HandHolds(file, s, n);
    assert hand[6..n] == [p.kind] + p.data;
    UnmaskBack(DecodeFixed32(hand[..4]));
  }

  /** The bytes at hand are those of the file, up to the end of the block. */
  lemma HandHolds(file: seq<Byte>, s: nat, n: nat)
    requires HEADER <= n && s + n <= HandEnd(file, s)
    ensures s % BLOCK + n <= BLOCK && s + n <= HandEnd(file, s) <= |file|
    ensures var hand := file[s..HandEnd(file, s)];
      && hand[..4] == file[s..s + 4] && hand[4] == file[s + 4] && hand[5] == file[s + 5] && hand[6] == file[s + 6]
      && hand[HEADER..n] == file[s + HEADER..s + n] && hand[6..n] == file[s + 6..s + n]
  {
    SubSlice(file, s, HandEnd(file, s), 0, 4);
    SubSlice(file, s, HandEnd(file, s), HEADER, n);
    SubSlice(file, s, HandEnd(file, s), 6, n);
  }

  /** What stands where a header can follow is read, checked or not; only an empty one of type 0 is not. */
  lemma StandsRead(step: CrcStep, check: bool, file: seq<Byte>, q: nat, kind: Byte, data: seq<Byte>)
    requires StandsAt(step, file, Start(q), kind, data) && !(kind == 0 && data == [])
    ensures PhysAt(step, check, file, q) == Rec(kind, data, Start(q) + 7 + |data|)
  {
    hide Mask, Unmask, DecodeFixed32, Crc;
    var s, n := Start(q), HEADER + |data|;
    FitsBlock(file, s, n);
    HandHolds(file, s, n);
    assert file[s + 6..s + n] == [kind] + data;
    MaskRoundTrip(Crc(step, [kind] + data));
  }

  /** A fragment that lies in its block but does not carry its checksum is not read: the rest of what is at hand of
      the block is reported and skipped, together with a record begun before. */
  lemma WrongChecksum(step: CrcStep, file: seq<Byte>, q: nat, n: nat, frag: Option<seq<Byte>>, drops: seq<nat>)
    requires var s := Start(q);
      && s % 32768 + 7 + n <= 32768 && s + 7 + n <= |file|
      && file[s + 4] as int + 0x100 * file[s + 5] as int == n && !(file[s + 6] == 0 && n == 0)
      && DecodeFixed32(file[s..s + 4]) != Mask(Crc(step, file[s + 6..s + 7 + n]))
    ensures var s := Start(q);
      var end := if s - s % 32768 + 32768 <= |file| then s - s % 32768 + 32768 else |file|;
      && PhysAt(step, true, file, q) == Bad(Some(end - s), end)
      && NextRecord(step, true, file, q, frag, drops) ==
           NextRecord(step, true, file, end, None, drops + [end - s] + if frag.Some? then [|frag.value|] else [])
  {
    hide Mask, Unmask, DecodeFixed32, Crc;
    var s := Start(q);
    FitsBlock(file, s, HEADER + n);
    HandHolds(file, s, HEADER + n);
    UnmaskBack(DecodeFixed32(file[s..s + 4]));
    var end := HandEnd(file, s);
    assert PhysAt(step, true, file, q) == Bad(Some(end - s), end);
    hide PhysAt;
    assert frag.None? ==> drops + [end - s] + [] == drops + [end - s];
  }

  // ----- Records as their fragments -----

  datatype Piece = Piece(at: nat, kind: Byte, data: seq<Byte>)

  function PieceEnd(p: Piece): nat { p.at + 7 + |p.data| }

  function Payloads(ps: seq<Piece>): seq<Byte> {
    if ps == [] then [] else Payloads(ps[..|ps| - 1]) + ps[|ps| - 1].data
  }

  /** The pieces stand in the file, each where a header can follow the one before. */
  ghost predicate Chained(step: CrcStep, file: seq<Byte>, ps: seq<Piece>) {
    && (forall i :: 0 <= i < |ps| ==> StandsAt(step, file, ps[i].at, ps[i].kind, ps[i].data))
    && forall i :: 1 <= i < |ps| ==> ps[i].at == Start(PieceEnd(ps[i - 1]))
  }

  /** A first fragment and middle ones. */
  ghost predicate Begun(step: CrcStep, file: seq<Byte>, ps: seq<Piece>) {
    && ps != [] && Chained(step, file, ps) && ps[0].kind == 2
    && forall i :: 1 <= i < |ps| ==> ps[i].kind == 3
  }

  /** The record stands in the file: in one full fragment, or in a first, middle ones and a last. */
  ghost predicate IsRecord(step: CrcStep, file: seq<Byte>, ps: seq<Piece>, record: seq<Byte>) {
    && ps != [] && Chained(step, file, ps) && Payloads(ps) == record
    && (if |ps| == 1 then ps[0].kind == 1
        else ps[0].kind == 2 && ps[|ps| - 1].kind == 4 && forall i :: 1 <= i < |ps| - 1 ==> ps[i].kind == 3)
  }

  /** The record stands between two positions of the file. */
  ghost predicate Stands(step: CrcStep, file: seq<Byte>, from: nat, to: nat, record: seq<Byte>) {
    exists ps: seq<Piece> :: IsRecord(step, file, ps, record) && from <= ps[0].at && PieceEnd(ps[|ps| - 1]) == to
  }

  lemma OnePiece(p: Piece)
    ensures Payloads([p]) == p.data
  {
    assert [p][..0] == [];
  }

  lemma MorePieces(step: CrcStep, file: seq<Byte>, ps: seq<Piece>, p: Piece)
    requires Begun(step, file, ps) && StandsAt(step, file, p.at, p.kind, p.data) && p.at == Start(PieceEnd(ps[|ps| - 1]))
    ensures Payloads(ps + [p]) == Payloads(ps) + p.data
    ensures p.kind == 3 ==> Begun(step, file, ps + [p])
    ensures p.kind == 4 ==> IsRecord(step, file, ps + [p], Payloads(ps) + p.data)
  {
    PayloadsMore(ps, p);
    ChainMore(step, file, ps, p);
    hide StandsAt, Chained, Payloads, Start;
    var more := ps + [p];
    assert forall i :: 1 <= i < |ps| ==> more[i] == ps[i];
  }

  lemma PayloadsMore(ps: seq<Piece>, p: Piece)
    ensures Payloads(ps + [p]) == Payloads(ps) + p.data
  {
    assert (ps + [p])[..|ps|] == ps;
  }

  lemma ChainMore(step: CrcStep, file: seq<Byte>, ps: seq<Piece>, p: Piece)
    requires ps != [] && Chained(step, file, ps) && StandsAt(step, file, p.at, p.kind, p.data)
    requires p.at == Start(PieceEnd(ps[|ps| - 1]))
    ensures Chained(step, file, ps + [p])
  {
    hide StandsAt, Start;
  }

  lemma FullPiece(step: CrcStep, file: seq<Byte>, p: Piece)
    requires StandsAt(step, file, p.at, p.kind, p.data)
    ensures p.kind == 1 ==> IsRecord(step, file, [p], p.data)
    ensures p.kind == 2 ==> Begun(step, file, [p])
  {
    hide StandsAt;
    OnePiece(p);
  }

  /** What the reader holds of a record begun between `from` and q. */
  ghost predicate Holding(step: CrcStep, file: seq<Byte>, from: nat, q: nat, ps: seq<Piece>, frag: Option<seq<Byte>>) {
    && from <= q
    && (frag.Some? ==>
          && Begun(step, file, ps) && Payloads(ps) == frag.value && from <= ps[0].at && PieceEnd(ps[|ps| - 1]) == q)
  }

  /** Of whatever bytes: with the checksums checked, a record that is returned stands in the file. */
  lemma {:induction false} RecordStands(step: CrcStep, file: seq<Byte>, from: nat, q: nat, ps: seq<Piece>, frag: Option<seq<Byte>>, drops: seq<nat>)
    requires Holding(step, file, from, q, ps, frag)
    ensures var r := NextRecord(step, true, file, q, frag, drops); r.Got? ==> Stands(step, file, from, r.next, r.record)
    decreases |file| - q
  {
    hide PhysAt, StandsAt, Payloads, Begun, IsRecord, Start;
    var p := PhysAt(step, true, file, q);
    if p.Bad? {
      RecordStands(step, file, from, p.next, [], None, Report(Report(drops, p.dropped), Pending(frag)));
    } else if p.Rec? {
      PhysStands(step, file, q);
      var piece := Piece(Start(q), p.kind, p.data);
      FullPiece(step, file, piece);
      OnePiece(piece);
      if p.kind == FULL {
        assert IsRecord(step, file, [piece], p.data) && from <= [piece][0].at;
      } else if p.kind == FIRST {
        RecordStands(step, file, from, p.next, [piece], Some(p.data), Report(drops, Unfinished(frag)));
      } else if p.kind == MIDDLE && frag.Some? {
        MorePieces(step, file, ps, piece);
        RecordStands(step, file, from, p.next, ps + [piece], Some(frag.value + p.data), drops);
      } else if p.kind == LAST && frag.Some? {
        MorePieces(step, file, ps, piece);
        assert IsRecord(step, file, ps + [piece], frag.value + p.data) && from <= (ps + [piece])[0].at;
      } else if p.kind == MIDDLE || p.kind == LAST {
        RecordStands(step, file, from, p.next, [], None, drops + [|p.data|]);
      } else if p.kind == BAD_TYPE {
        RecordStands(step, file, from, p.next, [], None, Report(drops, Pending(frag)));
      } else if p.kind != EOF_TYPE {
        RecordStands(step, file, from, p.next, [], None, drops + [|p.data| + if frag.Some? then |frag.value| else 0]);
      }
    }
  }

  lemma PayloadsNext(ps: seq<Piece>, i: nat)
    requires i < |ps|
    ensures Payloads(ps[..i + 1]) == Payloads(ps[..i]) + ps[i].data
  {
    assert ps[..i + 1][..i] == ps[..i];
  }

  /** From behind fragment i - 1 of a record, the rest of it is returned. */
  lemma {:induction false} RestRead(step: CrcStep, check: bool, file: seq<Byte>, ps: seq<Piece>, record: seq<Byte>, i: nat, drops: seq<nat>)
    requires IsRecord(step, file, ps, record) && 1 <= i < |ps|
    ensures NextRecord(step, check, file, PieceEnd(ps[i - 1]), Some(Payloads(ps[..i])), drops) == Got(record, PieceEnd(ps[|ps| - 1]), drops)
    decreases |ps| - i
  {
    hide PhysAt, StandsAt, Payloads, Start;
    var p := ps[i];
    StandsRead(step, check, file, PieceEnd(ps[i - 1]), p.kind, p.data);
    PayloadsNext(ps, i);
    if i < |ps| - 1 {
      RestRead(step, check, file, ps, record, i + 1, drops);
    } else {
      assert ps[..i + 1] == ps;
    }
  }

  /** Of whatever bytes: a record that stands where a header can follow is returned, checked or not, and nothing is
      reported but a record left unfinished before it. */
  lemma RecordRead(step: CrcStep, check: bool, file: seq<Byte>, q: nat, ps: seq<Piece>, record: seq<Byte>, frag: Option<seq<Byte>>, drops: seq<nat>)
    requires IsRecord(step, file, ps, record) && ps[0].at == Start(q)
    ensures NextRecord(step, check, file, q, frag, drops) ==
      Got(record, PieceEnd(ps[|ps| - 1]), drops + if frag.Some? && frag.value != [] then [|frag.value|] else [])
  {
    hide PhysAt, StandsAt, Payloads, Start, NextRecord;
    var p := ps[0];
    OnePiece(p);
    assert ps[..1] == [p];
    StandsRead(step, check, file, q, p.kind, p.data);
    NextStarts(step, check, file, q, frag, drops);
    assert drops + [] == drops;
    if |ps| > 1 {
      RestRead(step, check, file, ps, record, 1, Report(drops, Unfinished(frag)));
    } else {
      assert ps == [p];
    }
  }

  /** A full or a first fragment puts an end to what was begun before. */
  lemma NextStarts(step: CrcStep, check: bool, file: seq<Byte>, q: nat, frag: Option<seq<Byte>>, drops: seq<nat>)
    requires PhysAt(step, check, file, q).Rec?
    ensures var p, d := PhysAt(step, check, file, q), Report(drops, Unfinished(frag));
      && (p.kind == FULL ==> NextRecord(step, check, file, q, frag, drops) == Got(p.data, p.next, d))
      && (p.kind == FIRST ==> NextRecord(step, check, file, q, frag, drops) == NextRecord(step, check, file, p.next, Some(p.data), d))
  {
    hide PhysAt;
  }

  /** All records returned from q on stand in the file, one behind the other. */
  lemma {:induction false} AllStand(step: CrcStep, file: seq<Byte>, q: nat) returns (ends: seq<nat>)
    ensures |ends| == |ReadAll(step, true, file, q).0| + 1 && ends[0] == q
    ensures forall i :: 0 <= i < |ends| - 1 ==> Stands(step, file, ends[i], ends[i + 1], ReadAll(step, true, file, q).0[i])
    decreases |file| - q
  {
    hide NextRecord, Stands;
    var r := NextRecord(step, true, file, q, None, []);
    if r.Got? {
      RecordStands(step, file, q, q, [], None, []);
      var more := AllStand(step, file, r.next);
      ends := [q] + more;
    } else {
      ends := [q];
    }
  }

  // ----- Nothing is lost unreported -----

  function Sum(ns: seq<nat>): nat { if ns == [] then 0 else Sum(ns[..|ns| - 1]) + ns[|ns| - 1] }

  lemma SumNext(ns: seq<nat>, n: nat)
    ensures Sum(ns + [n]) == Sum(ns) + n
  {
    assert (ns + [n])[..|ns|] == ns;
  }

  /** The payload of a fragment, and the bytes skipped with a reported one; type 6 passes for a skipped block. */
  function Weight(p: Physical): nat {
    match p
    case Eof => 0
    case Bad(dropped, _) => if dropped.Some? then dropped.value else 0
    case Rec(kind, data, _) => if kind == 6 then 0 else |data|
  }

  /** What the reader comes across from position q up to `to`. */
  function Between(step: CrcStep, check: bool, file: seq<Byte>, q: nat, to: nat): nat
    decreases |file| - q
  {
    var p := PhysAt(step, check, file, q);
    if q >= to || p.Eof? then 0 else Weight(p) + Between(step, check, file, p.next, to)
  }

  lemma BetweenStep(step: CrcStep, check: bool, file: seq<Byte>, q: nat)
    requires !PhysAt(step, check, file, q).Eof?
    ensures var p := PhysAt(step, check, file, q);
      forall to :: p.next <= to ==> Between(step, check, file, q, to) == Weight(p) + Between(step, check, file, p.next, to)
    ensures var p := PhysAt(step, check, file, q); Between(step, check, file, p.next, p.next) == 0
  {
    hide PhysAt;
  }

  function Held(frag: Option<seq<Byte>>): nat { if frag.Some? then |frag.value| else 0 }

  lemma ReportSum(drops: seq<nat>, frag: Option<seq<Byte>>)
    ensures Sum(Report(drops, Pending(frag))) == Sum(drops) + Held(frag) == Sum(Report(drops, Unfinished(frag)))
  {
    if frag.Some? {
      SumNext(drops, |frag.value|);
    }
  }

  /** A fragment that completes the record, or passes for the end. */
  predicate Decides(p: Physical, frag: Option<seq<Byte>>) {
    p.Eof? || (p.Rec? && (p.kind == FULL || p.kind == EOF_TYPE || (p.kind == LAST && frag.Some?)))
  }

  /** Any other is held on to, or reported with what was held. */
  lemma Carried(step: CrcStep, check: bool, file: seq<Byte>, q: nat, frag: Option<seq<Byte>>, drops: seq<nat>)
    returns (frag': Option<seq<Byte>>, drops': seq<nat>)
    requires !Decides(PhysAt(step, check, file, q), frag)
    ensures var p := PhysAt(step, check, file, q);
      && NextRecord(step, check, file, q, frag, drops) == NextRecord(step, check, file, p.next, frag', drops')
      && Held(frag') + Sum(drops') == Held(frag) + Sum(drops) + Weight(p)
  {
    hide PhysAt, Sum;
    ReportSum(drops, frag);
    match PhysAt(step, check, file, q)
    case Bad(dropped, _) =>
      frag', drops' := None, Report(Report(drops, dropped), Pending(frag));
      ReportSum(Report(drops, dropped), frag);
      if dropped.Some? {
        SumNext(drops, dropped.value);
      }
    case Rec(kind, data, _) =>
      SumNext(drops, |data|);
      SumNext(drops, |data| + Held(frag));
      if kind == FIRST {
        frag', drops' := Some(data), Report(drops, Unfinished(frag));
      } else if kind == MIDDLE && frag.Some? {
        frag', drops' := Some(frag.value + data), drops;
      } else if kind == MIDDLE || kind == LAST {
        frag', drops' := None, drops + [|data|];
      } else if kind == BAD_TYPE {
        frag', drops' := None, Report(drops, Pending(frag));
      } else {
        frag', drops' := None, drops + [|data| + Held(frag)];
      }
  }

  lemma Decided(step: CrcStep, check: bool, file: seq<Byte>, q: nat, frag: Option<seq<Byte>>, drops: seq<nat>)
    requires Decides(PhysAt(step, check, file, q), frag)
    ensures var p, r := PhysAt(step, check, file, q), NextRecord(step, check, file, q, frag, drops);
      r.Got? ==> p.Rec? && r.next == p.next && Held(frag) + Sum(drops) + Weight(p) == |r.record| + Sum(r.drops)
  {
    hide PhysAt, Sum;
    ReportSum(drops, frag);
  }

  /** Of whatever bytes: what the reader comes across on its way to the next record, and what it held before, goes
      into that record or into the sizes reported, byte by byte. */
  lemma {:induction false} Accounted(step: CrcStep, check: bool, file: seq<Byte>, q: nat, frag: Option<seq<Byte>>, drops: seq<nat>)
    ensures var r := NextRecord(step, check, file, q, frag, drops);
      r.Got? ==> Held(frag) + Sum(drops) + Between(step, check, file, q, r.next) == |r.record| + Sum(r.drops)
    decreases |file| - q
  {
    hide PhysAt, Sum, Between, NextRecord, Held;
    var p := PhysAt(step, check, file, q);
    if !p.Eof? {
      BetweenStep(step, check, file, q);
    }
    if Decides(p, frag) {
      Decided(step, check, file, q, frag, drops);
    } else {
      var frag', drops' := Carried(step, check, file, q, frag, drops);
      Accounted(step, check, file, p.next, frag', drops');
    }
  }

  // ----- The reader -----

  /** The buffer holds the unread end of the last block read from the file. */
  ghost predicate BufferOk(file: seq<Byte>, filePos: nat, buffer: seq<Byte>, eof: bool) {
    && |buffer| <= filePos <= |file| && buffer == file[filePos - |buffer|..filePos]
    && (if eof then filePos == |file| && (buffer != [] ==> |file| < BlockEnd(filePos - |buffer|))
        else filePos % BLOCK == 0 && (buffer != [] ==> filePos == BlockEnd(filePos - |buffer|)))
  }

  class Reader {
    const step: CrcStep
    const check: bool
    const file: seq<Byte>
    var filePos: nat
    var buffer: seq<Byte>
    var eof: bool
    var drops: seq<nat>

    ghost predicate Ok() reads this { BufferOk(file, filePos, buffer, eof) }

    /** The file offset of the first byte not yet consumed. */
    function Pos(): nat reads this { if |buffer| <= filePos then filePos - |buffer| else 0 }

    constructor (crc: CrcStep, checksum: bool, contents: seq<Byte>)
      ensures Ok() && Pos() == 0 && drops == [] && step == crc && check == checksum && file == contents
    {
      step, check, file := crc, checksum, contents;
      filePos, buffer, eof, drops := 0, [], false, [];
    }

    /** Read on until a header is at hand; false at the end of the file. */
    method FillBuffer() returns (more: bool)
      requires Ok()
      modifies `filePos, `buffer, `eof
      ensures Ok() && PhysAt(step, check, file, Pos()) == PhysAt(step, check, file, old(Pos()))
      ensures if more then |buffer| >= HEADER else Pos() == |file| && PhysAt(step, check, file, Pos()) == Eof
    {
      hide PhysAt, BufferOk;
      InFile(file, filePos, buffer, eof);
      while |buffer| < HEADER
        invariant Ok() && |buffer| <= filePos <= |file|
        invariant PhysAt(step, check, file, Pos()) == PhysAt(step, check, file, old(Pos()))
        decreases |file| - filePos, !eof
      {
        if eof {
          AtEnd(step, check, file, filePos, buffer);
          buffer := [];
          return false;
        }
        var n := if filePos + BLOCK <= |file| then BLOCK else |file| - filePos;
        NextBlock(step, check, file, filePos, buffer, n);
        buffer := file[filePos..filePos + n];
        filePos := filePos + n;
        eof := n < BLOCK;
      }
      more := true;
    }

    method ReadPhysicalRecord() returns (r: Physical)
      requires Ok()
      modifies this
      ensures Ok() && r == PhysAt(step, check, file, old(Pos()))
      ensures Pos() == if r.Eof? then |file| else r.next
      ensures drops == if r.Bad? then Report(old(drops), r.dropped) else old(drops)
      ensures check && r.Rec? ==> StandsAt(step, file, Start(old(Pos())), r.kind, r.data)
    {
      hide PhysAt, BufferOk, Unmask, DecodeFixed32, Crc, StandsAt, Start, Parse;
      if check && PhysAt(step, check, file, Pos()).Rec? {
        PhysStands(step, file, Pos());
      }
      var more := FillBuffer();
      if !more {
        return Eof;
      }
      BufferParse(step, check, file, filePos, buffer, eof);
      ParseIs(step, check, buffer, filePos - |buffer|, !eof);
      Consume(file, filePos, buffer, eof, |buffer|);
      assert buffer[|buffer|..] == [];
      var length := buffer[4] as int + 0x100 * buffer[5] as int;
      var kind := buffer[6];
      if HEADER + length > |buffer| {
        var size := |buffer|;
        buffer := [];
        if !eof {
          drops := drops + [size];
          return Bad(Some(size), filePos);
        }
        return Eof;
      }
      if kind == ZERO && length == 0 {
        buffer := [];
        return Bad(None, filePos);
      }
      if check {
        var expected := Unmask(DecodeFixed32(buffer[..4]));
        var actual := Crc(step, buffer[6..HEADER + length]);
        if actual != expected {
          var size := |buffer|;
          buffer := [];
          drops := drops + [size];
          return Bad(Some(size), filePos);
        }
      }
      r := Rec(kind, buffer[HEADER..HEADER + length], filePos - |buffer| + HEADER + length);
      Consume(file, filePos, buffer, eof, HEADER + length);
      buffer := buffer[HEADER + length..];
    }

    method ReadRecord() returns (r: Option<seq<Byte>>)
      requires Ok()
      modifies this
      ensures Ok()
      ensures match NextRecord(step, check, file, old(Pos()), None, old(drops))
        case Got(record, next, d) => r == Some(record) && Pos() == next && drops == d
        case End(d, at) => r == None && Pos() == at && drops == d
      ensures check && r.Some? ==> Stands(step, file, old(Pos()), Pos(), r.value)
    {
      hide PhysAt, BufferOk, Stands, StandsAt, Start;
      if check {
        RecordStands(step, file, Pos(), Pos(), [], None, drops);
      }
      var scratch, inFragment := [], false;
      ghost var want := NextRecord(step, check, file, Pos(), None, drops);
      while true
        invariant Ok()
        invariant want == NextRecord(step, check, file, Pos(), if inFragment then Some(scratch) else None, drops)
        decreases |file| - Pos()
      {
        ghost var frag := if inFragment then Some(scratch) else None;
        ghost var before := drops;
        var p := ReadPhysicalRecord();
        match p {
          case Eof =>
            return None;
          case Bad(_, _) =>
            if inFragment {
              drops := drops + [|scratch|];
              inFragment, scratch := false, [];
            }
          case Rec(kind, data, _) =>
            if kind == FULL {
              if inFragment && scratch != [] {
                drops := drops + [|scratch|];
              }
              return Some(data);
            } else if kind == FIRST {
              if inFragment && scratch != [] {
                drops := drops + [|scratch|];
              }
              scratch, inFragment := data, true;
            } else if kind == MIDDLE {
              if !inFragment {
                drops := drops + [|data|];
              } else {
                scratch := scratch + data;
              }
            } else if kind == LAST {
              if !inFragment {
                drops := drops + [|data|];
              } else {
                scratch := scratch + data;
                return Some(scratch);
              }
            } else if kind == EOF_TYPE {
              return None;
            } else if kind == BAD_TYPE {
              if inFragment {
                drops := drops + [|scratch|];
                inFragment, scratch := false, [];
              }
            } else {
              drops := drops + [|data| + if inFragment then |scratch| else 0];
              inFragment, scratch := false, [];
            }
        }
      }
    }
  }

  lemma ParseIs(step: CrcStep, check: bool, hand: seq<Byte>, s: nat, whole: bool)
    requires |hand| >= HEADER
    ensures var n, r, end := HEADER + LengthOf(hand), Parse(step, check, hand, s, whole), s + |hand|;
      && (n > |hand| ==> r == if whole then Bad(Some(|hand|), end) else Eof)
      && (n <= |hand| && hand[6] == ZERO && n == HEADER ==> r == Bad(None, end))
      && (n <= |hand| && !(hand[6] == ZERO && n == HEADER) ==>
            r == if check && Unmask(DecodeFixed32(hand[..4])) != Crc(step, hand[6..n]) then Bad(Some(|hand|), end)
                 else Rec(hand[6], hand[HEADER..n], s + n))
  {
    hide Unmask, DecodeFixed32, Crc;
  }

  lemma InFile(file: seq<Byte>, filePos: nat, buffer: seq<Byte>, eof: bool)
    requires BufferOk(file, filePos, buffer, eof)
    ensures |buffer| <= filePos <= |file|
  {}

  lemma AtEnd(step: CrcStep, check: bool, file: seq<Byte>, filePos: nat, buffer: seq<Byte>)
    requires BufferOk(file, filePos, buffer, true) && |buffer| < HEADER
    ensures filePos == |file| && BufferOk(file, filePos, [], true)
    ensures PhysAt(step, check, file, filePos - |buffer|) == Eof && PhysAt(step, check, file, |file|) == Eof
  {
    ShortTail(step, check, file, filePos - |buffer|);
    ShortTail(step, check, file, |file|);
  }

  lemma NextBlock(step: CrcStep, check: bool, file: seq<Byte>, filePos: nat, buffer: seq<Byte>, n: nat)
    requires BufferOk(file, filePos, buffer, false) && |buffer| < HEADER
    requires n == if filePos + BLOCK <= |file| then BLOCK else |file| - filePos
    ensures filePos + n <= |file| && BufferOk(file, filePos + n, file[filePos..filePos + n], n < BLOCK)
    ensures PhysAt(step, check, file, filePos - |buffer|) == PhysAt(step, check, file, filePos)
  {
    hide PhysAt;
    SkipTrailer(step, check, file, filePos - |buffer|, filePos);
  }

  lemma ShortTail(step: CrcStep, check: bool, file: seq<Byte>, q: nat)
    requires q <= |file| < q + HEADER
    ensures PhysAt(step, check, file, q) == Eof
  {}

  /** Fewer bytes than a header left of a block that was read whole: the record is in the next block. */
  lemma SkipTrailer(step: CrcStep, check: bool, file: seq<Byte>, q: nat, end: nat)
    requires end % BLOCK == 0 && q <= end <= |file| && end - q < HEADER && (q < end ==> end == BlockEnd(q))
    ensures PhysAt(step, check, file, q) == PhysAt(step, check, file, end)
  {
    assert Start(q) == Start(end);
  }

  /** Parsing the buffer is parsing the file at the reader's position. */
  lemma BufferParse(step: CrcStep, check: bool, file: seq<Byte>, filePos: nat, buffer: seq<Byte>, eof: bool)
    requires BufferOk(file, filePos, buffer, eof) && |buffer| >= HEADER
    ensures |buffer| <= filePos <= |file| && (eof ==> filePos == |file|)
    ensures PhysAt(step, check, file, filePos - |buffer|) == Parse(step, check, buffer, filePos - |buffer|, !eof)
  {
    hide Parse;
    HandHere(file, filePos - |buffer|, filePos, eof);
  }

  lemma HandHere(file: seq<Byte>, q: nat, end: nat, eof: bool)
    requires q + HEADER <= end <= |file| && (if eof then end == |file| < BlockEnd(q) else end == BlockEnd(q))
    ensures Padding(q) == 0 && end == HandEnd(file, q) && (eof <==> |file| < BlockEnd(q))
  {}

  lemma SubSlice(s: seq<Byte>, q: nat, end: nat, a: nat, b: nat)
    requires a <= b && q + b <= end <= |s|
    ensures s[q..end][a..b] == s[q + a..q + b]
  {
    forall i | 0 <= i < b - a ensures s[q..end][a..b][i] == s[q + a..q + b][i] {
      assert s[q..end][a + i] == s[q + a + i];
    }
  }

  /** Consuming part of the buffer, or dropping it, leaves a buffer. */
  lemma Consume(file: seq<Byte>, filePos: nat, buffer: seq<Byte>, eof: bool, n: nat)
    requires BufferOk(file, filePos, buffer, eof) && n <= |buffer|
    ensures BufferOk(file, filePos, buffer[n..], eof)
  {
    var q := filePos - |buffer|;
    assert buffer[n..] == file[q + n..filePos];
    if n < |buffer| {
      SameBlock(q, n, filePos);
    }
  }

  lemma SameBlock(q: nat, n: nat, end: nat)
    requires q + n < end <= BlockEnd(q)
    ensures BlockEnd(q + n) == BlockEnd(q)
  {}

  // ----- Reading back what was written, after a crash at any byte -----

  ghost predicate Has(file: seq<Byte>, pos: nat, s: seq<Byte>) { pos + |s| <= |file| && file[pos..pos + |s|] == s }

  lemma HasParts(file: seq<Byte>, pos: nat, a: seq<Byte>, b: seq<Byte>)
    requires Has(file, pos, a + b)
    ensures Has(file, pos, a) && Has(file, pos + |a|, b)
  {
    SubSlice(file, pos, pos + |a + b|, 0, |a|);
    SubSlice(file, pos, pos + |a + b|, |a|, |a + b|);
    assert (a + b)[..|a|] == a && (a + b)[|a|..] == b;
  }

  predicate RecordKind(kind: Byte) { FULL <= kind <= LAST }

  /** What stands in the bytes of a header. */
  lemma HeaderAt(step: CrcStep, hand: seq<Byte>, kind: Byte, data: seq<Byte>)
    requires |data| < 0x1_0000 && Header(step, kind, data) <= hand
    ensures LengthOf(hand) == |data| && hand[6] == kind
    ensures Unmask(DecodeFixed32(hand[..4])) == Crc(step, [kind] + data)
  {
    var h := Header(step, kind, data);
    var crc := Crc(step, [kind] + data);
    assert h == EncodeFixed32(Mask(crc)) + [|data| % 0x100, |data| / 0x100, kind];
    hide Header, EncodeFixed32, DecodeFixed32, Mask, Unmask, Crc;
    assert hand[4] == h[4] && hand[5] == h[5] && hand[6] == h[6];
    assert hand[..4] == h[..4] == EncodeFixed32(Mask(crc));
    Fixed32RoundTrip(Mask(crc));
    MaskRoundTrip(crc);
  }

  lemma ParseFragment(step: CrcStep, check: bool, hand: seq<Byte>, s: nat, whole: bool, kind: Byte, data: seq<Byte>)
    requires |data| < 0x1_0000 && RecordKind(kind) && Fragment(step, kind, data) <= hand
    ensures Parse(step, check, hand, s, whole) == Rec(kind, data, s + HEADER + |data|)
  {
    var f, n := Fragment(step, kind, data), HEADER + |data|;
    assert f[..HEADER] == Header(step, kind, data);
    assert Header(step, kind, data) <= hand;
    HeaderAt(step, hand, kind, data);
    hide Header, DecodeFixed32, Unmask, Crc;
    assert hand[HEADER..n] == f[HEADER..] == data;
    assert hand[6..n] == [hand[6]] + hand[HEADER..n];
  }

  /** A whole fragment is read back. */
  lemma ReadFragment(step: CrcStep, check: bool, file: seq<Byte>, q: nat, kind: Byte, data: seq<Byte>)
    requires |data| < 0x1_0000 && RecordKind(kind) && Start(q) % BLOCK + HEADER + |data| <= BLOCK
    requires Has(file, Start(q), Fragment(step, kind, data))
    ensures PhysAt(step, check, file, q) == Rec(kind, data, Start(q) + HEADER + |data|)
  {
    hide Fragment, Parse;
    var s, f := Start(q), Fragment(step, kind, data);
    FitsBlock(file, s, |f|);
    var hand := file[s..HandEnd(file, s)];
    SubSlice(file, s, HandEnd(file, s), 0, |f|);
    assert hand[..|f|] == f;
    ParseFragment(step, check, hand, s, BlockEnd(s) <= |file|, kind, data);
  }

  lemma FitsBlock(file: seq<Byte>, s: nat, n: nat)
    requires s % BLOCK + n <= BLOCK && s + n <= |file|
    ensures s + n <= HandEnd(file, s) <= |file|
  {}

  /** A fragment cut off by the end of the file reads as the end of the file, whatever was left of it. */
  lemma CutFragment(step: CrcStep, check: bool, full: seq<Byte>, cut: nat, q: nat, kind: Byte, data: seq<Byte>)
    requires |data| < 0x1_0000 && Start(q) % BLOCK + HEADER + |data| <= BLOCK
    requires Has(full, Start(q), Fragment(step, kind, data)) && cut < Start(q) + HEADER + |data|
    ensures PhysAt(step, check, full[..cut], q) == Eof
  {
    var s, file := Start(q), full[..cut];
    if s + HEADER <= cut {
      HasParts(full, s, Header(step, kind, data), data);
      HasPrefix(full, cut, s, Header(step, kind, data));
      hide Header, Start;
      CutHand(file, s, HEADER + |data|);
      HeaderAt(step, file[s..], kind, data);
    }
  }

  lemma CutHand(file: seq<Byte>, s: nat, n: nat)
    requires s % BLOCK + n <= BLOCK && s <= |file| < s + n
    ensures |file| < BlockEnd(s) && file[s..HandEnd(file, s)] == file[s..]
  {}

  lemma HasPrefix(full: seq<Byte>, cut: nat, pos: nat, s: seq<Byte>)
    requires Has(full, pos, s) && pos + |s| <= cut <= |full|
    ensures Has(full[..cut], pos, s)
  {
    assert full[..cut][pos..pos + |s|] == full[pos..pos + |s|];
  }

  lemma HeadAt(step: CrcStep, full: seq<Byte>, pos: nat, data: seq<Byte>, begin: bool)
    requires Has(full, pos, Head(step, pos, data, begin))
    ensures var n := Cut(pos, data);
      Has(full, Start(pos), Fragment(step, Kind(begin, n == |data|), data[..n]))
  {
    hide Has, Cut, Fragment, Kind;
    var n := Cut(pos, data);
    HasParts(full, pos, Zeros(Padding(pos)), Fragment(step, Kind(begin, n == |data|), data[..n]));
  }

  function Before(begin: bool, scratch: seq<Byte>): Option<seq<Byte>> { if begin then None else Some(scratch) }

  /** Reading at the start of what is left of a record: all of it, or the end of the file if it is cut. */
  lemma {:induction false} ReadFrame(step: CrcStep, check: bool, full: seq<Byte>, cut: nat, pos: nat, data: seq<Byte>,
                                     begin: bool, scratch: seq<Byte>, drops: seq<nat>)
    requires Has(full, pos, Frame(step, pos, data, begin)) && pos <= cut <= |full| && (begin ==> scratch == [])
    ensures NextRecord(step, check, full[..cut], pos, Before(begin, scratch), drops) ==
      if pos + |Frame(step, pos, data, begin)| <= cut
      then Got(scratch + data, pos + |Frame(step, pos, data, begin)|, drops)
      else End(drops, cut)
    decreases |data|, if Start(pos) % BLOCK == BLOCK - HEADER then 1 else 0
  {
    hide Has, Head, Padding, Start, PhysAt, Frame, Cut, NextRecord, Before, Fragment;
    var n, head := Cut(pos, data), Head(step, pos, data, begin);
    var kind := Kind(begin, n == |data|);
    FrameUnfold(step, pos, data, begin);
    if n < |data| {
      HasParts(full, pos, head, Frame(step, pos + |head|, data[n..], false));
      StartOfNext(pos, n);
    }
    HeadAt(step, full, pos, data, begin);
    if pos + |head| <= cut {
      HasPrefix(full, cut, Start(pos), Fragment(step, kind, data[..n]));
      ReadFragment(step, check, full[..cut], pos, kind, data[..n]);
      NextPart(step, check, full[..cut], pos, begin, n == |data|, data[..n], pos + |head|, scratch, drops);
      FirstPart(scratch, data, n);
      if n < |data| {
        ReadFrame(step, check, full, cut, pos + |head|, data[n..], false, scratch + data[..n], drops);
      }
    } else {
      CutFragment(step, check, full, cut, pos, kind, data[..n]);
      NoMore(step, check, full[..cut], pos, Before(begin, scratch), drops);
    }
  }

  /** One fragment of a well-formed record takes the reader one step, without complaint. */
  lemma NextPart(step: CrcStep, check: bool, file: seq<Byte>, q: nat, begin: bool, end: bool, data: seq<Byte>, next: nat,
                 scratch: seq<Byte>, drops: seq<nat>)
    requires PhysAt(step, check, file, q) == Rec(Kind(begin, end), data, next) && (begin ==> scratch == [])
    ensures NextRecord(step, check, file, q, Before(begin, scratch), drops) ==
      if end then Got(scratch + data, next, drops)
      else NextRecord(step, check, file, next, Before(false, scratch + data), drops)
  {
    hide PhysAt;
    if begin {
      assert scratch + data == data;
    }
  }

  lemma NoMore(step: CrcStep, check: bool, file: seq<Byte>, q: nat, frag: Option<seq<Byte>>, drops: seq<nat>)
    requires PhysAt(step, check, file, q) == Eof
    ensures NextRecord(step, check, file, q, frag, drops) == End(drops, |file|)
  {
    hide PhysAt;
  }

  lemma FirstPart(scratch: seq<Byte>, data: seq<Byte>, n: nat)
    requires n <= |data|
    ensures scratch + data[..n] + data[n..] == scratch + data
    ensures scratch == [] ==> scratch + data[..n] == data[..n]
    ensures n == |data| ==> data[..n] == data
  {}

  /** How many records lie wholly within the first `cut` bytes. */
  function Whole(step: CrcStep, records: seq<seq<Byte>>, cut: nat): (n: nat)
    ensures n <= |records|
  {
    if records == [] || |LogBytes(step, records)| <= cut then |records| else Whole(step, records[..|records| - 1], cut)
  }

  lemma LogGrows(step: CrcStep, records: seq<seq<Byte>>, i: nat)
    requires i < |records|
    ensures var init := LogBytes(step, records[..i]);
      LogBytes(step, records[..i + 1]) == init + Frame(step, |init|, records[i], true)
  {
    assert records[..i + 1][..i] == records[..i];
  }

  lemma {:induction false} LogPrefix(step: CrcStep, records: seq<seq<Byte>>, i: nat)
    requires i <= |records|
    ensures LogBytes(step, records[..i]) <= LogBytes(step, records)
    decreases |records| - i
  {
    hide LogBytes, Frame;
    if i == |records| {
      assert records[..i] == records;
    } else {
      LogPrefix(step, records, i + 1);
      LogGrows(step, records, i);
    }
  }

  /** The count is right: exactly the records whose last byte is within the cut. */
  lemma {:induction false} WholeIff(step: CrcStep, records: seq<seq<Byte>>, cut: nat, n: nat)
    requires n <= |records|
    ensures n <= Whole(step, records, cut) <==> |LogBytes(step, records[..n])| <= cut
    decreases |records|
  {
    LogPrefix(step, records, n);
    if records == [] || |LogBytes(step, records)| <= cut {
    } else if n == |records| {
      assert records[..n] == records;
    } else {
      var init := records[..|records| - 1];
      assert init[..n] == records[..n];
      WholeIff(step, init, cut, n);
    }
  }

  /** For every list of records and every cut of the written file, the reader returns exactly the records
      that lie wholly within the cut and reports no corruption. */
  lemma CrashSafe(step: CrcStep, check: bool, records: seq<seq<Byte>>, cut: nat)
    requires cut <= |LogBytes(step, records)|
    ensures ReadAll(step, check, LogBytes(step, records)[..cut], 0) == (records[..Whole(step, records, cut)], [])
  {
    hide LogBytes, ReadAll;
    WholeIff(step, records, cut, 0);
    NoRecords(step, records);
    ReadFrom(step, check, records, cut, 0);
    assert records[0..Whole(step, records, cut)] == records[..Whole(step, records, cut)];
  }

  lemma NoRecords(step: CrcStep, records: seq<seq<Byte>>)
    ensures LogBytes(step, records[..0]) == []
  {}

  lemma {:induction false} ReadFrom(step: CrcStep, check: bool, records: seq<seq<Byte>>, cut: nat, i: nat)
    requires cut <= |LogBytes(step, records)| && i <= Whole(step, records, cut)
    requires |LogBytes(step, records[..i])| <= cut
    ensures ReadAll(step, check, LogBytes(step, records)[..cut], |LogBytes(step, records[..i])|) ==
      (records[i..Whole(step, records, cut)], [])
    decreases |records| - i
  {
    hide LogBytes, NextRecord, Frame, Has;
    var full, pos, n := LogBytes(step, records), |LogBytes(step, records[..i])|, Whole(step, records, cut);
    if i == |records| {
      assert records[..i] == records;
      EndOfFile(step, check, full[..cut]);
    } else {
      RecordAt(step, records, i);
      ReadFrame(step, check, full, cut, pos, records[i], true, [], []);
      assert [] + records[i] == records[i];
      WholeIff(step, records, cut, i + 1);
      if i < n {
        ReadFrom(step, check, records, cut, i + 1);
        var next := |LogBytes(step, records[..i + 1])|;
        var rest := ReadAll(step, check, full[..cut], next);
        assert rest.0 == records[i + 1..n] && rest.1 == [];
        assert ReadAll(step, check, full[..cut], pos) == ([records[i]] + rest.0, [] + rest.1);
        assert [] + rest.1 == [];
        assert [records[i]] + records[i + 1..n] == records[i..n];
      } else {
        assert records[i..n] == [];
      }
    }
  }

  lemma RecordAt(step: CrcStep, records: seq<seq<Byte>>, i: nat)
    requires i < |records|
    ensures var full, pos := LogBytes(step, records), |LogBytes(step, records[..i])|;
      && Has(full, pos, Frame(step, pos, records[i], true))
      && |LogBytes(step, records[..i + 1])| == pos + |Frame(step, pos, records[i], true)|
  {
    hide LogBytes, Frame;
    LogGrows(step, records, i);
    LogPrefix(step, records, i + 1);
    var full, init := LogBytes(step, records), LogBytes(step, records[..i]);
    var frame := Frame(step, |init|, records[i], true);
    assert full[..|init + frame|] == init + frame;
    assert full[|init|..|init + frame|] == (init + frame)[|init|..];
  }

  lemma EndOfFile(step: CrcStep, check: bool, file: seq<Byte>)
    ensures NextRecord(step, check, file, |file|, None, []) == End([], |file|)
  {
    ShortTail(step, check, file, |file|);
  }

  // ----- The writer and the reader together -----

  /** Corruptions are reported one after the other. */
  lemma {:induction false} DropsAdd(step: CrcStep, check: bool, file: seq<Byte>, q: nat, frag: Option<seq<Byte>>, d: seq<nat>, e: seq<nat>)
    ensures var r, s := NextRecord(step, check, file, q, frag, d + e), NextRecord(step, check, file, q, frag, e);
      if s.Got? then r == Got(s.record, s.next, d + s.drops) else r == End(d + s.drops, s.at)
    decreases |file| - q
  {
    hide PhysAt;
    match PhysAt(step, check, file, q)
    case Eof =>
    case Bad(b, next) =>
      ReportAdd(d, e, b);
      ReportAdd(d, Report(e, b), Pending(frag));
      DropsAdd(step, check, file, next, None, d, Report(Report(e, b), Pending(frag)));
    case Rec(kind, data, next) =>
      if kind == FULL {
        ReportAdd(d, e, Unfinished(frag));
      } else if kind == FIRST {
        ReportAdd(d, e, Unfinished(frag));
        DropsAdd(step, check, file, next, Some(data), d, Report(e, Unfinished(frag)));
      } else if kind == MIDDLE || kind == LAST {
        if frag.None? {
          ReportAdd(d, e, Some(|data|));
          DropsAdd(step, check, file, next, None, d, e + [|data|]);
        } else if kind == MIDDLE {
          DropsAdd(step, check, file, next, Some(frag.value + data), d, e);
        }
      } else if kind == BAD_TYPE {
        ReportAdd(d, e, Pending(frag));
        DropsAdd(step, check, file, next, None, d, Report(e, Pending(frag)));
      } else if kind != EOF_TYPE {
        var size := |data| + if frag.Some? then |frag.value| else 0;
        ReportAdd(d, e, Some(size));
        DropsAdd(step, check, file, next, None, d, e + [size]);
      }
  }

  lemma ReportAdd(d: seq<nat>, e: seq<nat>, size: Option<nat>)
    ensures Report(d + e, size) == d + Report(e, size)
  {
    if size.Some? {
      assert d + e + [size.value] == d + (e + [size.value]);
    }
  }

  /** Reading records until there are no more. */
  method ReadToEnd(r: Reader) returns (records: seq<seq<Byte>>)
    requires r.Ok()
    modifies r
    ensures r.Ok()
    ensures var all := ReadAll(r.step, r.check, r.file, old(r.Pos())); records == all.0 && r.drops == old(r.drops) + all.1
  {
    hide NextRecord, BufferOk;
    records := [];
    ghost var start, d0 := r.Pos(), r.drops;
    ghost var all, d: seq<nat> := ReadAll(r.step, r.check, r.file, start), [];
    assert d0 + d == d0;
    while true
      invariant r.Ok() && r.drops == d0 + d
      invariant var rest := ReadAll(r.step, r.check, r.file, r.Pos()); all.0 == records + rest.0 && all.1 == d + rest.1
      decreases |r.file| - r.Pos()
    {
      ghost var q := r.Pos();
      ghost var next := NextRecord(r.step, r.check, r.file, q, None, []);
      DropsAdd(r.step, r.check, r.file, q, None, d0 + d, []);
      assert d0 + d + [] == d0 + d;
      var record := r.ReadRecord();
      Assoc(d0, d, next.drops);
      if record.None? {
        d := d + next.drops;
        return;
      }
      ghost var rest := ReadAll(r.step, r.check, r.file, r.Pos());
      Assoc(records, [record.value], rest.0);
      Assoc(d, next.drops, rest.1);
      records := records + [record.value];
      d := d + next.drops;
    }
  }

  /** Records are written, the file is cut at any byte, and what is left is read: exactly the records that were
      wholly written come back, and nothing is reported. */
  method WriteCutRead(step: CrcStep, check: bool, records: seq<seq<Byte>>, cut: nat) returns (back: seq<seq<Byte>>, drops: seq<nat>)
    ensures back == records[..Whole(step, records, cut)] && drops == []
  {
    hide LogBytes, Frame, ReadAll, Whole;
    var w := new Writer(step, []);
    var i := 0;
    NoRecords(step, records);
    while i < |records|
      invariant 0 <= i <= |records| && w.Ok() && w.step == step && w.dest == LogBytes(step, records[..i])
    {
      LogGrows(step, records, i);
      w.AddRecord(records[i]);
      i := i + 1;
    }
    assert records[..i] == records;
    var end := if cut < |w.dest| then cut else |w.dest|;
    var r := new Reader(step, check, w.dest[..end]);
    CrashSafe(step, check, records, end);
    WholeCut(step, records, cut);
    back := ReadToEnd(r);
    drops := r.drops;
  }

  lemma WholeCut(step: CrcStep, records: seq<seq<Byte>>, cut: nat)
    ensures cut >= |LogBytes(step, records)| ==> Whole(step, records, cut) == Whole(step, records, |LogBytes(step, records)|)
  {
    hide LogBytes;
  }
}
