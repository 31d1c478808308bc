/** The bytes of the log, fragment by fragment, as the writer lays them down. */
module LogFormat {
  import opened Bytes
  import opened Log

  lemma FragmentStands(step: CrcStep, full: seq<Byte>, s: nat, kind: Byte, data: seq<Byte>)
    requires |data| < 0x1_0000 && s % BLOCK + HEADER + |data| <= BLOCK && Has(full, s, Fragment(step, kind, data))
    ensures StandsAt(step, full, s, kind, data)
  {
    var crc := Mask(Crc(step, [kind] + data));
    var code, f := EncodeFixed32(crc), Fragment(step, kind, data);
    assert f == code + [|data| % 0x100, |data| / 0x100, kind] + data;
    hide EncodeFixed32, DecodeFixed32, Mask, Crc, Fragment;
    Fixed32RoundTrip(crc);
    SubSlice(full, s, s + |f|, 0, 4);
    SubSlice(full, s, s + |f|, HEADER, |f|);
    assert f[..4] == code && f[HEADER..] == data;
    assert full[s + 4] == f[4] && full[s + 5] == f[5] && full[s + 6] == f[6];
  }

  /** The pieces hold what is left of a record from pos up to `to`: zeros where no header fits, and every fragment
      but the last filling its block. */
  ghost predicate Filled(step: CrcStep, full: seq<Byte>, pos: nat, to: nat, ps: seq<Piece>, left: seq<Byte>, begin: bool) {
    && ps != [] && Chained(step, full, ps) && Payloads(ps) == left
    && ps[0].at == Start(pos) <= |full| && (forall j :: pos <= j < Start(pos) ==> full[j] == 0)
    && (forall i :: 0 <= i < |ps| - 1 ==> PieceEnd(ps[i]) % 32768 == 0) && PieceEnd(ps[|ps| - 1]) == to
    && forall i :: 0 <= i < |ps| ==> ps[i].kind == Kind(begin && i == 0, i == |ps| - 1)
  }

  /** The record stands from pos up to `to` as the format has it. */
  ghost predicate Laid(step: CrcStep, file: seq<Byte>, pos: nat, to: nat, record: seq<Byte>) {
    exists ps: seq<Piece> ::
      && IsRecord(step, file, ps, record) && ps[0].at == Start(pos) <= |file| && PieceEnd(ps[|ps| - 1]) == to
      && (forall j :: pos <= j < Start(pos) ==> file[j] == 0)
      && forall i :: 0 <= i < |ps| - 1 ==> PieceEnd(ps[i]) % 32768 == 0
  }

  lemma {:induction false} PayloadsFirst(p: Piece, ps: seq<Piece>)
    ensures Payloads([p] + ps) == p.data + Payloads(ps)
    decreases |ps|
  {
    if ps == [] {
      assert [p] + ps == [p];
      OnePiece(p);
    } else {
      var k := |ps| - 1;
      var init, last := ps[..k], ps[k];
      PayloadsFirst(p, init);
      assert ps == init + [last] && [p] + ps == ([p] + init) + [last];
      hide Payloads;
      PayloadsMore(init, last);
      PayloadsMore([p] + init, last);
      Assoc(p.data, Payloads(init), last.data);
    }
  }

  lemma HeadPiece(step: CrcStep, full: seq<Byte>, pos: nat, left: seq<Byte>, begin: bool)
    requires Has(full, pos, Head(step, pos, left, begin))
    ensures var n := Cut(pos, left);
      && StandsAt(step, full, Start(pos), Kind(begin, n == |left|), left[..n])
      && Start(pos) <= |full| && forall j :: pos <= j < Start(pos) ==> full[j] == 0
  {
    HeadAt(step, full, pos, left, begin);
    var n := Cut(pos, left);
    FragmentStands(step, full, Start(pos), Kind(begin, n == |left|), left[..n]);
    var head := Head(step, pos, left, begin);
    hide StandsAt, Fragment, Cut, Padding;
    forall j | pos <= j < Start(pos) ensures full[j] == 0 {
      assert full[j] == head[j - pos];
    }
  }

  lemma ChainFirst(step: CrcStep, full: seq<Byte>, p: Piece, ps: seq<Piece>)
    requires ps != [] && Chained(step, full, ps) && StandsAt(step, full, p.at, p.kind, p.data) && ps[0].at == Start(PieceEnd(p))
    ensures Chained(step, full, [p] + ps)
  {
    hide StandsAt, Start;
    var all := [p] + ps;
    assert forall i :: 1 <= i < |all| ==> all[i] == ps[i - 1];
  }

  lemma FilledOn(step: CrcStep, full: seq<Byte>, pos: nat, to: nat, ps: seq<Piece>, left: seq<Byte>, begin: bool, n: nat, p: Piece)
    requires n <= |left| && Filled(step, full, PieceEnd(p), to, ps, left[n..], false)
    requires StandsAt(step, full, p.at, p.kind, p.data) && p == Piece(Start(pos), Kind(begin, false), left[..n])
    requires PieceEnd(p) % 32768 == 0 && p.at <= |full| && forall j :: pos <= j < Start(pos) ==> full[j] == 0
    ensures Filled(step, full, pos, to, [p] + ps, left, begin)
  {
    hide StandsAt, Payloads, Start, Chained, Kind;
    PayloadsFirst(p, ps);
    ChainFirst(step, full, p, ps);
    assert left == left[..n] + left[n..];
    var all := [p] + ps;
    assert forall i :: 1 <= i < |all| ==> all[i] == ps[i - 1];
  }

  lemma CutFills(pos: nat, left: seq<Byte>)
    requires Cut(pos, left) < |left|
    ensures (Start(pos) + 7 + Cut(pos, left)) % 32768 == 0
  {}

  lemma {:induction false} FrameFilled(step: CrcStep, full: seq<Byte>, pos: nat, left: seq<Byte>, begin: bool) returns (ps: seq<Piece>)
    requires Has(full, pos, Frame(step, pos, left, begin))
    ensures Filled(step, full, pos, pos + |Frame(step, pos, left, begin)|, ps, left, begin)
    decreases |left|, if Start(pos) % BLOCK == BLOCK - HEADER then 1 else 0
  {
    hide Frame, Head, Start, Cut, Padding, StandsAt, Filled, Has;
    FrameUnfold(step, pos, left, begin);
    var n, head := Cut(pos, left), Head(step, pos, left, begin);
    var p := Piece(Start(pos), Kind(begin, n == |left|), left[..n]);
    assert PieceEnd(p) == pos + |head|;
    if n == |left| {
      HeadPiece(step, full, pos, left, begin);
      assert left[..n] == left;
      LastFilled(step, full, pos, left, begin);
      ps := [p];
    } else {
      HasParts(full, pos, head, Frame(step, pos + |head|, left[n..], false));
      HeadPiece(step, full, pos, left, begin);
      StartOfNext(pos, n);
      CutFills(pos, left);
      var rest := FrameFilled(step, full, pos + |head|, left[n..], false);
      FilledOn(step, full, pos, pos + |Frame(step, pos, left, begin)|, rest, left, begin, n, p);
      ps := [p] + rest;
    }
  }

  lemma LastFilled(step: CrcStep, full: seq<Byte>, pos: nat, left: seq<Byte>, begin: bool)
    requires StandsAt(step, full, Start(pos), Kind(begin, true), left) && Start(pos) <= |full|
    requires forall j :: pos <= j < Start(pos) ==> full[j] == 0
    ensures Filled(step, full, pos, Start(pos) + 7 + |left|, [Piece(Start(pos), Kind(begin, true), left)], left, begin)
  {
    hide StandsAt, Start;
    OnePiece(Piece(Start(pos), Kind(begin, true), left));
  }

  lemma FilledRecord(step: CrcStep, full: seq<Byte>, pos: nat, to: nat, ps: seq<Piece>, record: seq<Byte>)
    requires Filled(step, full, pos, to, ps, record, true)
    ensures IsRecord(step, full, ps, record)
  {
    hide Chained, Payloads, Start;
  }

  /** The bytes appended for a record lay it down as the format has it. */
  lemma FrameLaid(step: CrcStep, full: seq<Byte>, pos: nat, record: seq<Byte>)
    requires Has(full, pos, Frame(step, pos, record, true))
    ensures Laid(step, full, pos, pos + |Frame(step, pos, record, true)|, record)
  {
    hide Chained, Payloads, Start, Frame, Has, IsRecord, Kind;
    var ps := FrameFilled(step, full, pos, record, true);
    FilledRecord(step, full, pos, pos + |Frame(step, pos, record, true)|, ps, record);
  }

  /** Every record of a log lies between the ends of the logs without and with it. */
  lemma LogLaid(step: CrcStep, records: seq<seq<Byte>>, i: nat)
    requires i < |records|
    ensures Laid(step, LogBytes(step, records), |LogBytes(step, records[..i])|, |LogBytes(step, records[..i + 1])|, records[i])
  {
    hide LogBytes, Frame, Laid;
    RecordAt(step, records, i);
    FrameLaid(step, LogBytes(step, records), |LogBytes(step, records[..i])|, records[i]);
  }
}
