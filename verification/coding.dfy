/** Variable-length integers and length-prefixed byte strings. */
module Coding {
  import opened Bytes

  // ----- Varints -----

  /** Seven bits a byte, lowest first; the high bit says that more follow. */
  function Varint(v: nat): (r: seq<Byte>)
    ensures r != []
  {
    if v < 128 then [v] else [v % 128 + 128] + Varint(v / 128)
  }

  method EncodeVarint64(v: nat) returns (r: seq<Byte>)
    ensures r == Varint(v)
  {
    r := [];
    var left := v;
    while left >= 128
      invariant r + Varint(left) == Varint(v)
    {
      r := r + [left % 128 + 128];
      left := left / 128;
    }
    r := r + [left];
  }

  /** The unrolled encoder of 32-bit values. */
  function EncodeVarint32(v: Word): seq<Byte> {
    var b := (x: nat) => x % 128 + 128;
    if v < 0x80 then [v]
    else if v < 0x4000 then [b(v), v / 0x80]
    else if v < 0x20_0000 then [b(v), b(v / 0x80), v / 0x4000]
    else if v < 0x1000_0000 then [b(v), b(v / 0x80), b(v / 0x4000), v / 0x20_0000]
    else [b(v), b(v / 0x80), b(v / 0x4000), b(v / 0x20_0000), v / 0x1000_0000]
  }

  lemma VarintStep(v: nat)
    ensures Varint(v) == if v < 128 then [v] else [v % 128 + 128] + Varint(v / 128)
  {}

  lemma EncodersAgree(v: Word)
    ensures EncodeVarint32(v) == Varint(v)
  {
    hide Varint;
    var v1 := v / 128;
    var v2 := v1 / 128;
    var v3 := v2 / 128;
    var v4 := v3 / 128;
    assert v2 == v / 0x4000 && v3 == v / 0x20_0000 && v4 == v / 0x1000_0000;
    VarintStep(v);
    VarintStep(v1);
    VarintStep(v2);
    VarintStep(v3);
    VarintStep(v4);
  }

  /** A value read off the front of the input, and what is left of it. */
  datatype Parsed<T> = Got(value: T, rest: seq<Byte>) | Failed

  /** Reading at most `limit` bytes. */
  function ReadVarint(input: seq<Byte>, limit: nat): (r: Parsed<nat>)
    ensures r.Got? ==> |r.rest| < |input|
  {
    if limit == 0 || input == [] then Failed
    else if input[0] < 128 then Got(input[0], input[1..])
    else
      match ReadVarint(input[1..], limit - 1)
      case Failed => Failed
      case Got(v, rest) => Got(input[0] - 128 + 128 * v, rest)
  }

  function Pow128(n: nat): (r: nat) ensures r >= 1 { if n == 0 then 1 else 128 * Pow128(n - 1) }

  lemma {:induction false} VarintRoundTrip(v: nat, limit: nat, rest: seq<Byte>)
    requires 1 <= limit && v < Pow128(limit)
    ensures ReadVarint(Varint(v) + rest, limit) == Got(v, rest)
  {
    var input := Varint(v) + rest;
    if v < 128 {
      assert input[1..] == rest;
    } else {
      VarintRoundTrip(v / 128, limit - 1, rest);
      assert input[1..] == Varint(v / 128) + rest;
    }
  }

  // ----- What a varint is -----

  /** Bytes with the high bit, and a last one without it. */
  ghost predicate IsVarint(b: seq<Byte>) {
    b != [] && b[|b| - 1] < 128 && forall i :: 0 <= i < |b| - 1 ==> b[i] >= 128
  }

  /** The number of the low seven bits of each, the first lowest. */
  function ValueOf(b: seq<Byte>): nat { if b == [] then 0 else b[0] % 128 + 128 * ValueOf(b[1..]) }

  lemma OneByteMore(x: Byte, b: seq<Byte>)
    requires x >= 128 && IsVarint(b)
    ensures IsVarint([x] + b) && ValueOf([x] + b) == x - 128 + 128 * ValueOf(b)
  {
    assert ([x] + b)[1..] == b;
  }

  lemma {:induction false} VarintIs(v: nat)
    ensures IsVarint(Varint(v)) && ValueOf(Varint(v)) == v
  {
    if v < 128 {
      assert [v][1..] == [];
    } else {
      VarintIs(v / 128);
      var more := Varint(v / 128);
      OneByteMore(v % 128 + 128, more);
      hide IsVarint, ValueOf;
    }
  }

  lemma OneByte(b: seq<Byte>)
    requires |b| == 1
    ensures ValueOf(b) < 128
  {
    assert b[1..] == [];
  }

  lemma LongerVarint(b: seq<Byte>)
    requires IsVarint(b) && ValueOf(b) >= 128
    ensures |b| > 1 && IsVarint(b[1..]) && ValueOf(b[1..]) == ValueOf(b) / 128
  {
    if |b| == 1 {
      OneByte(b);
    }
  }

  /** What is written is a varint of the value, and none of that value is shorter. */
  lemma {:induction false} VarintShortest(v: nat, b: seq<Byte>)
    ensures IsVarint(Varint(v)) && ValueOf(Varint(v)) == v
    ensures IsVarint(b) && ValueOf(b) == v ==> |Varint(v)| <= |b|
    decreases v
  {
    VarintIs(v);
    if v >= 128 && IsVarint(b) && ValueOf(b) == v {
      LongerVarint(b);
      hide IsVarint, ValueOf;
      VarintShortest(v / 128, b[1..]);
    } else {
      hide ValueOf;
    }
  }

  /** Reading takes any varint of at most `limit` bytes off the front, and nothing else. */
  lemma {:induction false} ReadVarintIff(input: seq<Byte>, limit: nat, v: nat, rest: seq<Byte>)
    ensures ReadVarint(input, limit) == Got(v, rest) <==>
      exists b :: |b| <= limit && IsVarint(b) && ValueOf(b) == v && input == b + rest
    decreases limit
  {
    if ReadVarint(input, limit) == Got(v, rest) {
      VarintRead(input, limit);
    }
    if b :| |b| <= limit && IsVarint(b) && ValueOf(b) == v && input == b + rest {
      ReadOne(b, limit, rest);
    }
  }

  lemma {:induction false} VarintRead(input: seq<Byte>, limit: nat)
    requires ReadVarint(input, limit).Got?
    ensures var r := ReadVarint(input, limit);
      exists b :: |b| <= limit && IsVarint(b) && ValueOf(b) == r.value && input == b + r.rest
    decreases limit
  {
    var r := ReadVarint(input, limit);
    if input[0] < 128 {
      var b := input[..1];
      assert b[1..] == [] && ValueOf(b) == r.value && input == b + r.rest;
    } else {
      VarintRead(input[1..], limit - 1);
      var t := ReadVarint(input[1..], limit - 1);
      var b' :| |b'| <= limit - 1 && IsVarint(b') && ValueOf(b') == t.value && input[1..] == b' + t.rest;
      var b := [input[0]] + b';
      OneByteMore(input[0], b');
      hide IsVarint, ValueOf, ReadVarint;
      assert input == b + r.rest;
    }
  }

  lemma {:induction false} ReadOne(b: seq<Byte>, limit: nat, rest: seq<Byte>)
    requires |b| <= limit && IsVarint(b)
    ensures ReadVarint(b + rest, limit) == Got(ValueOf(b), rest)
    decreases |b|
  {
    var input := b + rest;
    if |b| == 1 {
      assert b[1..] == [] && input[1..] == rest;
    } else {
      ReadOne(b[1..], limit - 1, rest);
      assert input[1..] == b[1..] + rest;
    }
  }

  const U32: nat := 0x1_0000_0000
  const U64: nat := 0x1_0000_0000_0000_0000

  /** A wider encoding is cut to the width of the result. */
  function Narrow(r: Parsed<nat>, width: nat): Parsed<nat>
    requires width > 0
  {
    if r.Failed? then Failed else Got(r.value % width, r.rest)
  }

  function GetVarint32(input: seq<Byte>): (r: Parsed<nat>)
    ensures r.Got? ==> |r.rest| < |input| && r.value < U32
  {
    Narrow(ReadVarint(input, 5), U32)
  }

  function GetVarint64(input: seq<Byte>): (r: Parsed<nat>)
    ensures r.Got? ==> |r.rest| < |input| && r.value < U64
  {
    Narrow(ReadVarint(input, 10), U64)
  }

  lemma Powers()
    ensures U32 <= Pow128(5) && U64 <= Pow128(10)
  {
    assert Pow128(5) == 128 * Pow128(4) == 0x8_0000_0000;
    assert Pow128(10) == 128 * Pow128(9) == 0x40_0000_0000_0000_0000;
  }

  lemma GetPutVarint32(v: nat, rest: seq<Byte>)
    requires v < U32
    ensures GetVarint32(Varint(v) + rest) == Got(v, rest)
  {
    hide ReadVarint, Varint, Pow128;
    Powers();
    VarintRoundTrip(v, 5, rest);
  }

  lemma GetPutVarint64(v: nat, rest: seq<Byte>)
    requires v < U64
    ensures GetVarint64(Varint(v) + rest) == Got(v, rest)
  {
    hide ReadVarint, Varint, Pow128;
    Powers();
    VarintRoundTrip(v, 10, rest);
  }

  /** The reading loop of GetVarint32Ptr and GetVarint64Ptr: shift, accumulate, drop what exceeds the width. */
  method ReadLoop(input: seq<Byte>, limit: nat, width: nat) returns (r: Parsed<nat>)
    requires width > 0
    ensures r == Narrow(ReadVarint(input, limit), width)
  {
    hide ReadVarint, Continues;
    var i, result, scale := 0, 0, 1;
    Untouched(input, limit);
    while i < limit && i < |input|
      invariant 0 <= i <= limit && i <= |input|
      invariant Continues(ReadVarint(input, limit), ReadVarint(input[i..], limit - i), result, scale)
    {
      var byte := input[i];
      ReadNext(input, i, limit, result, scale);
      i := i + 1;
      if byte >= 128 {
        result := result + (byte - 128) * scale;
        scale := scale * 128;
      } else {
        return Got((result + byte * scale) % width, input[i..]);
      }
    }
    RanOut(input, i, limit, result, scale);
    return Failed;
  }

  lemma Untouched(input: seq<Byte>, limit: nat)
    ensures Continues(ReadVarint(input, limit), ReadVarint(input[0..], limit - 0), 0, 1)
  {
    assert input[0..] == input;
  }

  lemma RanOut(input: seq<Byte>, i: nat, limit: nat, result: int, scale: int)
    requires i <= limit && i <= |input| && (i == limit || i == |input|)
    requires Continues(ReadVarint(input, limit), ReadVarint(input[i..], limit - i), result, scale)
    ensures ReadVarint(input, limit) == Failed
  {}

  lemma ReadNext(input: seq<Byte>, i: nat, limit: nat, result: int, scale: int)
    requires i < limit && i < |input|
    requires Continues(ReadVarint(input, limit), ReadVarint(input[i..], limit - i), result, scale)
    ensures input[i] < 128 ==> ReadVarint(input, limit) == Got(result + input[i] as int * scale, input[i + 1..])
    ensures input[i] >= 128 ==> Continues(ReadVarint(input, limit), ReadVarint(input[i + 1..], limit - (i + 1)),
                                          result + (input[i] as int - 128) * scale, scale * 128)
  {
    var whole := ReadVarint(input, limit);
    var after := ReadVarint(input[i + 1..], limit - (i + 1));
    assert input[i..][0] == input[i] && input[i..][1..] == input[i + 1..];
    var here := ReadVarint(input[i..], limit - i);
    assert input[i] < 128 ==> here == Got(input[i], input[i + 1..]);
    assert input[i] >= 128 ==> if after.Failed? then here == Failed else here == Got(input[i] as int - 128 + 128 * after.value, after.rest);
    if input[i] >= 128 {
      hide ReadVarint;
      Shift(whole, after, result, scale, input[i]);
    }
  }

  /** The whole value is what was accumulated plus the scaled value of the rest. */
  ghost predicate Continues(whole: Parsed<nat>, rest: Parsed<nat>, result: int, scale: int) {
    match rest
    case Failed => whole == Failed
    case Got(v, tail) => whole == Got(result + v * scale, tail)
  }

  lemma Shift(whole: Parsed<nat>, after: Parsed<nat>, result: int, scale: int, byte: int)
    requires match after
      case Failed => whole == Failed
      case Got(v, tail) => whole == Got(result + (byte - 128 + 128 * v) * scale, tail)
    ensures Continues(whole, after, result + (byte - 128) * scale, scale * 128)
  {
    if after.Got? {
      assert (byte - 128 + 128 * after.value) * scale == (byte - 128) * scale + after.value * (scale * 128);
    }
  }

  // ----- Length-prefixed slices -----

  function PutSlice(s: seq<Byte>): seq<Byte> { Varint(|s|) + s }

  function GetSlice(input: seq<Byte>): (r: Parsed<seq<Byte>>)
    ensures r.Got? ==> |r.rest| < |input|
  {
    match GetVarint32(input)
    case Failed => Failed
    case Got(n, rest) => if n <= |rest| then Got(rest[..n], rest[n..]) else Failed
  }

  lemma GetPutSlice(s: seq<Byte>, rest: seq<Byte>)
    requires |s| < U32
    ensures GetSlice(PutSlice(s) + rest) == Got(s, rest)
  {
    assert PutSlice(s) + rest == Varint(|s|) + (s + rest);
    GetPutVarint32(|s|, s + rest);
    assert (s + rest)[..|s|] == s && (s + rest)[|s|..] == rest;
  }

  /** The input starts with a varint of at most `limit` bytes that gives n in the width, and goes on with the rest. */
  ghost predicate NumberAt(input: seq<Byte>, limit: nat, width: nat, n: nat, rest: seq<Byte>)
    requires width > 0
  {
    exists b :: |b| <= limit && IsVarint(b) && ValueOf(b) % width == n && input == b + rest
  }

  /** A length, as many bytes, and the rest. */
  ghost predicate SliceAt(input: seq<Byte>, s: seq<Byte>, rest: seq<Byte>) { NumberAt(input, 5, U32, |s|, s + rest) }

  /** A number is read off the front exactly where one stands. */
  lemma NumberIff(input: seq<Byte>, limit: nat, width: nat, n: nat, rest: seq<Byte>)
    requires width > 0
    ensures Narrow(ReadVarint(input, limit), width) == Got(n, rest) <==> NumberAt(input, limit, width, n, rest)
  {
    hide ReadVarint, IsVarint, ValueOf;
    var r := ReadVarint(input, limit);
    if Narrow(r, width) == Got(n, rest) {
      ReadVarintIff(input, limit, r.value, rest);
    }
    if b :| |b| <= limit && IsVarint(b) && ValueOf(b) % width == n && input == b + rest {
      ReadVarintIff(input, limit, ValueOf(b), rest);
    }
  }

  /** So is a slice. */
  lemma SliceIff(input: seq<Byte>, s: seq<Byte>, rest: seq<Byte>)
    ensures GetSlice(input) == Got(s, rest) <==> SliceAt(input, s, rest)
  {
    hide ReadVarint, NumberAt;
    NumberIff(input, 5, U32, |s|, s + rest);
    assert (s + rest)[..|s|] == s && (s + rest)[|s|..] == rest;
    var r := GetVarint32(input);
    if r.Got? && r.value <= |r.rest| {
      assert r.rest == r.rest[..r.value] + r.rest[r.value..];
    }
  }

  // ----- Fixed64 -----

  function EncodeFixed64(v: nat): (r: seq<Byte>)
    requires v < U64
    ensures |r| == 8
  {
    EncodeFixed32(v % U32) + EncodeFixed32(v / U32)
  }

  function DecodeFixed64(b: seq<Byte>): nat
    requires |b| == 8
  {
    DecodeFixed32(b[..4]) + U32 * DecodeFixed32(b[4..])
  }

  lemma Fixed64RoundTrip(v: nat)
    requires v < U64
    ensures DecodeFixed64(EncodeFixed64(v)) == v
  {
    hide EncodeFixed32, DecodeFixed32;
    var lo, hi := EncodeFixed32(v % U32), EncodeFixed32(v / U32);
    assert (lo + hi)[..4] == lo && (lo + hi)[4..] == hi;
    Fixed32RoundTrip(v % U32);
    Fixed32RoundTrip(v / U32);
  }

  lemma Fixed64Back(b: seq<Byte>)
    requires |b| == 8
    ensures DecodeFixed64(b) < U64 && EncodeFixed64(DecodeFixed64(b)) == b
  {
    hide EncodeFixed32, DecodeFixed32;
    Fixed32Back(b[..4]);
    Fixed32Back(b[4..]);
    assert b == b[..4] + b[4..];
  }
}
