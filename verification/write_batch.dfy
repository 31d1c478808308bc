/** Write batches: a header with sequence number and count, then the updates one after the other. */
module WriteBatches {
  import opened Bytes
  import opened Coding

  datatype Op = PutOp(key: seq<Byte>, value: seq<Byte>) | DeleteOp(key: seq<Byte>)

  const HEADER: nat := 12
  const TYPE_DELETION: Byte := 0
  const TYPE_VALUE: Byte := 1

  function EncodeOp(op: Op): seq<Byte> {
    match op
    case PutOp(key, value) => [TYPE_VALUE] + (PutSlice(key) + PutSlice(value))
    case DeleteOp(key) => [TYPE_DELETION] + PutSlice(key)
  }

  function EncodeOps(ops: seq<Op>): seq<Byte> {
    if ops == [] then [] else EncodeOp(ops[0]) + EncodeOps(ops[1..])
  }

  function Encode(sequence: nat, ops: seq<Op>): seq<Byte>
    requires sequence < U64 && |ops| < U32
  {
    EncodeFixed64(sequence) + EncodeFixed32(|ops|) + EncodeOps(ops)
  }

  // ----- Reading a batch -----

  datatype Iterated = Good(ops: seq<Op>) | Corrupt(what: string)

  datatype ReadOp = Read(op: Op, rest: seq<Byte>) | Bad(what: string)

  /** The next update of the input. */
  function GetOp(input: seq<Byte>): (r: ReadOp)
    requires input != []
    ensures r.Read? ==> |r.rest| < |input|
  {
    if input[0] == TYPE_VALUE then
      match GetSlice(input[1..])
      case Failed => Bad("bad WriteBatch Put")
      case Got(key, r1) =>
        (match GetSlice(r1)
         case Failed => Bad("bad WriteBatch Put")
         case Got(value, rest) => Read(PutOp(key, value), rest))
    else if input[0] == TYPE_DELETION then
      match GetSlice(input[1..])
      case Failed => Bad("bad WriteBatch Delete")
      case Got(key, rest) => Read(DeleteOp(key), rest)
    else Bad("unknown WriteBatch tag")
  }

  /** The updates handed to the handler until the input ends or an error. */
  function Updates(input: seq<Byte>): Iterated
    decreases |input|
  {
    if input == [] then Good([])
    else
      match GetOp(input)
      case Bad(what) => Corrupt(what)
      case Read(op, rest) =>
        match Updates(rest)
        case Corrupt(what) => Corrupt(what)
        case Good(ops) => Good([op] + ops)
  }

  function Contents(rep: seq<Byte>): Iterated {
    if |rep| < HEADER then Corrupt("malformed WriteBatch (too small)")
    else
      match Updates(rep[HEADER..])
      case Corrupt(what) => Corrupt(what)
      case Good(ops) => if |ops| == DecodeFixed32(rep[8..12]) then Good(ops) else Corrupt("WriteBatch has wrong count")
  }

  method Iterate(rep: seq<Byte>) returns (r: Iterated)
    ensures r == Contents(rep)
  {
    hide GetOp, DecodeFixed32;
    if |rep| < HEADER {
      return Corrupt("malformed WriteBatch (too small)");
    }
    var input := rep[HEADER..];
    var seen: seq<Op> := [];
    var found := 0;
    while input != []
      invariant found == |seen|
      invariant Updates(rep[HEADER..]) == match Updates(input) case Corrupt(what) => Corrupt(what) case Good(ops) => Good(seen + ops)
      decreases |input|
    {
      found := found + 1;
      var next := GetOp(input);
      if next.Bad? {
        return Corrupt(next.what);
      }
      Chain(seen, next.op, input, next.rest);
      seen := seen + [next.op];
      input := next.rest;
    }
    assert seen + [] == seen;
    if found != DecodeFixed32(rep[8..12]) {
      return Corrupt("WriteBatch has wrong count");
    }
    r := Good(seen);
  }

  lemma Chain(seen: seq<Op>, op: Op, input: seq<Byte>, rest: seq<Byte>)
    requires input != [] && GetOp(input) == Read(op, rest)
    ensures Updates(rest).Good? ==> Updates(input) == Good([op] + Updates(rest).ops)
    ensures Updates(rest).Good? ==> seen + Updates(input).ops == (seen + [op]) + Updates(rest).ops
    ensures Updates(rest).Corrupt? ==> Updates(input) == Updates(rest)
  {
    hide GetOp;
  }

  // ----- What a batch has to look like -----

  /** The input starts with the update: type byte 1 and two slices, or type byte 0 and one. */
  ghost predicate OpAt(input: seq<Byte>, op: Op, rest: seq<Byte>) {
    input != [] &&
    match op
    case PutOp(key, value) => input[0] == 1 && exists r1 :: SliceAt(input[1..], key, r1) && SliceAt(r1, value, rest)
    case DeleteOp(key) => input[0] == 0 && SliceAt(input[1..], key, rest)
  }

  /** The input is the updates, one behind the other, and nothing else. */
  ghost predicate AreOps(input: seq<Byte>, ops: seq<Op>)
    decreases |ops|
  {
    if ops == [] then input == [] else exists rest :: OpAt(input, ops[0], rest) && AreOps(rest, ops[1..])
  }

  lemma OpIff(input: seq<Byte>, op: Op, rest: seq<Byte>)
    requires input != []
    ensures GetOp(input) == Read(op, rest) <==> OpAt(input, op, rest)
  {
    hide GetSlice, SliceAt;
    forall s, r1, r2 ensures GetSlice(r1) == Got(s, r2) <==> SliceAt(r1, s, r2) {
      SliceIff(r1, s, r2);
    }
  }

  lemma {:induction false} UpdatesIff(input: seq<Byte>, ops: seq<Op>)
    ensures Updates(input) == Good(ops) <==> AreOps(input, ops)
    decreases |ops|
  {
    hide GetOp, OpAt;
    if input == [] {
      forall op, rest ensures !OpAt(input, op, rest) {
        NoOpAt(op, rest);
      }
    } else {
      forall op, rest ensures GetOp(input) == Read(op, rest) <==> OpAt(input, op, rest) {
        OpIff(input, op, rest);
      }
      var next := GetOp(input);
      if next.Read? && ops != [] {
        UpdatesIff(next.rest, ops[1..]);
        assert ops == [ops[0]] + ops[1..];
      }
    }
  }

  lemma NoOpAt(op: Op, rest: seq<Byte>) ensures !OpAt([], op, rest) {}

  /** Of whatever bytes: a batch is handed over as these updates exactly when it has a header whose count is theirs,
      and then they follow with nothing behind them. */
  lemma ContentsIff(rep: seq<Byte>, ops: seq<Op>)
    ensures Contents(rep) == Good(ops) <==> |rep| >= 12 && DecodeFixed32(rep[8..12]) == |ops| && AreOps(rep[12..], ops)
  {
    hide Updates, AreOps, DecodeFixed32;
    if |rep| >= 12 {
      UpdatesIff(rep[12..], ops);
    }
  }

  // ----- Round trip -----

  predicate Fits(op: Op) { |op.key| < U32 && (op.PutOp? ==> |op.value| < U32) }

  lemma Assoc(a: seq<Byte>, b: seq<Byte>, c: seq<Byte>) ensures (a + b) + c == a + (b + c) {}

  lemma OpBack(op: Op, rest: seq<Byte>)
    requires Fits(op)
    ensures GetOp(EncodeOp(op) + rest) == Read(op, rest)
  {
    hide PutSlice, GetSlice;
    var input := EncodeOp(op) + rest;
    match op
    case PutOp(key, value) =>
      Assoc([TYPE_VALUE], PutSlice(key) + PutSlice(value), rest);
      Assoc(PutSlice(key), PutSlice(value), rest);
      assert input[1..] == PutSlice(key) + (PutSlice(value) + rest);
      GetPutSlice(key, PutSlice(value) + rest);
      GetPutSlice(value, rest);
    case DeleteOp(key) =>
      Assoc([TYPE_DELETION], PutSlice(key), rest);
      assert input[1..] == PutSlice(key) + rest;
      GetPutSlice(key, rest);
  }

  lemma {:induction false} OpsBack(ops: seq<Op>)
    requires forall i :: 0 <= i < |ops| ==> Fits(ops[i])
    ensures Updates(EncodeOps(ops)) == Good(ops)
    decreases |ops|
  {
    hide GetOp, EncodeOp, Fits;
    if ops != [] {
      NotEmpty(ops[0]);
      OpBack(ops[0], EncodeOps(ops[1..]));
      OpsBack(ops[1..]);
      assert [ops[0]] + ops[1..] == ops;
    }
  }

  lemma NotEmpty(op: Op) ensures EncodeOp(op) != [] {}

  /** Iterating an encoded batch hands over exactly its updates, in order. */
  lemma RoundTrip(sequence: nat, ops: seq<Op>)
    requires sequence < U64 && |ops| < U32 && forall i :: 0 <= i < |ops| ==> Fits(ops[i])
    ensures Contents(Encode(sequence, ops)) == Good(ops)
    ensures DecodeFixed64(Encode(sequence, ops)[..8]) == sequence
  {
    hide EncodeFixed32, DecodeFixed32, EncodeFixed64, DecodeFixed64, EncodeOps, Updates, Fits;
    var s, c, b := EncodeFixed64(sequence), EncodeFixed32(|ops|), EncodeOps(ops);
    var rep := s + c + b;
    assert rep[..8] == s && rep[8..12] == c && rep[12..] == b;
    Fixed64RoundTrip(sequence);
    Fixed32RoundTrip(|ops|);
    OpsBack(ops);
  }

  // ----- The batch -----

  class WriteBatch {
    var rep: seq<Byte>
    ghost var sequence: nat
    ghost var ops: seq<Op>

    ghost predicate Ok() reads this { sequence < U64 && |ops| < U32 && rep == Encode(sequence, ops) }

    constructor ()
      ensures Ok() && ops == [] && sequence == 0
    {
      rep := seq(HEADER, _ => 0);
      sequence, ops := 0, [];
      new;
      EmptyBatch();
    }

    method SetCount(n: nat)
      requires |rep| >= HEADER && n < U32
      modifies `rep
      ensures rep == old(rep[..8]) + EncodeFixed32(n) + old(rep[12..])
    {
      rep := rep[..8] + EncodeFixed32(n) + rep[12..];
    }

    method SetSequence(s: nat)
      requires Ok() && s < U64
      modifies this
      ensures Ok() && sequence == s && ops == old(ops)
    {
      hide EncodeOps, EncodeFixed32, EncodeFixed64;
      Parts(sequence, ops);
      rep := EncodeFixed64(s) + rep[8..];
      Assoc(EncodeFixed64(s), EncodeFixed32(|ops|), EncodeOps(ops));
      sequence := s;
    }

    function Count(): nat
      requires |rep| >= HEADER
      reads this
    {
      DecodeFixed32(rep[8..12])
    }

    method Put(key: seq<Byte>, value: seq<Byte>)
      requires Ok() && |ops| + 1 < U32
      modifies this
      ensures Ok() && ops == old(ops) + [PutOp(key, value)] && sequence == old(sequence)
    {
      hide EncodeOps, EncodeFixed32, DecodeFixed32, EncodeFixed64;
      Parts(sequence, ops);
      OpsNext(ops, PutOp(key, value));
      SetCount(Count() + 1);
      Grow(EncodeFixed64(sequence), EncodeFixed32(|ops| + 1), EncodeOps(ops), [TYPE_VALUE], PutSlice(key), PutSlice(value));
      rep := rep + [TYPE_VALUE];
      rep := rep + PutSlice(key);
      rep := rep + PutSlice(value);
      ops := ops + [PutOp(key, value)];
    }

    method Delete(key: seq<Byte>)
      requires Ok() && |ops| + 1 < U32
      modifies this
      ensures Ok() && ops == old(ops) + [DeleteOp(key)] && sequence == old(sequence)
    {
      hide EncodeOps, EncodeFixed32, DecodeFixed32, EncodeFixed64;
      Parts(sequence, ops);
      OpsNext(ops, DeleteOp(key));
      SetCount(Count() + 1);
      Grow(EncodeFixed64(sequence), EncodeFixed32(|ops| + 1), EncodeOps(ops), [TYPE_DELETION], PutSlice(key), []);
      rep := rep + [TYPE_DELETION];
      rep := rep + PutSlice(key);
      ops := ops + [DeleteOp(key)];
    }

    /** Append the updates of a batch, which may be this one. */
    method Append(src: WriteBatch)
      requires Ok() && src.Ok() && |ops| + |src.ops| < U32
      modifies this
      ensures Ok() && ops == old(ops) + old(src.ops) && sequence == old(sequence)
    {
      hide EncodeOps, EncodeFixed32, DecodeFixed32, EncodeFixed64;
      Parts(sequence, ops);
      Parts(src.sequence, src.ops);
      OpsAppend(ops, src.ops);
      ghost var more := src.ops;
      SetCount(Count() + src.Count());
      KeptUpdates(EncodeFixed64(sequence), EncodeFixed32(|ops| + |more|), EncodeOps(ops));
      Assoc(EncodeFixed64(sequence) + EncodeFixed32(|ops| + |more|), EncodeOps(ops), EncodeOps(more));
      rep := rep + src.rep[HEADER..];
      ops := ops + more;
    }
  }

  lemma KeptUpdates(s: seq<Byte>, c: seq<Byte>, b: seq<Byte>)
    requires |s| == 8 && |c| == 4
    ensures (s + c + b)[HEADER..] == b
  {}

  lemma EmptyBatch()
    ensures Encode(0, []) == seq(HEADER, _ => 0)
  {
    assert EncodeFixed32(0) == [0, 0, 0, 0];
  }

  lemma Parts(sequence: nat, ops: seq<Op>)
    requires sequence < U64 && |ops| < U32
    ensures var rep := Encode(sequence, ops);
      && |rep| >= HEADER && rep[..8] == EncodeFixed64(sequence) && rep[12..] == EncodeOps(ops)
      && rep[8..] == EncodeFixed32(|ops|) + EncodeOps(ops) && DecodeFixed32(rep[8..12]) == |ops|
  {
    hide EncodeOps, EncodeFixed32, DecodeFixed32, EncodeFixed64;
    var s, c, b := EncodeFixed64(sequence), EncodeFixed32(|ops|), EncodeOps(ops);
    assert (s + c + b)[8..12] == c;
    Fixed32RoundTrip(|ops|);
  }

  lemma {:induction false} OpsAppend(a: seq<Op>, b: seq<Op>)
    ensures EncodeOps(a + b) == EncodeOps(a) + EncodeOps(b)
    decreases |a|
  {
    hide EncodeOp;
    if a == [] {
      assert a + b == b;
    } else {
      assert (a + b)[1..] == a[1..] + b;
      OpsAppend(a[1..], b);
      Assoc(EncodeOp(a[0]), EncodeOps(a[1..]), EncodeOps(b));
    }
  }

  lemma OpsNext(ops: seq<Op>, op: Op)
    ensures EncodeOps(ops + [op]) == EncodeOps(ops) + EncodeOp(op)
  {
    hide EncodeOp;
    OpsAppend(ops, [op]);
    assert [op][1..] == [];
    assert EncodeOps([op]) == EncodeOp(op) + EncodeOps([]);
    assert EncodeOp(op) + [] == EncodeOp(op);
  }

  lemma Grow(s: seq<Byte>, c: seq<Byte>, b: seq<Byte>, x: seq<Byte>, y: seq<Byte>, z: seq<Byte>)
    ensures s + c + b + x + y + z == s + c + (b + (x + (y + z)))
    ensures z == [] ==> s + c + b + x + y == s + c + (b + (x + y))
  {}
}
