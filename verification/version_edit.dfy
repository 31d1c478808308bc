/** The encoding of version edits in the MANIFEST. */
module VersionEdits {
  import opened Wrappers
  import opened Bytes
  import opened Coding

  const NUM_LEVELS: nat := 7

  datatype FileMeta = FileMeta(number: nat, size: nat, smallest: seq<Byte>, largest: seq<Byte>)

  datatype Edit = Edit(
    comparator: Option<seq<Byte>>,
    logNumber: Option<nat>,
    prevLogNumber: Option<nat>,
    nextFile: Option<nat>,
    lastSequence: Option<nat>,
    compactPointers: seq<(nat, seq<Byte>)>,
    deleted: set<(nat, nat)>,
    newFiles: seq<(nat, FileMeta)>)

  const CLEAR: Edit := Edit(None, None, None, None, None, [], {}, [])

  // ----- One tagged field -----

  datatype Field =
    | Comparator(name: seq<Byte>)
    | LogNumber(n: nat)
    | PrevLogNumber(n: nat)
    | NextFile(n: nat)
    | LastSequence(n: nat)
    | CompactPointer(level: nat, key: seq<Byte>)
    | DeletedFile(level: nat, n: nat)
    | NewFile(level: nat, file: FileMeta)

  function Tag(f: Field): nat {
    match f
    case Comparator(_) => 1
    case LogNumber(_) => 2
    case NextFile(_) => 3
    case LastSequence(_) => 4
    case CompactPointer(_, _) => 5
    case DeletedFile(_, _) => 6
    case NewFile(_, _) => 7
    case PrevLogNumber(_) => 9
  }

  function Body(f: Field): seq<Byte> {
    match f
    case Comparator(name) => PutSlice(name)
    case LogNumber(n) => Varint(n)
    case PrevLogNumber(n) => Varint(n)
    case NextFile(n) => Varint(n)
    case LastSequence(n) => Varint(n)
    case CompactPointer(level, key) => Varint(level) + PutSlice(key)
    case DeletedFile(level, n) => Varint(level) + Varint(n)
    case NewFile(level, file) =>
      Varint(level) + (Varint(file.number) + (Varint(file.size) + (PutSlice(file.smallest) + PutSlice(file.largest))))
  }

  function EncodeField(f: Field): seq<Byte> { Varint(Tag(f)) + Body(f) }

  function EncodeFields(fs: seq<Field>): seq<Byte> {
    if fs == [] then [] else EncodeField(fs[0]) + EncodeFields(fs[1..])
  }

  function Apply(e: Edit, f: Field): Edit {
    match f
    case Comparator(name) => e.(comparator := Some(name))
    case LogNumber(n) => e.(logNumber := Some(n))
    case PrevLogNumber(n) => e.(prevLogNumber := Some(n))
    case NextFile(n) => e.(nextFile := Some(n))
    case LastSequence(n) => e.(lastSequence := Some(n))
    case CompactPointer(level, key) => e.(compactPointers := e.compactPointers + [(level, key)])
    case DeletedFile(level, n) => e.(deleted := e.deleted + {(level, n)})
    case NewFile(level, file) => e.(newFiles := e.newFiles + [(level, file)])
  }

  function ApplyAll(e: Edit, fs: seq<Field>): Edit
    decreases |fs|
  {
    if fs == [] then e else ApplyAll(Apply(e, fs[0]), fs[1..])
  }

  // ----- Reading a field -----

  function GetLevel(input: seq<Byte>): (r: Parsed<nat>)
    ensures r.Got? ==> |r.rest| < |input|
  {
    var r := GetVarint32(input);
    if r.Got? && r.value < NUM_LEVELS then r else Failed
  }

  /** An internal key is never empty. */
  function GetInternalKey(input: seq<Byte>): (r: Parsed<seq<Byte>>)
    ensures r.Got? ==> |r.rest| < |input|
  {
    var r := GetSlice(input);
    if r.Got? && r.value != [] then r else Failed
  }

  datatype ReadField = Ok(field: Field, rest: seq<Byte>) | Corrupt(what: string)

  function GetNumber(input: seq<Byte>, make: nat -> Field, what: string): (r: ReadField)
    ensures r.Ok? ==> |r.rest| < |input|
  {
    match GetVarint64(input)
    case Failed => Corrupt(what)
    case Got(n, rest) => Ok(make(n), rest)
  }

  function GetNewFile(input: seq<Byte>): (r: ReadField)
    ensures r.Ok? ==> |r.rest| < |input|
  {
    var bad := Corrupt("new-file entry");
    match GetLevel(input)
    case Failed => bad
    case Got(level, r1) =>
      match GetVarint64(r1)
      case Failed => bad
      case Got(number, r2) =>
        match GetVarint64(r2)
        case Failed => bad
        case Got(size, r3) =>
          match GetInternalKey(r3)
          case Failed => bad
          case Got(smallest, r4) =>
            match GetInternalKey(r4)
            case Failed => bad
            case Got(largest, r5) => Ok(NewFile(level, FileMeta(number, size, smallest, largest)), r5)
  }

  function GetBody(tag: nat, input: seq<Byte>): (r: ReadField)
    ensures r.Ok? ==> |r.rest| < |input|
  {
    if tag == 1 then
      match GetSlice(input)
      case Failed => Corrupt("comparator name")
      case Got(name, rest) => Ok(Comparator(name), rest)
    else if tag == 2 then GetNumber(input, (n: nat) => LogNumber(n), "log number")
    else if tag == 9 then GetNumber(input, (n: nat) => PrevLogNumber(n), "previous log number")
    else if tag == 3 then GetNumber(input, (n: nat) => NextFile(n), "next file number")
    else if tag == 4 then GetNumber(input, (n: nat) => LastSequence(n), "last sequence number")
    else if tag == 5 then
      match GetLevel(input)
      case Failed => Corrupt("compaction pointer")
      case Got(level, r1) =>
        (match GetInternalKey(r1)
         case Failed => Corrupt("compaction pointer")
         case Got(key, rest) => Ok(CompactPointer(level, key), rest))
    else if tag == 6 then
      match GetLevel(input)
      case Failed => Corrupt("deleted file")
      case Got(level, r1) =>
        (match GetVarint64(r1)
         case Failed => Corrupt("deleted file")
         case Got(n, rest) => Ok(DeletedFile(level, n), rest))
    else if tag == 7 then GetNewFile(input)
    else Corrupt("unknown tag")
  }

  datatype Decoded = Good(edit: Edit) | Bad(what: string)

  /** What decoding the rest of the input gives, with `e` filled in so far. */
  function Decode(e: Edit, input: seq<Byte>): Decoded
    decreases |input|
  {
    match GetVarint32(input)
    case Failed => if input == [] then Good(e) else Bad("invalid tag")
    case Got(tag, r1) =>
      match GetBody(tag, r1)
      case Corrupt(what) => Bad(what)
      case Ok(f, rest) => Decode(Apply(e, f), rest)
  }

  // ----- What an edit has to look like -----

  ghost predicate LevelAt(input: seq<Byte>, level: nat, rest: seq<Byte>) { NumberAt(input, 5, U32, level, rest) && level < 7 }

  ghost predicate KeyAt(input: seq<Byte>, key: seq<Byte>, rest: seq<Byte>) { SliceAt(input, key, rest) && key != [] }

  ghost predicate FileAt(input: seq<Byte>, file: FileMeta, rest: seq<Byte>) {
    exists r1, r2, r3 ::
      && NumberAt(input, 10, U64, file.number, r1) && NumberAt(r1, 10, U64, file.size, r2)
      && KeyAt(r2, file.smallest, r3) && KeyAt(r3, file.largest, rest)
  }

  /** What follows the tag of the field: numbers of 64 bits, levels below 7, and keys that are not empty. */
  ghost predicate BodyAt(input: seq<Byte>, f: Field, rest: seq<Byte>) {
    match f
    case Comparator(name) => SliceAt(input, name, rest)
    case LogNumber(n) => NumberAt(input, 10, U64, n, rest)
    case PrevLogNumber(n) => NumberAt(input, 10, U64, n, rest)
    case NextFile(n) => NumberAt(input, 10, U64, n, rest)
    case LastSequence(n) => NumberAt(input, 10, U64, n, rest)
    case CompactPointer(level, key) => exists r1 :: LevelAt(input, level, r1) && KeyAt(r1, key, rest)
    case DeletedFile(level, n) => exists r1 :: LevelAt(input, level, r1) && NumberAt(r1, 10, U64, n, rest)
    case NewFile(level, file) => exists r1 :: LevelAt(input, level, r1) && FileAt(r1, file, rest)
  }

  ghost predicate FieldAt(input: seq<Byte>, f: Field, rest: seq<Byte>) {
    exists r1 :: NumberAt(input, 5, U32, Tag(f), r1) && BodyAt(r1, f, rest)
  }

  /** The input is the fields, one behind the other, and nothing else. */
  ghost predicate AreFields(input: seq<Byte>, fs: seq<Field>)
    decreases |fs|
  {
    if fs == [] then input == [] else exists rest :: FieldAt(input, fs[0], rest) && AreFields(rest, fs[1..])
  }

  /** The readers take what stands there. */
  lemma ReadersIff()
    ensures forall input: seq<Byte>, n: nat, rest: seq<Byte> :: GetVarint32(input) == Got(n, rest) <==> NumberAt(input, 5, U32, n, rest)
    ensures forall input: seq<Byte>, n: nat, rest: seq<Byte> :: GetVarint64(input) == Got(n, rest) <==> NumberAt(input, 10, U64, n, rest)
    ensures forall input: seq<Byte>, n: nat, rest: seq<Byte> :: GetLevel(input) == Got(n, rest) <==> LevelAt(input, n, rest)
    ensures forall input: seq<Byte>, s: seq<Byte>, rest: seq<Byte> :: GetSlice(input) == Got(s, rest) <==> SliceAt(input, s, rest)
    ensures forall input: seq<Byte>, s: seq<Byte>, rest: seq<Byte> :: GetInternalKey(input) == Got(s, rest) <==> KeyAt(input, s, rest)
  {
    hide ReadVarint, NumberAt, GetSlice, SliceAt;
    forall input: seq<Byte>, n: nat, rest: seq<Byte> ensures GetVarint32(input) == Got(n, rest) <==> NumberAt(input, 5, U32, n, rest) {
      NumberIff(input, 5, U32, n, rest);
    }
    forall input: seq<Byte>, n: nat, rest: seq<Byte> ensures GetVarint64(input) == Got(n, rest) <==> NumberAt(input, 10, U64, n, rest) {
      NumberIff(input, 10, U64, n, rest);
    }
    forall input: seq<Byte>, s: seq<Byte>, rest: seq<Byte> ensures GetSlice(input) == Got(s, rest) <==> SliceAt(input, s, rest) {
      SliceIff(input, s, rest);
    }
  }

  lemma NewFileIff(input: seq<Byte>, f: Field, rest: seq<Byte>)
    requires f.NewFile?
    ensures GetNewFile(input) == Ok(f, rest) <==> BodyAt(input, f, rest)
  {
    hide GetLevel, LevelAt, GetVarint64, NumberAt, GetInternalKey, KeyAt, GetVarint32, SliceAt, GetSlice;
    ReadersIff();
  }

  lemma BodyIff(tag: nat, input: seq<Byte>, f: Field, rest: seq<Byte>)
    ensures GetBody(tag, input) == Ok(f, rest) <==> tag == Tag(f) && BodyAt(input, f, rest)
  {
    hide GetLevel, LevelAt, GetVarint64, NumberAt, GetInternalKey, KeyAt, GetVarint32, SliceAt, GetSlice, GetNewFile, FileAt;
    ReadersIff();
    if f.NewFile? {
      NewFileIff(input, f, rest);
    }
    OnlyNewFile(input);
  }

  lemma OnlyNewFile(input: seq<Byte>)
    ensures var r := GetNewFile(input); r.Ok? ==> r.field.NewFile?
  {
    hide GetLevel, GetVarint64, GetInternalKey;
  }

  /** Of whatever bytes: decoding succeeds exactly on fields one behind the other, and applies them in turn. */
  lemma {:induction false} DecodeIff(e: Edit, input: seq<Byte>, edit: Edit)
    ensures Decode(e, input) == Good(edit) <==> exists fs :: AreFields(input, fs) && edit == ApplyAll(e, fs)
    decreases |input|
  {
    if Decode(e, input) == Good(edit) {
      DecodedFields(e, input);
    }
    if fs :| AreFields(input, fs) && edit == ApplyAll(e, fs) {
      FieldsDecoded(e, input, fs);
    }
  }

  lemma {:induction false} DecodedFields(e: Edit, input: seq<Byte>)
    requires Decode(e, input).Good?
    ensures exists fs :: AreFields(input, fs) && Decode(e, input).edit == ApplyAll(e, fs)
    decreases |input|
  {
    hide GetBody, GetVarint32, NumberAt, BodyAt, Tag;
    var tag := GetVarint32(input);
    if tag.Failed? {
      assert AreFields(input, []) && e == ApplyAll(e, []);
    } else {
      var body := GetBody(tag.value, tag.rest);
      FieldIff(input, body.field, body.rest);
      DecodedFields(Apply(e, body.field), body.rest);
      var fs :| AreFields(body.rest, fs) && Decode(e, input).edit == ApplyAll(Apply(e, body.field), fs);
      var all := [body.field] + fs;
      assert all[1..] == fs;
      assert AreFields(input, all);
    }
  }

  lemma {:induction false} FieldsDecoded(e: Edit, input: seq<Byte>, fs: seq<Field>)
    requires AreFields(input, fs)
    ensures Decode(e, input) == Good(ApplyAll(e, fs))
    decreases |fs|
  {
    hide GetBody, GetVarint32, FieldAt, Tag;
    if fs == [] {
      NothingLeft();
    } else {
      var rest :| FieldAt(input, fs[0], rest) && AreFields(rest, fs[1..]);
      FieldIff(input, fs[0], rest);
      FieldsDecoded(Apply(e, fs[0]), rest, fs[1..]);
    }
  }

  lemma FieldIff(input: seq<Byte>, f: Field, rest: seq<Byte>)
    ensures FieldAt(input, f, rest) <==>
      exists tag, r1 :: GetVarint32(input) == Got(tag, r1) && GetBody(tag, r1) == Ok(f, rest)
  {
    hide GetBody, GetVarint32, NumberAt, BodyAt, Tag;
    forall n: nat, r1: seq<Byte> ensures GetVarint32(input) == Got(n, r1) <==> NumberAt(input, 5, U32, n, r1) {
      TagIff(input, n, r1);
    }
    forall tag: nat, r1: seq<Byte> ensures GetBody(tag, r1) == Ok(f, rest) <==> tag == Tag(f) && BodyAt(r1, f, rest) {
      BodyIff(tag, r1, f, rest);
    }
  }

  lemma TagIff(input: seq<Byte>, n: nat, rest: seq<Byte>)
    ensures GetVarint32(input) == Got(n, rest) <==> NumberAt(input, 5, U32, n, rest)
  {
    hide ReadVarint, NumberAt;
    NumberIff(input, 5, U32, n, rest);
  }

  // ----- Round trip -----

  /** Values that fit the widths they are stored in. */
  predicate Fits(f: Field) {
    match f
    case Comparator(name) => |name| < U32
    case LogNumber(n) => n < U64
    case PrevLogNumber(n) => n < U64
    case NextFile(n) => n < U64
    case LastSequence(n) => n < U64
    case CompactPointer(level, key) => level < NUM_LEVELS && 0 < |key| < U32
    case DeletedFile(level, n) => level < NUM_LEVELS && n < U64
    case NewFile(level, file) =>
      && level < NUM_LEVELS && file.number < U64 && file.size < U64
      && 0 < |file.smallest| < U32 && 0 < |file.largest| < U32
  }

  lemma Assoc(a: seq<Byte>, b: seq<Byte>, c: seq<Byte>) ensures (a + b) + c == a + (b + c) {}

  lemma GetPutLevel(level: nat, rest: seq<Byte>)
    requires level < NUM_LEVELS
    ensures GetLevel(Varint(level) + rest) == Got(level, rest)
  {
    GetPutVarint32(level, rest);
  }

  lemma GetPutKey(key: seq<Byte>, rest: seq<Byte>)
    requires 0 < |key| < U32
    ensures GetInternalKey(PutSlice(key) + rest) == Got(key, rest)
  {
    GetPutSlice(key, rest);
  }

  lemma NewFileBack(level: nat, file: FileMeta, rest: seq<Byte>)
    requires Fits(NewFile(level, file))
    ensures GetNewFile(Body(NewFile(level, file)) + rest) == Ok(NewFile(level, file), rest)
  {
    hide Varint, PutSlice, GetLevel, GetVarint64, GetInternalKey;
    var t5 := PutSlice(file.largest) + rest;
    var t4 := PutSlice(file.smallest) + t5;
    var t3 := Varint(file.size) + t4;
    var t2 := Varint(file.number) + t3;
    var b4 := PutSlice(file.smallest) + PutSlice(file.largest);
    var b3 := Varint(file.size) + b4;
    var b2 := Varint(file.number) + b3;
    Assoc(PutSlice(file.smallest), PutSlice(file.largest), rest);
    Assoc(Varint(file.size), b4, rest);
    Assoc(Varint(file.number), b3, rest);
    Assoc(Varint(level), b2, rest);
    GetPutLevel(level, t2);
    GetPutVarint64(file.number, t3);
    GetPutVarint64(file.size, t4);
    GetPutKey(file.smallest, t5);
    GetPutKey(file.largest, rest);
  }

  lemma BodyBack(f: Field, rest: seq<Byte>)
    requires Fits(f)
    ensures GetBody(Tag(f), Body(f) + rest) == Ok(f, rest)
  {
    hide Varint, PutSlice, GetLevel, GetVarint64, GetInternalKey, GetNewFile, GetSlice;
    match f
    case Comparator(name) => GetPutSlice(name, rest);
    case LogNumber(n) => GetPutVarint64(n, rest);
    case PrevLogNumber(n) => GetPutVarint64(n, rest);
    case NextFile(n) => GetPutVarint64(n, rest);
    case LastSequence(n) => GetPutVarint64(n, rest);
    case CompactPointer(level, key) =>
      Assoc(Varint(level), PutSlice(key), rest);
      GetPutLevel(level, PutSlice(key) + rest);
      GetPutKey(key, rest);
    case DeletedFile(level, n) =>
      Assoc(Varint(level), Varint(n), rest);
      GetPutLevel(level, Varint(n) + rest);
      GetPutVarint64(n, rest);
    case NewFile(level, file) => NewFileBack(level, file, rest);
  }

  /** Decoding a sequence of well-formed fields applies them one after the other. */
  lemma {:induction false} FieldsBack(e: Edit, fs: seq<Field>)
    requires forall i :: 0 <= i < |fs| ==> Fits(fs[i])
    ensures Decode(e, EncodeFields(fs)) == Good(ApplyAll(e, fs))
    decreases |fs|
  {
    hide Varint, GetBody, Body, GetVarint32, Apply, Fits, Tag;
    if fs == [] {
      NothingLeft();
    } else {
      var rest := EncodeFields(fs[1..]);
      Assoc(Varint(Tag(fs[0])), Body(fs[0]), rest);
      TagBack(fs[0], Body(fs[0]) + rest);
      BodyBack(fs[0], rest);
      FieldsBack(Apply(e, fs[0]), fs[1..]);
    }
  }

  lemma NothingLeft() ensures GetVarint32([]) == Failed {}

  lemma TagBack(f: Field, rest: seq<Byte>)
    ensures GetVarint32(Varint(Tag(f)) + rest) == Got(Tag(f), rest)
  {
    hide GetVarint32, Varint;
    GetPutVarint32(Tag(f), rest);
  }

  // ----- EncodeTo and DecodeFrom -----

  ghost predicate Listing(order: seq<(nat, nat)>, s: set<(nat, nat)>) { forall p :: p in order <==> p in s }

  function OptionField(n: Option<nat>, make: nat -> Field): seq<Field> { if n.Some? then [make(n.value)] else [] }

  function PointerFields(ps: seq<(nat, seq<Byte>)>): (r: seq<Field>)
    ensures |r| == |ps|
  {
    seq(|ps|, i requires 0 <= i < |ps| => CompactPointer(ps[i].0, ps[i].1))
  }

  function DeletedFields(ds: seq<(nat, nat)>): (r: seq<Field>)
    ensures |r| == |ds|
  {
    seq(|ds|, i requires 0 <= i < |ds| => DeletedFile(ds[i].0, ds[i].1))
  }

  function NewFields(fs: seq<(nat, FileMeta)>): (r: seq<Field>)
    ensures |r| == |fs|
  {
    seq(|fs|, i requires 0 <= i < |fs| => NewFile(fs[i].0, fs[i].1))
  }

  function Scalars(e: Edit): seq<Field> {
    (if e.comparator.Some? then [Comparator(e.comparator.value)] else [])
    + OptionField(e.logNumber, (n: nat) => LogNumber(n)) + OptionField(e.prevLogNumber, (n: nat) => PrevLogNumber(n))
    + OptionField(e.nextFile, (n: nat) => NextFile(n)) + OptionField(e.lastSequence, (n: nat) => LastSequence(n))
  }

  /** The fields of an edit in the order they are written; `order` lists the deleted files. */
  function Fields(e: Edit, order: seq<(nat, nat)>): seq<Field> {
    Scalars(e) + PointerFields(e.compactPointers) + DeletedFields(order) + NewFields(e.newFiles)
  }

  lemma EncodeAppend(fs: seq<Field>, gs: seq<Field>)
    ensures EncodeFields(fs + gs) == EncodeFields(fs) + EncodeFields(gs)
    decreases |fs|
  {
    hide EncodeField;
    if fs == [] {
      assert fs + gs == gs;
    } else {
      EncodeAppend(fs[1..], gs);
      assert (fs + gs)[1..] == fs[1..] + gs;
      Assoc(EncodeField(fs[0]), EncodeFields(fs[1..]), EncodeFields(gs));
    }
  }

  lemma {:induction false} ApplyAppend(e: Edit, fs: seq<Field>, gs: seq<Field>)
    ensures ApplyAll(e, fs + gs) == ApplyAll(ApplyAll(e, fs), gs)
    decreases |fs|
  {
    hide Apply;
    if fs == [] {
      assert fs + gs == gs;
    } else {
      assert (fs + gs)[1..] == fs[1..] + gs;
      ApplyAppend(Apply(e, fs[0]), fs[1..], gs);
    }
  }

  lemma {:induction false} ApplyPointers(e: Edit, ps: seq<(nat, seq<Byte>)>)
    ensures ApplyAll(e, PointerFields(ps)) == e.(compactPointers := e.compactPointers + ps)
    decreases |ps|
  {
    if ps == [] {
      assert e.compactPointers + ps == e.compactPointers;
    } else {
      assert PointerFields(ps)[1..] == PointerFields(ps[1..]);
      ApplyPointers(Apply(e, PointerFields(ps)[0]), ps[1..]);
      assert e.compactPointers + [ps[0]] + ps[1..] == e.compactPointers + ps;
    }
  }

  lemma {:induction false} ApplyNewFiles(e: Edit, fs: seq<(nat, FileMeta)>)
    ensures ApplyAll(e, NewFields(fs)) == e.(newFiles := e.newFiles + fs)
    decreases |fs|
  {
    if fs == [] {
      assert e.newFiles + fs == e.newFiles;
    } else {
      assert NewFields(fs)[1..] == NewFields(fs[1..]);
      ApplyNewFiles(Apply(e, NewFields(fs)[0]), fs[1..]);
      assert e.newFiles + [fs[0]] + fs[1..] == e.newFiles + fs;
    }
  }

  lemma {:induction false} ApplyDeleted(e: Edit, ds: seq<(nat, nat)>)
    ensures ApplyAll(e, DeletedFields(ds)) == e.(deleted := e.deleted + set p | p in ds)
    decreases |ds|
  {
    if ds == [] {
      assert e.deleted + (set p | p in ds) == e.deleted;
    } else {
      assert DeletedFields(ds)[1..] == DeletedFields(ds[1..]);
      ApplyDeleted(Apply(e, DeletedFields(ds)[0]), ds[1..]);
      assert e.deleted + {ds[0]} + (set p | p in ds[1..]) == e.deleted + set p | p in ds;
    }
  }

  lemma ApplyScalars(e: Edit)
    ensures ApplyAll(CLEAR, Scalars(e)) == e.(compactPointers := [], deleted := {}, newFiles := [])
  {
    var c := if e.comparator.Some? then [Comparator(e.comparator.value)] else [];
    var l, p := OptionField(e.logNumber, (n: nat) => LogNumber(n)), OptionField(e.prevLogNumber, (n: nat) => PrevLogNumber(n));
    var x, s := OptionField(e.nextFile, (n: nat) => NextFile(n)), OptionField(e.lastSequence, (n: nat) => LastSequence(n));
    ApplyAppend(CLEAR, c + l + p + x, s);
    ApplyAppend(CLEAR, c + l + p, x);
    ApplyAppend(CLEAR, c + l, p);
    ApplyAppend(CLEAR, c, l);
  }

  lemma ApplyFields(e: Edit, order: seq<(nat, nat)>)
    requires Listing(order, e.deleted)
    ensures ApplyAll(CLEAR, Fields(e, order)) == e
  {
    hide Scalars, PointerFields, DeletedFields, NewFields;
    var a, b, c, d := Scalars(e), PointerFields(e.compactPointers), DeletedFields(order), NewFields(e.newFiles);
    ApplyAppend(CLEAR, a + b + c, d);
    ApplyAppend(CLEAR, a + b, c);
    ApplyAppend(CLEAR, a, b);
    ApplyScalars(e);
    var e0 := e.(compactPointers := [], deleted := {}, newFiles := []);
    ApplyPointers(e0, e.compactPointers);
    var e1 := e0.(compactPointers := [] + e.compactPointers);
    ApplyDeleted(e1, order);
    assert {} + (set p | p in order) == e.deleted;
    var e2 := e1.(deleted := {} + set p | p in order);
    ApplyNewFiles(e2, e.newFiles);
    assert [] + e.compactPointers == e.compactPointers && [] + e.newFiles == e.newFiles;
  }

  /** All values of the edit fit the widths they are stored in, and its levels and keys are ones it can hold. */
  ghost predicate Storable(e: Edit, order: seq<(nat, nat)>) {
    Listing(order, e.deleted) && forall i :: 0 <= i < |Fields(e, order)| ==> Fits(Fields(e, order)[i])
  }

  /** DecodeFrom undoes EncodeTo, in whatever order the deleted files are written. */
  lemma RoundTrip(e: Edit, order: seq<(nat, nat)>)
    requires Storable(e, order)
    ensures Decode(CLEAR, EncodeFields(Fields(e, order))) == Good(e)
  {
    hide Fields, Fits, EncodeFields, Decode, ApplyAll;
    FieldsBack(CLEAR, Fields(e, order));
    ApplyFields(e, order);
  }

  lemma EncodeNext(fs: seq<Field>, f: Field)
    ensures EncodeFields(fs + [f]) == EncodeFields(fs) + (Varint(Tag(f)) + Body(f))
  {
    hide Varint, Body, Tag;
    EncodeAppend(fs, [f]);
    assert [f][1..] == [];
    assert EncodeFields([f]) == EncodeField(f) + EncodeFields([]);
    assert EncodeField(f) + [] == EncodeField(f);
  }

  /** Append a field that may be absent. */
  method PutNumber(dst: seq<Byte>, n: Option<nat>, make: nat -> Field, ghost done: seq<Field>) returns (r: seq<Byte>)
    requires dst == EncodeFields(done)
    ensures r == EncodeFields(done + OptionField(n, make))
  {
    hide EncodeFields, Varint, Body, Tag;
    r := dst;
    if n.Some? {
      var f := make(n.value);
      EncodeNext(done, f);
      r := r + (Varint(Tag(f)) + Body(f));
    } else {
      assert done + [] == done;
    }
  }

  method EncodeScalars(e: Edit) returns (dst: seq<Byte>)
    ensures dst == EncodeFields(Scalars(e))
  {
    hide EncodeFields, OptionField;
    dst := [];
    NoFields();
    ghost var c := if e.comparator.Some? then [Comparator(e.comparator.value)] else [];
    if e.comparator.Some? {
      EncodeNext([], Comparator(e.comparator.value));
      assert [] + c == c;
      dst := dst + (Varint(1) + PutSlice(e.comparator.value));
    }
    ghost var done := c;
    dst := PutNumber(dst, e.logNumber, (n: nat) => LogNumber(n), done);
    done := done + OptionField(e.logNumber, (n: nat) => LogNumber(n));
    dst := PutNumber(dst, e.prevLogNumber, (n: nat) => PrevLogNumber(n), done);
    done := done + OptionField(e.prevLogNumber, (n: nat) => PrevLogNumber(n));
    dst := PutNumber(dst, e.nextFile, (n: nat) => NextFile(n), done);
    done := done + OptionField(e.nextFile, (n: nat) => NextFile(n));
    dst := PutNumber(dst, e.lastSequence, (n: nat) => LastSequence(n), done);
  }

  lemma NoFields() ensures EncodeFields([]) == [] {}

  method EncodeTo(e: Edit, order: seq<(nat, nat)>) returns (dst: seq<Byte>)
    ensures dst == EncodeFields(Fields(e, order))
  {
    hide EncodeFields, Scalars, PointerFields, DeletedFields, NewFields;
    dst := EncodeScalars(e);
    ghost var done := Scalars(e);
    var i := 0;
    NoneYet(e, order);
    assert done + PointerFields(e.compactPointers[..0]) == done;
    while i < |e.compactPointers|
      invariant 0 <= i <= |e.compactPointers| && dst == EncodeFields(done + PointerFields(e.compactPointers[..i]))
    {
      var p := e.compactPointers[i];
      NextPointer(done, e.compactPointers, i);
      EncodeNext(done + PointerFields(e.compactPointers[..i]), CompactPointer(p.0, p.1));
      dst := dst + (Varint(5) + (Varint(p.0) + PutSlice(p.1)));
      i := i + 1;
    }
    assert e.compactPointers[..i] == e.compactPointers;
    done := done + PointerFields(e.compactPointers);
    i := 0;
    assert done + DeletedFields(order[..0]) == done;
    while i < |order|
      invariant 0 <= i <= |order| && dst == EncodeFields(done + DeletedFields(order[..i]))
    {
      var d := order[i];
      NextDeleted(done, order, i);
      EncodeNext(done + DeletedFields(order[..i]), DeletedFile(d.0, d.1));
      dst := dst + (Varint(6) + (Varint(d.0) + Varint(d.1)));
      i := i + 1;
    }
    assert order[..i] == order;
    done := done + DeletedFields(order);
    i := 0;
    assert done + NewFields(e.newFiles[..0]) == done;
    while i < |e.newFiles|
      invariant 0 <= i <= |e.newFiles| && dst == EncodeFields(done + NewFields(e.newFiles[..i]))
    {
      var level, f := e.newFiles[i].0, e.newFiles[i].1;
      NextNewFile(done, e.newFiles, i);
      EncodeNext(done + NewFields(e.newFiles[..i]), NewFile(level, f));
      dst := dst + (Varint(7) + (Varint(level) + (Varint(f.number) + (Varint(f.size) + (PutSlice(f.smallest) + PutSlice(f.largest))))));
      i := i + 1;
    }
    assert e.newFiles[..i] == e.newFiles;
  }

  lemma NoneYet(e: Edit, order: seq<(nat, nat)>)
    ensures PointerFields(e.compactPointers[..0]) == [] && DeletedFields(order[..0]) == [] && NewFields(e.newFiles[..0]) == []
  {}

  lemma NextPointer(done: seq<Field>, ps: seq<(nat, seq<Byte>)>, i: nat)
    requires i < |ps|
    ensures done + PointerFields(ps[..i + 1]) == done + PointerFields(ps[..i]) + [CompactPointer(ps[i].0, ps[i].1)]
  {}

  lemma NextDeleted(done: seq<Field>, ds: seq<(nat, nat)>, i: nat)
    requires i < |ds|
    ensures done + DeletedFields(ds[..i + 1]) == done + DeletedFields(ds[..i]) + [DeletedFile(ds[i].0, ds[i].1)]
  {}

  lemma NextNewFile(done: seq<Field>, fs: seq<(nat, FileMeta)>, i: nat)
    requires i < |fs|
    ensures done + NewFields(fs[..i + 1]) == done + NewFields(fs[..i]) + [NewFile(fs[i].0, fs[i].1)]
  {}

  method DecodeFrom(src: seq<Byte>) returns (r: Decoded)
    ensures r == Decode(CLEAR, src)
  {
    hide GetBody, GetVarint32, Apply;
    var e, input := CLEAR, src;
    while true
      invariant Decode(e, input) == Decode(CLEAR, src)
      decreases |input|
    {
      var tag := GetVarint32(input);
      if tag.Failed? {
        break;
      }
      input := tag.rest;
      var field := GetBody(tag.value, input);
      if field.Corrupt? {
        return Bad(field.what);
      }
      e, input := Apply(e, field.field), field.rest;
    }
    r := if input == [] then Good(e) else Bad("invalid tag");
  }
}
