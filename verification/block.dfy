/** Table blocks: sorted entries with shared key prefixes, restart points, and the cursor over them. */
module Blocks {
  import opened Wrappers
  import opened Bytes
  import opened Coding

  datatype Pair = Pair(key: seq<Byte>, value: seq<Byte>)

  /** The comparator: a strict total order on keys. */
  type Less = (seq<Byte>, seq<Byte>) -> bool

  ghost predicate IsOrder(less: Less) {
    && (forall a, b :: !(less(a, b) && less(b, a)))
    && (forall a, b :: less(a, b) || less(b, a) || a == b)
    && (forall a, b, c :: less(a, b) && less(b, c) ==> less(a, c))
  }

  ghost predicate Ascending(less: Less, es: seq<Pair>) {
    forall i, j :: 0 <= i < j < |es| ==> less(es[i].key, es[j].key)
  }

  // ----- The encoding -----

  function Common(a: seq<Byte>, b: seq<Byte>): (n: nat)
    ensures n <= |a| && n <= |b| && a[..n] == b[..n]
    ensures n < |a| && n < |b| ==> a[n] != b[n]
  {
    if a == [] || b == [] || a[0] != b[0] then 0
    else
      var n := Common(a[1..], b[1..]);
      assert a[..n + 1] == [a[0]] + a[1..][..n] && b[..n + 1] == [b[0]] + b[1..][..n];
      1 + n
  }

  /** A length as PutVarint32 writes it. */
  function Length(n: nat): seq<Byte> { Varint(n % U32) }

  function EncodeEntry(shared: nat, p: Pair): seq<Byte>
    requires shared <= |p.key|
  {
    Length(shared) + (Length(|p.key| - shared) + (Length(|p.value|) + (p.key[shared..] + p.value)))
  }

  /** Entries since the last restart point, before entry i. */
  function Counter(i: nat, interval: nat): (c: nat)
    requires interval >= 1
    ensures c <= interval
  {
    if i == 0 then 0 else if Counter(i - 1, interval) < interval then Counter(i - 1, interval) + 1 else 1
  }

  function KeyBefore(es: seq<Pair>, i: nat): seq<Byte>
    requires i <= |es|
  {
    if i == 0 then [] else es[i - 1].key
  }

  /** How many key bytes entry i takes over from the entry before it. */
  function SharedAt(es: seq<Pair>, interval: nat, i: nat): (n: nat)
    requires interval >= 1 && i < |es|
    ensures n <= |es[i].key| && n <= |KeyBefore(es, i)| && KeyBefore(es, i)[..n] == es[i].key[..n]
  {
    if Counter(i, interval) < interval then Common(KeyBefore(es, i), es[i].key) else 0
  }

  function Buffer(es: seq<Pair>, interval: nat, n: nat): seq<Byte>
    requires interval >= 1 && n <= |es|
  {
    if n == 0 then [] else Buffer(es, interval, n - 1) + EncodeEntry(SharedAt(es, interval, n - 1), es[n - 1])
  }

  /** Offsets of the restart points among the first n entries. */
  function RestartOffsets(es: seq<Pair>, interval: nat, n: nat): (r: seq<nat>)
    requires interval >= 1 && n <= |es|
    ensures |r| >= 1
  {
    if n == 0 then [0]
    else
      var init := RestartOffsets(es, interval, n - 1);
      if Counter(n - 1, interval) == interval then init + [|Buffer(es, interval, n - 1)|] else init
  }

  /** Offsets as the 32-bit values they are kept in. */
  function Cut32(ws: seq<nat>): (r: seq<nat>)
    ensures |r| == |ws| && forall i :: 0 <= i < |ws| ==> r[i] == ws[i] % U32
  {
    seq(|ws|, i requires 0 <= i < |ws| => ws[i] % U32)
  }

  lemma CutSame(ws: seq<nat>)
    requires forall i :: 0 <= i < |ws| ==> ws[i] < U32
    ensures Cut32(ws) == ws
  {}

  lemma CutNext(ws: seq<nat>, w: nat)
    ensures Cut32(ws + [w]) == Cut32(ws) + [w % U32]
  {}

  function Fixed32s(ws: seq<nat>): (r: seq<Byte>)
    requires forall i :: 0 <= i < |ws| ==> ws[i] < 0x1_0000_0000
    ensures |r| == 4 * |ws|
  {
    if ws == [] then [] else Fixed32s(ws[..|ws| - 1]) + EncodeFixed32(ws[|ws| - 1])
  }

  // ----- The builder -----

  class Builder {
    const interval: nat
    var buffer: seq<Byte>
    var restarts: seq<nat>
    var counter: nat
    var lastKey: seq<Byte>
    ghost var es: seq<Pair>

    ghost predicate Ok() reads this {
      && interval >= 1
      && buffer == Buffer(es, interval, |es|) && restarts == Cut32(RestartOffsets(es, interval, |es|))
      && counter == Counter(|es|, interval) && lastKey == KeyBefore(es, |es|)
    }

    constructor (restartInterval: nat)
      requires restartInterval >= 1
      ensures Ok() && es == [] && interval == restartInterval
    {
      interval := restartInterval;
      buffer, restarts, counter, lastKey, es := [], [0], 0, [], [];
    }

    method Add(key: seq<Byte>, value: seq<Byte>)
      requires Ok()
      modifies this
      ensures Ok() && es == old(es) + [Pair(key, value)]
    {
      hide Buffer, RestartOffsets, Counter, SharedAt, Varint, KeyBefore, Common, Cut32;
      var shared := 0;
      AddStep(es, Pair(key, value), interval);
      CutNext(RestartOffsets(es, interval, |es|), |buffer|);
      NothingMore(RestartOffsets(es, interval, |es|));
      if counter < interval {
        shared := SharedPrefix(lastKey, key);
      } else {
        restarts := restarts + [|buffer| % U32];
        counter := 0;
      }
      var nonShared := |key| - shared;
      buffer := buffer + (Length(shared) + (Length(nonShared) + (Length(|value|) + (key[shared..] + value))));
      Rejoin(lastKey, key, shared);
      lastKey := lastKey[..shared];
      lastKey := lastKey + key[shared..];
      counter := counter + 1;
      es := es + [Pair(key, value)];
    }

    /** The estimate is exact: what Finish would return. */
    method CurrentSizeEstimate() returns (n: nat)
      requires Ok()
      ensures n == |BlockBytes(es, interval)|
    {
      hide Buffer, RestartOffsets, BlockBytes, Counter, KeyBefore;
      BlockSize(es, interval);
      n := |buffer| + |restarts| * 4 + 4;
    }

    method Reset()
      requires interval >= 1
      modifies this
      ensures Ok() && es == []
    {
      buffer, restarts, counter, lastKey, es := [], [0], 0, [], [];
    }

    method Finish() returns (block: seq<Byte>)
      requires Ok()
      modifies `buffer
      ensures block == BlockBytes(es, interval)
    {
      hide Buffer, RestartOffsets, EncodeFixed32, Fixed32s, Cut32;
      CutNext(RestartOffsets(es, interval, |es|), |restarts|);
      ghost var entries := buffer;
      var i := 0;
      NoWords();
      assert restarts[..0] == [] && buffer + [] == buffer;
      while i < |restarts|
        invariant 0 <= i <= |restarts| && buffer == entries + Fixed32s(restarts[..i])
      {
        assert restarts[..i + 1] == restarts[..i] + [restarts[i]];
        Fixed32sNext(restarts[..i], restarts[i]);
        Assoc(entries, Fixed32s(restarts[..i]), EncodeFixed32(restarts[i]));
        buffer := buffer + EncodeFixed32(restarts[i]);
        i := i + 1;
      }
      assert restarts[..i] == restarts;
      Fixed32sNext(restarts, |restarts| % U32);
      Assoc(entries, Fixed32s(restarts), EncodeFixed32(|restarts| % U32));
      buffer := buffer + EncodeFixed32(|restarts| % U32);
      block := buffer;
    }
  }

  lemma BlockSize(es: seq<Pair>, interval: nat)
    requires interval >= 1
    ensures |BlockBytes(es, interval)| ==
            |Buffer(es, interval, |es|)| + 4 * |RestartOffsets(es, interval, |es|)| + 4
  {
    hide Buffer, RestartOffsets, Fixed32s, Cut32;
  }

  lemma NothingMore(ws: seq<nat>) ensures ws + [] == ws {}

  lemma NoWords() ensures Fixed32s([]) == [] {}

  lemma {:induction false} Fixed32sNext(ws: seq<nat>, w: nat)
    requires (forall i :: 0 <= i < |ws| ==> ws[i] < 0x1_0000_0000) && w < 0x1_0000_0000
    ensures Fixed32s(ws + [w]) == Fixed32s(ws) + EncodeFixed32(w)
  {
    assert (ws + [w])[..|ws|] == ws;
  }

  method SharedPrefix(lastKey: seq<Byte>, key: seq<Byte>) returns (shared: nat)
    ensures shared == Common(lastKey, key)
  {
    var minLength := if |lastKey| < |key| then |lastKey| else |key|;
    shared := 0;
    while shared < minLength && lastKey[shared] == key[shared]
      invariant shared <= minLength && lastKey[..shared] == key[..shared]
    {
      assert lastKey[..shared + 1] == lastKey[..shared] + [lastKey[shared]];
      assert key[..shared + 1] == key[..shared] + [key[shared]];
      shared := shared + 1;
    }
    CommonIs(lastKey, key, shared);
  }

  lemma Rejoin(a: seq<Byte>, b: seq<Byte>, n: nat)
    requires n <= |b|
    ensures n <= |a| && a[..n] == b[..n] ==> a[..n] + b[n..] == b
    ensures n == 0 ==> a[..0] + b[0..] == b
  {}

  /** What one more entry adds. */
  lemma AddStep(es: seq<Pair>, p: Pair, interval: nat)
    requires interval >= 1
    ensures var n, c, last := |es|, Counter(|es|, interval), KeyBefore(es, |es|);
      var shared := if c < interval then Common(last, p.key) else 0;
      && shared <= |last| && shared <= |p.key| && last[..shared] == p.key[..shared]
      && Buffer(es + [p], interval, n + 1) == Buffer(es, interval, n) + EncodeEntry(shared, p)
      && RestartOffsets(es + [p], interval, n + 1) ==
           RestartOffsets(es, interval, n) + (if c < interval then [] else [|Buffer(es, interval, n)|])
      && Counter(n + 1, interval) == (if c < interval then c + 1 else 1)
      && KeyBefore(es + [p], n + 1) == p.key
  {
    hide EncodeEntry, Common;
    SameBefore(es, p, interval, |es|);
    assert KeyBefore(es + [p], |es|) == KeyBefore(es, |es|);
  }

  /** The prefix two keys share is determined. */
  lemma {:induction false} CommonIs(a: seq<Byte>, b: seq<Byte>, n: nat)
    requires n <= |a| && n <= |b| && a[..n] == b[..n] && (n == |a| || n == |b| || a[n] != b[n])
    ensures Common(a, b) == n
  {
    var m := Common(a, b);
    if m < n {
      PrefixAt(a, b, n, m);
      assert false;
    } else if n < m {
      PrefixAt(a, b, m, n);
      assert false;
    }
  }

  lemma PrefixAt(a: seq<Byte>, b: seq<Byte>, n: nat, i: nat)
    requires i < n <= |a| && n <= |b| && a[..n] == b[..n]
    ensures a[i] == b[i]
  {
    assert a[..n][i] == b[..n][i];
  }

  /** Adding an entry leaves the encoding of those before it alone. */
  lemma {:induction false} SameBefore(es: seq<Pair>, p: Pair, interval: nat, n: nat)
    requires interval >= 1 && n <= |es|
    ensures Buffer(es + [p], interval, n) == Buffer(es, interval, n)
    ensures RestartOffsets(es + [p], interval, n) == RestartOffsets(es, interval, n)
  {
    hide EncodeEntry, Common, Counter;
    if n > 0 {
      SameBefore(es, p, interval, n - 1);
      assert KeyBefore(es + [p], n - 1) == KeyBefore(es, n - 1);
      assert SharedAt(es + [p], interval, n - 1) == SharedAt(es, interval, n - 1);
    }
  }

  // ----- Decoding one entry -----

  /** The three lengths of an entry, and where its key bytes start. */
  datatype Head = Head(shared: nat, nonShared: nat, valueLen: nat, at: nat)

  function DecodeLengths(data: seq<Byte>, off: nat, limit: nat): (r: Option<Head>)
    requires off <= limit <= |data|
    ensures r.Some? ==> off < r.value.at <= limit
  {
    if limit - off < 3 then None
    else if data[off] < 128 && data[off + 1] < 128 && data[off + 2] < 128 then
      Some(Head(data[off], data[off + 1], data[off + 2], off + 3))
    else
      match GetVarint32(data[off..limit])
      case Failed => None
      case Got(shared, r1) =>
        match GetVarint32(r1)
        case Failed => None
        case Got(nonShared, r2) =>
          match GetVarint32(r2)
          case Failed => None
          case Got(valueLen, r3) => Some(Head(shared, nonShared, valueLen, limit - |r3|))
  }

  function DecodeEntry(data: seq<Byte>, off: nat, limit: nat): (r: Option<Head>)
    requires off <= limit <= |data|
    ensures r.Some? ==> off < r.value.at && r.value.at + r.value.nonShared + r.value.valueLen <= limit
  {
    var h := DecodeLengths(data, off, limit);
    if h.Some? && limit - h.value.at >= h.value.nonShared + h.value.valueLen then h else None
  }

  lemma Assoc(a: seq<Byte>, b: seq<Byte>, c: seq<Byte>) ensures (a + b) + c == a + (b + c) {}

  lemma FirstByte(v: nat, rest: seq<Byte>)
    ensures var s := Varint(v) + rest;
      if v < 128 then s[0] == v && s[1..] == rest else s[0] >= 128
  {
    if v < 128 {
      assert (Varint(v) + rest)[1..] == rest;
    }
  }

  /** Both the fast and the general path read back three encoded lengths. */
  lemma LengthsBack(data: seq<Byte>, off: nat, limit: nat, a: nat, b: nat, c: nat, tail: seq<Byte>)
    requires off <= limit <= |data| && a < U32 && b < U32 && c < U32
    requires data[off..limit] == Varint(a) + (Varint(b) + (Varint(c) + tail))
    ensures DecodeLengths(data, off, limit) == Some(Head(a, b, c, limit - |tail|))
  {
    hide Varint, GetVarint32;
    var s := data[off..limit];
    var s1 := Varint(b) + (Varint(c) + tail);
    var s2 := Varint(c) + tail;
    FirstByte(a, s1);
    FirstByte(b, s2);
    FirstByte(c, tail);
    assert s[0] == data[off] && s[1] == data[off + 1] && s[2] == data[off + 2];
    if a < 128 && b < 128 && c < 128 {
      assert s[1] == s1[0] && s[2] == s[1..][1] == s1[1] == s2[0];
      assert |s| == 3 + |tail|;
    } else {
      assert a < 128 ==> s[1] == s1[0];
      assert a < 128 && b < 128 ==> s[2] == s1[1] == s2[0];
      GetPutVarint32(a, s1);
      GetPutVarint32(b, s2);
      GetPutVarint32(c, tail);
    }
  }

  // ----- The layout of a block -----

  /** A block and where its entries and restart points are. */
  datatype Layout = Layout(data: seq<Byte>, limit: nat, es: seq<Pair>, offs: seq<nat>, firsts: seq<nat>)

  function RestartPoint(data: seq<Byte>, limit: nat, r: nat): nat
    requires limit + 4 * (r + 1) <= |data|
  {
    DecodeFixed32(data[limit + 4 * r..limit + 4 * r + 4])
  }

  ghost predicate Placed(b: Layout) {
    && |b.offs| == |b.es| + 1 && b.offs[0] == 0 && b.offs[|b.es|] == b.limit <= |b.data|
    && (forall i, j :: 0 <= i < j <= |b.es| ==> b.offs[i] < b.offs[j])
  }

  /** Entry i decodes at its offset to its key, given the key before it, and its value. */
  ghost predicate EntryAt(b: Layout, i: nat)
    requires Placed(b) && i < |b.es|
  {
    assert b.offs[i] < b.offs[i + 1];
    assert i + 1 < |b.es| ==> b.offs[i + 1] < b.offs[|b.es|];
    var h := DecodeEntry(b.data, b.offs[i], b.limit);
    && h.Some? && h.value.at + h.value.nonShared + h.value.valueLen == b.offs[i + 1]
    && h.value.shared <= |KeyBefore(b.es, i)|
    && KeyBefore(b.es, i)[..h.value.shared] + b.data[h.value.at..h.value.at + h.value.nonShared] == b.es[i].key
    && b.data[h.value.at + h.value.nonShared..b.offs[i + 1]] == b.es[i].value
    && (i in b.firsts ==> h.value.shared == 0)
  }

  ghost predicate RestartAt(b: Layout, r: nat)
    requires Placed(b) && r < |b.firsts|
  {
    && b.firsts[r] <= |b.es| && (b.es != [] ==> b.firsts[r] < |b.es|)
    && b.limit + 4 * (r + 1) <= |b.data| && RestartPoint(b.data, b.limit, r) == b.offs[b.firsts[r]]
  }

  ghost predicate IsLayout(b: Layout) {
    && Placed(b) && |b.firsts| >= 1 && b.firsts[0] == 0
    && (forall i: nat :: i < |b.es| ==> EntryAt(b, i))
    && (forall r: nat :: r < |b.firsts| ==> RestartAt(b, r))
    && (forall r, s :: 0 <= r < s < |b.firsts| ==> b.firsts[r] < b.firsts[s])
  }

  // ----- A built block has its layout -----

  /** Offsets and lengths fit the 32 bits they are stored in. */
  ghost predicate Small(es: seq<Pair>, interval: nat)
    requires interval >= 1
  {
    |Buffer(es, interval, |es|)| < U32 && |RestartOffsets(es, interval, |es|)| < U32
  }

  lemma {:induction false} BufferGrows(es: seq<Pair>, interval: nat, i: nat, n: nat)
    requires interval >= 1 && i <= n <= |es|
    ensures Buffer(es, interval, i) <= Buffer(es, interval, n)
    ensures i < n ==> |Buffer(es, interval, i)| < |Buffer(es, interval, n)|
  {
    hide EncodeEntry, SharedAt;
    if i < n {
      BufferGrows(es, interval, i, n - 1);
      EntrySize(SharedAt(es, interval, n - 1), es[n - 1]);
    }
  }

  lemma EntrySize(shared: nat, p: Pair)
    requires shared <= |p.key|
    ensures |EncodeEntry(shared, p)| >= 3 + |p.key| - shared + |p.value|
  {
    hide Varint;
  }

  lemma {:induction false} OffsetsFit(es: seq<Pair>, interval: nat, n: nat)
    requires interval >= 1 && n <= |es|
    ensures forall r :: 0 <= r < |RestartOffsets(es, interval, n)| ==>
              RestartOffsets(es, interval, n)[r] <= |Buffer(es, interval, n)|
  {
    hide Buffer;
    if n > 0 {
      OffsetsFit(es, interval, n - 1);
      BufferGrows(es, interval, n - 1, n);
    }
  }

  function BlockBytes(es: seq<Pair>, interval: nat): seq<Byte>
    requires interval >= 1
  {
    var restarts := RestartOffsets(es, interval, |es|);
    Buffer(es, interval, |es|) + Fixed32s(Cut32(restarts + [|restarts|]))
  }

  /** The entries at the restart points. */
  function Firsts(n: nat, interval: nat): (r: seq<nat>)
    requires interval >= 1
    ensures |r| >= 1 && r[0] == 0
  {
    if n == 0 then [0]
    else if Counter(n - 1, interval) == interval then Firsts(n - 1, interval) + [n - 1]
    else Firsts(n - 1, interval)
  }

  ghost function LayoutOf(es: seq<Pair>, interval: nat): Layout
    requires interval >= 1 && Small(es, interval)
  {
    Layout(BlockBytes(es, interval), |Buffer(es, interval, |es|)|, es,
           seq(|es| + 1, i requires 0 <= i <= |es| => |Buffer(es, interval, i)|), Firsts(|es|, interval))
  }

  lemma {:induction false} KeyBound(es: seq<Pair>, interval: nat, i: nat)
    requires interval >= 1 && i < |es|
    ensures |es[i].key| <= |Buffer(es, interval, i + 1)|
  {
    hide Buffer, EncodeEntry, SharedAt;
    EntrySize(SharedAt(es, interval, i), es[i]);
    EntryLength(es, interval, i);
    if i > 0 {
      KeyBound(es, interval, i - 1);
    }
  }

  lemma {:induction false} FirstsOk(es: seq<Pair>, n: nat, interval: nat)
    requires interval >= 1 && n <= |es|
    ensures var fs, offs := Firsts(n, interval), RestartOffsets(es, interval, n);
      && |fs| == |offs|
      && (forall r :: 0 <= r < |fs| ==> (fs[r] < n || (n == 0 && fs[r] == 0)) && offs[r] == |Buffer(es, interval, fs[r])|)
      && (forall r, q :: 0 <= r < q < |fs| ==> fs[r] < fs[q])
      && (forall r :: 0 < r < |fs| ==> Counter(fs[r], interval) == interval)
  {
    hide Buffer, Counter;
    if n == 0 {
      EmptyBuffer(es, interval);
    } else {
      FirstsOk(es, n - 1, interval);
      CounterStarts(interval);
    }
  }

  lemma CounterStarts(interval: nat)
    requires interval >= 1
    ensures Counter(0, interval) == 0
  {}

  lemma EmptyBuffer(es: seq<Pair>, interval: nat)
    requires interval >= 1
    ensures Buffer(es, interval, 0) == []
  {}

  lemma {:induction false} Fixed32At(ws: seq<nat>, r: nat)
    requires forall i :: 0 <= i < |ws| ==> ws[i] < 0x1_0000_0000
    requires r < |ws|
    ensures DecodeFixed32(Fixed32s(ws)[4 * r..4 * r + 4]) == ws[r]
    decreases |ws|
  {
    var k := |ws| - 1;
    var init, last := Fixed32s(ws[..k]), EncodeFixed32(ws[k]);
    assert Fixed32s(ws) == init + last;
    hide EncodeFixed32, DecodeFixed32, Fixed32s;
    if r == k {
      assert (init + last)[4 * r..4 * r + 4] == last;
      Fixed32RoundTrip(ws[k]);
    } else {
      Fixed32At(ws[..k], r);
      assert (init + last)[4 * r..4 * r + 4] == init[4 * r..4 * r + 4];
    }
  }

  /** Entry i's bytes stand at its offset. */
  lemma EntryBytes(es: seq<Pair>, interval: nat, i: nat)
    requires interval >= 1 && i < |es| && Small(es, interval)
    ensures var data, off, limit := BlockBytes(es, interval), |Buffer(es, interval, i)|, |Buffer(es, interval, |es|)|;
      && off <= |Buffer(es, interval, i + 1)| <= limit <= |data|
      && data[off..limit] == EncodeEntry(SharedAt(es, interval, i), es[i]) + data[|Buffer(es, interval, i + 1)|..limit]
  {
    hide Buffer, EncodeEntry, SharedAt, BlockBytes, Small;
    var data, buf := BlockBytes(es, interval), Buffer(es, interval, |es|);
    var a, entry := Buffer(es, interval, i), EncodeEntry(SharedAt(es, interval, i), es[i]);
    BufferNext(es, interval, i);
    BlockStarts(es, interval);
    BufferGrows(es, interval, i + 1, |es|);
    Slices(data, a, entry, |buf|, buf);
  }

  lemma BufferNext(es: seq<Pair>, interval: nat, i: nat)
    requires interval >= 1 && i < |es|
    ensures Buffer(es, interval, i + 1) == Buffer(es, interval, i) + EncodeEntry(SharedAt(es, interval, i), es[i])
  {}

  lemma BlockStarts(es: seq<Pair>, interval: nat)
    requires interval >= 1
    ensures Buffer(es, interval, |es|) <= BlockBytes(es, interval)
    ensures BlockBytes(es, interval)[..|Buffer(es, interval, |es|)|] == Buffer(es, interval, |es|)
  {
    hide Buffer, RestartOffsets, Fixed32s, Cut32;
  }

  lemma Slices(data: seq<Byte>, a: seq<Byte>, e: seq<Byte>, limit: nat, buf: seq<Byte>)
    requires limit <= |data| && data[..limit] == buf && a + e <= buf
    ensures data[|a|..limit] == e + data[|a| + |e|..limit]
  {
    assert buf[..|a| + |e|] == a + e;
    assert data[|a|..|a| + |e|] == buf[|a|..|a| + |e|] == e;
  }

  lemma BuiltEntry(es: seq<Pair>, interval: nat, i: nat)
    requires interval >= 1 && Small(es, interval) && i < |es| && Placed(LayoutOf(es, interval))
    ensures EntryAt(LayoutOf(es, interval), i)
  {
    hide Buffer, EncodeEntry, SharedAt, BlockBytes, Firsts, Small, DecodeEntry, RestartOffsets, KeyBefore;
    var b := LayoutOf(es, interval);
    var shared, p := SharedAt(es, interval, i), es[i];
    var off, end := b.offs[i], b.offs[i + 1];
    EntryBytes(es, interval, i);
    KeyBound(es, interval, i);
    BufferGrows(es, interval, i + 1, |es|);
    EntryLength(es, interval, i);
    SmallBound(es, interval);
    SharedFirst(es, interval, i);
    EntrySize(shared, p);
    DecodedEntry(b.data, off, end, b.limit, shared, KeyBefore(es, i), p);
  }

  /** The counter runs from 1 to the interval again and again. */
  lemma {:induction false} CounterIs(i: nat, interval: nat)
    requires interval >= 1
    ensures Counter(i, interval) == if i == 0 then 0 else (i - 1) % interval + 1
  {
    if i > 1 {
      CounterIs(i - 1, interval);
      NextRemainder(i - 2, interval);
    }
  }

  lemma NextRemainder(a: nat, m: nat)
    requires m >= 1
    ensures (a + 1) % m == if a % m == m - 1 then 0 else a % m + 1
  {
    var q, r := a / m, a % m;
    assert a == q * m + r;
    if r == m - 1 {
      assert a + 1 == (q + 1) * m;
      Remainder(a + 1, q + 1, 0, m);
    } else {
      Remainder(a + 1, q, r + 1, m);
    }
  }

  lemma Remainder(a: nat, q: nat, r: nat, m: nat)
    requires r < m && a == q * m + r
    ensures a % m == r
  {
    var d := q - a / m;
    assert a % m - r == d * m;
    assert d * m < m && d * m + m > 0;
    assert d >= 1 ==> d * m >= m;
    assert d <= -1 ==> d * m + m <= 0;
  }

  /** An entry shares nothing at every interval-th place, and elsewhere all that its key and the one before have in
      common: the stored length is that of their longest common prefix. */
  lemma BuiltShares(es: seq<Pair>, interval: nat, i: nat, d: nat)
    requires interval >= 1 && Small(es, interval) && i < |es| && Placed(LayoutOf(es, interval))
    requires i > 0 ==>
      && d <= |es[i - 1].key| && d <= |es[i].key| && es[i - 1].key[..d] == es[i].key[..d]
      && (d < |es[i - 1].key| && d < |es[i].key| ==> es[i - 1].key[d] != es[i].key[d])
    ensures var b := LayoutOf(es, interval);
      b.offs[i] <= b.limit <= |b.data| && DecodeEntry(b.data, b.offs[i], b.limit).Some? &&
      DecodeEntry(b.data, b.offs[i], b.limit).value.shared == if i % interval == 0 then 0 else d
  {
    var b := LayoutOf(es, interval);
    assert b.offs[i] == |Buffer(es, interval, i)| && b.offs[i + 1] == |Buffer(es, interval, i + 1)|;
    SharedIs(es, interval, i, d);
    hide Buffer, EncodeEntry, SharedAt, BlockBytes, Firsts, Small, DecodeEntry, RestartOffsets, KeyBefore;
    EntryBytes(es, interval, i);
    KeyBound(es, interval, i);
    BufferGrows(es, interval, i + 1, |es|);
    EntryLength(es, interval, i);
    SmallBound(es, interval);
    EntrySize(SharedAt(es, interval, i), es[i]);
    DecodedEntry(b.data, b.offs[i], b.offs[i + 1], b.limit, SharedAt(es, interval, i), KeyBefore(es, i), es[i]);
  }

  lemma SharedIs(es: seq<Pair>, interval: nat, i: nat, d: nat)
    requires interval >= 1 && i < |es|
    requires i > 0 ==>
      && d <= |es[i - 1].key| && d <= |es[i].key| && es[i - 1].key[..d] == es[i].key[..d]
      && (d < |es[i - 1].key| && d < |es[i].key| ==> es[i - 1].key[d] != es[i].key[d])
    ensures SharedAt(es, interval, i) == if i % interval == 0 then 0 else d
  {
    CounterIs(i, interval);
    hide Counter;
    if i > 0 {
      CommonIs(es[i - 1].key, es[i].key, d);
      NextRemainder(i - 1, interval);
      hide Common;
    }
  }

  /** The restart points are at the entries whose number the interval divides. */
  lemma {:induction false} FirstsAre(n: nat, interval: nat, i: nat)
    requires interval >= 1
    ensures i in Firsts(n, interval) <==> i == 0 || (i < n && i % interval == 0)
    decreases n
  {
    hide Counter;
    if n > 0 {
      FirstsAre(n - 1, interval, i);
      CounterIs(n - 1, interval);
      if n > 1 {
        NextRemainder(n - 2, interval);
      }
    }
  }

  lemma EntryLength(es: seq<Pair>, interval: nat, i: nat)
    requires interval >= 1 && i < |es|
    ensures |Buffer(es, interval, i + 1)| == |Buffer(es, interval, i)| + |EncodeEntry(SharedAt(es, interval, i), es[i])|
  {}

  lemma SmallBound(es: seq<Pair>, interval: nat)
    requires interval >= 1 && Small(es, interval)
    ensures |Buffer(es, interval, |es|)| < U32
  {}

  lemma SharedFirst(es: seq<Pair>, interval: nat, i: nat)
    requires interval >= 1 && i < |es|
    ensures i in Firsts(|es|, interval) ==> SharedAt(es, interval, i) == 0
  {
    FirstsOk(es, |es|, interval);
    if i in Firsts(|es|, interval) {
      var r :| 0 <= r < |Firsts(|es|, interval)| && Firsts(|es|, interval)[r] == i;
    }
  }

  /** Decoding an encoded entry gives back its parts. */
  lemma DecodedEntry(data: seq<Byte>, off: nat, end: nat, limit: nat, shared: nat, last: seq<Byte>, p: Pair)
    requires off <= end <= limit <= |data| && shared <= |p.key| && shared <= |last| && last[..shared] == p.key[..shared]
    requires |p.key| < U32 && |p.value| < U32
    requires data[off..limit] == EncodeEntry(shared, p) + data[end..limit] && end - off == |EncodeEntry(shared, p)|
    ensures var h := DecodeEntry(data, off, limit);
      && h.Some? && h.value.shared == shared && h.value.at + h.value.nonShared + h.value.valueLen == end
      && last[..shared] + data[h.value.at..h.value.at + h.value.nonShared] == p.key
      && data[h.value.at + h.value.nonShared..end] == p.value
  {
    hide EncodeEntry, Varint, Length, DecodeLengths;
    var ns, vl := |p.key| - shared, |p.value|;
    var delta, rest := p.key[shared..], data[end..limit];
    var tail := delta + p.value + rest;
    EntryIs(shared, p, rest);
    LengthsBack(data, off, limit, shared, ns, vl, tail);
    Suffix(data, off, limit, Varint(shared) + (Varint(ns) + Varint(vl)), delta, p.value, rest);
    assert last[..shared] + delta == p.key;
  }

  lemma EntryIs(shared: nat, p: Pair, rest: seq<Byte>)
    requires shared <= |p.key| < U32 && |p.value| < U32
    ensures var delta, h := p.key[shared..], Varint(shared) + (Varint(|p.key| - shared) + Varint(|p.value|));
      && EncodeEntry(shared, p) + rest ==
           Varint(shared) + (Varint(|p.key| - shared) + (Varint(|p.value|) + (delta + p.value + rest)))
      && |EncodeEntry(shared, p)| == |h| + |delta| + |p.value|
      && (EncodeEntry(shared, p) + rest)[|h|..] == delta + p.value + rest
  {
    hide Varint;
    var ns, vl, delta := |p.key| - shared, |p.value|, p.key[shared..];
    assert Length(shared) == Varint(shared) && Length(ns) == Varint(ns) && Length(vl) == Varint(vl);
    var e3 := Varint(vl) + (delta + p.value);
    var e2 := Varint(ns) + e3;
    Assoc(Varint(shared), e2, rest);
    Assoc(Varint(ns), e3, rest);
    Assoc(Varint(vl), delta + p.value, rest);
  }

  lemma Suffix(data: seq<Byte>, off: nat, limit: nat, h: seq<Byte>, k: seq<Byte>, v: seq<Byte>, rest: seq<Byte>)
    requires off <= limit <= |data| && |data[off..limit]| == |h| + |k| + |v| + |rest|
    requires data[off..limit][|h|..] == k + v + rest
    ensures var at := limit - |k + v + rest|;
      at == off + |h| && data[at..at + |k|] == k && data[at + |k|..at + |k| + |v|] == v
  {
    var at, tail := off + |h|, k + v + rest;
    SliceOfSlice(data, off, limit, |h|, limit - off);
    assert data[at..limit] == tail;
    SliceOfSlice(data, at, limit, 0, |k|);
    SliceOfSlice(data, at, limit, |k|, |k| + |v|);
    assert tail[..|k|] == k && tail[|k|..|k| + |v|] == v;
  }

  lemma SliceOfSlice(s: seq<Byte>, a: nat, b: nat, i: nat, j: nat)
    requires a <= b <= |s| && i <= j <= b - a
    ensures s[a..b][i..j] == s[a + i..a + j]
  {
    var part := s[a..b];
    forall n | 0 <= n < j - i ensures part[i..j][n] == s[a + i..a + j][n] {
      assert part[i + n] == s[a + i + n];
    }
  }
  /** The restart array stands behind the entries. */
  lemma BuiltWords(es: seq<Pair>, interval: nat, r: nat)
    requires interval >= 1 && Small(es, interval) && r < |RestartOffsets(es, interval, |es|)| + 1
    ensures var data, limit, restarts := BlockBytes(es, interval), |Buffer(es, interval, |es|)|, RestartOffsets(es, interval, |es|);
      && |data| == limit + 4 * |restarts| + 4
      && DecodeFixed32(data[limit + 4 * r..limit + 4 * r + 4]) == (restarts + [|restarts|])[r]
  {
    hide Buffer, RestartOffsets, DecodeFixed32, Fixed32s, Cut32;
    var restarts, buf := RestartOffsets(es, interval, |es|), Buffer(es, interval, |es|);
    OffsetsFit(es, interval, |es|);
    CutSame(restarts + [|restarts|]);
    var words := Fixed32s(restarts + [|restarts|]);
    assert BlockBytes(es, interval) == buf + words;
    hide BlockBytes;
    Fixed32At(restarts + [|restarts|], r);
    WordSlice(buf, words, r);
  }

  lemma BuiltRestart(es: seq<Pair>, interval: nat, r: nat)
    requires interval >= 1 && Small(es, interval) && Placed(LayoutOf(es, interval)) && r < |Firsts(|es|, interval)|
    ensures RestartAt(LayoutOf(es, interval), r)
  {
    hide Buffer, BlockBytes, RestartOffsets, DecodeFixed32, Counter, Firsts, Small;
    FirstsOk(es, |es|, interval);
    BuiltWords(es, interval, r);
  }

  lemma WordSlice(buf: seq<Byte>, words: seq<Byte>, r: nat)
    requires 4 * r + 4 <= |words|
    ensures (buf + words)[|buf| + 4 * r..|buf| + 4 * r + 4] == words[4 * r..4 * r + 4]
  {}

  /** What BlockBuilder writes is a block that holds its entries, whatever the restart interval. */
  lemma BuiltLayout(es: seq<Pair>, interval: nat)
    requires interval >= 1 && Small(es, interval)
    ensures IsLayout(LayoutOf(es, interval))
  {
    var b := LayoutOf(es, interval);
    assert Placed(b) by {
      hide Buffer, RestartOffsets;
      EmptyBuffer(es, interval);
      forall i, j | 0 <= i < j <= |es| ensures b.offs[i] < b.offs[j] {
        BufferGrows(es, interval, i, j);
      }
    }
    forall i: nat | i < |es| ensures EntryAt(b, i) {
      BuiltEntry(es, interval, i);
    }
    forall r: nat | r < |b.firsts| ensures RestartAt(b, r) {
      BuiltRestart(es, interval, r);
    }
    FirstsOk(es, |es|, interval);
    hide Placed, EntryAt, RestartAt, Buffer, BlockBytes, RestartOffsets, Counter;
  }

  /** Block's constructor: the number of restart points and where they start, if the size allows them. */
  method Open(data: seq<Byte>) returns (r: Option<(nat, nat)>)
    ensures r.Some? ==>
      |data| >= 4 && r.value.1 == DecodeFixed32(data[|data| - 4..]) && r.value.0 + 4 * r.value.1 + 4 == |data|
    ensures r.None? ==> |data| < 4 || 4 * DecodeFixed32(data[|data| - 4..]) + 4 > |data|
  {
    if |data| < 4 {
      return None;
    }
    var num := DecodeFixed32(data[|data| - 4..]);
    var allowed := (|data| - 4) / 4;
    if num > allowed {
      return None;
    }
    return Some((|data| - (1 + num) * 4, num));
  }

  /** Opening a built block finds its restart array. */
  lemma OpenBuilt(es: seq<Pair>, interval: nat)
    requires interval >= 1 && Small(es, interval)
    ensures var b := LayoutOf(es, interval);
      && |b.data| == b.limit + 4 * |b.firsts| + 4 && DecodeFixed32(b.data[|b.data| - 4..]) == |b.firsts|
  {
    hide Buffer, BlockBytes, RestartOffsets, DecodeFixed32, Counter, Firsts, Small;
    FirstsOk(es, |es|, interval);
    var b, n := LayoutOf(es, interval), |RestartOffsets(es, interval, |es|)|;
    BuiltWords(es, interval, n);
    assert b.data[|b.data| - 4..] == b.data[b.limit + 4 * n..b.limit + 4 * n + 4];
  }
}
