/** The bytewise order, the order of internal keys, and shortened index keys. */
module Comparators {
  import opened Bytes
  import opened Coding
  import opened Blocks

  // ----- The bytewise order -----

  predicate Less(a: seq<Byte>, b: seq<Byte>) {
    if b == [] then false
    else if a == [] then true
    else a[0] < b[0] || (a[0] == b[0] && Less(a[1..], b[1..]))
  }

  lemma {:induction false} Total(a: seq<Byte>, b: seq<Byte>)
    ensures Less(a, b) || Less(b, a) || a == b
    ensures !(Less(a, b) && Less(b, a))
    decreases |a|
  {
    if a != [] && b != [] && a[0] == b[0] {
      Total(a[1..], b[1..]);
      assert a == [a[0]] + a[1..] && b == [b[0]] + b[1..];
    }
  }

  lemma {:induction false} Trans(a: seq<Byte>, b: seq<Byte>, c: seq<Byte>)
    requires Less(a, b) && Less(b, c)
    ensures Less(a, c)
    decreases |a|
  {
    if a != [] && a[0] == b[0] == c[0] {
      Trans(a[1..], b[1..], c[1..]);
    }
  }

  /** Two strings that first differ at d are ordered by that byte. */
  lemma {:induction false} FirstDifference(a: seq<Byte>, b: seq<Byte>, d: nat)
    requires d < |a| && d < |b| && a[..d] == b[..d] && a[d] != b[d]
    ensures Less(a, b) <==> a[d] < b[d]
    decreases d
  {
    if d > 0 {
      assert a[0] == a[..d][0] && b[0] == b[..d][0];
      assert a[1..][..d - 1] == a[..d][1..] && b[1..][..d - 1] == b[..d][1..];
      FirstDifference(a[1..], b[1..], d - 1);
    }
  }

  // ----- Separators -----

  function Separator(start: seq<Byte>, limit: seq<Byte>): seq<Byte> {
    var d := Common(start, limit);
    if d < |start| && d < |limit| && start[d] < 0xff && start[d] + 1 < limit[d] then start[..d] + [start[d] + 1]
    else start
  }

  method FindShortestSeparator(start: seq<Byte>, limit: seq<Byte>) returns (r: seq<Byte>)
    ensures r == Separator(start, limit)
  {
    var minLength := if |start| < |limit| then |start| else |limit|;
    var diff := 0;
    while diff < minLength && start[diff] == limit[diff]
      invariant 0 <= diff <= minLength && start[..diff] == limit[..diff]
    {
      assert start[..diff + 1] == start[..diff] + [start[diff]] && limit[..diff + 1] == limit[..diff] + [limit[diff]];
      diff := diff + 1;
    }
    CommonIs(start, limit, diff);
    r := start;
    if diff < minLength {
      var byte := start[diff];
      if byte < 0xff && byte + 1 < limit[diff] {
        r := r[diff := byte + 1];
        r := r[..diff + 1];
      }
    }
  }

  /** A separator lies in [start, limit), and is shorter or the start itself. */
  lemma SeparatorBetween(start: seq<Byte>, limit: seq<Byte>)
    ensures var sep := Separator(start, limit);
      && (sep == start || Less(start, sep))
      && (sep == start || Less(sep, limit))
      && |sep| <= |start|
  {
    var d, sep := Common(start, limit), Separator(start, limit);
    if sep != start {
      assert sep[..d] == start[..d];
      FirstDifference(start, sep, d);
      FirstDifference(sep, limit, d);
    }
  }

  /** The two strings share exactly their first d bytes. */
  ghost predicate Part(start: seq<Byte>, limit: seq<Byte>, d: nat) {
    && d <= |start| && d <= |limit| && start[..d] == limit[..d]
    && (d < |start| && d < |limit| ==> start[d] != limit[d])
  }

  ghost predicate Inside(a: Byte, c: Byte, b: Byte) {
    a < c < b
  }

  /** Some byte lies strictly between those where the strings part. */
  ghost predicate RoomBetween(start: seq<Byte>, limit: seq<Byte>, d: nat) {
    d < |start| && d < |limit| && exists c: Byte :: Inside(start[d], c, limit[d])
  }

  /** Where there is room for a byte in between, the separator is cut behind the byte where the strings part, and
      nothing of its length that shares their prefix comes between the start and it; otherwise it is the start. */
  lemma SeparatorShortens(start: seq<Byte>, limit: seq<Byte>, d: nat)
    requires Part(start, limit, d)
    ensures RoomBetween(start, limit, d) ==>
      && Separator(start, limit) == start[..d] + [start[d] + 1]
      && forall t: seq<Byte> :: |t| == d + 1 && t[..d] == start[..d] && Less(start, t) ==> !Less(t, Separator(start, limit))
    ensures !RoomBetween(start, limit, d) ==> Separator(start, limit) == start
  {
    CommonIs(start, limit, d);
    if RoomBetween(start, limit, d) {
      var c: Byte :| Inside(start[d], c, limit[d]);
      var sep := Separator(start, limit);
      assert sep == start[..d] + [start[d] + 1];
      forall t: seq<Byte> | |t| == d + 1 && t[..d] == start[..d] && Less(start, t) ensures !Less(t, sep) {
        NothingBetween(start, t, sep, d);
      }
    } else if d < |start| && d < |limit| && start[d] < 0xff && start[d] + 1 < limit[d] {
      assert Inside(start[d], start[d] + 1, limit[d]);
    }
  }

  lemma NothingBetween(start: seq<Byte>, t: seq<Byte>, sep: seq<Byte>, d: nat)
    requires d < |start| && start[d] < 0xff && |t| == d + 1 && t[..d] == start[..d] && Less(start, t)
    requires sep == start[..d] + [start[d] + 1]
    ensures !Less(t, sep)
  {
    assert sep[..d] == start[..d];
    if t[d] == start[d] {
      assert t == start[..d + 1];
      PrefixNotAfter(start, d + 1);
    } else {
      FirstDifference(start, t, d);
      if t[d] == sep[d] {
        assert t == sep;
        Total(t, t);
      } else {
        FirstDifference(t, sep, d);
      }
    }
  }

  lemma {:induction false} PrefixNotAfter(s: seq<Byte>, n: nat)
    requires n <= |s|
    ensures !Less(s, s[..n])
    decreases n
  {
    if n > 0 {
      PrefixNotAfter(s[1..], n - 1);
      assert s[..n][1..] == s[1..][..n - 1];
    }
  }

  function Successor(key: seq<Byte>): seq<Byte> {
    if key == [] then []
    else if key[0] != 0xff then [key[0] + 1]
    else
      var rest := Successor(key[1..]);
      if rest == key[1..] then key else [key[0]] + rest
  }

  method FindShortSuccessor(key: seq<Byte>) returns (r: seq<Byte>)
    ensures r == Successor(key)
  {
    var i := 0;
    while i < |key|
      invariant 0 <= i <= |key|
      invariant forall j :: 0 <= j < i ==> key[j] == 0xff
    {
      if key[i] != 0xff {
        SuccessorAt(key, i);
        r := key[i := key[i] + 1];
        r := r[..i + 1];
        assert r == key[..i] + [key[i] + 1];
        return;
      }
      i := i + 1;
    }
    NoSuccessor(key);
    r := key;
  }

  lemma {:induction false} SuccessorAt(key: seq<Byte>, i: nat)
    requires i < |key| && key[i] != 0xff && forall j :: 0 <= j < i ==> key[j] == 0xff
    ensures Successor(key) == key[..i] + [key[i] + 1]
    decreases i
  {
    if i > 0 {
      SuccessorAt(key[1..], i - 1);
      assert key[..i] == [key[0]] + key[1..][..i - 1];
      assert Successor(key[1..])[i - 1] != key[1..][i - 1];
    }
  }

  lemma {:induction false} NoSuccessor(key: seq<Byte>)
    requires forall j :: 0 <= j < |key| ==> key[j] == 0xff
    ensures Successor(key) == key
    decreases |key|
  {
    if key != [] {
      NoSuccessor(key[1..]);
    }
  }

  lemma {:induction false} SuccessorAfter(key: seq<Byte>)
    ensures Successor(key) == key || Less(key, Successor(key))
    decreases |key|
  {
    if key != [] && key[0] == 0xff {
      SuccessorAfter(key[1..]);
    }
  }

  /** The short successor is cut behind the first byte that is not 0xff, and nothing of its length comes between
      the key and it; a key of such bytes only is its own. */
  lemma SuccessorShortens(key: seq<Byte>, i: nat)
    requires i <= |key| && (forall j :: 0 <= j < i ==> key[j] == 0xff) && (i < |key| ==> key[i] != 0xff)
    ensures i < |key| ==>
      && Successor(key) == key[..i] + [key[i] + 1]
      && forall t: seq<Byte> :: |t| == i + 1 && Less(key, t) ==> !Less(t, Successor(key))
    ensures i == |key| ==> Successor(key) == key
  {
    if i < |key| {
      SuccessorAt(key, i);
      forall t: seq<Byte> | |t| == i + 1 && Less(key, t) ensures !Less(t, Successor(key)) {
        TopPrefix(key, t, i);
        NothingBetween(key, t, Successor(key), i);
      }
    } else {
      NoSuccessor(key);
    }
  }

  /** Nothing above a string that starts with i bytes 0xff starts otherwise. */
  lemma {:induction false} TopPrefix(key: seq<Byte>, t: seq<Byte>, i: nat)
    requires i < |key| && |t| == i + 1 && Less(key, t) && forall j :: 0 <= j < i ==> key[j] == 0xff
    ensures t[..i] == key[..i]
    decreases i
  {
    if i > 0 {
      assert t[0] == 0xff;
      TopPrefix(key[1..], t[1..], i - 1);
      assert t[..i] == [t[0]] + t[1..][..i - 1] && key[..i] == [key[0]] + key[1..][..i - 1];
    }
  }

  // ----- Internal keys -----

  /** A user key and the packed sequence number and type, which sorts downwards. */
  datatype IKey = IKey(user: seq<Byte>, num: nat)

  /** The packed number of the largest sequence number: it sorts before every other of its user key. */
  const MAX_NUM: nat := 0xFF_FFFF_FFFF_FFFF * 0x100 + 1

  predicate ILess(a: IKey, b: IKey) { Less(a.user, b.user) || (a.user == b.user && a.num > b.num) }

  lemma ITotal(a: IKey, b: IKey)
    ensures ILess(a, b) || ILess(b, a) || a == b
    ensures !(ILess(a, b) && ILess(b, a))
  {
    Total(a.user, b.user);
  }

  lemma ITrans(a: IKey, b: IKey, c: IKey)
    requires ILess(a, b) && ILess(b, c)
    ensures ILess(a, c)
  {
    if Less(a.user, b.user) && Less(b.user, c.user) {
      Trans(a.user, b.user, c.user);
    }
  }

  function ISeparator(start: IKey, limit: IKey): IKey {
    var tmp := Separator(start.user, limit.user);
    if |tmp| < |start.user| && Less(start.user, tmp) then IKey(tmp, MAX_NUM) else start
  }

  /** The index key between two blocks: not before the last key of the first, before the first of the second;
      and if it is not that last key itself, its user key is before the second's. */
  lemma ISeparatorBetween(start: IKey, limit: IKey)
    requires ILess(start, limit)
    ensures var sep := ISeparator(start, limit);
      && (sep == start || ILess(start, sep)) && ILess(sep, limit)
      && (sep == start || Less(sep.user, limit.user))
  {
    SeparatorBetween(start.user, limit.user);
    Total(start.user, start.user);
  }

  /** The index key is the user keys' separator with the largest number, wherever that is shorter than the last
      user key; otherwise the last key itself. */
  lemma ISeparatorShortens(start: IKey, limit: IKey, d: nat)
    requires Part(start.user, limit.user, d)
    ensures RoomBetween(start.user, limit.user, d) && d + 1 < |start.user| ==>
      ISeparator(start, limit) == IKey(start.user[..d] + [start.user[d] + 1], 0xFF_FFFF_FFFF_FFFF * 0x100 + 1)
    ensures !(RoomBetween(start.user, limit.user, d) && d + 1 < |start.user|) ==> ISeparator(start, limit) == start
  {
    SeparatorShortens(start.user, limit.user, d);
    SeparatorBetween(start.user, limit.user);
    hide Separator, Less;
  }

  function ISuccessor(key: IKey): IKey {
    var tmp := Successor(key.user);
    if |tmp| < |key.user| && Less(key.user, tmp) then IKey(tmp, MAX_NUM) else key
  }

  lemma ISuccessorShortens(key: IKey, i: nat)
    requires i <= |key.user| && (forall j :: 0 <= j < i ==> key.user[j] == 0xff) && (i < |key.user| ==> key.user[i] != 0xff)
    ensures ISuccessor(key) ==
      if i + 1 < |key.user| then IKey(key.user[..i] + [key.user[i] + 1], 0xFF_FFFF_FFFF_FFFF * 0x100 + 1) else key
  {
    SuccessorShortens(key.user, i);
    SuccessorAfter(key.user);
    hide Successor, Less;
  }

  lemma ISuccessorAfter(key: IKey)
    ensures ISuccessor(key) == key || ILess(key, ISuccessor(key))
  {}

  // ----- Internal keys as bytes -----

  /** The user key followed by the packed number. */
  function EncodeKey(k: IKey): (r: seq<Byte>)
    ensures |r| == |k.user| + 8
  {
    k.user + EncodeFixed64(k.num % U64)
  }

  function DecodeKey(b: seq<Byte>): IKey
    requires |b| >= 8
  {
    IKey(b[..|b| - 8], DecodeFixed64(b[|b| - 8..]))
  }

  lemma KeyBack(k: IKey)
    requires k.num < U64
    ensures DecodeKey(EncodeKey(k)) == k
  {
    hide EncodeFixed64, DecodeFixed64;
    var b := EncodeKey(k);
    assert b[..|b| - 8] == k.user && b[|b| - 8..] == EncodeFixed64(k.num);
    Fixed64RoundTrip(k.num);
  }

  lemma BytesBack(b: seq<Byte>)
    requires |b| >= 8
    ensures EncodeKey(DecodeKey(b)) == b
  {
    hide EncodeFixed64, DecodeFixed64;
    Fixed64Back(b[|b| - 8..]);
    assert b == b[..|b| - 8] + b[|b| - 8..];
  }

  /** InternalKeyComparator on the bytes; what is too short to be a key comes first. */
  predicate KeyLess(a: seq<Byte>, b: seq<Byte>) {
    if |a| < 8 || |b| < 8 then |a| < 8 && (|b| >= 8 || Less(a, b)) else ILess(DecodeKey(a), DecodeKey(b))
  }

  lemma KeyLessIs(a: IKey, b: IKey)
    requires a.num < U64 && b.num < U64
    ensures KeyLess(EncodeKey(a), EncodeKey(b)) <==> ILess(a, b)
  {
    KeyBack(a);
    KeyBack(b);
  }

  /** The order on bytes is a strict total order. */
  lemma KeyLessOrder()
    ensures IsOrder(KeyLess)
  {
    hide DecodeKey, ILess, Less;
    forall a, b ensures !(KeyLess(a, b) && KeyLess(b, a)) && (KeyLess(a, b) || KeyLess(b, a) || a == b) {
      if |a| >= 8 && |b| >= 8 {
        ITotal(DecodeKey(a), DecodeKey(b));
        BytesBack(a);
        BytesBack(b);
      } else {
        Total(a, b);
      }
    }
    forall a, b, c | KeyLess(a, b) && KeyLess(b, c) ensures KeyLess(a, c) {
      if |a| >= 8 {
        ITrans(DecodeKey(a), DecodeKey(b), DecodeKey(c));
      } else if |c| < 8 {
        Trans(a, b, c);
      }
    }
  }
}
