/** The wormhole filter as a LevelDB filter policy: a table built once from all keys of a block,
    with a power-of-two number of buckets, and every insert's result ignored. */
module WormholePolicy {
  import opened Wrappers
  import opened Bits
  import opened Cells
  import opened Tags
  import opened WormholeTable
  import opened WormholeFilter
  import opened WormholeCrowding
  import opened WormholeLayout

  // ----- The number of buckets -----

  ghost predicate IsPow2(n: nat) { n == 1 || (n >= 2 && n % 2 == 0 && IsPow2(n / 2)) }

  /** The least power of two reached by doubling p until it is at least x. */
  function DoubleUpTo(p: nat, x: nat): (r: nat)
    requires p >= 1
    ensures r >= x && r >= p
    decreases if p >= x then 0 else x - p
  {
    if p >= x then p else DoubleUpTo(2 * p, x)
  }

  lemma {:induction false} DoubleUpToPow2(p: nat, x: nat)
    requires p >= 1 && IsPow2(p)
    ensures IsPow2(DoubleUpTo(p, x)) && (DoubleUpTo(p, x) > p ==> DoubleUpTo(p, x) < 2 * x)
    decreases if p >= x then 0 else x - p
  {
    if p < x {
      assert IsPow2(2 * p);
      DoubleUpToPow2(2 * p, x);
    }
  }

  /** The shifts and ors of upperpower2. */
  function Smear(x: nat): nat {
    var x1 := Or(x, Shr(x, 1));
    var x2 := Or(x1, Shr(x1, 2));
    var x3 := Or(x2, Shr(x2, 4));
    var x4 := Or(x3, Shr(x3, 8));
    var x5 := Or(x4, Shr(x4, 16));
    Or(x5, Shr(x5, 32))
  }

  function UpperPower2(x: nat): nat requires x >= 1 { Smear(x - 1) + 1 }

  /** Bit i of y is set exactly when one of bits i .. i + w - 1 of x is. */
  ghost predicate Spread(x: nat, y: nat, w: nat) { forall i: nat :: Bit(y, i) <==> SomeBit(x, i, w) }

  ghost predicate SomeBit(x: nat, i: nat, w: nat) { exists j: nat :: i <= j < i + w && Bit(x, j) }

  lemma SpreadNext(x: nat, y: nat, w: nat)
    requires Spread(x, y, w)
    ensures Spread(x, Or(y, Shr(y, w)), 2 * w)
  {
    hide Bit, Or, Shr;
    forall i: nat ensures Bit(Or(y, Shr(y, w)), i) <==> SomeBit(x, i, 2 * w) {
      OrBit(y, Shr(y, w), i);
      ShrBit(y, w, i);
      if SomeBit(x, i, 2 * w) {
        var j: nat :| i <= j < i + 2 * w && Bit(x, j);
        assert j < i + w ==> SomeBit(x, i, w);
        assert j >= i + w ==> SomeBit(x, i + w, w);
      }
    }
  }

  lemma SpreadStart(x: nat)
    ensures Spread(x, x, 1)
  {
    forall i: nat ensures Bit(x, i) <==> SomeBit(x, i, 1) {
      if SomeBit(x, i, 1) {
        var j: nat :| i <= j < i + 1 && Bit(x, j);
        assert j == i;
      }
    }
  }

  lemma SmearSpreads(x: nat)
    ensures Spread(x, Smear(x), 64)
  {
    hide Spread, Or, Shr;
    var x1 := Or(x, Shr(x, 1));
    var x2 := Or(x1, Shr(x1, 2));
    var x3 := Or(x2, Shr(x2, 4));
    var x4 := Or(x3, Shr(x3, 8));
    var x5 := Or(x4, Shr(x4, 16));
    SpreadStart(x);
    SpreadNext(x, x, 1);
    SpreadNext(x, x1, 2);
    SpreadNext(x, x2, 4);
    SpreadNext(x, x3, 8);
    SpreadNext(x, x4, 16);
    SpreadNext(x, x5, 32);
  }

  lemma SmearIsOnes(x: nat, n: nat)
    requires n < 64 && Pow2(n) <= x < 2 * Pow2(n)
    ensures Smear(x) == Pow2(n + 1) - 1
  {
    hide Smear, Bit;
    SmearSpreads(x);
    TopBit(x, n);
    assert Pow2(n + 1) == 2 * Pow2(n);
    forall i: nat ensures Bit(Smear(x), i) <==> i < n + 1 {
      assert Bit(Smear(x), i) <==> SomeBit(x, i, 64);
      if SomeBit(x, i, 64) {
        var j: nat :| i <= j < i + 64 && Bit(x, j);
        if j >= n + 1 {
          HighBits(x, n + 1, j);
          assert false;
        }
      }
    }
    OnesByBits(Smear(x), n + 1);
  }

  lemma {:induction false} LogExists(x: nat) returns (n: nat)
    requires x >= 1
    ensures Pow2(n) <= x < 2 * Pow2(n)
    decreases x
  {
    if x == 1 {
      n := 0;
    } else {
      n := LogExists(x / 2);
      assert Pow2(n + 1) == 2 * Pow2(n);
      n := n + 1;
    }
  }

  lemma {:induction false} DoubleReaches(k: nat, n: nat, x: nat)
    requires k <= n && x <= Pow2(n) && (n > 0 ==> Pow2(n - 1) < x)
    ensures DoubleUpTo(Pow2(k), x) == Pow2(n)
    decreases n - k
  {
    if k < n {
      Pow2Grows(k, n - 1);
      assert Pow2(k + 1) == 2 * Pow2(k);
      DoubleReaches(k + 1, n, x);
    }
  }

  lemma {:induction false} Pow2Grows(a: nat, b: nat)
    requires a <= b
    ensures Pow2(a) <= Pow2(b)
    decreases b
  {
    if a < b {
      Pow2Grows(a, b - 1);
    }
  }

  /** The bit trick computes the least power of two at or above its argument, up to 2^63. */
  lemma UpperPower2Is(x: nat, limit: nat)
    requires 1 <= x <= Pow2(limit) && limit <= 63
    ensures UpperPower2(x) == DoubleUpTo(1, x)
  {
    hide Smear, Bit, DoubleUpTo;
    if x == 1 {
      SmearZero();
      DoubleReaches(0, 0, 1);
    } else {
      var n := LogExists(x - 1);
      if n >= limit {
        Pow2Grows(limit, n);
        assert false;
      }
      SmearIsOnes(x - 1, n);
      assert Pow2(n + 1) == 2 * Pow2(n);
      DoubleReaches(0, n + 1, x);
    }
  }

  lemma SmearZero()
    ensures Smear(0) == 0
  {
    hide Smear, Bit;
    SmearSpreads(0);
    forall i: nat ensures !Bit(Smear(0), i) {
      if SomeBit(0, i, 64) {
        var j: nat :| i <= j < i + 64 && Bit(0, j);
        NoBits(j);
        assert false;
      }
    }
    ZeroByBits(Smear(0));
  }

  /** upperpower2(max(1, n / 4)), doubled when the load n / (4 * buckets) would exceed 0.8. */
  function BucketCount(n: nat): nat {
    var x := if n / 4 > 1 then n / 4 else 1;
    var nb := DoubleUpTo(1, x);
    if 5 * n > 16 * nb then 2 * nb else nb
  }

  /** The table always has more slots than keys, and a power-of-two number of buckets. */
  lemma BucketCountFits(n: nat)
    ensures IsPow2(BucketCount(n)) && n < 4 * BucketCount(n)
  {
    var x := if n / 4 > 1 then n / 4 else 1;
    DoubleUpToPow2(1, x);
    assert IsPow2(2 * DoubleUpTo(1, x));
  }

  /** The number of keys is an int. */
  const MAX_KEYS: nat := 0x7FFF_FFFF

  /** Byte offsets of buckets are computed in 32 bits and wrap, so that of the buckets, of eight bytes each, only so
      many are told apart: bucket b is bucket b modulo 2^29. */
  const MAX_BUCKETS: nat := 0x2000_0000

  function Places(n: nat): nat { if BucketCount(n) > MAX_BUCKETS then MAX_BUCKETS else BucketCount(n) }

  /** The buckets told apart still have more slots than there are keys.  They are all the buckets up to
      1,717,986,918 keys, and half of them beyond. */
  lemma PlacesFit(n: nat)
    requires n <= MAX_KEYS
    ensures 1 <= Places(n) <= MAX_BUCKETS && IsPow2(Places(n)) && n < 4 * Places(n)
    ensures Places(n) == if n <= 1_717_986_918 then BucketCount(n) else MAX_BUCKETS
    ensures Split(Places(n), BucketCount(n))
  {
    var x := if n / 4 > 1 then n / 4 else 1;
    var nb := DoubleUpTo(1, x);
    DoubleUpToPow2(1, x);
    BucketCountFits(n);
    MaxIsPow2();
    hide IsPow2, DoubleUpTo;
    if nb > MAX_BUCKETS {
      Pow2Gap(MAX_BUCKETS, nb);
    } else if nb < MAX_BUCKETS {
      Pow2Gap(nb, MAX_BUCKETS);
    }
  }

  /** All n buckets have places of their own, or each of m = 2^29 places is that of two buckets. */
  predicate Split(m: nat, n: nat) { 1 <= m <= MAX_BUCKETS && (n == m || (n == 2 * m && m == MAX_BUCKETS)) }

  lemma MaxIsPow2()
    ensures IsPow2(MAX_BUCKETS)
  {
    assert IsPow2(0x80);
    assert IsPow2(0x4000);
    assert IsPow2(0x20_0000);
    assert IsPow2(0x1000_0000);
  }

  lemma {:induction false} Pow2Gap(a: nat, b: nat)
    requires IsPow2(a) && IsPow2(b) && a < b
    ensures 2 * a <= b
    decreases a
  {
    if a > 1 {
      Pow2Gap(a / 2, b / 2);
    }
  }

  /** Up to 51 keys there are at most 16 buckets, and never for more keys. */
  lemma SmallBucketCount(n: nat)
    ensures BucketCount(n) <= MAX_PROBE <==> n <= 51
  {
    var x := if n / 4 > 1 then n / 4 else 1;
    if n <= 51 {
      assert DoubleUpTo(1, x) == if x <= 1 then 1 else DoubleUpTo(2, x);
      assert x > 1 ==> DoubleUpTo(2, x) == if x <= 2 then 2 else DoubleUpTo(4, x);
      assert x > 2 ==> DoubleUpTo(4, x) == if x <= 4 then 4 else DoubleUpTo(8, x);
      assert x > 4 ==> DoubleUpTo(8, x) == if x <= 8 then 8 else DoubleUpTo(16, x);
      assert x > 8 ==> DoubleUpTo(16, x) == 16;
    } else {
      DoubleUpToPow2(1, x);
      Pow2Above12(DoubleUpTo(1, x));
    }
  }

  lemma Pow2Above12(p: nat) requires IsPow2(p) && p > 12 ensures p >= 16 {}

  // ----- Masking is reduction modulo a power of two -----

  function BitAnd(x: nat, y: nat): nat
    decreases x
  {
    if x == 0 || y == 0 then 0 else (x % 2) * (y % 2) + 2 * BitAnd(x / 2, y / 2)
  }

  lemma {:induction false} MaskIsMod(x: nat, n: nat)
    requires IsPow2(n)
    ensures BitAnd(x, n - 1) == x % n
    decreases n
  {
    if n > 1 {
      var m := n / 2;
      assert (n - 1) / 2 == m - 1 && (n - 1) % 2 == 1;
      MaskIsMod(x / 2, m);
      ModHalves(x, m);
      BitAndStep(x, n - 1);
    }
  }

  lemma ModHalves(x: nat, m: nat)
    requires m >= 1
    ensures x % (2 * m) == x % 2 + 2 * ((x / 2) % m)
  {
    var q := (x / 2) / m;
    assert x / 2 == q * m + (x / 2) % m;
    assert q * (2 * m) == 2 * (q * m);
    ModUnique(x, q, x % 2 + 2 * ((x / 2) % m), 2 * m);
  }

  lemma BitAndStep(x: nat, y: nat)
    requires y % 2 == 1
    ensures BitAnd(x, y) == x % 2 + 2 * BitAnd(x / 2, y / 2)
  {}

  // ----- The filter -----

  lemma {:induction false} BitAndSmall(x: nat, y: nat)
    ensures BitAnd(x, y) <= y
    decreases x
  {
    if x > 0 && y > 0 {
      BitAndSmall(x / 2, y / 2);
    }
  }

  /** IndexHash masks the low 32 bits of the hash, TagHash takes the high 32. */
  function HashHome(hash: bv64, n: nat): (home: nat)
    requires n >= 1
    ensures home < n
  {
    BitAndSmall((hash & 0xFFFF_FFFF) as nat, n - 1);
    BitAnd((hash & 0xFFFF_FFFF) as nat, n - 1)
  }

  function HashItem(hash: bv64, n: nat): (x: Item)
    requires n >= 1
    ensures x.home < n
  {
    Item(HashHome(hash, n), KeyTag(hash) as nat)
  }

  lemma HashItemParts(hash: bv64, n: nat)
    requires n >= 1
    ensures HashItem(hash, n).home == HashHome(hash, n) && TagIs(KeyTag(hash), HashItem(hash, n).fpt)
  {}

  function HashItems<K>(keys: seq<K>, hash: K -> bv64, n: nat): (xs: seq<Item>)
    requires n >= 1
    ensures |xs| == |keys| && ItemsOk(xs, n)
    ensures forall i :: 0 <= i < |keys| ==> xs[i] == HashItem(hash(keys[i]), n)
  {
    if keys == [] then [] else HashItems(keys[..|keys| - 1], hash, n) + [HashItem(hash(keys[|keys| - 1]), n)]
  }

  /** Failures included, the table never fills up: every insert of CreateFilter finds an empty slot. */
  lemma EveryInsertFindsSlot(items: seq<Item>, i: nat)
    requires i < |items| <= MAX_KEYS && ItemsOk(items, Places(|items|))
    ensures var n := Places(|items|);
      n >= 1 && FirstEmpty(Fill(n, items[..i]), n, 4 * items[i].home, 4 * (items[i].home + n)) < 4 * (items[i].home + n)
  {
    hide Items, Insert, FirstEmpty, Fill, Places, BucketCount, IsPow2;
    var n := Places(|items|);
    PlacesFit(|items|);
    FillSize(n, items[..i]);
    FirstEmptyFound(Fill(n, items[..i]), n, items[i].home);
  }

  /** What InsertItem does with n bucket numbers at m places: it scans all n from the home on. */
  function NumberedInsert(s: seq<Cell>, m: nat, n: nat, x: Item): Outcome
    requires m >= 1 && |s| == 4 * m
  {
    var p := FirstEmpty(s, m, 4 * x.home, 4 * (x.home + n));
    if p == 4 * (x.home + n) then Outcome([], false) else Dig(s, m, x, p)
  }

  /** Where a place is free, that is the insert into a table of m buckets, from the home's own place. */
  lemma InsertAtPlaces(s: seq<Cell>, m: nat, n: nat, hashcode: bv64)
    requires Split(m, n) && IsPow2(m) && |s| == 4 * m
    requires var place := HashHome(hashcode, m); FirstEmpty(s, m, 4 * place, 4 * (place + m)) < 4 * (place + m)
    ensures NumberedInsert(s, m, n, HashItem(hashcode, n)) == Insert(s, m, HashItem(hashcode, m))
  {
    hide FirstEmpty, Dig, HashHome, IsPow2, KeyTag, NumberedInsert, Insert;
    HomePlace(hashcode, m, n);
    var home, place := HashHome(hashcode, n), HashHome(hashcode, m);
    InsertAt(s, m, n, Item(place, KeyTag(hashcode) as nat), home - place);
  }

  lemma InsertAt(s: seq<Cell>, m: nat, n: nat, x: Item, shift: nat)
    requires m >= 1 && n >= m && |s| == 4 * m && (shift == 0 || shift == m)
    requires FirstEmpty(s, m, 4 * x.home, 4 * (x.home + m)) < 4 * (x.home + m)
    ensures NumberedInsert(s, m, n, Item(x.home + shift, x.fpt)) == Insert(s, m, x)
  {
    hide FirstEmpty, Dig;
    var p, home := FirstEmpty(s, m, 4 * x.home, 4 * (x.home + m)), x.home + shift;
    LapShift(s, m, 4 * x.home, 4 * (x.home + m), shift);
    LapLonger(s, m, 4 * home, 4 * (home + m), 4 * (home + n));
    DigShift(s, m, x, p, shift);
  }

  lemma HomePlace(hashcode: bv64, m: nat, n: nat)
    requires Split(m, n) && IsPow2(m)
    ensures HashHome(hashcode, n) == HashHome(hashcode, m) || (n == 2 * m && HashHome(hashcode, n) == HashHome(hashcode, m) + m)
  {
    assert IsPow2(2 * m);
    hide IsPow2, BitAnd;
    var h := (hashcode & 0xFFFF_FFFF) as nat;
    MaskIsMod(h, n);
    MaskIsMod(h, m);
    if n == 2 * m {
      HalfMod(h, m);
      OneOrOther(h % n, m);
    }
  }

  lemma OneOrOther(x: nat, m: nat)
    requires m >= 1 && x < 2 * m
    ensures x == x % m || x == x % m + m
  {
    if x >= m {
      ModUnique(x, 1, x - m, m);
    } else {
      SmallMod(x, m);
    }
  }

  /** Relocations depend on positions only through their slots and distances. */
  lemma {:induction false} DigShift(s: seq<Cell>, m: nat, x: Item, p: nat, shift: nat)
    requires m >= 1 && |s| == 4 * m && x.home <= p / 4 && (shift == 0 || shift == m)
    ensures Dig(s, m, Item(x.home + shift, x.fpt), p + 4 * shift) == Dig(s, m, x, p)
    decreases p
  {
    hide Slot, FirstCandidate, Movable;
    SlotShift(m, p, shift);
    var b := p / 4;
    assert (p + 4 * shift) / 4 == b + shift;
    if b - x.home >= MAX_PROBE {
      var from := 4 * (b - (MAX_PROBE - 1));
      var q := FirstCandidate(s, m, b, from);
      CandidateShift(s, m, b, from, shift);
      if q < 4 * b {
        MoveShift(s, m, q, p, shift);
        hide MoveUp;
        DigShift(MoveUp(s, m, q, p), m, x, q, shift);
      }
    }
  }

  lemma MoveShift(s: seq<Cell>, m: nat, q: nat, p: nat, shift: nat)
    requires m >= 1 && |s| == 4 * m && q / 4 <= p / 4 && Movable(s, m, p / 4, q) && (shift == 0 || shift == m)
    ensures Movable(s, m, (p + 4 * shift) / 4, q + 4 * shift) && MoveUp(s, m, q + 4 * shift, p + 4 * shift) == MoveUp(s, m, q, p)
  {
    hide Slot;
    SlotShift(m, q, shift);
    SlotShift(m, p, shift);
    assert (p + 4 * shift) / 4 == p / 4 + shift && (q + 4 * shift) / 4 == q / 4 + shift;
  }

  lemma {:induction false} CandidateShift(s: seq<Cell>, m: nat, b: nat, q: nat, shift: nat)
    requires m >= 1 && |s| == 4 * m && q <= 4 * b && (shift == 0 || shift == m)
    ensures FirstCandidate(s, m, b + shift, q + 4 * shift) == FirstCandidate(s, m, b, q) + 4 * shift
    decreases 4 * b - q
  {
    hide Slot;
    SlotShift(m, q, shift);
    if q < 4 * b && !Movable(s, m, b, q) {
      CandidateShift(s, m, b, q + 1, shift);
    }
  }

  lemma {:induction false} LapShift(s: seq<Cell>, m: nat, p: nat, end: nat, shift: nat)
    requires m >= 1 && |s| == 4 * m && p <= end && (shift == 0 || shift == m)
    ensures FirstEmpty(s, m, p + 4 * shift, end + 4 * shift) == FirstEmpty(s, m, p, end) + 4 * shift
    decreases end - p
  {
    hide Slot;
    if p < end {
      SlotShift(m, p, shift);
      if !s[Slot(m, p)].Free? {
        LapShift(s, m, p + 1, end, shift);
      }
    }
  }

  lemma SlotShift(m: nat, p: nat, shift: nat)
    requires m >= 1 && (shift == 0 || shift == m)
    ensures Slot(m, p + 4 * shift) == Slot(m, p)
  {
    assert (p + 4 * shift) / 4 == p / 4 + shift;
  }

  lemma {:induction false} LapLonger(s: seq<Cell>, m: nat, p: nat, end: nat, later: nat)
    requires m >= 1 && |s| == 4 * m && p <= end <= later && FirstEmpty(s, m, p, end) < end
    ensures FirstEmpty(s, m, p, later) == FirstEmpty(s, m, p, end)
    decreases end - p
  {
    hide Slot;
    if p < end && !s[Slot(m, p)].Free? {
      LapLonger(s, m, p + 1, end, later);
    }
  }

  // ----- What a lookup in the filter's bytes finds -----

  function Blank(n: nat): (s: seq<Cell>)
    ensures |s| == n && forall i :: 0 <= i < n ==> s[i] == Free
  {
    seq(n, _ => Free)
  }

  /** The bytes of a table of n buckets whose cells are at their m places. */
  function TableBytes(s: seq<Cell>, m: nat, n: nat): seq<Byte>
    requires Split(m, n) && |s| == 4 * m
  {
    BlockBytes(CellTags(s + Blank(4 * (n - m))), n)
  }

  /** The bytes CreateFilter appends. */
  function FilterOf<K>(keys: seq<K>, hash: K -> bv64): seq<Byte>
    requires |keys| <= MAX_KEYS
  {
    var m := Places(|keys|);
    PlacesFit(|keys|);
    TableBytes(Fill(m, HashItems(keys, hash, m)), m, BucketCount(|keys|))
  }

  /** A probe at this distance finds the tag in the lane. */
  predicate Hit(hashcode: bv64, f: seq<Byte>, prob: nat, j: nat)
    requires Readable(f) && prob < MAX_PROBE && j < SLOTS_PER_BUCKET
  {
    var n := Count(f);
    BitAndSmall(HashHome(hashcode, n) + prob, n - 1);
    TagAt(f, 4 * (BitAnd(HashHome(hashcode, n) + prob, n - 1) % MAX_BUCKETS) + j) == MakeTag(KeyTag(hashcode), prob)
  }

  predicate Match(hashcode: bv64, f: seq<Byte>) {
    Readable(f) && exists prob, j :: 0 <= prob < MAX_PROBE && 0 <= j < SLOTS_PER_BUCKET && Hit(hashcode, f, prob, j)
  }

  /** Every cell is what some tag says. */
  ghost predicate Coded(s: seq<Cell>) { forall i :: 0 <= i < |s| ==> Decode(Encode(s[i])) == s[i] }

  lemma FillCoded<K>(keys: seq<K>, hash: K -> bv64, n: nat)
    requires n >= 1
    ensures Coded(Fill(n, HashItems(keys, hash, n)))
  {
    hide Fill, Items, Encode, Decode, KeyTag, IsFpt, HashHome, Insert;
    var items := HashItems(keys, hash, n);
    var s := Fill(n, items);
    forall i | 0 <= i < |s| ensures Decode(Encode(s[i])) == s[i] {
      if s[i].Free? {
        FreeCoded();
      } else {
        var x := ItemOf(n, i, s[i]);
        ItemsMember(s, n, x);
        assert Holds(s, n, i, x);
        FillMember(n, items, x);
        var j :| 0 <= j < |items| && items[j] == x && Inserted(n, items, j);
        HashItemParts(hash(keys[j]), n);
        assert Dis(s[i]) < MAX_PROBE;
        TagCoded(KeyTag(hash(keys[j])), s[i].fpt, s[i].dis);
      }
    }
  }

  lemma FreeCoded() ensures Decode(Encode(Free)) == Free {}

  lemma TagCoded(tag: Tag, fpt: nat, d: nat)
    requires TagIs(tag, fpt) && d < MAX_PROBE
    ensures Decode(Encode(Used(fpt, d))) == Used(fpt, d)
  {
    hide Encode, Decode, TagIs, MakeTag;
    DecodeItemTag(tag, fpt, d);
    EncodeDecode(MakeTag(tag, d));
  }

  /** A probe reads the place its item's home and distance lead to. */
  lemma ProbedPlace(hashcode: bv64, m: nat, n: nat, prob: nat)
    requires Split(m, n) && IsPow2(m)
    ensures BitAnd(HashHome(hashcode, n) + prob, n - 1) % MAX_BUCKETS == (HashHome(hashcode, m) + prob) % m
  {
    assert IsPow2(2 * m);
    hide IsPow2, BitAnd;
    var h := (hashcode & 0xFFFF_FFFF) as nat;
    MaskIsMod(h, n);
    MaskIsMod(h, m);
    MaskIsMod(BitAnd(h, n - 1) + prob, n);
    PlaceMod(h, prob, m, n);
  }

  lemma PlaceMod(h: nat, prob: nat, m: nat, n: nat)
    requires Split(m, n)
    ensures ((h % n + prob) % n) % MAX_BUCKETS == (h % m + prob) % m
  {
    if n == m {
      SmallMod((h % n + prob) % n, MAX_BUCKETS);
    } else {
      HalfMod(h % n + prob, m);
      HalfMod(h, m);
      AddMod(h % n, prob, m);
    }
  }

  lemma SmallMod(x: nat, m: nat) requires x < m ensures x % m == x {}

  lemma HalfMod(x: nat, m: nat)
    requires m >= 1
    ensures (x % (2 * m)) % m == x % m
  {
    var q, r := x / (2 * m), x % (2 * m);
    assert x == q * (2 * m) + r == (2 * q) * m + r;
    ModUnique(x, 2 * q + r / m, r % m, m);
  }

  lemma AddMod(x: nat, y: nat, m: nat)
    requires m >= 1
    ensures (x + y) % m == (x % m + y) % m
  {
    var q, t := x / m, x % m + y;
    assert x + y == (q + t / m) * m + t % m;
    ModUnique(x + y, q + t / m, t % m, m);
  }

  /** Slot j of the bucket at the distance holds the item. */
  ghost predicate HeldAt(s: seq<Cell>, m: nat, x: Item, prob: nat, j: nat)
    requires m >= 1 && |s| == 4 * m && prob < MAX_PROBE && j < SLOTS_PER_BUCKET
  {
    Matches(s, m, x, Pos(x.home + prob, j))
  }

  lemma HitIff(hashcode: bv64, s: seq<Cell>, m: nat, n: nat, prob: nat, j: nat)
    requires Split(m, n) && IsPow2(m) && Wf(s, m) && Coded(s) && prob < MAX_PROBE && j < SLOTS_PER_BUCKET
    ensures var f, x := TableBytes(s, m, n), HashItem(hashcode, m);
      Readable(f) && Count(f) == n && (Hit(hashcode, f, prob, j) <==> HeldAt(s, m, x, prob, j))
  {
    hide BlockBytes, Readable, Count, TagAt, Encode, Decode, MakeTag, TagIs, KeyTag, HashHome, BitAnd, Matches, Wrap, IsPow2;
    var f, x, t := TableBytes(s, m, n), HashItem(hashcode, m), s + Blank(4 * (n - m));
    var b := (x.home + prob) % m;
    HashItemParts(hashcode, m);
    ProbedPlace(hashcode, m, n, prob);
    WrapIsMod(x.home + prob, m);
    assert Slot(m, Pos(x.home + prob, j)) == 4 * b + j;
    ReadBack(CellTags(t), n, 4 * b + j);
    assert t[4 * b + j] == s[4 * b + j];
    MatchesTag(s, m, x, KeyTag(hashcode), prob, Pos(x.home + prob, j), TagAt(f, 4 * b + j));
  }

  /** Asking the bytes is looking the item up in the table. */
  lemma MatchIff(hashcode: bv64, s: seq<Cell>, m: nat, n: nat)
    requires Split(m, n) && IsPow2(m) && Wf(s, m) && Coded(s)
    ensures Match(hashcode, TableBytes(s, m, n)) <==> Lookup(s, m, HashItem(hashcode, m))
  {
    hide TableBytes, Readable, Hit, HashItem, Matches, Coded, IsPow2;
    var f, x := TableBytes(s, m, n), HashItem(hashcode, m);
    HitIff(hashcode, s, m, n, 0, 0);
    if Match(hashcode, f) {
      var prob, j :| 0 <= prob < MAX_PROBE && 0 <= j < SLOTS_PER_BUCKET && Hit(hashcode, f, prob, j);
      HitIff(hashcode, s, m, n, prob, j);
      assert Probed(x, Pos(x.home + prob, j));
    }
    if Lookup(s, m, x) {
      var p: nat :| Probed(x, p) && Matches(s, m, x, p);
      HitIff(hashcode, s, m, n, p / 4 - x.home, p % 4);
      assert Pos(x.home + (p / 4 - x.home), p % 4) == p;
    }
  }

  // ----- The policy's promise: every key of the block matches -----

  ghost predicate EveryKeyMatches<K(!new)>(keys: seq<K>, hash: K -> bv64)
    requires |keys| <= MAX_KEYS
  {
    forall i :: 0 <= i < |keys| ==> Match(hash(keys[i]), FilterOf(keys, hash))
  }

  lemma PromiseOfKeys<K(!new)>(keys: seq<K>, hash: K -> bv64)
    requires |keys| <= MAX_KEYS
    ensures var n := Places(|keys|);
      n >= 1 && |keys| <= 4 * n && (EveryKeyMatches(keys, hash) <==> Promise(n, HashItems(keys, hash, n)))
  {
    hide Fill, Match, Lookup, TableBytes, HashItem, Places, BucketCount, Coded, IsPow2;
    var n := Places(|keys|);
    PlacesFit(|keys|);
    var items := HashItems(keys, hash, n);
    FillCoded(keys, hash, n);
    forall i | 0 <= i < |keys|
      ensures Match(hash(keys[i]), FilterOf(keys, hash)) <==> Lookup(Fill(n, items), n, items[i])
    {
      MatchIff(hash(keys[i]), Fill(n, items), n, BucketCount(|keys|));
    }
  }

  /** The promise is kept for every list of keys whose home buckets are not crowded; and for keys with
      different items it is kept for no others. */
  lemma PolicyPromiseIff<K(!new)>(keys: seq<K>, hash: K -> bv64)
    requires |keys| <= MAX_KEYS
    ensures Places(|keys|) >= 1
    ensures var n := Places(|keys|);
      !Crowded(HashItems(keys, hash, n), n) ==> EveryKeyMatches(keys, hash)
    ensures var n := Places(|keys|);
      Different(HashItems(keys, hash, n)) ==> (EveryKeyMatches(keys, hash) <==> !Crowded(HashItems(keys, hash, n), n))
  {
    hide EveryKeyMatches, Promise, Crowded, Places;
    PromiseOfKeys(keys, hash);
    PromiseIff(Places(|keys|), HashItems(keys, hash, Places(|keys|)));
  }

  /** With at most 51 keys there are at most 16 buckets, none can be crowded, and every key matches. */
  lemma SmallBlocksAlwaysMatch<K(!new)>(keys: seq<K>, hash: K -> bv64)
    requires |keys| <= 51
    ensures EveryKeyMatches(keys, hash)
  {
    hide EveryKeyMatches, BucketCount;
    SmallBucketCount(|keys|);
    PlacesFit(|keys|);
    PolicyPromiseIff(keys, hash);
  }

  // ----- The promise is broken by 65 keys of one home bucket -----

  function Nth(i: nat): bv64 { if i == 0 then 1 else Nth(i - 1) + 1 }

  function High(x: bv64): bv64 { x << 32 }

  lemma Succ(x: bv64) requires x < 1000 ensures (x + 1) as nat == x as nat + 1 {}
  lemma Small(x: bv64) requires x as nat < 1000 ensures x < 1000 {}

  lemma {:induction false} NthIs(i: nat)
    requires i < 900
    ensures Nth(i) as nat == i + 1 && 0 < Nth(i) < 1000
  {
    if i > 0 {
      NthIs(i - 1);
      Succ(Nth(i - 1));
      Small(Nth(i));
    }
  }

  /** 65 keys that hash to bucket 0, with different tags: 1 << 32, 2 << 32, ... */
  function CrowdKeys(): (keys: seq<bv64>)
    ensures |keys| == 65 && forall i :: 0 <= i < 65 ==> keys[i] == High(Nth(i))
  {
    seq(65, i requires 0 <= i < 65 => High(Nth(i)))
  }

  lemma ShiftedHome(x: bv64, n: nat)
    requires n >= 1 && x < 1000
    ensures HashHome(High(x), n) == 0
  {
    LowHalf(x);
  }

  lemma LowHalf(x: bv64) requires x < 1000 ensures High(x) & 0xFFFF_FFFF == 0 {}

  lemma ShiftedTags(x: bv64, y: bv64)
    requires 0 < x < 1000 && 0 < y < 1000 && x != y
    ensures KeyTag(High(x)) != KeyTag(High(y))
  {}

  lemma {:induction false} OneHome(items: seq<Item>, n: nat)
    requires n >= 1 && forall i :: 0 <= i < |items| ==> items[i].home == 0
    ensures HomesIn(items, n, 0, 1) == |items|
    decreases |items|
  {
    if items != [] {
      OneHome(items[..|items| - 1], n);
    }
  }

  function Same(k: bv64): bv64 { k }

  /** The filter made from these keys denies one of them. */
  lemma PromiseBroken()
    ensures exists i :: 0 <= i < 65 && !Match(CrowdKeys()[i], FilterOf(CrowdKeys(), Same))
  {
    hide EveryKeyMatches, BucketCount, HomesIn, KeyTag, HashHome, Nth, High, Match, FilterOf;
    var keys, hash, n := CrowdKeys(), Same, Places(65);
    SmallBucketCount(65);
    PlacesFit(65);
    PolicyPromiseIff(keys, hash);
    var items := HashItems(keys, hash, n);
    forall i | 0 <= i < 65 ensures items[i] == HashItem(keys[i], n) && items[i].home == 0 {
      NthIs(i);
      ShiftedHome(Nth(i), n);
    }
    forall i, j | 0 <= i < j < 65 ensures items[i] != items[j] {
      NthIs(i);
      NthIs(j);
      ShiftedTags(Nth(i), Nth(j));
      DifferentTags(KeyTag(keys[i]), KeyTag(keys[j]));
    }
    OneHome(items, n);
    assert HomesIn(items, n, 0, 1) > 4 * (1 + 15);
    assert Crowded(items, n);
    BrokenWitness(keys, hash);
  }

  lemma DifferentTags(t: Tag, u: Tag)
    requires t != u
    ensures t as nat != u as nat
  {
    if t as nat == u as nat {
      TagNatInjective(t, u);
    }
  }

  lemma BrokenWitness(keys: seq<bv64>, hash: bv64 -> bv64)
    requires |keys| <= MAX_KEYS && !EveryKeyMatches(keys, hash) && forall k :: hash(k) == k
    ensures exists i :: 0 <= i < |keys| && !Match(keys[i], FilterOf(keys, hash))
  {
    hide Match, FilterOf;
    var i :| 0 <= i < |keys| && !Match(hash(keys[i]), FilterOf(keys, hash));
  }

  // ----- The code -----

  /** CreateFilter's number of buckets. */
  method Buckets(n: nat) returns (nb: nat)
    requires n < 0x8000_0000
    ensures nb == BucketCount(n)
  {
    hide DoubleUpTo, Smear;
    var x := if n / 4 > 1 then n / 4 else 1;
    ghost var limit := SmallLog(x);
    UpperPower2Is(x, limit);
    nb := UpperPower2(x);
    if 5 * n > 16 * nb {
      nb := 2 * nb;
    }
  }

  lemma SmallLog(x: nat) returns (limit: nat)
    requires x < 0x8000_0000
    ensures x <= Pow2(limit) && limit <= 63
  {
    var ten: nat :| ten == 10;
    assert Pow2(10) == 0x400;
    Pow2Add(ten, ten);
    Pow2Add(2 * ten, 2 * ten);
    limit := 4 * ten;
  }

  lemma {:induction false} Pow2Add(a: nat, b: nat)
    ensures Pow2(a + b) == Pow2(a) * Pow2(b)
    decreases b
  {
    if b > 0 {
      Pow2Add(a, b - 1);
    }
  }

  /** The inserts of CreateFilter: a table of so many places, filled with all keys in order. */
  method FillTable<K(!new)>(keys: seq<K>, hash: K -> bv64, places: nat) returns (words: seq<Word>)
    requires 1 <= places < 0x8000_0000
    ensures CellsOf(words) == Fill(places, HashItems(keys, hash, places))
  {
    hide CellsOf, Items, Insert, Fill, Final, HashHome, HashItem, KeyTag, TagIs, IsFpt;
    ghost var items := HashItems(keys, hash, places);
    var table := new Filter(places);
    EmptyIsFree(table.Slots(), places);
    FillNothing(places);
    var i := 0;
    assert items[..0] == [];
    while i < |keys|
      invariant 0 <= i <= |keys| && table.Valid() && fresh(table.buckets)
      invariant table.Slots() == Fill(places, items[..i])
    {
      FillStep(places, items, i);
      var hashcode := hash(keys[i]);
      HashItemParts(hashcode, places);
      var _, _ := table.InsertItem(HashHome(hashcode, places), KeyTag(hashcode), items[i]);
      i := i + 1;
    }
    assert items[..i] == items;
    words := table.buckets[..];
  }

  /** Up to 2^29 buckets the table is the code's; beyond, bucket b and bucket b + 2^29 are the same eight bytes, and
      the code works on 2^29 places (InsertAtPlaces) in front of as many bytes that stay zero. */
  method CreateFilter<K(!new)>(keys: seq<K>, hash: K -> bv64) returns (dst: seq<Byte>)
    requires |keys| <= MAX_KEYS
    ensures dst == FilterOf(keys, hash)
  {
    hide CellsOf, Fill, HashItems, IsPow2, BucketCount, BlockBytes, Lanes4, CellTags;
    var numBuckets := Buckets(|keys|);
    PlacesFit(|keys|);
    var places := if numBuckets > MAX_BUCKETS then MAX_BUCKETS else numBuckets;
    var words := FillTable(keys, hash, places);
    LanesAreCells(words);
    BlankTags(CellsOf(words), 4 * (numBuckets - places));
    dst := BlockBytes(Lanes4(words) + seq(4 * (numBuckets - places), _ => 0), numBuckets);
  }

  lemma BlankTags(s: seq<Cell>, n: nat)
    ensures CellTags(s + Blank(n)) == CellTags(s) + seq(n, _ => 0)
  {}

  lemma EmptyIsFree(s: seq<Cell>, n: nat)
    requires Wf(s, n) && Items(s, n) == multiset{}
    ensures s == seq(4 * n, _ => Free)
  {
    forall i | 0 <= i < |s| ensures s[i] == Free {
      if s[i].Used? {
        ItemsMember(s, n, ItemOf(n, i, s[i]));
        assert Holds(s, n, i, ItemOf(n, i, s[i]));
      }
    }
  }

  /** The bucket a probe reads, as KeyMayMatch computes its byte offset: masked by the stored count less one,
      times eight, both in unsigned arithmetic. */
  function ProbedBucket(hashcode: bv64, n: nat, prob: nat): nat {
    var mask := if n == 0 then Coding.U64 - 1 else n - 1;
    BitAnd(BitAnd((hashcode & 0xFFFF_FFFF) as nat, mask) + prob, mask) % MAX_BUCKETS
  }

  /** What the probe at this distance finds; None when it reads beyond the filter. */
  function Probe(hashcode: bv64, f: seq<Byte>, prob: nat): Option<bool>
    requires |f| >= 8 && prob < MAX_PROBE
  {
    var b := ProbedBucket(hashcode, Count(f), prob);
    if 8 * b + 8 > |f| then None else Some(HasValue16(WordAt(f, b), MakeTag(KeyTag(hashcode), prob)) != 0)
  }

  ghost predicate Misses(hashcode: bv64, f: seq<Byte>, n: nat)
    requires |f| >= 8 && n <= MAX_PROBE
  {
    forall q: nat :: q < n ==> Probe(hashcode, f, q) == Some(false)
  }

  /** Any bytes: the answer is that of the first probe that hits or leaves the filter, where the code reads
      memory that is not the filter's. */
  method KeyMayMatch(hashcode: bv64, filter: seq<Byte>) returns (found: Option<bool>)
    ensures |filter| < 2 ==> found == Some(false)
    ensures 2 <= |filter| < 8 ==> found == None
    ensures |filter| >= 8 ==> (found == Some(false) <==> Misses(hashcode, filter, MAX_PROBE))
    ensures |filter| >= 8 && found != Some(false) ==>
      exists q: nat :: q < MAX_PROBE && Misses(hashcode, filter, q) && Probe(hashcode, filter, q) == found
    ensures Readable(filter) ==> found == Some(Match(hashcode, filter))
  {
    hide Probe, Readable, Match;
    NotReadable(filter);
    if |filter| < 2 {
      return Some(false);
    }
    if |filter| < 8 {
      return None;
    }
    if Readable(filter) {
      ProbesMatch(hashcode, filter);
    }
    var prob := 0;
    while prob < MAX_PROBE
      invariant 0 <= prob <= MAX_PROBE && Misses(hashcode, filter, prob)
    {
      var answer := Probe(hashcode, filter, prob);
      if answer.None? || answer.value {
        return answer;
      }
      prob := prob + 1;
    }
    found := Some(false);
  }

  lemma NotReadable(f: seq<Byte>) ensures Readable(f) ==> |f| >= 8 {}

  /** In a filter that holds its buckets, no probe leaves it, and some probe hits exactly when the hash matches. */
  lemma ProbesMatch(hashcode: bv64, f: seq<Byte>)
    requires Readable(f)
    ensures forall q: nat :: q < MAX_PROBE ==> Probe(hashcode, f, q).Some?
    ensures Match(hashcode, f) <==> exists q: nat :: q < MAX_PROBE && Probe(hashcode, f, q) == Some(true)
  {
    hide Probe, Hit;
    forall q: nat | q < MAX_PROBE
      ensures Probe(hashcode, f, q) == Some(exists j :: 0 <= j < SLOTS_PER_BUCKET && Hit(hashcode, f, q, j))
    {
      ProbeIs(hashcode, f, q);
    }
    if Match(hashcode, f) {
      var prob, j :| 0 <= prob < MAX_PROBE && 0 <= j < SLOTS_PER_BUCKET && Hit(hashcode, f, prob, j);
      assert Probe(hashcode, f, prob) == Some(true);
    }
  }

  lemma ProbeIs(hashcode: bv64, f: seq<Byte>, q: nat)
    requires Readable(f) && q < MAX_PROBE
    ensures Probe(hashcode, f, q) == Some(exists j :: 0 <= j < SLOTS_PER_BUCKET && Hit(hashcode, f, q, j))
  {
    hide HasValue16, MakeTag, KeyTag, BitAnd, WordAt, Hit;
    BucketHit(hashcode, f, q);
  }

  /** The packed test of one bucket word finds exactly the hits in its lanes. */
  lemma BucketHit(hashcode: bv64, f: seq<Byte>, prob: nat)
    requires Readable(f) && prob < MAX_PROBE
    ensures var b := BitAnd(HashHome(hashcode, Count(f)) + prob, Count(f) - 1) % MAX_BUCKETS;
      && b < Count(f)
      && (HasValue16(WordAt(f, b), MakeTag(KeyTag(hashcode), prob)) != 0 <==>
          exists j :: 0 <= j < SLOTS_PER_BUCKET && Hit(hashcode, f, prob, j))
  {
    hide HasValue16, MakeTag, KeyTag, HashHome, BitAnd, WordAt, Count, TagAt, Lane;
    var b := BitAnd(HashHome(hashcode, Count(f)) + prob, Count(f) - 1) % MAX_BUCKETS;
    BitAndSmall(HashHome(hashcode, Count(f)) + prob, Count(f) - 1);
    HasValue16Iff(WordAt(f, b), MakeTag(KeyTag(hashcode), prob));
    forall j | 0 <= j < SLOTS_PER_BUCKET
      ensures Lane(WordAt(f, b), j) == MakeTag(KeyTag(hashcode), prob) <==> Hit(hashcode, f, prob, j)
    {
      WordAtLane(f, b, j);
    }
  }
}
