/** The Bloom filter policy. */
module Bloom {
  import opened Bits
  import opened Bytes

  type Key = seq<Byte>

  /** Any deterministic 32-bit hash. */
  type Hash = Key -> Word

  // ----- Bits of an array -----

  /** Bit p of the array. */
  predicate BitAt(a: seq<Byte>, p: nat)
    requires p < 8 * |a|
  {
    Bit(a[p / 8], p % 8)
  }

  function SetBit(a: seq<Byte>, p: nat): (r: seq<Byte>)
    requires p < 8 * |a|
    ensures |r| == |a|
  {
    ByteFits(a[p / 8], p % 8);
    a[p / 8 := WithBit(a[p / 8], p % 8)]
  }

  lemma ByteFits(b: Byte, i: nat)
    requires i < 8
    ensures WithBit(b, i) < 0x100
  {
    assert Pow2(8) == 0x100;
    WithBitFits(b, i, 8);
  }

  lemma SetBitBits(a: seq<Byte>, p: nat, q: nat)
    requires p < 8 * |a| && q < 8 * |a|
    ensures BitAt(SetBit(a, p), q) <==> p == q || BitAt(a, q)
  {
    hide Bit, WithBit;
    if p / 8 == q / 8 {
      WithBitBits(a[p / 8], p % 8, q % 8);
    }
  }

  // ----- Probes -----

  /** Rotate right by 17 bits. */
  function Delta(h: Word): Word { h / 0x2_0000 + h % 0x2_0000 * 0x8000 }

  /** Rotating right by 17 bits is dividing by 2^17 modulo 2^32 - 1. */
  lemma DeltaRotates(h: Word)
    ensures exists n: nat :: Delta(h) * 0x2_0000 == h + n * 0xFFFF_FFFF
  {
    var n: nat := h % 0x2_0000;
    assert Delta(h) * 0x2_0000 == h + n * 0xFFFF_FFFF;
  }

  /** The j-th value of double hashing. */
  function Probe(h: Word, j: nat): Word {
    if j == 0 then h else (Probe(h, j - 1) + Delta(h)) % 0x1_0000_0000
  }

  function Position(h: Word, j: nat, bits: nat): (r: nat)
    requires bits > 0
    ensures r < bits
  {
    Probe(h, j) % bits
  }

  ghost predicate Covers(hash: Hash, keys: seq<Key>, n: nat, k: nat, bits: nat, p: nat)
    requires n <= |keys| && bits > 0
  {
    exists i: nat, j: nat :: i < n && j < k && HitsAt(hash, keys, i, j, bits, p)
  }

  ghost predicate HitsAt(hash: Hash, keys: seq<Key>, i: nat, j: nat, bits: nat, p: nat)
    requires i < |keys| && bits > 0
  {
    Position(hash(keys[i]), j, bits) == p
  }

  /** Exactly the bits probed by the first n keys, and the first j probes of key n, are set. */
  ghost predicate SetSoFar(hash: Hash, keys: seq<Key>, n: nat, j: nat, k: nat, a: seq<Byte>)
    requires n <= |keys| && |a| > 0
  {
    forall p: nat :: p < 8 * |a| ==>
      (BitAt(a, p) <==> Covers(hash, keys, n, k, 8 * |a|, p) || (n < |keys| && CoversKey(hash, keys, n, j, 8 * |a|, p)))
  }

  ghost predicate CoversKey(hash: Hash, keys: seq<Key>, i: nat, k: nat, bits: nat, p: nat)
    requires i < |keys| && bits > 0
  {
    exists j: nat :: j < k && HitsAt(hash, keys, i, j, bits, p)
  }

  function Probes(bitsPerKey: nat): (k: nat)
    ensures 1 <= k <= 30
  {
    var k := bitsPerKey * 69 / 100;
    if k < 1 then 1 else if k > 30 then 30 else k
  }

  function FilterBytes(n: nat, bitsPerKey: nat): (r: nat)
    ensures r >= 8
  {
    var bits := n * bitsPerKey;
    ((if bits < 64 then 64 else bits) + 7) / 8
  }

  /** What a filter for the keys is: exactly their probes, and the number of probes behind them. */
  ghost predicate IsFilter(hash: Hash, keys: seq<Key>, bitsPerKey: nat, f: seq<Byte>) {
    && |f| == FilterBytes(|keys|, bitsPerKey) + 1 && f[|f| - 1] == Probes(bitsPerKey)
    && SetExactly(hash, keys, Probes(bitsPerKey), f[..|f| - 1])
  }

  ghost predicate SetExactly(hash: Hash, keys: seq<Key>, k: nat, a: seq<Byte>) {
    |a| > 0 && forall p: nat :: p < 8 * |a| ==> (BitAt(a, p) <==> Covers(hash, keys, |keys|, k, 8 * |a|, p))
  }

  function Times(j: nat, d: nat): nat { j * d }

  lemma OneMoreTime(j: nat, d: nat)
    requires j > 0
    ensures Times(j, d) == Times(j - 1, d) + d
  {}

  lemma NoTimes(d: nat) ensures Times(0, d) == 0 {}

  lemma CutSum(a: nat, d: nat)
    ensures (a % 0x1_0000_0000 + d) % 0x1_0000_0000 == (a + d) % 0x1_0000_0000
  {
    assert a == a / 0x1_0000_0000 * 0x1_0000_0000 + a % 0x1_0000_0000;
  }

  /** The j-th probe adds the difference j times to the hash. */
  lemma {:induction false} ProbeIs(h: Word, j: nat)
    ensures Probe(h, j) == (h + Times(j, Delta(h))) % 0x1_0000_0000
  {
    hide Delta, Times;
    if j == 0 {
      NoTimes(Delta(h));
    } else {
      ProbeIs(h, j - 1);
      OneMoreTime(j, Delta(h));
      CutSum(h + Times(j - 1, Delta(h)), Delta(h));
    }
  }

  /** The filter's bits are the least whole bytes that give every key its bits, and at least 64; its probes are 0.69
      of the bits per key, rounded down, but at least one and at most 30. */
  lemma FilterNumbers(hash: Hash, keys: seq<Key>, bitsPerKey: nat, f: seq<Byte>)
    requires IsFilter(hash, keys, bitsPerKey, f)
    ensures var bits := if |keys| * bitsPerKey < 64 then 64 else |keys| * bitsPerKey; bits <= 8 * (|f| - 1) < bits + 8
    ensures var k := f[|f| - 1];
      && 1 <= k <= 30
      && (k == 1 || k as real <= 0.69 * bitsPerKey as real) && (k == 30 || 0.69 * bitsPerKey as real < k as real + 1.0)
  {
    hide SetExactly;
    var k: int := bitsPerKey * 69 / 100;
    assert k as real <= 0.69 * bitsPerKey as real < k as real + 1.0;
  }

  /** The array with the first j probes of a hash set. */
  function SetProbes(a: seq<Byte>, h: Word, j: nat): (r: seq<Byte>)
    requires |a| > 0
    ensures |r| == |a|
  {
    if j == 0 then a else SetBit(SetProbes(a, h, j - 1), Position(h, j - 1, 8 * |a|))
  }

  /** The array with all k probes of the first n keys set. */
  function SetKeys(hash: Hash, keys: seq<Key>, n: nat, k: nat, a: seq<Byte>): (r: seq<Byte>)
    requires |a| > 0 && n <= |keys|
    ensures |r| == |a|
  {
    if n == 0 then a else SetProbes(SetKeys(hash, keys, n - 1, k, a), hash(keys[n - 1]), k)
  }

  function Zeros(n: nat): (a: seq<Byte>) ensures |a| == n { seq(n, _ => 0) }

  /** The filter CreateFilter appends. */
  function Create(hash: Hash, keys: seq<Key>, bitsPerKey: nat): seq<Byte> {
    var k := Probes(bitsPerKey);
    SetKeys(hash, keys, |keys|, k, Zeros(FilterBytes(|keys|, bitsPerKey))) + [k]
  }

  method CreateFilter(hash: Hash, keys: seq<Key>, bitsPerKey: nat) returns (f: seq<Byte>)
    ensures f == Create(hash, keys, bitsPerKey) && IsFilter(hash, keys, bitsPerKey, f)
  {
    var k := Probes(bitsPerKey);
    var bytes := FilterBytes(|keys|, bitsPerKey);
    var array_ := Zeros(bytes);
    CreateIsFilter(hash, keys, bitsPerKey);
    hide SetBit, Delta, IsFilter;
    var i := 0;
    while i < |keys|
      invariant 0 <= i <= |keys| && array_ == SetKeys(hash, keys, i, k, Zeros(bytes))
    {
      var h := hash(keys[i]);
      var delta := Delta(h);
      var j := 0;
      var x: Word := h;
      ghost var before := array_;
      while j < k
        invariant 0 <= j <= k && x == Probe(h, j) && array_ == SetProbes(before, h, j)
      {
        array_ := SetBit(array_, x % (8 * bytes));
        x := (x as int + delta as int) % 0x1_0000_0000;
        j := j + 1;
      }
      i := i + 1;
    }
    f := array_ + [k];
  }

  lemma {:induction false} ProbesSet(hash: Hash, keys: seq<Key>, i: nat, j: nat, k: nat, a: seq<Byte>)
    requires i < |keys| && j <= k && |a| > 0 && SetSoFar(hash, keys, i, 0, k, a)
    ensures SetSoFar(hash, keys, i, j, k, SetProbes(a, hash(keys[i]), j))
    decreases j
  {
    hide SetSoFar, SetBit, Position;
    if j > 0 {
      ProbesSet(hash, keys, i, j - 1, k, a);
      SetNext(hash, keys, i, j - 1, k, SetProbes(a, hash(keys[i]), j - 1));
    }
  }

  lemma {:induction false} KeysSet(hash: Hash, keys: seq<Key>, n: nat, k: nat, bytes: nat)
    requires n <= |keys| && bytes > 0
    ensures SetSoFar(hash, keys, n, 0, k, SetKeys(hash, keys, n, k, Zeros(bytes)))
    decreases n
  {
    hide SetSoFar, SetProbes;
    if n == 0 {
      NothingSet(hash, keys, k, Zeros(bytes));
    } else {
      KeysSet(hash, keys, n - 1, k, bytes);
      var a := SetKeys(hash, keys, n - 1, k, Zeros(bytes));
      ProbesSet(hash, keys, n - 1, k, k, a);
      KeyDone(hash, keys, n - 1, k, SetProbes(a, hash(keys[n - 1]), k));
    }
  }

  lemma CreateIsFilter(hash: Hash, keys: seq<Key>, bitsPerKey: nat)
    ensures IsFilter(hash, keys, bitsPerKey, Create(hash, keys, bitsPerKey))
  {
    hide SetSoFar, SetKeys, SetExactly;
    var k, bytes, f := Probes(bitsPerKey), FilterBytes(|keys|, bitsPerKey), Create(hash, keys, bitsPerKey);
    KeysSet(hash, keys, |keys|, k, bytes);
    AllDone(hash, keys, k, SetKeys(hash, keys, |keys|, k, Zeros(bytes)));
    assert f[..|f| - 1] == SetKeys(hash, keys, |keys|, k, Zeros(bytes));
  }

  lemma NothingSet(hash: Hash, keys: seq<Key>, k: nat, a: seq<Byte>)
    requires |a| > 0 && forall i :: 0 <= i < |a| ==> a[i] == 0
    ensures SetSoFar(hash, keys, 0, 0, k, a)
  {
    forall p: nat | p < 8 * |a| ensures !BitAt(a, p) {
      NoBits(p % 8);
    }
  }

  lemma SetNext(hash: Hash, keys: seq<Key>, i: nat, j: nat, k: nat, a: seq<Byte>)
    requires i < |keys| && j < k && |a| > 0 && SetSoFar(hash, keys, i, j, k, a)
    ensures SetSoFar(hash, keys, i, j + 1, k, SetBit(a, Position(hash(keys[i]), j, 8 * |a|)))
  {
    var bits := 8 * |a|;
    var at := Position(hash(keys[i]), j, bits);
    var a' := SetBit(a, at);
    forall p: nat | p < bits
      ensures BitAt(a', p) <==> Covers(hash, keys, i, k, bits, p) || CoversKey(hash, keys, i, j + 1, bits, p)
    {
      SetBitBits(a, at, p);
      NextProbe(hash, keys, i, j, bits, p);
      hide BitAt, SetBit, Covers, CoversKey;
    }
  }

  lemma NextProbe(hash: Hash, keys: seq<Key>, i: nat, j: nat, bits: nat, p: nat)
    requires i < |keys| && bits > 0
    ensures CoversKey(hash, keys, i, j + 1, bits, p) <==>
      CoversKey(hash, keys, i, j, bits, p) || Position(hash(keys[i]), j, bits) == p
  {
    hide Position;
    if Position(hash(keys[i]), j, bits) == p {
      assert HitsAt(hash, keys, i, j, bits, p);
    }
  }

  lemma KeyDone(hash: Hash, keys: seq<Key>, i: nat, k: nat, a: seq<Byte>)
    requires i < |keys| && |a| > 0 && SetSoFar(hash, keys, i, k, k, a)
    ensures SetSoFar(hash, keys, i + 1, 0, k, a)
  {
    hide BitAt;
    var bits := 8 * |a|;
    forall p: nat | p < bits
      ensures Covers(hash, keys, i + 1, k, bits, p) <==> Covers(hash, keys, i, k, bits, p) || CoversKey(hash, keys, i, k, bits, p)
    {
      hide HitsAt;
      if CoversKey(hash, keys, i, k, bits, p) {
        var j: nat :| j < k && HitsAt(hash, keys, i, j, bits, p);
      }
      if Covers(hash, keys, i, k, bits, p) {
        var i': nat, j: nat :| i' < i && j < k && HitsAt(hash, keys, i', j, bits, p);
        assert i' < i + 1;
      }
    }
  }

  lemma AllDone(hash: Hash, keys: seq<Key>, k: nat, a: seq<Byte>)
    requires |a| > 0 && SetSoFar(hash, keys, |keys|, 0, k, a)
    ensures SetExactly(hash, keys, k, a)
  {}

  // ----- Lookup -----

  predicate Matches(hash: Hash, key: Key, f: seq<Byte>) {
    |f| >= 2 && (f[|f| - 1] > 30 || forall j: nat :: j < f[|f| - 1] as nat ==> ProbeSet(hash, key, f, j))
  }

  predicate ProbeSet(hash: Hash, key: Key, f: seq<Byte>, j: nat)
    requires |f| >= 2
  {
    BitAt(f[..|f| - 1], Position(hash(key), j, 8 * (|f| - 1)))
  }

  method KeyMayMatch(hash: Hash, key: Key, f: seq<Byte>) returns (r: bool)
    ensures r <==> Matches(hash, key, f)
  {
    if |f| < 2 {
      return false;
    }
    var array_, bits := f[..|f| - 1], 8 * (|f| - 1);
    var k := f[|f| - 1];
    if k > 30 {
      return true;
    }
    var h := hash(key);
    var delta := Delta(h);
    var j := 0;
    var x: Word := h;
    while j < k as nat
      invariant 0 <= j <= k as nat && x == Probe(h, j)
      invariant forall i: nat :: i < j ==> ProbeSet(hash, key, f, i)
    {
      if !BitAt(array_, x % bits) {
        assert !ProbeSet(hash, key, f, j);
        return false;
      }
      x := (x as int + delta as int) % 0x1_0000_0000;
      j := j + 1;
    }
    r := true;
  }

  /** No false negatives, for every hash, every list of keys and every number of bits per key. */
  lemma NoFalseNegatives(hash: Hash, keys: seq<Key>, bitsPerKey: nat, f: seq<Byte>, key: Key)
    requires IsFilter(hash, keys, bitsPerKey, f) && key in keys
    ensures Matches(hash, key, f)
  {
    var i: nat :| i < |keys| && keys[i] == key;
    var k, bits := Probes(bitsPerKey), 8 * (|f| - 1);
    hide BitAt;
    forall j: nat | j < k ensures ProbeSet(hash, key, f, j) {
      assert HitsAt(hash, keys, i, j, bits, Position(hash(key), j, bits));
      assert Covers(hash, keys, |keys|, k, bits, Position(hash(key), j, bits));
    }
  }
}
