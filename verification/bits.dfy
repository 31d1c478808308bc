/** Naturals bit by bit. */
module Bits {

  predicate Bit(b: nat, i: nat) { if i == 0 then b % 2 == 1 else Bit(b / 2, i - 1) }

  function Pow2(n: nat): (r: nat) ensures r >= 1 { if n == 0 then 1 else 2 * Pow2(n - 1) }

  /** b | (1 << i) */
  function WithBit(b: nat, i: nat): nat {
    if i == 0 then (if b % 2 == 1 then b else b + 1) else 2 * WithBit(b / 2, i - 1) + b % 2
  }

  lemma {:induction false} WithBitBits(b: nat, i: nat, j: nat)
    ensures Bit(WithBit(b, i), j) <==> i == j || Bit(b, j)
    decreases i
  {
    var r := WithBit(b, i);
    if i > 0 {
      assert r / 2 == WithBit(b / 2, i - 1) && r % 2 == b % 2;
      if j > 0 {
        WithBitBits(b / 2, i - 1, j - 1);
      }
    } else {
      assert r / 2 == b / 2;
    }
  }

  lemma {:induction false} WithBitFits(b: nat, i: nat, n: nat)
    requires i < n && b < Pow2(n)
    ensures WithBit(b, i) < Pow2(n)
    decreases n
  {
    var half := Pow2(n - 1);
    assert Pow2(n) == 2 * half;
    if i > 0 {
      WithBitFits(b / 2, i - 1, n - 1);
      assert WithBit(b, i) == 2 * WithBit(b / 2, i - 1) + b % 2;
    }
  }

  lemma {:induction false} NoBits(i: nat)
    ensures !Bit(0, i)
  {
    if i > 0 {
      NoBits(i - 1);
    }
  }

  // ----- Or and shift -----

  function Or(a: nat, b: nat): nat
    decreases a + b
  {
    if a == 0 && b == 0 then 0 else 2 * Or(a / 2, b / 2) + if a % 2 == 1 || b % 2 == 1 then 1 else 0
  }

  lemma {:induction false} OrBit(a: nat, b: nat, i: nat)
    ensures Bit(Or(a, b), i) <==> Bit(a, i) || Bit(b, i)
    decreases i
  {
    if a == 0 && b == 0 {
      NoBits(i);
    } else {
      assert Or(a, b) / 2 == Or(a / 2, b / 2);
      if i > 0 {
        OrBit(a / 2, b / 2, i - 1);
      }
    }
  }

  /** x >> k */
  function Shr(x: nat, k: nat): nat { if k == 0 then x else Shr(x / 2, k - 1) }

  lemma {:induction false} ShrBit(x: nat, k: nat, i: nat)
    ensures Bit(Shr(x, k), i) <==> Bit(x, i + k)
    decreases k
  {
    if k > 0 {
      ShrBit(x / 2, k - 1, i);
    }
  }

  // ----- Numbers by their bits -----

  lemma {:induction false} HighBits(x: nat, n: nat, i: nat)
    requires x < Pow2(n) && n <= i
    ensures !Bit(x, i)
    decreases n
  {
    if n == 0 {
      NoBits(i);
    } else {
      HighBits(x / 2, n - 1, i - 1);
    }
  }

  lemma {:induction false} TopBit(x: nat, n: nat)
    requires Pow2(n) <= x < 2 * Pow2(n)
    ensures Bit(x, n)
    decreases n
  {
    if n > 0 {
      TopBit(x / 2, n - 1);
    }
  }

  lemma {:induction false} ZeroByBits(x: nat)
    requires forall i: nat :: !Bit(x, i)
    ensures x == 0
    decreases x
  {
    if x > 0 {
      assert !Bit(x, 0);
      forall i: nat ensures !Bit(x / 2, i) {
        assert !Bit(x, i + 1);
      }
      ZeroByBits(x / 2);
    }
  }

  lemma {:induction false} OnesByBits(x: nat, n: nat)
    requires forall i: nat :: Bit(x, i) <==> i < n
    ensures x == Pow2(n) - 1
    decreases n
  {
    if n == 0 {
      ZeroByBits(x);
    } else {
      assert Bit(x, 0);
      forall i: nat ensures Bit(x / 2, i) <==> i < n - 1 {
        assert Bit(x, i + 1) <==> i + 1 < n;
      }
      OnesByBits(x / 2, n - 1);
    }
  }
}
