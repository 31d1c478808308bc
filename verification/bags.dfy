/** Sums of sequences of multisets. */
module Bags {

  ghost function Sum<T>(ms: seq<multiset<T>>): multiset<T> {
    if ms == [] then multiset{} else Sum(ms[..|ms| - 1]) + ms[|ms| - 1]
  }

  lemma AddBoth<T>(a: multiset<T>, b: multiset<T>, x: multiset<T>, y: multiset<T>, z: multiset<T>)
    requires a + x == b + y
    ensures (a + z) + x == (b + z) + y
  {
    assert a + z + x == a + x + z;
    assert b + z + y == b + y + z;
  }

  /** From free + x == all and filled + x == all + y conclude filled == free + y. */
  lemma Exchange<T>(free: multiset<T>, filled: multiset<T>, all: multiset<T>, x: multiset<T>, y: multiset<T>)
    requires free + x == all && filled + x == all + y
    ensures filled == free + y
  {
    assert filled + x == free + y + x;
    assert filled + x - x == filled;
    assert free + y + x - x == free + y;
  }

  lemma RemoveOne<T>(a: multiset<T>, b: multiset<T>, x: T)
    requires a + multiset{x} == b + multiset{}
    ensures x in b && a == b - multiset{x}
  {
    assert b == b + multiset{};
    assert a == a + multiset{x} - multiset{x};
  }

  lemma RemoveAbsent<T>(m: multiset<T>, x: T) requires x !in m ensures m - multiset{x} == m {}

  lemma SameRest<T>(a: multiset<T>, b: multiset<T>, m: multiset<T>, x: multiset<T>)
    requires a + x == m + multiset{} && m == b + x
    ensures a == b
  {
    assert m == m + multiset{};
    assert a + x - x == a;
    assert b + x - x == b;
  }

  lemma {:induction false} SumUpdate<T>(ms: seq<multiset<T>>, i: nat, m: multiset<T>)
    requires i < |ms|
    ensures Sum(ms[i := m]) + ms[i] == Sum(ms) + m
  {
    var k := |ms| - 1;
    if i == k {
      assert ms[i := m][..k] == ms[..k];
      assert Sum(ms[..k]) + m + ms[k] == Sum(ms[..k]) + ms[k] + m;
    } else {
      assert ms[i := m][..k] == ms[..k][i := m];
      SumUpdate(ms[..k], i, m);
      AddBoth(Sum(ms[..k][i := m]), Sum(ms[..k]), ms[i], m, ms[k]);
    }
  }

  lemma {:induction false} SumMember<T>(ms: seq<multiset<T>>, x: T)
    ensures x in Sum(ms) <==> exists i :: 0 <= i < |ms| && x in ms[i]
  {
    if ms != [] {
      SumMember(ms[..|ms| - 1], x);
    }
  }

  /** Bags of at most one element: the sum has as many elements as there are nonempty bags. */
  lemma {:induction false} SumSize<T>(ms: seq<multiset<T>>)
    requires forall i :: 0 <= i < |ms| ==> |ms[i]| <= 1
    ensures |Sum(ms)| <= |ms|
    ensures |Sum(ms)| == |ms| <==> forall i :: 0 <= i < |ms| ==> |ms[i]| == 1
  {
    if ms != [] {
      SumSize(ms[..|ms| - 1]);
    }
  }

  lemma {:induction false} SumLe<T>(a: seq<multiset<T>>, b: seq<multiset<T>>)
    requires |a| == |b| && forall i :: 0 <= i < |a| ==> a[i] <= b[i]
    ensures Sum(a) <= Sum(b)
  {
    if a != [] {
      SumLe(a[..|a| - 1], b[..|b| - 1]);
    }
  }

  lemma {:induction false} SumSplit<T>(all: seq<multiset<T>>, a: seq<multiset<T>>, b: seq<multiset<T>>)
    requires |all| == |a| == |b| && forall i :: 0 <= i < |all| ==> all[i] == a[i] + b[i]
    ensures Sum(all) == Sum(a) + Sum(b)
  {
    if all != [] {
      var k := |all| - 1;
      SumSplit(all[..k], a[..k], b[..k]);
      assert Sum(a[..k]) + Sum(b[..k]) + (a[k] + b[k]) == (Sum(a[..k]) + a[k]) + (Sum(b[..k]) + b[k]);
    }
  }

  lemma AtMostSum<T>(a: multiset<T>, x: multiset<T>, b: multiset<T>, y: multiset<T>)
    requires a + x == b + y
    ensures a <= b + y
  {
    assert a <= a + x;
  }
}
