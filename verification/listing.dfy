/** Entries listed in internal order, and an index moving over the list. */
module Listings {
  import opened Wrappers
  import opened Entries
  import opened Files

  lemma SortedDistinct(es: seq<Entry>)
    requires Sorted(es)
    ensures Distinct(EntrySet(es))
  {
    forall x, y | x in EntrySet(es) && y in EntrySet(es) && x.key == y.key && Tag(x) == Tag(y) ensures x == y {
      var i: nat :| 0 <= i < |es| && es[i] == x;
      var j: nat :| 0 <= j < |es| && es[j] == y;
      TagsApart(es, i, j);
      TagsApart(es, j, i);
    }
  }

  lemma TagsApart(es: seq<Entry>, i: nat, j: nat)
    requires Sorted(es) && i < |es| && j < |es|
    ensures i < j && es[i].key == es[j].key ==> Tag(es[i]) != Tag(es[j])
  {
    assert i < j ==> Before(IKey(es[i]), IKey(es[j]));
  }

  lemma KeysAscend(es: seq<Entry>, i: nat, j: nat)
    requires Sorted(es) && i <= j < |es|
    ensures es[i].key <= es[j].key
  {
    assert i < j ==> Before(IKey(es[i]), IKey(es[j]));
  }

  // ----- Moves of the index -----

  function At(pos: Option<nat>): int { if pos.None? then -1 else pos.value }

  function FirstIndex(es: seq<Entry>): Option<nat> { if es == [] then None else Some(0) }
  function LastIndex(es: seq<Entry>): Option<nat> { if es == [] then None else Some(|es| - 1) }
  function NextIndex(es: seq<Entry>, p: nat): Option<nat> { if p + 1 < |es| then Some(p + 1) else None }
  function PrevIndex(p: nat): Option<nat> { if p > 0 then Some(p - 1) else None }

  /** The first entry at or after the target. */
  method SeekEntry(es: seq<Entry>, target: InternalKey) returns (p: nat)
    requires Sorted(es)
    ensures p <= |es|
    ensures forall j: nat :: j < p ==> Before(IKey(es[j]), target)
    ensures forall j: nat :: p <= j < |es| ==> AtOrBefore(target, IKey(es[j]))
  {
    p := 0;
    while p < |es| && Before(IKey(es[p]), target)
      invariant p <= |es|
      invariant forall j: nat :: j < p ==> Before(IKey(es[j]), target)
    {
      p := p + 1;
    }
  }

  /** Where a seek to the target arrives. */
  ghost function SeekPoint(es: seq<Entry>, target: InternalKey): (p: nat)
    ensures p <= |es| && (forall j: nat :: j < p ==> Before(IKey(es[j]), target)) && (p < |es| ==> !Before(IKey(es[p]), target))
  {
    if es == [] || !Before(IKey(es[0]), target) then 0 else 1 + SeekPoint(es[1..], target)
  }

  /** A seek splits the list: what is before the point is before the target, the rest is not. */
  lemma SeekSplits(es: seq<Entry>, target: InternalKey)
    requires Sorted(es)
    ensures forall j: nat :: j < SeekPoint(es, target) ==> Before(IKey(es[j]), target)
    ensures forall j: nat :: SeekPoint(es, target) <= j < |es| ==> AtOrBefore(target, IKey(es[j]))
  {
    var p := SeekPoint(es, target);
    forall j: nat | p < j < |es| ensures AtOrBefore(target, IKey(es[j])) {
      assert Before(IKey(es[p]), IKey(es[j]));
    }
  }

  // ----- Listing a set -----

  /** A set of entries with distinct tags can be listed in internal order. */
  lemma {:induction false} SortedListing(all: set<Entry>) returns (es: seq<Entry>)
    requires Distinct(all)
    ensures Sorted(es) && EntrySet(es) == all
    decreases |all|
  {
    if all == {} {
      es := [];
    } else {
      var m := LastEntry(all);
      var init := SortedListing(all - {m});
      es := init + [m];
      forall i, j | 0 <= i < j < |es| ensures Before(IKey(es[i]), IKey(es[j])) {
        if j == |init| {
          assert init[i] in EntrySet(init);
        }
      }
      forall e ensures e in EntrySet(es) <==> e in all {
        assert e in EntrySet(init) <==> e in all - {m};
      }
    }
  }

  lemma {:induction false} LastEntry(all: set<Entry>) returns (m: Entry)
    requires Distinct(all) && all != {}
    ensures m in all && forall x :: x in all && x != m ==> Before(IKey(x), IKey(m))
    decreases |all|
  {
    m :| m in all;
    if all != {m} {
      var n := LastEntry(all - {m});
      var x := m;
      if Before(IKey(m), IKey(n)) {
        m := n;
      } else {
        assert m.key == n.key ==> Tag(m) != Tag(n);
      }
    }
  }
}
