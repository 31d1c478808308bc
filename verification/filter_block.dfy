/** The filter block of a table: one filter for every 2 KB of data block offsets. */
module FilterBlocks {
  import opened Bytes
  import opened Coding
  import opened Blocks
  import Bits

  type Key = seq<Byte>

  /** A filter policy: making a filter for keys, and asking it about one. */
  datatype Policy = Policy(create: seq<Key> -> seq<Byte>, mayMatch: (Key, seq<Byte>) -> bool)

  /** Every key the filter is made for may match it. */
  ghost predicate SoundFor(p: Policy, keys: seq<Key>) { forall k :: k in keys ==> p.mayMatch(k, p.create(keys)) }

  ghost predicate SoundOn(p: Policy, groups: seq<seq<Key>>) {
    forall i :: 0 <= i < |groups| ==> SoundFor(p, groups[i])
  }

  const BASE_LG: Byte := 11
  const BASE: nat := 2048

  function FilterFor(p: Policy, keys: seq<Key>): seq<Byte> { if keys == [] then [] else p.create(keys) }

  /** The filters of the first n groups of keys, one after the other. */
  function Filters(p: Policy, groups: seq<seq<Key>>, n: nat): seq<Byte>
    requires n <= |groups|
  {
    if n == 0 then [] else Filters(p, groups, n - 1) + FilterFor(p, groups[n - 1])
  }

  function Starts(p: Policy, groups: seq<seq<Key>>): (r: seq<nat>)
    ensures |r| == |groups|
  {
    seq(|groups|, i requires 0 <= i < |groups| => |Filters(p, groups, i)|)
  }

  lemma {:induction false} FiltersKept(p: Policy, groups: seq<seq<Key>>, keys: seq<Key>, n: nat)
    requires n <= |groups|
    ensures Filters(p, groups + [keys], n) == Filters(p, groups, n)
  {
    if n > 0 {
      FiltersKept(p, groups, keys, n - 1);
    }
  }

  lemma NextGroup(p: Policy, groups: seq<seq<Key>>, keys: seq<Key>)
    ensures Filters(p, groups + [keys], |groups| + 1) == Filters(p, groups, |groups|) + FilterFor(p, keys)
    ensures Starts(p, groups + [keys]) == Starts(p, groups) + [|Filters(p, groups, |groups|)|]
  {
    FiltersKept(p, groups, keys, |groups|);
    forall i | 0 <= i < |groups| ensures |Filters(p, groups + [keys], i)| == |Filters(p, groups, i)| {
      FiltersKept(p, groups, keys, i);
    }
  }

  // ----- The builder -----

  /** The keys cut out of the flattened bytes. */
  ghost predicate Flattened(flat: seq<Byte>, start: seq<nat>, keys: seq<Key>) {
    && |start| == |keys|
    && forall i :: 0 <= i < |start| ==> KeyAt(flat, start, i, keys[i])
  }

  ghost predicate KeyAt(flat: seq<Byte>, start: seq<nat>, i: nat, key: Key)
    requires i < |start|
  {
    var end := if i + 1 < |start| then start[i + 1] else |flat|;
    start[i] <= end <= |flat| && flat[start[i]..end] == key
  }

  class Builder {
    const policy: Policy
    var flat: seq<Byte>
    var start: seq<nat>
    var result: seq<Byte>
    var offsets: seq<nat>
    /** The keys of each filter made, and those waiting for the next one. */
    ghost var groups: seq<seq<Key>>
    ghost var pending: seq<Key>

    ghost predicate Ok() reads this {
      && Flattened(flat, start, pending)
      && result == Filters(policy, groups, |groups|) && offsets == Starts(policy, groups)
    }

    constructor (p: Policy)
      ensures Ok() && policy == p && groups == [] && pending == []
    {
      policy, flat, start, result, offsets, groups, pending := p, [], [], [], [], [], [];
    }

    method AddKey(key: Key)
      requires Ok()
      modifies this
      ensures Ok() && groups == old(groups) && pending == old(pending) + [key]
    {
      hide Filters, Starts;
      ghost var was, at := flat, start;
      start := start + [|flat|];
      flat := flat + key;
      pending := pending + [key];
      forall i | 0 <= i < |start| ensures KeyAt(flat, start, i, pending[i]) {
        if i < |at| {
          assert KeyAt(was, at, i, pending[i]);
        }
      }
    }

    method GenerateFilter()
      requires Ok()
      modifies this
      ensures Ok() && groups == old(groups) + [old(pending)] && pending == []
      ensures result == old(result) + FilterFor(policy, old(pending))
    {
      hide Filters, Starts;
      NextGroup(policy, groups, pending);
      offsets := offsets + [|result|];
      if |start| == 0 {
        assert pending == [];
        NothingAdded(result);
        groups := groups + [pending];
        return;
      }
      start := start + [|flat|];
      var keys: seq<Key> := [];
      while |keys| < |start| - 1
        invariant |keys| <= |start| - 1 && keys == pending[..|keys|]
      {
        var i := |keys|;
        assert KeyAt(flat, old(start), i, pending[i]);
        keys := keys + [flat[start[i]..start[i + 1]]];
      }
      assert keys == pending;
      result := result + policy.create(keys);
      flat, start := [], [];
      groups, pending := groups + [pending], [];
    }

    /** A block starting at this offset: filters are made until its own is the next. */
    method StartBlock(blockOffset: nat)
      requires Ok() && blockOffset / BASE >= |groups|
      modifies this
      ensures Ok() && (groups, pending) == Advance(old(groups), old(pending), blockOffset / BASE)
    {
      hide Filters, Starts, Flattened;
      var index := blockOffset / BASE;
      while |offsets| < index
        invariant Ok() && |old(groups)| <= |groups| <= index
        invariant (groups, pending) == Advance(old(groups), old(pending), |groups|)
        decreases index - |offsets|
      {
        AdvanceOnce(old(groups), old(pending), |groups|);
        GenerateFilter();
      }
    }

    method Finish() returns (block: seq<Byte>)
      requires Ok()
      modifies this
      ensures groups == Closed(old(groups), old(pending))
      ensures block == BlockOf(policy, groups)
    {
      hide Filters, Starts, Fixed32s, EncodeFixed32, Cut32;
      if |start| != 0 {
        NextGroup(policy, groups, pending);
        GenerateFilter();
      }
      ghost var filters := result;
      var arrayOffset := |result|;
      ghost var words := Cut32(offsets);
      var i := 0;
      NoWords();
      assert words[..0] == [] && result + [] == result;
      while i < |offsets|
        invariant 0 <= i <= |offsets| && offsets == Starts(policy, groups) && words == Cut32(offsets)
        invariant result == filters + Fixed32s(words[..i])
        invariant groups == Closed(old(groups), old(pending))
      {
        assert words[..i + 1] == words[..i] + [words[i]];
        Fixed32sNext(words[..i], words[i]);
        Assoc(filters, Fixed32s(words[..i]), EncodeFixed32(words[i]));
        result := result + EncodeFixed32(offsets[i] % U32);
        i := i + 1;
      }
      assert words[..i] == words;
      CutNext(offsets, arrayOffset);
      Fixed32sNext(words, arrayOffset % U32);
      Assoc(filters, Fixed32s(words), EncodeFixed32(arrayOffset % U32));
      result := result + EncodeFixed32(arrayOffset % U32);
      result := result + [BASE_LG];
      block := result;
    }
  }

  lemma NothingAdded(s: seq<Byte>) ensures s + [] == s {}

  function Empties(n: nat): seq<seq<Key>> { seq(n, _ => []) }

  /** Filters are made until there are n: the first gets the waiting keys, the others none. */
  function Advance(groups: seq<seq<Key>>, pending: seq<Key>, n: nat): (seq<seq<Key>>, seq<Key>) {
    if |groups| >= n then (groups, pending) else (groups + [pending] + Empties(n - |groups| - 1), [])
  }

  lemma AdvanceOnce(groups: seq<seq<Key>>, pending: seq<Key>, n: nat)
    requires n >= |groups|
    ensures var (gs, rest) := Advance(groups, pending, n);
      Advance(groups, pending, n + 1) == (gs + [rest], [])
  {
    if n > |groups| {
      assert groups + [pending] + Empties(n - |groups|) == groups + [pending] + Empties(n - |groups| - 1) + [[]];
    } else {
      assert groups + [pending] + Empties(0) == groups + [pending];
    }
  }

  /** The groups of all keys, when no more are to come. */
  function Closed(groups: seq<seq<Key>>, pending: seq<Key>): seq<seq<Key>> {
    groups + if pending == [] then [] else [pending]
  }

  /** The keys of all groups, in order. */
  function Concat(groups: seq<seq<Key>>): seq<Key> {
    if groups == [] then [] else Concat(groups[..|groups| - 1]) + groups[|groups| - 1]
  }

  lemma ConcatNext(groups: seq<seq<Key>>, keys: seq<Key>)
    ensures Concat(groups + [keys]) == Concat(groups) + keys
  {
    assert (groups + [keys])[..|groups|] == groups;
  }

  lemma {:induction false} ConcatEmpty(groups: seq<seq<Key>>, n: nat)
    ensures Concat(groups + Empties(n)) == Concat(groups)
    decreases n
  {
    if n == 0 {
      assert groups + Empties(n) == groups;
    } else {
      ConcatEmpty(groups, n - 1);
      assert groups + Empties(n) == (groups + Empties(n - 1)) + [[]];
      ConcatNext(groups + Empties(n - 1), []);
    }
  }

  /** Making filters loses, adds and reorders no keys. */
  lemma AdvanceConcat(groups: seq<seq<Key>>, pending: seq<Key>, n: nat)
    ensures var (gs, rest) := Advance(groups, pending, n);
      Concat(gs) + rest == Concat(groups) + pending
  {
    if |groups| < n {
      ConcatNext(groups, pending);
      ConcatEmpty(groups + [pending], n - |groups| - 1);
    }
  }

  lemma ClosedConcat(groups: seq<seq<Key>>, pending: seq<Key>)
    ensures Concat(Closed(groups, pending)) == Concat(groups) + pending
  {
    ConcatNext(groups, pending);
    assert groups + [] == groups;
  }

  /** A group is a contiguous slice of all the keys. */
  lemma {:induction false} GroupIsSlice(groups: seq<seq<Key>>, j: nat)
    requires j < |groups|
    ensures var a := |Concat(groups[..j])|;
      a + |groups[j]| <= |Concat(groups)| && groups[j] == Concat(groups)[a..a + |groups[j]|]
    decreases |groups|
  {
    var k := |groups| - 1;
    var init := Concat(groups[..k]);
    if j < k {
      GroupIsSlice(groups[..k], j);
      assert groups[..k][..j] == groups[..j];
      var a := |Concat(groups[..j])|;
      assert (init + groups[k])[a..a + |groups[j]|] == init[a..a + |groups[j]|];
    } else {
      assert (init + groups[k])[|init|..] == groups[k];
    }
  }

  lemma {:induction false} FiltersGrow(p: Policy, groups: seq<seq<Key>>, i: nat, n: nat)
    requires i <= n <= |groups|
    ensures Filters(p, groups, i) <= Filters(p, groups, n)
  {
    if i < n {
      FiltersGrow(p, groups, i, n - 1);
    }
  }

  lemma StartsFit(p: Policy, groups: seq<seq<Key>>)
    ensures forall i :: 0 <= i < |groups| ==> Starts(p, groups)[i] <= |Filters(p, groups, |groups|)|
  {
    hide Filters;
    forall i | 0 <= i < |groups| ensures Starts(p, groups)[i] <= |Filters(p, groups, |groups|)| {
      FiltersGrow(p, groups, i, |groups|);
    }
  }

  /** The bytes of the filter block. */
  function BlockOf(p: Policy, groups: seq<seq<Key>>): seq<Byte>
  {
    var filters := Filters(p, groups, |groups|);
    filters + Fixed32s(Cut32(Starts(p, groups) + [|filters|])) + [BASE_LG]
  }

  lemma BlockLonger(p: Policy, groups: seq<seq<Key>>)
    ensures |BlockOf(p, groups)| > |Filters(p, groups, |groups|)|
  {
    hide Filters, Fixed32s, Starts, Cut32;
  }

  // ----- The reader -----

  function WordAt(data: seq<Byte>, at: nat): Word
    requires at + 4 <= |data|
  {
    DecodeFixed32(data[at..at + 4])
  }

  /** FilterBlockReader: whether the block at this offset may hold the key; anything malformed may. */
  function MayMatch(p: Policy, data: seq<Byte>, blockOffset: nat, key: Key): bool {
    var n := |data|;
    if n < 5 then true
    else
      var array_ := WordAt(data, n - 5);
      if array_ > n - 5 then true
      else
        var index := blockOffset / Bits.Pow2(data[n - 1]);
        if index < (n - 5 - array_) / 4 then
          var start, limit := WordAt(data, array_ + 4 * index), WordAt(data, array_ + 4 * index + 4);
          if start <= limit && limit <= array_ then p.mayMatch(key, data[start..limit])
          else start != limit
        else true
  }

  lemma WordBack(p: Policy, groups: seq<seq<Key>>, i: nat)
    requires |Filters(p, groups, |groups|)| < U32 && i <= |groups|
    ensures var data, filters := BlockOf(p, groups), Filters(p, groups, |groups|);
      && |data| == |filters| + 4 * |groups| + 5 && data[|data| - 1] == BASE_LG
      && data[..|filters|] == filters
      && WordAt(data, |filters| + 4 * i) == (Starts(p, groups) + [|filters|])[i]
  {
    hide Filters, Starts, DecodeFixed32, Fixed32s, Cut32;
    StartsFit(p, groups);
    var filters := Filters(p, groups, |groups|);
    var ws := Starts(p, groups) + [|filters|];
    CutSame(ws);
    var words := Fixed32s(ws);
    assert BlockOf(p, groups) == filters + words + [BASE_LG];
    hide BlockOf;
    Fixed32At(ws, i);
    WordIn(filters, words, [BASE_LG], i);
  }

  lemma WordIn(a: seq<Byte>, words: seq<Byte>, c: seq<Byte>, i: nat)
    requires 4 * i + 4 <= |words|
    ensures (a + words + c)[..|a|] == a
    ensures (a + words + c)[|a| + 4 * i..|a| + 4 * i + 4] == words[4 * i..4 * i + 4]
  {}

  lemma FilterSlice(p: Policy, groups: seq<seq<Key>>, i: nat)
    requires i < |groups|
    ensures var filters, a, b := Filters(p, groups, |groups|), |Filters(p, groups, i)|, |Filters(p, groups, i + 1)|;
      a <= b <= |filters| && filters[a..b] == FilterFor(p, groups[i])
  {
    assert Filters(p, groups, i + 1) == Filters(p, groups, i) + FilterFor(p, groups[i]);
    hide Filters;
    FiltersGrow(p, groups, i + 1, |groups|);
    var filters, before, mine := Filters(p, groups, |groups|), Filters(p, groups, i), FilterFor(p, groups[i]);
    assert filters[..|before + mine|] == before + mine;
    assert filters[|before|..|before + mine|] == (before + mine)[|before|..];
  }

  lemma StartWord(p: Policy, groups: seq<seq<Key>>, i: nat)
    requires i <= |groups|
    ensures (Starts(p, groups) + [|Filters(p, groups, |groups|)|])[i] == |Filters(p, groups, i)|
  {
    hide Filters;
    if i < |groups| {
      assert Starts(p, groups)[i] == |Filters(p, groups, i)|;
    }
  }

  lemma SliceOfPrefix<T>(s: seq<T>, n: nat, a: nat, b: nat)
    requires a <= b <= n <= |s|
    ensures s[a..b] == s[..n][a..b]
  {}

  /** The reader asks the filter that was made for the block's keys. */
  lemma ReaderAsks(p: Policy, groups: seq<seq<Key>>, blockOffset: nat, key: Key)
    requires |Filters(p, groups, |groups|)| < U32 && blockOffset / BASE < |groups|
    ensures MayMatch(p, BlockOf(p, groups), blockOffset, key) == p.mayMatch(key, FilterFor(p, groups[blockOffset / BASE]))
  {
    hide Filters, BlockOf, WordAt, Starts;
    var i, data, filters := blockOffset / BASE, BlockOf(p, groups), Filters(p, groups, |groups|);
    WordBack(p, groups, i);
    WordBack(p, groups, i + 1);
    WordBack(p, groups, |groups|);
    FilterSlice(p, groups, i);
    assert Bits.Pow2(11) == BASE;
    var a, b := |Filters(p, groups, i)|, |Filters(p, groups, i + 1)|;
    StartWord(p, groups, i);
    StartWord(p, groups, i + 1);
    FiltersGrow(p, groups, i + 1, |groups|);
    SliceOfPrefix(data, |filters|, a, b);
  }

  /** Where the policy is sound for the keys of a block's group, none of them is missed. */
  lemma NeverMissed(p: Policy, groups: seq<seq<Key>>, blockOffset: nat, key: Key)
    requires |Filters(p, groups, |groups|)| < U32
    requires blockOffset / BASE < |groups| && key in groups[blockOffset / BASE] && SoundFor(p, groups[blockOffset / BASE])
    ensures MayMatch(p, BlockOf(p, groups), blockOffset, key)
  {
    hide Filters, BlockOf, MayMatch;
    ReaderAsks(p, groups, blockOffset, key);
  }
}
