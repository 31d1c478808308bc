/** The two filter policies at work in a table: what a lookup finds in the file of a table built with either. */
module Policies {
  import opened Wrappers
  import opened Bytes
  import opened Coding
  import opened Comparators
  import opened FilterBlocks
  import opened TableFormat
  import opened Tables
  import opened TableBuilders
  import opened TableReaders
  import Bloom
  import WormholePolicy
  import WormholeCrowding

  // ----- The policies -----

  function BloomPolicy(hash: Bloom.Hash, bitsPerKey: nat): Policy {
    Policy((keys: seq<Key>) => Bloom.Create(hash, keys, bitsPerKey), (k: Key, f: seq<Byte>) => Bloom.Matches(hash, k, f))
  }

  /** The Bloom policy is sound for every hash, every number of bits per key and every list of keys. */
  lemma BloomSound(hash: Bloom.Hash, bitsPerKey: nat, keys: seq<Key>)
    ensures SoundFor(BloomPolicy(hash, bitsPerKey), keys)
  {
    hide Bloom.IsFilter, Bloom.Matches, Bloom.Create;
    forall k | k in keys ensures Bloom.Matches(hash, k, Bloom.Create(hash, keys, bitsPerKey)) {
      Bloom.CreateIsFilter(hash, keys, bitsPerKey);
      Bloom.NoFalseNegatives(hash, keys, bitsPerKey, Bloom.Create(hash, keys, bitsPerKey), k);
    }
  }

  type KeyHash = Key -> bv64

  const MAX_KEYS: nat := WormholePolicy.MAX_KEYS

  function WormholeFilterPolicy(hash: KeyHash): Policy {
    Policy((keys: seq<Key>) => if |keys| <= MAX_KEYS then WormholePolicy.FilterOf(keys, hash) else [],
           (k: Key, f: seq<Byte>) => WormholePolicy.Match(hash(k), f))
  }

  /** The keys' home buckets are not crowded in the filter CreateFilter would make for them. */
  ghost predicate Fits(hash: KeyHash, keys: seq<Key>) {
    |keys| <= MAX_KEYS &&
    var n := WormholePolicy.Places(|keys|);
    n >= 1 && !WormholeCrowding.Crowded(WormholePolicy.HashItems(keys, hash, n), n)
  }

  ghost predicate DifferentItems(hash: KeyHash, keys: seq<Key>) {
    var n := WormholePolicy.Places(|keys|);
    n >= 1 && WormholeCrowding.Different(WormholePolicy.HashItems(keys, hash, n))
  }

  /** The wormhole policy is sound for keys that fit; and, when their items differ, for no others. */
  lemma WormholeSoundIff(hash: KeyHash, keys: seq<Key>)
    requires |keys| <= MAX_KEYS
    ensures Fits(hash, keys) ==> SoundFor(WormholeFilterPolicy(hash), keys)
    ensures DifferentItems(hash, keys) ==> (SoundFor(WormholeFilterPolicy(hash), keys) <==> Fits(hash, keys))
  {
    hide WormholePolicy.Places, WormholePolicy.FilterOf, WormholePolicy.Match, WormholeCrowding.Crowded;
    WormholePolicy.PolicyPromiseIff(keys, hash);
    if SoundFor(WormholeFilterPolicy(hash), keys) {
      forall i | 0 <= i < |keys| ensures WormholePolicy.Match(hash(keys[i]), WormholePolicy.FilterOf(keys, hash)) {
        assert keys[i] in keys;
      }
    }
    if WormholePolicy.EveryKeyMatches(keys, hash) {
      forall k | k in keys ensures WormholePolicy.Match(hash(k), WormholePolicy.FilterOf(keys, hash)) {
        var i :| 0 <= i < |keys| && keys[i] == k;
      }
    }
  }

  // ----- Building a table and looking a key up in it -----

  /** e is the first of the entries at or after k. */
  ghost predicate FirstOf(es: seq<Entry>, k: IKey, e: Entry) {
    && e in es && !ILess(e.key, k)
    && forall x :: x in es && !ILess(x.key, k) ==> AtMost(e.key, x.key)
  }

  lemma {:induction false} ContentsMember(blocks: seq<Block>, data: seq<Entry>, e: Entry)
    ensures e in Contents(blocks, data) <==> e in data || exists i :: 0 <= i < |blocks| && e in blocks[i].entries
    decreases |blocks|
  {
    if blocks != [] {
      var k := |blocks| - 1;
      ContentsMember(blocks[..k], blocks[k].entries + data, e);
    }
  }

  lemma FirstInTable(t: Table, es: seq<Entry>, k: IKey, e: Entry)
    requires Contents(t.blocks, []) == es
    ensures FirstOf(es, k, e) <==> IsFirst(t, k, e)
  {
    hide ILess, Contents;
    forall x ensures x in es <==> InTable(t, x) {
      ContentsMember(t.blocks, [], x);
    }
  }

  lemma DistinctKeys(es: seq<Entry>)
    requires Ascending(es)
    ensures forall i, j :: 0 <= i < j < |es| ==> es[i].key != es[j].key
  {
    forall i, j | 0 <= i < j < |es| ensures es[i].key != es[j].key {
      ITotal(es[i].key, es[i].key);
      assert ILess(es[i].key, es[j].key);
    }
  }

  lemma UniqueFirst(es: seq<Entry>, k: IKey, a: Entry, b: Entry)
    requires FirstOf(es, k, a) && FirstOf(es, k, b) && Ascending(es)
    ensures a == b
  {
    hide Ascending, ILess;
    ITotal(a.key, b.key);
    DistinctKeys(es);
  }

  /** Every entry is the first at or after its own key. */
  lemma OwnKey(es: seq<Entry>, m: nat)
    requires Ascending(es) && m < |es|
    ensures FirstOf(es, es[m].key, es[m])
  {
    ITotal(es[m].key, es[m].key);
    forall x | x in es && !ILess(x.key, es[m].key) ensures AtMost(es[m].key, x.key) {
      ITotal(x.key, es[m].key);
    }
  }

  /** The filter block's reader, asked for the block of entry m, asks the filter of entry m's group. */
  lemma AsksGroup(o: Options, p: Policy, es: seq<Entry>, m: nat, r: Reader, i: nat)
    requires o.interval >= 1 && Ascending(es) && m < |es|
    requires var t := TableOf(SizesOf(o), es);
      Sized(o, p, t) && r.filter == Some(BlockOf(p, t.groups)) && i < |t.blocks| && es[m] in t.blocks[i].entries
    ensures Passes(p, r, TableOf(SizesOf(o), es).blocks[i], es[m].key) <==>
            p.mayMatch(es[m].key.user, p.create(GroupOf(SizesOf(o), es, m)))
  {
    hide Run, Ascending, TableFrom, MayMatch, BlockOf, Filters, FileOf, MetaBlock, IndexBlock, DataBlock;
    var t := TableOf(SizesOf(o), es);
    BlockOfEntry(SizesOf(o), es, m, i);
    KeyInGroup(SizesOf(o), es, m);
    FilterSized(p, t);
    ReaderAsks(p, t.groups, t.blocks[i].offset, es[m].key.user);
  }

  lemma FilterSized(p: Policy, t: Table)
    requires |BlockOf(p, t.groups)| < U32
    ensures |Filters(p, t.groups, |t.groups|)| < U32
  {
    hide Filters, BlockOf;
    BlockLonger(p, t.groups);
  }

  /** Whether the filter made for entry m's group lets its user key through. */
  ghost predicate LetThrough(o: Options, p: Policy, es: seq<Entry>, m: nat)
    requires o.interval >= 1 && m < |es|
  {
    p.mayMatch(es[m].key.user, p.create(GroupOf(SizesOf(o), es, m)))
  }

  /** What can be built and read: entries in order, packed numbers of 64 bits, and blocks below 4 GB. */
  ghost predicate Buildable(o: Options, rd: Reading, p: Policy, es: seq<Entry>) {
    && o.interval >= 1 && Inverts(rd.unpack, o.codec) && Ascending(es) && Numbered(es)
    && Sized(o, p, TableOf(SizesOf(o), es))
  }

  /** Any policy, on the bytes of the file: a lookup reports no entry but the first at or after the key; and
      that one, if it has the key's user key, exactly when the filter of its group lets the key through. */
  method FileGet(o: Options, rd: Reading, p: Policy, es: seq<Entry>, file: seq<Byte>, k: IKey) returns (found: Option<Entry>)
    requires Buildable(o, rd, p, es) && file == FileOf(o, p, TableOf(SizesOf(o), es)) && k.num < U64
    ensures found.Some? ==> FirstOf(es, k, found.value)
    ensures forall m :: 0 <= m < |es| && FirstOf(es, k, es[m]) && es[m].key.user == k.user ==>
              (found == Some(es[m]) <==> LetThrough(o, p, es, m))
  {
    hide Ascending, TableOf, FileOf, Sized, Serves, IsFirst, FirstOf, BlockOf, IndexBlock, LetThrough, Numbered, Passes, SizesOf, Contents,
      Concat, TableOk;
    ghost var t := TableOf(SizesOf(o), es);
    BuiltServes(o, rd, p, es);
    TableOfEntries(SizesOf(o), es);
    var r := Open(o, rd, p, file, t);
    found := InternalGet(o, rd, p, r.value, k, t);
    forall e ensures FirstOf(es, k, e) <==> IsFirst(t, k, e) {
      FirstInTable(t, es, k, e);
    }
    forall m | 0 <= m < |es| && FirstOf(es, k, es[m]) && es[m].key.user == k.user
      ensures found == Some(es[m]) <==> LetThrough(o, p, es, m)
    {
      Answered(o, rd, p, es, m, r.value, k, found);
    }
  }

  lemma Answered(o: Options, rd: Reading, p: Policy, es: seq<Entry>, m: nat, r: Reader, k: IKey, found: Option<Entry>)
    requires Buildable(o, rd, p, es) && m < |es| && es[m].key.user == k.user && r.filter == Some(BlockOf(p, TableOf(SizesOf(o), es).groups))
    requires IsFirst(TableOf(SizesOf(o), es), k, es[m])
    requires var t := TableOf(SizesOf(o), es);
      forall i, e :: 0 <= i < |t.blocks| && e in t.blocks[i].entries && IsFirst(t, k, e) && e.key.user == k.user ==>
        (found == Some(e) <==> Passes(p, r, t.blocks[i], k))
    ensures found == Some(es[m]) <==> LetThrough(o, p, es, m)
  {
    hide Ascending, TableOf, Sized, BlockOf, Numbered, SizesOf, GroupOf;
    var t := TableOf(SizesOf(o), es);
    var i :| 0 <= i < |t.blocks| && es[m] in t.blocks[i].entries;
    AsksGroup(o, p, es, m, r, i);
  }

  /** Where the policy is sound for every group, no lookup misses an entry. */
  lemma SoundLetsThrough(o: Options, p: Policy, es: seq<Entry>)
    requires o.interval >= 1 && Ascending(es) && SoundOn(p, TableOf(SizesOf(o), es).groups)
    ensures forall m :: 0 <= m < |es| ==> LetThrough(o, p, es, m)
  {
    hide Ascending, TableOf, SizesOf, OffsetOf;
    forall m | 0 <= m < |es| ensures LetThrough(o, p, es, m) {
      KeyInGroup(SizesOf(o), es, m);
    }
  }

  // ----- The Bloom policy -----

  /** A table built with the Bloom policy and read from its file: a lookup reports the first entry at or after
      the key whenever it has the key's user key, and never another entry. */
  method BloomTableGet(hash: Bloom.Hash, bitsPerKey: nat, o: Options, rd: Reading, es: seq<Entry>, k: IKey)
    returns (file: seq<Byte>, found: Option<Entry>)
    requires Buildable(o, rd, BloomPolicy(hash, bitsPerKey), es) && k.num < U64
    ensures file == FileOf(o, BloomPolicy(hash, bitsPerKey), TableOf(SizesOf(o), es))
    ensures found.Some? ==> FirstOf(es, k, found.value)
    ensures forall e :: FirstOf(es, k, e) && e.key.user == k.user ==> found == Some(e)
  {
    hide Ascending, TableOf, FileOf, Sized, FirstOf, LetThrough, Numbered, SizesOf, SoundFor;
    var p := BloomPolicy(hash, bitsPerKey);
    file := Build(o, p, es);
    found := FileGet(o, rd, p, es, file, k);
    ghost var groups := TableOf(SizesOf(o), es).groups;
    forall i | 0 <= i < |groups| ensures SoundFor(p, groups[i]) {
      BloomSound(hash, bitsPerKey, groups[i]);
    }
    SoundLetsThrough(o, p, es);
    EntriesByIndex(es, k);
  }

  lemma EntriesByIndex(es: seq<Entry>, k: IKey)
    ensures forall e :: FirstOf(es, k, e) ==> exists m :: 0 <= m < |es| && es[m] == e
  {}

  /** Bytes enough for the Bloom filters of n keys, however they are grouped. */
  function Room(bitsPerKey: nat, n: nat): nat { (bitsPerKey + 10) * n }

  lemma RoomAdds(bitsPerKey: nat, a: nat, b: nat)
    ensures Room(bitsPerKey, a + b) == Room(bitsPerKey, a) + Room(bitsPerKey, b)
  {}

  lemma NoKeys(p: Policy, groups: seq<seq<Key>>)
    ensures Filters(p, groups, 0) == []
  {}

  lemma {:induction false} BloomFiltersSize(hash: Bloom.Hash, bitsPerKey: nat, groups: seq<seq<Key>>, n: nat)
    requires n <= |groups|
    ensures |Filters(BloomPolicy(hash, bitsPerKey), groups, n)| <= Room(bitsPerKey, |Concat(groups[..n])|)
  {
    hide Room, BloomPolicy, Concat, FilterFor;
    var p := BloomPolicy(hash, bitsPerKey);
    if n == 0 {
      NoKeys(p, groups);
    } else {
      BloomFiltersSize(hash, bitsPerKey, groups, n - 1);
      var keys := groups[n - 1];
      assert groups[..n] == groups[..n - 1] + [keys];
      ConcatNext(groups[..n - 1], keys);
      BloomFilterSize(hash, bitsPerKey, keys);
      RoomAdds(bitsPerKey, |Concat(groups[..n - 1])|, |keys|);
    }
  }

  lemma BloomFilterSize(hash: Bloom.Hash, bitsPerKey: nat, keys: seq<Key>)
    ensures |FilterFor(BloomPolicy(hash, bitsPerKey), keys)| <= Room(bitsPerKey, |keys|)
  {
    if keys != [] {
      Bloom.CreateIsFilter(hash, keys, bitsPerKey);
      hide Bloom.Create, Bloom.SetExactly;
      RoomIs(bitsPerKey, |keys|);
    }
  }

  lemma RoomIs(bitsPerKey: nat, n: nat)
    ensures Room(bitsPerKey, n) == n * bitsPerKey + 10 * n
  {}

  /** Keys, bits per key and groups bound the filter block of a table. */
  lemma BloomBlockSize(hash: Bloom.Hash, bitsPerKey: nat, z: Sizes, es: seq<Entry>)
    requires Ascending(es)
    ensures var groups := TableOf(z, es).groups;
      |BlockOf(BloomPolicy(hash, bitsPerKey), groups)| <= Room(bitsPerKey, |es|) + 4 * |groups| + 5
  {
    hide TableOf, Filters, Room, Starts, Blocks.Fixed32s, Blocks.Cut32, Concat, Contents, TableOk, Ascending;
    var p, groups := BloomPolicy(hash, bitsPerKey), TableOf(z, es).groups;
    TableOfEntries(z, es);
    BloomFiltersSize(hash, bitsPerKey, groups, |groups|);
    assert groups[..|groups|] == groups;
  }

  // ----- The wormhole policy -----

  ghost predicate AllFit(hash: KeyHash, groups: seq<seq<Key>>) {
    forall i :: 0 <= i < |groups| ==> Fits(hash, groups[i])
  }

  ghost predicate AllDifferent(hash: KeyHash, groups: seq<seq<Key>>) {
    forall i :: 0 <= i < |groups| ==> DifferentItems(hash, groups[i])
  }

  /** If every run of consecutive keys fits, every filter's keys do, wherever the blocks end. */
  lemma SlicesFit(hash: KeyHash, z: Sizes, es: seq<Entry>)
    requires Ascending(es) && forall a, b :: 0 <= a <= b <= |es| ==> Fits(hash, Users(es)[a..b])
    ensures AllFit(hash, TableOf(z, es).groups)
  {
    hide Ascending, TableOf, Fits, Contents;
    var groups := TableOf(z, es).groups;
    TableOfEntries(z, es);
    forall i | 0 <= i < |groups| ensures Fits(hash, groups[i]) {
      GroupIsSlice(groups, i);
    }
  }

  lemma FitsBound(hash: KeyHash, keys: seq<Key>) requires Fits(hash, keys) ensures |keys| <= MAX_KEYS {}

  /** A table built with the wormhole policy and read from its file: as with the Bloom policy, if every run of
      consecutive user keys fits. */
  method WormholeTableGet(hash: KeyHash, o: Options, rd: Reading, es: seq<Entry>, k: IKey)
    returns (file: seq<Byte>, found: Option<Entry>)
    requires Buildable(o, rd, WormholeFilterPolicy(hash), es) && k.num < U64
    ensures file == FileOf(o, WormholeFilterPolicy(hash), TableOf(SizesOf(o), es))
    ensures found.Some? ==> FirstOf(es, k, found.value)
    ensures (forall a, b :: 0 <= a <= b <= |es| ==> Fits(hash, Users(es)[a..b])) ==>
              forall e :: FirstOf(es, k, e) && e.key.user == k.user ==> found == Some(e)
  {
    hide Ascending, TableOf, FileOf, Sized, FirstOf, LetThrough, Numbered, SizesOf, SoundFor, Fits;
    var p := WormholeFilterPolicy(hash);
    file := Build(o, p, es);
    found := FileGet(o, rd, p, es, file, k);
    EntriesByIndex(es, k);
    if forall a, b :: 0 <= a <= b <= |es| ==> Fits(hash, Users(es)[a..b]) {
      SlicesFit(hash, SizesOf(o), es);
      FitSound(hash, TableOf(SizesOf(o), es).groups);
      SoundLetsThrough(o, p, es);
    }
  }

  lemma FitSound(hash: KeyHash, groups: seq<seq<Key>>)
    requires AllFit(hash, groups)
    ensures SoundOn(WormholeFilterPolicy(hash), groups)
  {
    hide Fits, SoundFor;
    forall i | 0 <= i < |groups| ensures SoundFor(WormholeFilterPolicy(hash), groups[i]) {
      FitsBound(hash, groups[i]);
      WormholeSoundIff(hash, groups[i]);
    }
  }

  /** Looking up every entry's own key in the file of a table built with the wormhole policy finds the entry or
      nothing; it finds all of them when the user keys of every filter fit, and, when the items of no filter
      coincide, only then. */
  method WormholeReadBack(hash: KeyHash, o: Options, rd: Reading, es: seq<Entry>) returns (file: seq<Byte>, found: seq<Option<Entry>>)
    requires Buildable(o, rd, WormholeFilterPolicy(hash), es) && |es| <= MAX_KEYS
    ensures file == FileOf(o, WormholeFilterPolicy(hash), TableOf(SizesOf(o), es))
    ensures |found| == |es| && forall m :: 0 <= m < |es| ==> found[m] == None || found[m] == Some(es[m])
    ensures AllFit(hash, TableOf(SizesOf(o), es).groups) ==> forall m :: 0 <= m < |es| ==> found[m] == Some(es[m])
    ensures AllDifferent(hash, TableOf(SizesOf(o), es).groups) ==>
              ((forall m :: 0 <= m < |es| ==> found[m] == Some(es[m])) <==> AllFit(hash, TableOf(SizesOf(o), es).groups))
  {
    hide Ascending, TableOf, FileOf, Sized, FirstOf, LetThrough, Numbered, SizesOf, SoundFor, Fits, DifferentItems;
    var p := WormholeFilterPolicy(hash);
    file := Build(o, p, es);
    found := [];
    while |found| < |es|
      invariant |found| <= |es|
      invariant forall m :: 0 <= m < |found| ==> found[m] == if LetThrough(o, p, es, m) then Some(es[m]) else None
    {
      var i := |found|;
      NumberedAt(es, i);
      var e := FileGet(o, rd, p, es, file, es[i].key);
      OwnKey(es, i);
      if e.Some? {
        UniqueFirst(es, es[i].key, e.value, es[i]);
      }
      found := found + [e];
    }
    AllThroughIff(hash, o, rd, es);
  }

  lemma NumberedAt(es: seq<Entry>, i: nat)
    requires Numbered(es) && i < |es|
    ensures es[i].key.num < U64
  {
    assert es[i] in es;
  }

  /** Every filter lets its own keys through when they fit; and, when items differ, only then. */
  lemma AllThroughIff(hash: KeyHash, o: Options, rd: Reading, es: seq<Entry>)
    requires Buildable(o, rd, WormholeFilterPolicy(hash), es) && |es| <= MAX_KEYS
    ensures var groups := TableOf(SizesOf(o), es).groups;
      AllFit(hash, groups) ==> forall m :: 0 <= m < |es| ==> LetThrough(o, WormholeFilterPolicy(hash), es, m)
    ensures var groups := TableOf(SizesOf(o), es).groups;
      AllDifferent(hash, groups) && (forall m :: 0 <= m < |es| ==> LetThrough(o, WormholeFilterPolicy(hash), es, m)) ==>
      AllFit(hash, groups)
  {
    hide Ascending, TableOf, Sized, Numbered, SizesOf, SoundFor, Fits, DifferentItems, LetThrough, Contents, Concat;
    var p, groups := WormholeFilterPolicy(hash), TableOf(SizesOf(o), es).groups;
    TableOfEntries(SizesOf(o), es);
    forall i | 0 <= i < |groups|
      ensures |groups[i]| <= MAX_KEYS
      ensures Fits(hash, groups[i]) ==> SoundFor(p, groups[i])
      ensures DifferentItems(hash, groups[i]) && SoundFor(p, groups[i]) ==> Fits(hash, groups[i])
    {
      GroupIsSlice(groups, i);
      WormholeSoundIff(hash, groups[i]);
    }
    if AllFit(hash, groups) {
      SoundLetsThrough(o, p, es);
    }
    if forall m :: 0 <= m < |es| ==> LetThrough(o, p, es, m) {
      forall i | 0 <= i < |groups| ensures SoundFor(p, groups[i]) {
        ThroughSound(o, p, es, i);
      }
    }
  }

  /** A filter that lets every entry's key through is sound. */
  lemma ThroughSound(o: Options, p: Policy, es: seq<Entry>, i: nat)
    requires o.interval >= 1 && i < |TableOf(SizesOf(o), es).groups| && forall m :: 0 <= m < |es| ==> LetThrough(o, p, es, m)
    ensures SoundFor(p, TableOf(SizesOf(o), es).groups[i])
  {
    hide TableOf, SizesOf, GroupOf;
    var keys := TableOf(SizesOf(o), es).groups[i];
    forall u | u in keys ensures p.mayMatch(u, p.create(keys)) {
      var m := GroupMember(SizesOf(o), es, i, u);
      assert LetThrough(o, p, es, m);
    }
  }
}
