/** The persistent-memory wormhole filter: the table updated in place, one 16-bit store at a time. */
module WormholeFilter {
  import opened Cells
  import opened Tags
  import opened WormholeTable
  import opened WormholeMemory

  /** The hasher returns the 64-bit key itself; its low half picks the bucket, its high half the tag. */
  function KeyHome(key: bv64, n: nat): (home: nat)
    requires n >= 1
    ensures home < n
  {
    ((key & 0xFFFF_FFFF) as nat) % n
  }

  function KeyTag(key: bv64): (tag: Tag)
    ensures IsFpt(tag)
  {
    TagHash((key >> 32) as bv32)
  }

  function KeyItem(key: bv64, n: nat): (x: Item)
    requires n >= 1
    ensures x.home < n
  {
    Item(KeyHome(key, n), KeyTag(key) as nat)
  }

  lemma KeyItemParts(key: bv64, n: nat)
    requires n >= 1
    ensures KeyItem(key, n).home == KeyHome(key, n) && TagIs(KeyTag(key), KeyItem(key, n).fpt)
  {}

  /** The slots of a table given as packed words, in bucket and lane order. */
  ghost function CellsOf(words: seq<Word>): (s: seq<Cell>)
    ensures |s| == 4 * |words|
    ensures forall i :: 0 <= i < |s| ==> Dis(s[i]) < MAX_PROBE
    ensures forall i :: 0 <= i < |s| ==> s[i] == Decode(Lane(words[i / 4], i % 4))
  {
    var s := seq(4 * |words|, i requires 0 <= i < 4 * |words| => Decode(Lane(words[i / 4], i % 4)));
    assert forall i :: 0 <= i < |s| ==> Dis(s[i]) < MAX_PROBE by {
      forall i | 0 <= i < |s| ensures Dis(s[i]) < MAX_PROBE {
        DecodeDis(Lane(words[i / 4], i % 4));
      }
    }
    s
  }

  class Filter {
    const numBuckets: nat
    const buckets: array<Word>
    /** For every bucket the cells a power loss may leave there. */
    ghost var may: seq<set<seq<Cell>>>

    ghost predicate Valid() reads this {
      1 <= numBuckets < 0x8000_0000 && buckets.Length == numBuckets && |may| == numBuckets
    }

    /** The slots of the table in bucket and lane order. */
    ghost function Slots(): (s: seq<Cell>)
      requires Valid()
      reads this, buckets
      ensures Wf(s, numBuckets)
    {
      CellsOf(buckets[..])
    }

    ghost function Mem(): Memory
      requires Valid()
      reads this, buckets
    {
      Memory(Slots(), may)
    }

    /** The (home bucket, fingerprint) pairs the filter stands for. */
    ghost function Contents(): multiset<Item>
      requires Valid()
      reads this, buckets
    {
      Items(Slots(), numBuckets)
    }

    /** The zeroed table of a committed transaction.  A filter for fewer than four keys gets no buckets, and
        no operation is defined on it. */
    constructor (n: nat)
      requires n < 0x8000_0000
      ensures numBuckets == n && buckets.Length == n && fresh(buckets)
      ensures n >= 1 ==> Valid() && Contents() == multiset{} && Mem() == Settled(Slots(), n)
    {
      numBuckets := n;
      buckets := new Word[n](_ => 0);
      may := seq(n, _ => {});
      new;
      if n >= 1 {
        may := Settled(Slots(), n).may;
        forall i | 0 <= i < |Slots()| ensures Slots()[i] == Free {
          ZeroLane(i % 4);
        }
        NoItems(Slots(), numBuckets);
      }
    }

    method ReadTag(i: nat, j: nat) returns (t: Tag)
      requires Valid() && j < SLOTS_PER_BUCKET
      ensures Decode(t) == Slots()[Slot(numBuckets, Pos(i, j))]
    {
      var bucket := i % numBuckets;
      t := Lane(buckets[bucket], j);
      WrapIsMod(i, numBuckets);
      assert (4 * bucket + j) / 4 == bucket && (4 * bucket + j) % 4 == j;
    }

    /** One 16-bit store: the slot at position 4i+j and nothing else.  It need not outlast a power loss. */
    method WriteTag(i: nat, j: nat, t: Tag)
      requires Valid() && j < SLOTS_PER_BUCKET
      modifies `may, buckets
      ensures Valid() && Mem() == Store(old(Mem()), Slot(numBuckets, Pos(i, j)), Decode(t))
      ensures Slots() == old(Slots())[Slot(numBuckets, Pos(i, j)) := Decode(t)]
    {
      ghost var m := Store(Mem(), Slot(numBuckets, Pos(i, j)), Decode(t));
      PutTag(i, j, t);
      may := m.may;
    }

    /** The store, and the flush of the word it is in. */
    method PMWriteTag(i: nat, j: nat, t: Tag)
      requires Valid() && j < SLOTS_PER_BUCKET
      modifies `may, buckets
      ensures Valid() && Mem() == Flush(old(Mem()), Slot(numBuckets, Pos(i, j)), Decode(t))
    {
      ghost var m := Flush(Mem(), Slot(numBuckets, Pos(i, j)), Decode(t));
      PutTag(i, j, t);
      may := m.may;
    }

    method PutTag(i: nat, j: nat, t: Tag)
      requires Valid() && j < SLOTS_PER_BUCKET
      modifies buckets
      ensures Slots() == old(Slots())[Slot(numBuckets, Pos(i, j)) := Decode(t)]
    {
      var bucket := i % numBuckets;
      ghost var w := buckets[bucket];
      buckets[bucket] := SetLane(buckets[bucket], j, t);
      WrapIsMod(i, numBuckets);
      ghost var k := Slot(numBuckets, Pos(i, j));
      assert k == 4 * bucket + j;
      forall m | 0 <= m < 4 * numBuckets ensures Slots()[m] == old(Slots())[k := Decode(t)][m] {
        if m / 4 == bucket {
          SetLaneLane(w, j, t, m % 4);
        }
      }
    }

    /** The candidate search: the furthest bucket first, lanes in order. */
    method FindCandidate(curr: nat, ghost home: nat) returns (found: bool, bucket: nat, lane: nat)
      requires Valid() && curr >= home + MAX_PROBE && Full(Slots(), numBuckets, home, 4 * curr)
      ensures lane < SLOTS_PER_BUCKET
      ensures var q := FirstCandidate(Slots(), numBuckets, curr, 4 * (curr - (MAX_PROBE - 1)));
        if found then home < bucket < curr && q == Pos(bucket, lane) else q == 4 * curr
    {
      hide Filter.Slots, Decode, Wrap, Items, FirstCandidate;
      ghost var start := FirstCandidate(Slots(), numBuckets, curr, 4 * (curr - (MAX_PROBE - 1)));
      var prob := MAX_PROBE - 1;
      while prob > 0
        invariant 0 <= prob < MAX_PROBE
        invariant start == FirstCandidate(Slots(), numBuckets, curr, 4 * (curr - prob))
      {
        bucket := curr - prob;
        lane := 0;
        while lane < SLOTS_PER_BUCKET
          invariant 0 <= lane <= SLOTS_PER_BUCKET
          invariant start == FirstCandidate(Slots(), numBuckets, curr, 4 * bucket + lane)
        {
          var tag := ReadTag(bucket, lane);
          assert UsedAt(Slots(), numBuckets, Pos(bucket, lane));
          DecodeDis(tag);
          FirstCandidateStep(Slots(), numBuckets, curr, Pos(bucket, lane));
          assert Movable(Slots(), numBuckets, curr, Pos(bucket, lane)) <==> (tag & 0x000F) as nat + prob < MAX_PROBE;
          if (tag & 0x000F) as nat + prob < MAX_PROBE {
            return true, bucket, lane;
          }
          lane := lane + 1;
        }
        prob := prob - 1;
      }
      found, bucket, lane := false, 0, 0;
    }

    /** One relocation: copy the candidate's tag, with its distance raised, into the hole. */
    method Relocate(bucket: nat, lane: nat, curr: nat, currLane: nat)
      requires Valid() && lane < SLOTS_PER_BUCKET && currLane < SLOTS_PER_BUCKET && bucket < curr
      requires Movable(Slots(), numBuckets, curr, Pos(bucket, lane))
      modifies `may, buckets
      ensures Valid() && Mem() == Relocated(old(Mem()), numBuckets, Pos(bucket, lane), Pos(curr, currLane))
    {
      hide Filter.Slots, Wrap;
      var tag := ReadTag(bucket, lane);
      var prob := curr - bucket;
      DecodeDis(tag);
      DecodeRaised(tag, prob);
      PMWriteTag(curr, currLane, MakeTag(tag & 0xFFF0, (tag & 0x000F) as nat + prob));
    }

    /** `states` are the tables after each store made, in order. */
    method InsertItem(home: nat, tag: Tag, ghost x: Item) returns (ok: bool, ghost states: seq<seq<Cell>>)
      requires Valid() && home < numBuckets && TagIs(tag, x.fpt) && x.home == home
      modifies `may, buckets
      ensures Valid() && Outcome(states, ok) == Insert(old(Slots()), numBuckets, x)
      ensures Slots() == Final(old(Slots()), Outcome(states, ok))
      ensures Mem() == LastOf(old(Mem()), InsertMemory(old(Mem()), numBuckets, x))
    {
      hide Filter.Slots, Wrap, Items, Decode, Dig, DigMemory, FirstCandidate, FirstEmpty, TagIs, Full;
      ghost var n, s0, m0 := numBuckets, Slots(), Mem();
      ghost var end := 4 * (home + n);
      states := [];
      var curr := home;
      while curr < home + numBuckets
        invariant home <= curr <= home + n
        invariant Valid() && Mem() == m0 && states == []
        invariant FirstEmpty(s0, n, 4 * home, end) == FirstEmpty(s0, n, 4 * curr, end)
      {
        assert curr < 0x1_0000_0000;
        var lane := 0;
        while lane < SLOTS_PER_BUCKET
          invariant 0 <= lane <= SLOTS_PER_BUCKET
          invariant Valid() && Mem() == m0 && states == []
          invariant FirstEmpty(s0, n, 4 * home, end) == FirstEmpty(s0, n, 4 * curr + lane, end)
        {
          var t := ReadTag(curr, lane);
          FirstEmptyStep(s0, n, Pos(curr, lane), end);
          DecodeZeroIff(t);
          if t == 0 {
            ScanFull(s0, n, home, Pos(curr, lane));
            ok, states := FillFrom(home, tag, x, curr, lane);
            return;
          }
          lane := lane + 1;
        }
        curr := curr + 1;
      }
      ok := false;
    }

    /** From the empty slot found by the scan: relocate while it is 16 or more buckets from home, then store. */
    method FillFrom(home: nat, tag: Tag, ghost x: Item, startBucket: nat, startLane: nat) returns (ok: bool, ghost states: seq<seq<Cell>>)
      requires Valid() && TagIs(tag, x.fpt) && x.home == home && startLane < SLOTS_PER_BUCKET && home <= startBucket < home + numBuckets
      requires home < numBuckets && Full(Slots(), numBuckets, home, Pos(startBucket, startLane))
      modifies `may, buckets
      ensures Valid() && Outcome(states, ok) == Dig(old(Slots()), numBuckets, x, Pos(startBucket, startLane))
      ensures Slots() == Final(old(Slots()), Outcome(states, ok))
      ensures Mem() == LastOf(old(Mem()), DigMemory(old(Mem()), numBuckets, x, Pos(startBucket, startLane)))
    {
      hide Filter.Slots, Decode, Wrap, Items, FirstCandidate, Dig, DigMemory, MoveUp, MakeTag, TagIs, Relocated, Store, Slot;
      ghost var n, s0, m0 := numBuckets, Slots(), Mem();
      ghost var o := Dig(s0, n, x, Pos(startBucket, startLane));
      ghost var last := LastOf(m0, DigMemory(m0, n, x, Pos(startBucket, startLane)));
      var curr: nat, lane: nat := startBucket, startLane;
      states := [];
      while curr - home >= MAX_PROBE
        invariant Valid() && home <= curr < home + n && lane < SLOTS_PER_BUCKET
        invariant last == LastOf(Mem(), DigMemory(Mem(), n, x, Pos(curr, lane)))
        invariant Full(Slots(), n, home, Pos(curr, lane))
        invariant Slots() == Final(s0, Outcome(states, true))
        invariant o == Resume(states, Dig(Slots(), n, x, Pos(curr, lane)))
        decreases curr
      {
        var found, bucket, candidate := FindCandidate(curr, home);
        if !found {
          DigFail(Slots(), n, x, Pos(curr, lane));
          DigMemoryFail(Mem(), n, x, Pos(curr, lane));
          ok := false;
          return;
        }
        ghost var s := Slots();
        DigMemoryHop(Mem(), n, x, Pos(curr, lane), Pos(bucket, candidate));
        Relocate(bucket, candidate, curr, lane);
        MoveUpFull(s, n, home, Pos(bucket, candidate), Pos(curr, lane));
        DigHop(s, n, x, Pos(curr, lane), Pos(bucket, candidate));
        ResumeStep(states, Slots(), Dig(Slots(), n, x, Pos(bucket, candidate)));
        states := states + [Slots()];
        curr, lane := bucket, candidate;
      }
      DigStop(Slots(), n, x, Pos(curr, lane));
      DigMemoryStop(Mem(), n, x, Pos(curr, lane));
      DecodeItemTag(tag, x.fpt, curr - home);
      WriteTag(curr, lane, MakeTag(tag, curr - home));
      states := states + [Slots()];
      ok := true;
    }

    /** The packed probe of 16 buckets. */
    method LookupItem(home: nat, tag: Tag, ghost x: Item) returns (found: bool)
      requires Valid() && home < numBuckets && TagIs(tag, x.fpt) && x.home == home
      ensures found <==> Lookup(Slots(), numBuckets, x)
    {
      hide CellsOf, TagIs, HasValue16, MakeTag, Matches, Wrap, Slot;
      ghost var s := Slots();
      var prob := 0;
      while prob < MAX_PROBE
        invariant 0 <= prob <= MAX_PROBE
        invariant forall p: nat :: Probed(x, p) && p / 4 < home + prob ==> !Matches(s, numBuckets, x, p)
      {
        var word := buckets[(home + prob) % numBuckets];
        PackedProbe(buckets[..], x, tag, prob);
        if HasValue16(word, MakeTag(tag, prob)) != 0 {
          return true;
        }
        prob := prob + 1;
      }
      found := false;
    }

    method DeleteItem(home: nat, tag: Tag, ghost x: Item) returns (found: bool)
      requires Valid() && home < numBuckets && TagIs(tag, x.fpt) && x.home == home
      modifies `may, buckets
      ensures Valid() && (found <==> old(Lookup(Slots(), numBuckets, x)))
      ensures Slots() == Delete(old(Slots()), numBuckets, x)
      ensures Mem() == DeleteMemory(old(Mem()), numBuckets, x)
    {
      hide Filter.Slots, Wrap, Items, Decode, MakeTag, TagIs, Slot, FirstMatch, Matches, Store;
      ghost var n, s, m := numBuckets, Slots(), Mem();
      var prob := 0;
      while prob < MAX_PROBE
        invariant 0 <= prob <= MAX_PROBE && Valid() && Mem() == m
        invariant FirstMatch(s, n, x, 4 * home) == FirstMatch(s, n, x, 4 * (home + prob))
      {
        var lane := 0;
        while lane < SLOTS_PER_BUCKET
          invariant 0 <= lane <= SLOTS_PER_BUCKET && Valid() && Mem() == m
          invariant FirstMatch(s, n, x, 4 * home) == FirstMatch(s, n, x, 4 * (home + prob) + lane)
        {
          var t := ReadTag(home + prob, lane);
          ghost var p := Pos(home + prob, lane);
          MatchesTag(s, n, x, tag, prob, p, t);
          FirstMatchStep(s, n, x, p);
          if t == MakeTag(tag, prob) {
            DecodeZero();
            WriteTag(home + prob, lane, 0);
            return true;
          }
          lane := lane + 1;
        }
        prob := prob + 1;
      }
      found := false;
    }

    // ----- The operations on keys -----

    /** No store of an insert ever loses an item; a successful insert adds one copy of the key's
        item; a failed one leaves at most one item counted twice. */
    method InsertKey(key: bv64) returns (ok: bool, ghost states: seq<seq<Cell>>)
      requires Valid()
      modifies `may, buckets
      ensures Valid() && (ok ==> Contents() == old(Contents()) + multiset{KeyItem(key, numBuckets)})
      ensures !ok ==> Contents() == old(Contents()) || OneDuplicate(old(Contents()), Contents())
      ensures forall k :: 0 <= k < |states| ==> Wf(states[k], numBuckets) && old(Contents()) <= Items(states[k], numBuckets)
      ensures Slots() == if states == [] then old(Slots()) else states[|states| - 1]
      ensures Mem() == LastOf(old(Mem()), InsertMemory(old(Mem()), numBuckets, KeyItem(key, numBuckets)))
    {
      hide Filter.Slots, Insert, Items, KeyItem, KeyHome, KeyTag, TagIs, IsFpt;
      ghost var s0 := Slots();
      KeyItemParts(key, numBuckets);
      ok, states := InsertItem(KeyHome(key, numBuckets), KeyTag(key), KeyItem(key, numBuckets));
      InsertItems(s0, numBuckets, KeyItem(key, numBuckets));
    }

    method LookupKey(key: bv64) returns (found: bool)
      requires Valid()
      ensures found <==> KeyItem(key, numBuckets) in Contents()
    {
      hide Filter.Slots, Items, KeyItem, KeyHome, KeyTag, TagIs, IsFpt;
      KeyItemParts(key, numBuckets);
      found := LookupItem(KeyHome(key, numBuckets), KeyTag(key), KeyItem(key, numBuckets));
      LookupIff(Slots(), numBuckets, KeyItem(key, numBuckets));
    }

    method DeleteKey(key: bv64) returns (found: bool)
      requires Valid()
      modifies `may, buckets
      ensures Valid() && (found <==> KeyItem(key, numBuckets) in old(Contents()))
      ensures Mem() == DeleteMemory(old(Mem()), numBuckets, KeyItem(key, numBuckets))
      ensures Contents() == old(Contents()) - multiset{KeyItem(key, numBuckets)}
    {
      hide Filter.Slots, Items, KeyItem, KeyHome, KeyTag, TagIs, IsFpt, Delete;
      ghost var s := Slots();
      KeyItemParts(key, numBuckets);
      found := DeleteItem(KeyHome(key, numBuckets), KeyTag(key), KeyItem(key, numBuckets));
      DeleteItems(s, numBuckets, KeyItem(key, numBuckets));
      LookupIff(s, numBuckets, KeyItem(key, numBuckets));
    }
  }

  lemma LaneMatches(words: seq<Word>, x: Item, tag: Tag, prob: nat, j: nat)
    requires |words| >= 1 && x.home < |words| && TagIs(tag, x.fpt) && prob < MAX_PROBE && j < SLOTS_PER_BUCKET
    ensures Lane(words[(x.home + prob) % |words|], j) == MakeTag(tag, prob) <==>
            Matches(CellsOf(words), |words|, x, Pos(x.home + prob, j))
  {
    hide TagIs, MakeTag, Decode, Lane;
    var bucket := (x.home + prob) % |words|;
    WrapIsMod(x.home + prob, |words|);
    assert Slot(|words|, Pos(x.home + prob, j)) == Pos(bucket, j);
    assert CellsOf(words)[Pos(bucket, j)] == Decode(Lane(words[bucket], j));
    MatchTag(Lane(words[bucket], j), tag, x.fpt, prob);
  }

  /** The packed test of one bucket finds exactly the matching positions of that bucket. */
  lemma PackedProbe(words: seq<Word>, x: Item, tag: Tag, prob: nat)
    requires |words| >= 1 && x.home < |words| && TagIs(tag, x.fpt) && prob < MAX_PROBE
    ensures HasValue16(words[(x.home + prob) % |words|], MakeTag(tag, prob)) != 0 <==>
            exists p: nat :: Probed(x, p) && p / 4 == x.home + prob && Matches(CellsOf(words), |words|, x, p)
  {
    hide HasValue16, HasZero16, MakeTag, Decode, TagIs, Lane, CellsOf, Matches;
    var word := words[(x.home + prob) % |words|];
    HasValue16Iff(word, MakeTag(tag, prob));
    if j :| 0 <= j < SLOTS_PER_BUCKET && Lane(word, j) == MakeTag(tag, prob) {
      LaneMatches(words, x, tag, prob, j);
      assert Probed(x, Pos(x.home + prob, j));
    }
    if p: nat :| Probed(x, p) && p / 4 == x.home + prob && Matches(CellsOf(words), |words|, x, p) {
      LaneMatches(words, x, tag, prob, p % 4);
      assert p == Pos(x.home + prob, p % 4);
    }
  }

  /** Comparing tags is comparing what they say. */
  lemma MatchTag(t: Tag, tag: Tag, fpt: nat, prob: nat)
    requires TagIs(tag, fpt) && prob < MAX_PROBE
    ensures t == MakeTag(tag, prob) <==> Decode(t) == Used(fpt, prob)
  {
    DecodeMakeTag(tag, prob);
    if Decode(t) == Used(fpt, prob) {
      DecodeInjective(t, MakeTag(tag, prob));
    }
  }

  lemma MatchesTag(s: seq<Cell>, n: nat, x: Item, tag: Tag, prob: nat, p: nat, t: Tag)
    requires n >= 1 && |s| == 4 * n && TagIs(tag, x.fpt) && prob < MAX_PROBE
    requires p / 4 == x.home + prob && Decode(t) == s[Slot(n, p)]
    ensures Matches(s, n, x, p) <==> t == MakeTag(tag, prob)
  {
    MatchTag(t, tag, x.fpt, prob);
  }

  /** The outcome of a dig whose first stores were `done`. */
  ghost function Resume(done: seq<seq<Cell>>, rest: Outcome): Outcome {
    Outcome(done + rest.states, rest.ok)
  }

  /** One turn of the relocation loop is one unfolding of Dig. */
  lemma DigHop(s: seq<Cell>, n: nat, x: Item, p: nat, q: nat)
    requires n >= 1 && |s| == 4 * n && p / 4 >= x.home + MAX_PROBE
    requires q == FirstCandidate(s, n, p / 4, 4 * (p / 4 - (MAX_PROBE - 1))) && q < 4 * (p / 4)
    ensures Dig(s, n, x, p) == Resume([MoveUp(s, n, q, p)], Dig(MoveUp(s, n, q, p), n, x, q))
  {}

  lemma DigMemoryHop(m: Memory, n: nat, x: Item, p: nat, q: nat)
    requires n >= 1 && |m.slots| == 4 * n && |m.may| == n && p / 4 >= x.home + MAX_PROBE
    requires q == FirstCandidate(m.slots, n, p / 4, 4 * (p / 4 - (MAX_PROBE - 1))) && q < 4 * (p / 4)
    ensures var m' := Relocated(m, n, q, p); LastOf(m, DigMemory(m, n, x, p)) == LastOf(m', DigMemory(m', n, x, q))
  {
    hide Slot, Wrap, FirstCandidate, Relocated, Store;
  }

  lemma DigMemoryStop(m: Memory, n: nat, x: Item, p: nat)
    requires n >= 1 && |m.slots| == 4 * n && |m.may| == n && x.home <= p / 4 < x.home + MAX_PROBE
    ensures LastOf(m, DigMemory(m, n, x, p)) == Store(m, Slot(n, p), Used(x.fpt, p / 4 - x.home))
  {
    hide Slot, Wrap, FirstCandidate, Store;
  }

  lemma DigMemoryFail(m: Memory, n: nat, x: Item, p: nat)
    requires n >= 1 && |m.slots| == 4 * n && |m.may| == n && p / 4 >= x.home + MAX_PROBE
    requires FirstCandidate(m.slots, n, p / 4, 4 * (p / 4 - (MAX_PROBE - 1))) == 4 * (p / 4)
    ensures LastOf(m, DigMemory(m, n, x, p)) == m
  {
    hide Slot, Wrap, FirstCandidate, Relocated, Store;
  }

  lemma DigStop(s: seq<Cell>, n: nat, x: Item, p: nat)
    requires n >= 1 && |s| == 4 * n && x.home <= p / 4 < x.home + MAX_PROBE
    ensures Dig(s, n, x, p) == Outcome([s[Slot(n, p) := Used(x.fpt, p / 4 - x.home)]], true)
  {}

  lemma DigFail(s: seq<Cell>, n: nat, x: Item, p: nat)
    requires n >= 1 && |s| == 4 * n && p / 4 >= x.home + MAX_PROBE
    requires FirstCandidate(s, n, p / 4, 4 * (p / 4 - (MAX_PROBE - 1))) == 4 * (p / 4)
    ensures Dig(s, n, x, p) == Outcome([], false)
  {}

  lemma ResumeStep(done: seq<seq<Cell>>, s: seq<Cell>, rest: Outcome)
    ensures Resume(done, Resume([s], rest)) == Resume(done + [s], rest)
  {
    assert done + ([s] + rest.states) == done + [s] + rest.states;
  }

  lemma FirstEmptyStep(s: seq<Cell>, n: nat, p: nat, end: nat)
    requires n >= 1 && |s| == 4 * n && p < end
    ensures FirstEmpty(s, n, p, end) == if s[Slot(n, p)].Free? then p else FirstEmpty(s, n, p + 1, end)
  {}

  lemma ScanFull(s: seq<Cell>, n: nat, home: nat, p: nat)
    requires n >= 1 && |s| == 4 * n && p == FirstEmpty(s, n, 4 * home, 4 * (home + n))
    ensures Full(s, n, home, p)
  {
    FirstEmptyFull(s, n, 4 * home, 4 * (home + n));
  }

  lemma FirstMatchStep(s: seq<Cell>, n: nat, x: Item, p: nat)
    requires n >= 1 && |s| == 4 * n && Probed(x, p)
    ensures FirstMatch(s, n, x, p) == if Matches(s, n, x, p) then p else FirstMatch(s, n, x, p + 1)
  {}

  lemma FirstCandidateStep(s: seq<Cell>, n: nat, b: nat, q: nat)
    requires n >= 1 && |s| == 4 * n && q < 4 * b
    ensures FirstCandidate(s, n, b, q) == if Movable(s, n, b, q) then q else FirstCandidate(s, n, b, q + 1)
  {}

  ghost predicate TagIs(tag: Tag, fpt: nat) { IsFpt(tag) && fpt == tag as nat }

  lemma DecodeItemTag(tag: Tag, fpt: nat, d: nat)
    requires TagIs(tag, fpt) && d < MAX_PROBE
    ensures Decode(MakeTag(tag, d)) == Used(fpt, d)
  {
    DecodeMakeTag(tag, d);
  }

  lemma DecodeZeroIff(t: Tag) ensures t == 0 <==> Decode(t) == Free {}

  lemma DecodeZero() ensures Decode(0) == Free {}

  lemma ZeroLane(j: nat)
    requires j < SLOTS_PER_BUCKET
    ensures Decode(Lane(0, j)) == Free
  {}

  lemma NoItems(s: seq<Cell>, n: nat)
    requires n >= 1 && forall i :: 0 <= i < |s| ==> s[i] == Free
    ensures Items(s, n) == multiset{}
  {
    forall x: Item ensures x !in Items(s, n) {
      ItemsMember(s, n, x);
    }
    assert Items(s, n) == multiset{};
  }
}
