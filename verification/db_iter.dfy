/** DBIter: the user-facing cursor over an internal iterator that still holds old versions and deletions. */
module DbIter {
  import opened Wrappers
  import opened Entries
  import opened Files
  import opened Listings
  import MergingIter

  datatype Item = Item(key: UserKey, value: Value)

  // ----- The plain cursor: neighbours among the keys a read at the snapshot finds -----

  /** The part of the key space an operation looks in. */
  datatype Bound = All | AtLeast(k: UserKey) | Above(k: UserKey) | Below(k: UserKey)

  predicate Within(b: Bound, k: UserKey) {
    match b
    case All => true
    case AtLeast(x) => x <= k
    case Above(x) => x < k
    case Below(x) => k < x
  }

  ghost predicate Live(all: set<Entry>, s: nat, it: Item) { ReadIs(all, it.key, s, Found(it.value)) }

  ghost predicate Least(all: set<Entry>, s: nat, b: Bound, r: Option<Item>) {
    && (r.Some? ==> Live(all, s, r.value) && Within(b, r.value.key))
    && forall x :: Live(all, s, x) && Within(b, x.key) ==> r.Some? && r.value.key <= x.key
  }

  ghost predicate Greatest(all: set<Entry>, s: nat, b: Bound, r: Option<Item>) {
    && (r.Some? ==> Live(all, s, r.value) && Within(b, r.value.key))
    && forall x :: Live(all, s, x) && Within(b, x.key) ==> r.Some? && x.key <= r.value.key
  }

  datatype Op = SeekOp(target: UserKey) | FirstOp | LastOp | NextOp | PrevOp

  ghost predicate CursorStep(all: set<Entry>, s: nat, cur: Option<Item>, op: Op, cur': Option<Item>) {
    match op
    case SeekOp(t) => Least(all, s, AtLeast(t), cur')
    case FirstOp => Least(all, s, All, cur')
    case LastOp => Greatest(all, s, All, cur')
    case NextOp => cur.Some? && Least(all, s, Above(cur.value.key), cur')
    case PrevOp => cur.Some? && Greatest(all, s, Below(cur.value.key), cur')
  }

  /** The plain cursor leaves no choice: position and value are determined. */
  lemma CursorDeterministic(all: set<Entry>, s: nat, cur: Option<Item>, op: Op, r: Option<Item>, r': Option<Item>)
    requires Distinct(all) && CursorStep(all, s, cur, op, r) && CursorStep(all, s, cur, op, r')
    ensures r == r'
  {
    if r.Some? && r'.Some? {
      assert Live(all, s, r.value) && Live(all, s, r'.value);
      ReadFunctional(all, r.value.key, s, Found(r.value.value), Found(r'.value.value));
    }
  }

  /** Entries that answer every read at the snapshot alike show the same cursor. */
  lemma CursorSame(all: set<Entry>, all': set<Entry>, s: nat, cur: Option<Item>, op: Op, r: Option<Item>)
    requires forall x :: Live(all, s, x) <==> Live(all', s, x)
    ensures CursorStep(all, s, cur, op, r) <==> CursorStep(all', s, cur, op, r)
  {}

  // ----- Live keys by position -----

  predicate Shown(es: seq<Entry>, s: nat, i: nat) requires i < |es| { es[i].seqno <= s }

  /** Position i holds the newest shown entry of its key, and it is a value. */
  ghost predicate Yields(es: seq<Entry>, s: nat, i: nat)
    requires i < |es|
  {
    && Shown(es, s, i) && es[i].kind.Put?
    && forall j: nat :: j < i && Shown(es, s, j) ==> es[j].key != es[i].key
  }

  function ItemAt(es: seq<Entry>, i: nat): Item requires i < |es| { Item(es[i].key, es[i].value) }

  lemma YieldsLive(es: seq<Entry>, s: nat, i: nat)
    requires Sorted(es) && i < |es| && Yields(es, s, i)
    ensures Live(EntrySet(es), s, ItemAt(es, i))
  {
    var e := es[i];
    assert forall j: nat :: j < i ==> Shown(es, s, j) ==> es[j].key != e.key;
    forall x | x in EntrySet(es) && Visible(x, e.key, s) ensures Tag(x) <= Tag(e) {
      var j: nat :| 0 <= j < |es| && es[j] == x;
      assert Shown(es, s, j);
      assert j > i ==> Before(IKey(es[i]), IKey(es[j]));
    }
    assert IsNewest(EntrySet(es), e.key, s, e);
  }

  lemma LiveYields(es: seq<Entry>, s: nat, x: Item) returns (i: nat)
    requires Sorted(es) && Live(EntrySet(es), s, x)
    ensures i < |es| && Yields(es, s, i) && ItemAt(es, i) == x
  {
    var e :| IsNewest(EntrySet(es), x.key, s, e) && Found(x.value) == AnswerOf(e);
    i :| 0 <= i < |es| && es[i] == e;
    forall j: nat | j < i && Shown(es, s, j) ensures es[j].key != es[i].key {
      assert Before(IKey(es[j]), IKey(es[i]));
      assert es[j] in EntrySet(es);
    }
  }

  /** No position that yields lies within the bound, apart from those in [from, to). */
  ghost predicate NoneOutside(es: seq<Entry>, s: nat, b: Bound, from: int, to: int) {
    forall j: nat :: j < |es| && !(from <= j < to) && Within(b, es[j].key) ==> !Yields(es, s, j)
  }

  lemma NothingFound(es: seq<Entry>, s: nat, b: Bound)
    requires Sorted(es) && NoneOutside(es, s, b, 0, 0)
    ensures Least(EntrySet(es), s, b, None) && Greatest(EntrySet(es), s, b, None)
  {
    forall x | Live(EntrySet(es), s, x) && Within(b, x.key) ensures false {
      var i := LiveYields(es, s, x);
    }
  }

  lemma FoundLeast(es: seq<Entry>, s: nat, b: Bound, i: nat)
    requires Sorted(es) && i < |es| && Yields(es, s, i) && Within(b, es[i].key) && NoneOutside(es, s, b, i, |es|)
    ensures Least(EntrySet(es), s, b, Some(ItemAt(es, i)))
  {
    YieldsLive(es, s, i);
    forall x | Live(EntrySet(es), s, x) && Within(b, x.key) ensures es[i].key <= x.key {
      var j := LiveYields(es, s, x);
      KeysAscend(es, i, j);
    }
  }

  lemma FoundGreatest(es: seq<Entry>, s: nat, b: Bound, i: nat)
    requires Sorted(es) && i < |es| && Yields(es, s, i) && Within(b, es[i].key) && NoneOutside(es, s, b, 0, i + 1)
    ensures Greatest(EntrySet(es), s, b, Some(ItemAt(es, i)))
  {
    YieldsLive(es, s, i);
    forall x | Live(EntrySet(es), s, x) && Within(b, x.key) ensures x.key <= es[i].key {
      var j := LiveYields(es, s, x);
      KeysAscend(es, j, i);
    }
  }

  // ----- The scans -----

  /** Going forward, before position p: nothing missed, and every entry from p on that must be passed over
      has a key the scan is skipping. */
  ghost predicate ForwardScan(es: seq<Entry>, s: nat, b: Bound, p: nat, skip: Option<UserKey>) {
    && p <= |es| && NoneOutside(es, s, b, p, |es|)
    && (forall j: nat :: p <= j < |es| && Shown(es, s, j) ==> ForwardEntry(es, s, b, p, skip, j))
  }

  ghost predicate ForwardEntry(es: seq<Entry>, s: nat, b: Bound, p: nat, skip: Option<UserKey>, j: nat)
    requires p <= j < |es|
  {
    && (skip.Some? ==> skip.value <= es[j].key)
    && (if skip.Some? && es[j].key <= skip.value
        then !Yields(es, s, j) || !Within(b, es[j].key)
        else Within(b, es[j].key) && forall i: nat :: i < p && Shown(es, s, i) ==> es[i].key != es[j].key)
  }

  predicate Hidden(es: seq<Entry>, p: nat, skip: Option<UserKey>)
    requires p < |es|
  {
    skip.Some? && es[p].key <= skip.value
  }

  lemma ForwardAccept(es: seq<Entry>, s: nat, b: Bound, p: nat, skip: Option<UserKey>)
    requires Sorted(es) && p < |es| && ForwardScan(es, s, b, p, skip)
    requires Shown(es, s, p) && es[p].kind.Put? && !Hidden(es, p, skip)
    ensures Yields(es, s, p) && Least(EntrySet(es), s, b, Some(ItemAt(es, p)))
  {
    assert ForwardEntry(es, s, b, p, skip, p);
    FoundLeast(es, s, b, p);
  }

  lemma ForwardPass(es: seq<Entry>, s: nat, b: Bound, p: nat, skip: Option<UserKey>)
    requires Sorted(es) && p < |es| && ForwardScan(es, s, b, p, skip)
    requires !Shown(es, s, p) || (es[p].kind.Put? && Hidden(es, p, skip))
    ensures ForwardScan(es, s, b, p + 1, skip)
  {
    assert Shown(es, s, p) ==> ForwardEntry(es, s, b, p, skip, p);
    forall j: nat | p < j < |es| && Shown(es, s, j) ensures ForwardEntry(es, s, b, p + 1, skip, j) {
      assert ForwardEntry(es, s, b, p, skip, j);
    }
  }

  lemma ForwardDeletion(es: seq<Entry>, s: nat, b: Bound, p: nat, skip: Option<UserKey>)
    requires Sorted(es) && p < |es| && ForwardScan(es, s, b, p, skip) && !b.Below?
    requires Shown(es, s, p) && es[p].kind.Deletion?
    ensures ForwardScan(es, s, b, p + 1, Some(es[p].key))
  {
    assert ForwardEntry(es, s, b, p, skip, p);
    forall j: nat | p < j < |es| && Shown(es, s, j) ensures ForwardEntry(es, s, b, p + 1, Some(es[p].key), j) {
      assert ForwardEntry(es, s, b, p, skip, j);
      KeysAscend(es, p, j);
    }
  }

  lemma ForwardEnd(es: seq<Entry>, s: nat, b: Bound, skip: Option<UserKey>)
    requires Sorted(es) && ForwardScan(es, s, b, |es|, skip)
    ensures Least(EntrySet(es), s, b, None)
  {
    NothingFound(es, s, b);
  }

  /** Going back, with everything above p dealt with: `d` is the last value seen and not overruled so far. */
  ghost predicate BackwardScan(es: seq<Entry>, s: nat, b: Bound, p: int, d: Option<nat>) {
    && -1 <= p < |es|
    && (forall j: nat :: j <= p ==> Within(b, es[j].key))
    && (d.None? ==> NoneOutside(es, s, b, 0, p + 1))
    && (d.Some? ==> BackwardHit(es, s, b, p, d.value))
  }

  ghost predicate BackwardHit(es: seq<Entry>, s: nat, b: Bound, p: int, d: nat) {
    && p < d < |es| && Shown(es, s, d) && es[d].kind.Put? && Within(b, es[d].key)
    && NoneOutside(es, s, b, 0, d + 1)
    && (forall j: nat :: p < j < d ==> !Shown(es, s, j))
  }

  lemma BackwardPass(es: seq<Entry>, s: nat, b: Bound, p: nat, d: Option<nat>)
    requires BackwardScan(es, s, b, p, d) && !Shown(es, s, p)
    ensures BackwardScan(es, s, b, p - 1, d)
  {}

  lemma BackwardDeletion(es: seq<Entry>, s: nat, b: Bound, p: nat, d: Option<nat>)
    requires BackwardScan(es, s, b, p, d) && Shown(es, s, p) && es[p].kind.Deletion?
    requires d.Some? ==> es[p].key == es[d.value].key
    ensures BackwardScan(es, s, b, p - 1, None)
  {}

  lemma BackwardValue(es: seq<Entry>, s: nat, b: Bound, p: nat, d: Option<nat>)
    requires BackwardScan(es, s, b, p, d) && Shown(es, s, p) && es[p].kind.Put?
    requires d.Some? ==> es[p].key == es[d.value].key
    ensures BackwardScan(es, s, b, p - 1, Some(p))
  {}

  lemma BackwardAccept(es: seq<Entry>, s: nat, b: Bound, p: int, d: nat)
    requires Sorted(es) && BackwardScan(es, s, b, p, Some(d)) && (p >= 0 ==> es[p].key < es[d].key)
    ensures Yields(es, s, d) && Greatest(EntrySet(es), s, b, Some(ItemAt(es, d))) && Behind(es, s, p, es[d].key)
  {
    forall j: nat | j < d && Shown(es, s, j) ensures es[j].key != es[d].key {
      if j <= p {
        KeysAscend(es, j, p);
      }
    }
    forall j: nat | p < j < |es| && Shown(es, s, j) ensures es[j].key >= es[d].key {
      KeysAscend(es, d, j);
    }
    FoundGreatest(es, s, b, d);
  }

  lemma BackwardEnd(es: seq<Entry>, s: nat, b: Bound)
    requires Sorted(es) && BackwardScan(es, s, b, -1, None)
    ensures Greatest(EntrySet(es), s, b, None)
  {
    NothingFound(es, s, b);
  }

  /** Where a reverse cursor at key k leaves its inner iterator: just before the shown entries of k. */
  ghost predicate Behind(es: seq<Entry>, s: nat, p: int, k: UserKey) {
    && -1 <= p < |es| && (p >= 0 ==> es[p].key < k)
    && forall j: nat :: p < j < |es| && Shown(es, s, j) ==> es[j].key >= k
  }

  lemma NextForward(es: seq<Entry>, s: nat, p: nat)
    requires Sorted(es) && p < |es|
    ensures ForwardScan(es, s, Above(es[p].key), p + 1, Some(es[p].key))
  {
    var k := es[p].key;
    forall j: nat | j <= p ensures es[j].key <= k { KeysAscend(es, j, p); }
    forall j: nat | p < j < |es| && Shown(es, s, j) ensures ForwardEntry(es, s, Above(k), p + 1, Some(k), j) {
      KeysAscend(es, p, j);
    }
  }

  lemma NextReversed(es: seq<Entry>, s: nat, p: int, k: UserKey)
    requires Sorted(es) && Behind(es, s, p, k)
    ensures ForwardScan(es, s, Above(k), p + 1, Some(k))
  {
    forall j: nat | j <= p ensures es[j].key < k { KeysAscend(es, j, p); }
    forall j: nat | p < j < |es| && Shown(es, s, j) ensures ForwardEntry(es, s, Above(k), p + 1, Some(k), j) {
    }
  }

  lemma SeekStart(es: seq<Entry>, s: nat, t: UserKey, p: nat)
    requires Sorted(es) && p <= |es|
    requires forall j: nat :: j < p ==> Before(IKey(es[j]), SeekKey(t, s))
    requires forall j: nat :: p <= j < |es| ==> AtOrBefore(SeekKey(t, s), IKey(es[j]))
    ensures ForwardScan(es, s, AtLeast(t), p, None)
  {
    forall j: nat | j < p && Shown(es, s, j) ensures es[j].key < t { }
    forall j: nat | p <= j < |es| && Shown(es, s, j) ensures ForwardEntry(es, s, AtLeast(t), p, None, j) {
      assert es[j].key >= t;
    }
  }

  lemma PrevReversed(es: seq<Entry>, s: nat, p: int, k: UserKey)
    requires Sorted(es) && Behind(es, s, p, k)
    ensures BackwardScan(es, s, Below(k), p, None)
  {
    forall j: nat | j <= p ensures es[j].key < k { KeysAscend(es, j, p); }
  }

  // ----- The iterator -----

  datatype Direction = Forward | Reverse

  /** DBIter over the merging iterator.  `es` lists the merged entries and `pos` is where the inner iterator
      stands in the list; both are for the proof only. */
  class Iter {
    const inner: MergingIter.Iter
    const s: nat
    var savedKey: Option<UserKey>
    var savedValue: Value
    var direction: Direction
    var valid: bool
    ghost const es: seq<Entry>
    ghost var pos: Option<nat>

    /** The inner iterator stands at position `pos` of the list. */
    ghost predicate Linked() reads this, inner { MergingIter.Follows(inner, es, pos) }

    ghost predicate Ok() reads this, inner {
      && Linked()
      && (valid && direction.Forward? ==> pos.Some? && Yields(es, s, pos.value))
      && (valid && direction.Reverse? ==> savedKey.Some? && Behind(es, s, At(pos), savedKey.value))
    }

    predicate InnerValid()
      requires Linked()
      reads this, inner
      ensures InnerValid() <==> pos.Some?
    {
      inner.current.Some?
    }

    function InnerEntry(): (e: Entry)
      requires Linked() && pos.Some?
      reads this, inner
      ensures pos.value < |es| && e == es[pos.value]
    {
      inner.Current().value
    }

    function Key(): UserKey
      requires Ok() && valid
      reads this, inner
    {
      if direction.Forward? then InnerEntry().key else savedKey.value
    }

    function Current(): Option<Item>
      requires Ok()
      reads this, inner
    {
      if !valid then None else Some(Item(Key(), if direction.Forward? then InnerEntry().value else savedValue))
    }

    constructor (merged: MergingIter.Iter, snapshot: nat)
      requires merged.Ok() && merged.Current() == None
      ensures Ok() && Current() == None && inner == merged && s == snapshot && EntrySet(es) == MergingIter.AllEntries(merged.kids)
    {
      inner, s := merged, snapshot;
      savedKey, savedValue, direction, valid := None, "", Forward, false;
      ghost var list := MergingIter.ListingOf(merged.kids);
      es, pos := list, None;
    }

    // ----- Moves of the inner iterator -----

    method MoveNext()
      requires Linked() && pos.Some?
      modifies inner, `pos
      ensures Linked() && pos == NextIndex(es, old(pos.value))
    {
      hide MergingIter.Follows;
      MergingIter.WalkNext(inner, es, pos.value);
      pos := NextIndex(es, pos.value);
    }

    method MovePrev()
      requires Linked() && pos.Some?
      modifies inner, `pos
      ensures Linked() && pos == PrevIndex(old(pos.value))
    {
      hide MergingIter.Follows;
      MergingIter.WalkPrev(inner, es, pos.value);
      pos := PrevIndex(pos.value);
    }

    method MoveToFirst()
      requires Linked()
      modifies inner, `pos
      ensures Linked() && pos == FirstIndex(es)
    {
      hide MergingIter.Follows;
      MergingIter.WalkToFirst(inner, es, pos);
      pos := FirstIndex(es);
    }

    method MoveToLast()
      requires Linked()
      modifies inner, `pos
      ensures Linked() && pos == LastIndex(es)
    {
      hide MergingIter.Follows;
      MergingIter.WalkToLast(inner, es, pos);
      pos := LastIndex(es);
    }

    method MoveTo(target: InternalKey)
      requires Linked()
      modifies inner, `pos
      ensures Linked() && pos == if SeekPoint(es, target) < |es| then Some(SeekPoint(es, target)) else None
    {
      hide MergingIter.Follows;
      MergingIter.WalkTo(inner, es, pos, target);
      pos := if SeekPoint(es, target) < |es| then Some(SeekPoint(es, target)) else None;
    }

    // ----- The operations -----

    method FindNextUserEntry(skip: Option<UserKey>, ghost b: Bound)
      requires Linked() && direction.Forward? && pos.Some?
      requires ForwardScan(es, s, b, pos.value, skip) && !b.Below?
      modifies this, inner
      ensures Ok() && Least(EntrySet(es), s, b, Current())
    {
      hide Sorted, ForwardScan, Least, Yields, Behind, MergingIter.Follows;
      Listed();
      savedKey := skip;
      while true
        invariant Linked() && direction.Forward? && pos.Some? && ForwardScan(es, s, b, pos.value, savedKey)
        decreases |es| - pos.value
      {
        ghost var p := pos.value;
        var e := InnerEntry();
        if e.seqno <= s {
          if e.kind.Deletion? {
            ForwardDeletion(es, s, b, p, savedKey);
            savedKey := Some(e.key);
          } else if savedKey.Some? && e.key <= savedKey.value {
            ForwardPass(es, s, b, p, savedKey);
          } else {
            ForwardAccept(es, s, b, p, savedKey);
            valid := true;
            savedKey := None;
            return;
          }
        } else {
          ForwardPass(es, s, b, p, savedKey);
        }
        MoveNext();
        if !InnerValid() {
          break;
        }
      }
      ForwardEnd(es, s, b, savedKey);
      savedKey, valid := None, false;
    }

    method FindPrevUserEntry(ghost b: Bound)
      requires Linked() && direction.Reverse? && BackwardScan(es, s, b, At(pos), None)
      modifies this, inner
      ensures Ok() && Greatest(EntrySet(es), s, b, Current())
    {
      hide Sorted, BackwardScan, Greatest, Yields, Behind, MergingIter.Follows;
      Listed();
      var kind := Deletion;
      ghost var d: Option<nat> := None;
      while InnerValid()
        invariant Linked() && direction.Reverse?
        invariant kind.Put? <==> d.Some?
        invariant d.Some? ==> d.value < |es| && savedKey == Some(es[d.value].key) && savedValue == es[d.value].value
        invariant BackwardScan(es, s, b, At(pos), d)
        decreases At(pos)
      {
        ghost var p := pos.value;
        var e := InnerEntry();
        if e.seqno <= s {
          if kind.Put? && e.key < savedKey.value {
            break;
          }
          SameKeyAs(es, s, b, p, d);
          kind := e.kind;
          if kind.Deletion? {
            BackwardDeletion(es, s, b, p, d);
            savedKey, savedValue, d := None, "", None;
          } else {
            BackwardValue(es, s, b, p, d);
            savedKey, savedValue, d := Some(e.key), e.value, Some(p);
          }
        } else {
          BackwardPass(es, s, b, p, d);
        }
        MovePrev();
      }
      if kind.Deletion? {
        BackwardEnd(es, s, b);
        valid, savedKey, savedValue, direction := false, None, "", Forward;
      } else {
        BackwardAccept(es, s, b, At(pos), d.value);
        valid := true;
      }
    }

    method Next()
      requires Ok() && valid
      modifies this, inner
      ensures Ok() && Least(EntrySet(es), s, Above(old(Key())), Current())
    {
      hide Sorted, ForwardScan, Least, Yields, Behind, MergingIter.Follows;
      Listed();
      ghost var k := Key();
      if direction.Reverse? {
        direction := Forward;
        NextReversed(es, s, At(pos), k);
        if !InnerValid() {
          MoveToFirst();
        } else {
          MoveNext();
        }
      } else {
        NextForward(es, s, pos.value);
        savedKey := Some(InnerEntry().key);
        MoveNext();
      }
      if !InnerValid() {
        ForwardEnd(es, s, Above(k), savedKey);
        valid, savedKey := false, None;
        return;
      }
      FindNextUserEntry(savedKey, Above(k));
    }

    method Prev()
      requires Ok() && valid
      modifies this, inner
      ensures Ok() && Greatest(EntrySet(es), s, Below(old(Key())), Current())
    {
      hide Sorted, BackwardScan, Greatest, Yields, Behind, MergingIter.Follows;
      Listed();
      ghost var k := Key();
      if direction.Forward? {
        savedKey := Some(InnerEntry().key);
        NotBelow(es, pos.value);
        while true
          invariant Linked() && direction.Forward? && savedKey == Some(k) && pos.Some? && AllFrom(es, pos.value, k)
          decreases pos.value
        {
          MovePrev();
          if !InnerValid() {
            NoneBelow(es, s, k);
            valid, savedKey, savedValue := false, None, "";
            return;
          }
          if InnerEntry().key < savedKey.value {
            break;
          }
        }
        direction := Reverse;
        BehindFirst(es, s, pos.value, k);
      }
      PrevReversed(es, s, At(pos), k);
      FindPrevUserEntry(Below(k));
    }

    method Seek(target: UserKey)
      requires Ok()
      modifies this, inner
      ensures Ok() && Least(EntrySet(es), s, AtLeast(target), Current())
    {
      hide Sorted, ForwardScan, Least, Yields, Behind, MergingIter.Follows;
      Listed();
      direction, savedValue, savedKey := Forward, "", None;
      MoveTo(SeekKey(target, s));
      SeekSplits(es, SeekKey(target, s));
      SeekStart(es, s, target, SeekPoint(es, SeekKey(target, s)));
      if InnerValid() {
        FindNextUserEntry(None, AtLeast(target));
      } else {
        ForwardEnd(es, s, AtLeast(target), None);
        valid := false;
      }
    }

    method SeekToFirst()
      requires Ok()
      modifies this, inner
      ensures Ok() && Least(EntrySet(es), s, All, Current())
    {
      hide Sorted, Least, Yields, Behind, MergingIter.Follows;
      Listed();
      direction, savedValue := Forward, "";
      MoveToFirst();
      if InnerValid() {
        FindNextUserEntry(None, All);
      } else {
        NothingFound(es, s, All);
        valid := false;
      }
    }

    method SeekToLast()
      requires Ok()
      modifies this, inner
      ensures Ok() && Greatest(EntrySet(es), s, All, Current())
    {
      hide Sorted, Greatest, Yields, Behind, MergingIter.Follows;
      Listed();
      direction, savedValue := Reverse, "";
      MoveToLast();
      FindPrevUserEntry(All);
    }

    lemma Listed()
      requires Linked()
      ensures Sorted(es) && (pos.Some? ==> pos.value < |es|)
    {}
  }

  /** From position p on, no key is below k. */
  ghost predicate AllFrom(es: seq<Entry>, p: nat, k: UserKey) { forall j: nat :: p <= j < |es| ==> es[j].key >= k }

  lemma NotBelow(es: seq<Entry>, p: nat)
    requires Sorted(es) && p < |es|
    ensures AllFrom(es, p, es[p].key)
  {
    forall j: nat | p <= j < |es| ensures es[j].key >= es[p].key { KeysAscend(es, p, j); }
  }

  lemma NoneBelow(es: seq<Entry>, s: nat, k: UserKey)
    requires Sorted(es) && AllFrom(es, 0, k)
    ensures Greatest(EntrySet(es), s, Below(k), None)
  {
    NothingFound(es, s, Below(k));
  }

  lemma BehindFirst(es: seq<Entry>, s: nat, p: nat, k: UserKey)
    requires p < |es| && AllFrom(es, p + 1, k) && es[p].key < k
    ensures Behind(es, s, p, k)
  {}

  /** A whole run of the plain cursor: what it shows after each operation. */
  ghost predicate CursorRun(all: set<Entry>, s: nat, cur: Option<Item>, ops: seq<Op>, seen: seq<Option<Item>>) {
    |ops| == |seen| && forall i: nat :: i < |ops| ==> StepAt(all, s, cur, ops, seen, i)
  }

  ghost predicate StepAt(all: set<Entry>, s: nat, cur: Option<Item>, ops: seq<Op>, seen: seq<Option<Item>>, i: nat)
    requires i < |ops| == |seen|
  {
    CursorStep(all, s, Shows(cur, seen, i), ops[i], seen[i])
  }

  function Shows(cur: Option<Item>, seen: seq<Option<Item>>, i: nat): Option<Item>
    requires i <= |seen|
  {
    if i == 0 then cur else seen[i - 1]
  }

  lemma {:induction false} RunDeterministic(all: set<Entry>, s: nat, cur: Option<Item>, ops: seq<Op>, seen: seq<Option<Item>>,
                                            seen': seq<Option<Item>>)
    requires Distinct(all) && CursorRun(all, s, cur, ops, seen) && CursorRun(all, s, cur, ops, seen')
    ensures seen == seen'
    decreases |ops|
  {
    if ops != [] {
      hide CursorStep, Distinct;
      var n := |ops| - 1;
      RunPrefix(all, s, cur, ops, seen, n);
      RunPrefix(all, s, cur, ops, seen', n);
      RunDeterministic(all, s, cur, ops[..n], seen[..n], seen'[..n]);
      assert StepAt(all, s, cur, ops, seen, n) && StepAt(all, s, cur, ops, seen', n);
      assert Shows(cur, seen, n) == Shows(cur, seen[..n], n) == Shows(cur, seen', n);
      CursorDeterministic(all, s, Shows(cur, seen, n), ops[n], seen[n], seen'[n]);
      assert seen == seen[..n] + [seen[n]] && seen' == seen'[..n] + [seen'[n]];
    }
  }

  lemma RunPrefix(all: set<Entry>, s: nat, cur: Option<Item>, ops: seq<Op>, seen: seq<Option<Item>>, n: nat)
    requires CursorRun(all, s, cur, ops, seen) && n <= |ops|
    ensures CursorRun(all, s, cur, ops[..n], seen[..n])
  {
    hide CursorStep;
    forall i: nat | i < n ensures StepAt(all, s, cur, ops[..n], seen[..n], i) {
      assert StepAt(all, s, cur, ops, seen, i);
      assert Shows(cur, seen[..n], i) == Shows(cur, seen, i);
    }
  }

  predicate Legal(op: Op, cur: Option<Item>) { op.NextOp? || op.PrevOp? ==> cur.Some? }

  /** Any mix of operations shows exactly what the plain cursor shows; it stops only at a Next or Prev
      asked of a cursor that is not at any key. */
  method Drive(it: Iter, ops: seq<Op>) returns (seen: seq<Option<Item>>)
    requires it.Ok()
    modifies it, it.inner
    ensures it.Ok() && |seen| <= |ops| && CursorRun(EntrySet(it.es), it.s, old(it.Current()), ops[..|seen|], seen)
    ensures it.Current() == Shows(old(it.Current()), seen, |seen|)
    ensures |seen| < |ops| ==> !Legal(ops[|seen|], it.Current())
  {
    hide Least, Greatest, Sorted, Yields, Behind, MergingIter.Follows;
    seen := [];
    ghost var start := it.Current();
    while |seen| < |ops| && Legal(ops[|seen|], it.Current())
      invariant it.Ok() && |seen| <= |ops| && it.Current() == Shows(start, seen, |seen|)
      invariant CursorRun(EntrySet(it.es), it.s, start, ops[..|seen|], seen)
      decreases |ops| - |seen|
    {
      match ops[|seen|] {
        case SeekOp(t) => it.Seek(t);
        case FirstOp => it.SeekToFirst();
        case LastOp => it.SeekToLast();
        case NextOp => it.Next();
        case PrevOp => it.Prev();
      }
      RunExtends(EntrySet(it.es), it.s, start, ops, seen, it.Current());
      seen := seen + [it.Current()];
    }
  }

  lemma RunExtends(all: set<Entry>, s: nat, cur: Option<Item>, ops: seq<Op>, seen: seq<Option<Item>>, next: Option<Item>)
    requires |seen| < |ops| && CursorRun(all, s, cur, ops[..|seen|], seen)
    requires CursorStep(all, s, Shows(cur, seen, |seen|), ops[|seen|], next)
    ensures CursorRun(all, s, cur, ops[..|seen + [next]|], seen + [next])
  {
    hide CursorStep;
    var ops', seen' := ops[..|seen| + 1], seen + [next];
    forall i: nat | i < |ops'| ensures StepAt(all, s, cur, ops', seen', i) {
      assert Shows(cur, seen', i) == Shows(cur, seen, i);
      if i < |seen| {
        assert ops[..|seen|][i] == ops'[i];
        assert StepAt(all, s, cur, ops[..|seen|], seen, i);
      }
    }
  }

  lemma {:induction false} RunSame(all: set<Entry>, all': set<Entry>, s: nat, cur: Option<Item>, ops: seq<Op>, seen: seq<Option<Item>>)
    requires CursorRun(all, s, cur, ops, seen) && forall x :: Live(all, s, x) <==> Live(all', s, x)
    ensures CursorRun(all', s, cur, ops, seen)
  {
    hide CursorStep, Live;
    forall i: nat | i < |ops| ensures StepAt(all', s, cur, ops, seen, i) {
      assert StepAt(all, s, cur, ops, seen, i);
      CursorSame(all, all', s, Shows(cur, seen, i), ops[i], seen[i]);
    }
  }

  lemma SameKeyAs(es: seq<Entry>, s: nat, b: Bound, p: nat, d: Option<nat>)
    requires Sorted(es) && BackwardScan(es, s, b, p, d)
    ensures d.Some? ==> es[p].key <= es[d.value].key
  {
    if d.Some? {
      KeysAscend(es, p, d.value);
    }
  }
}
