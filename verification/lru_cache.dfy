/** One shard of the LRU cache: reference counts, the two lists, the charge in use and the hash table. */
module LruCaches {
  import opened Wrappers
  import opened HandleTables

  /** `refs` counts the clients' handles and, while inCache, the cache's own reference. */
  datatype Handle = Handle(key: Key, charge: nat, refs: nat, inCache: bool)

  /** `lru` is oldest first; `clients` are the handles given out and not released; `freed` those passed to
      their deleter. */
  datatype State = State(
    usage: int,
    lru: seq<Id>,
    inUse: seq<Id>,
    handles: map<Id, Handle>,
    table: map<Key, Id>,
    clients: multiset<Id>,
    freed: set<Id>)

  // ----- Lists -----

  ghost predicate NoDup(ids: seq<Id>) { forall i, j :: 0 <= i < j < |ids| ==> ids[i] != ids[j] }

  /** The list with an element unlinked. */
  function Without(ids: seq<Id>, id: Id): seq<Id> {
    if ids == [] then [] else if ids[0] == id then ids[1..] else [ids[0]] + Without(ids[1..], id)
  }

  lemma {:induction false} WithoutAbsent(ids: seq<Id>, id: Id)
    requires id !in ids
    ensures Without(ids, id) == ids
    decreases |ids|
  {
    if ids != [] {
      WithoutAbsent(ids[1..], id);
    }
  }

  lemma {:induction false} WithoutMember(ids: seq<Id>, id: Id)
    requires NoDup(ids)
    ensures NoDup(Without(ids, id)) && forall x :: x in Without(ids, id) <==> x in ids && x != id
    decreases |ids|
  {
    if ids != [] {
      var rest := ids[1..];
      assert NoDup(rest) && ids[0] !in rest && forall x :: x in ids <==> x == ids[0] || x in rest;
      WithoutMember(rest, id);
      if ids[0] != id {
        Consed(ids[0], Without(rest, id));
      }
    }
  }

  lemma Consed(x: Id, ids: seq<Id>)
    requires NoDup(ids) && x !in ids
    ensures NoDup([x] + ids)
  {}

  lemma Appended(ids: seq<Id>, x: Id)
    requires NoDup(ids) && x !in ids
    ensures NoDup(ids + [x]) && forall y :: y in ids + [x] <==> y == x || y in ids
  {}

  function Sum(handles: map<Id, Handle>, ids: seq<Id>): nat
    requires forall id :: id in ids ==> id in handles
  {
    if ids == [] then 0 else handles[ids[0]].charge + Sum(handles, ids[1..])
  }

  lemma {:induction false} SumWithout(handles: map<Id, Handle>, ids: seq<Id>, id: Id)
    requires (forall x :: x in ids ==> x in handles) && id in ids
    ensures forall x :: x in Without(ids, id) ==> x in handles
    ensures Sum(handles, Without(ids, id)) + handles[id].charge == Sum(handles, ids)
    decreases |ids|
  {
    if ids[0] != id {
      SumWithout(handles, ids[1..], id);
      var w := Without(ids[1..], id);
      assert ([ids[0]] + w)[1..] == w;
    }
  }

  lemma {:induction false} SumAppend(handles: map<Id, Handle>, ids: seq<Id>, id: Id)
    requires (forall x :: x in ids ==> x in handles) && id in handles
    ensures Sum(handles, ids + [id]) == Sum(handles, ids) + handles[id].charge
    decreases |ids|
  {
    if ids == [] {
      assert [id][1..] == [];
    } else {
      SumAppend(handles, ids[1..], id);
      assert (ids + [id])[1..] == ids[1..] + [id];
    }
  }

  /** Only the charges matter. */
  lemma {:induction false} SumSame(handles: map<Id, Handle>, handles': map<Id, Handle>, ids: seq<Id>)
    requires forall x :: x in ids ==> x in handles && x in handles' && handles'[x].charge == handles[x].charge
    ensures Sum(handles', ids) == Sum(handles, ids)
    decreases |ids|
  {
    if ids != [] {
      SumSame(handles, handles', ids[1..]);
    }
  }

  // ----- The invariant -----

  ghost predicate Lists(s: State) {
    && NoDup(s.lru) && NoDup(s.inUse)
    && (forall id :: id in s.lru <==> id in s.handles && s.handles[id].inCache && s.handles[id].refs == 1)
    && (forall id :: id in s.inUse <==> id in s.handles && s.handles[id].inCache && s.handles[id].refs >= 2)
  }

  /** Every reference is accounted for: clients, the cache's own, and those about to be dropped. */
  ghost predicate Counts(s: State, dropping: multiset<Id>) {
    && (forall id :: id in s.handles ==> CountOk(s, dropping, id))
    && (forall id :: id in s.clients || id in dropping ==> id in s.handles)
    && (forall id :: id in s.freed ==> id !in s.handles)
  }

  ghost predicate CountOk(s: State, dropping: multiset<Id>, id: Id)
    requires id in s.handles
  {
    var h := s.handles[id];
    h.refs == s.clients[id] + dropping[id] + (if h.inCache then 1 else 0) && h.refs >= 1
  }

  ghost predicate Charged(s: State)
    requires Lists(s)
  {
    s.usage == Sum(s.handles, s.lru) + Sum(s.handles, s.inUse)
  }

  /** The table maps exactly the cached keys, apart from an entry that was just taken out of it. */
  ghost predicate Tabled(s: State, loose: Option<Id>) {
    && (forall id :: id in s.handles && s.handles[id].inCache && loose != Some(id) ==> KeyOf(s, id))
    && (forall k :: k in s.table ==>
          s.table[k] in s.handles && s.handles[s.table[k]].inCache && s.handles[s.table[k]].key == k && loose != Some(s.table[k]))
  }

  ghost predicate KeyOf(s: State, id: Id)
    requires id in s.handles
  {
    s.handles[id].key in s.table && s.table[s.handles[id].key] == id
  }

  ghost predicate Inv(s: State, dropping: multiset<Id>, loose: Option<Id>) {
    Lists(s) && Counts(s, dropping) && Charged(s) && Tabled(s, loose)
  }

  // ----- Single transitions -----

  function WithRefs(handles: map<Id, Handle>, id: Id, refs: nat): map<Id, Handle>
    requires id in handles
  {
    handles[id := handles[id].(refs := refs)]
  }

  /** Ref: another client handle. */
  function Ref(s: State, id: Id): State
    requires id in s.handles
  {
    var h := s.handles[id];
    var s1 := if h.refs == 1 && h.inCache then s.(lru := Without(s.lru, id), inUse := s.inUse + [id]) else s;
    s1.(handles := WithRefs(s.handles, id, h.refs + 1), clients := s.clients + multiset{id})
  }

  lemma RefKeeps(s: State, id: Id)
    requires Inv(s, multiset{}, None) && id in s.handles
    ensures Inv(Ref(s, id), multiset{}, None)
  {
    assert CountOk(s, multiset{}, id);
    RefLists(s, id);
    RefCharge(s, id);
    RefCounts(s, id);
    RefTabled(s, id);
    hide Lists, Charged, Counts, Tabled, Ref;
  }

  lemma RefLists(s: State, id: Id)
    requires Lists(s) && id in s.handles && s.handles[id].refs >= 1
    ensures Lists(Ref(s, id))
  {
    WithoutMember(s.lru, id);
    WithoutMember(s.inUse, id);
    if id in s.lru {
      Appended(s.inUse, id);
    }
  }

  lemma RefCounts(s: State, id: Id)
    requires Counts(s, multiset{}) && id in s.handles && CountOk(s, multiset{}, id)
    ensures Counts(Ref(s, id), multiset{})
  {
    var s' := Ref(s, id);
    hide Without;
    forall x | x in s'.handles ensures CountOk(s', multiset{}, x) {
      assert CountOk(s, multiset{}, x);
    }
  }

  lemma RefTabled(s: State, id: Id)
    requires Tabled(s, None) && id in s.handles && s.handles[id].refs >= 1 && CountOk(s, multiset{}, id)
    ensures Tabled(Ref(s, id), None)
  {
    var s' := Ref(s, id);
    hide Without;
    forall x | x in s'.handles && s'.handles[x].inCache ensures KeyOf(s', x) {
      assert KeyOf(s, x);
    }
  }

  lemma RefCharge(s: State, id: Id)
    requires Lists(s) && Charged(s) && id in s.handles && Lists(Ref(s, id))
    ensures Charged(Ref(s, id))
  {
    var s' := Ref(s, id);
    SumSame(s.handles, s'.handles, s.lru);
    SumSame(s.handles, s'.handles, s.inUse);
    if id in s.lru {
      SumWithout(s'.handles, s.lru, id);
      SumAppend(s'.handles, s.inUse, id);
    }
  }

  /** Unref: drop one reference; free the entry at zero, and put it on the LRU list when only the cache's is left. */
  function Unref(s: State, id: Id): State
    requires id in s.handles && s.handles[id].refs >= 1
  {
    var h := s.handles[id];
    if h.refs == 1 then s.(handles := s.handles - {id}, freed := s.freed + {id})
    else
      var s1 := s.(handles := WithRefs(s.handles, id, h.refs - 1));
      if h.inCache && h.refs == 2 then s1.(inUse := Without(s.inUse, id), lru := s.lru + [id]) else s1
  }

  lemma UnrefKeeps(s: State, id: Id)
    requires Inv(s, multiset{id}, None) && id in s.handles
    ensures s.handles[id].refs >= 1 && Inv(Unref(s, id), multiset{}, None)
  {
    assert CountOk(s, multiset{id}, id);
    UnrefLists(s, id);
    UnrefCharge(s, id);
    UnrefCounts(s, id);
    UnrefTabled(s, id);
    hide Lists, Charged, Counts, Tabled, Unref;
  }

  lemma UnrefCounts(s: State, id: Id)
    requires Counts(s, multiset{id}) && id in s.handles && CountOk(s, multiset{id}, id)
    ensures Counts(Unref(s, id), multiset{})
  {
    var s' := Unref(s, id);
    hide Without;
    forall x | x in s'.handles ensures CountOk(s', multiset{}, x) {
      assert CountOk(s, multiset{id}, x);
    }
  }

  lemma UnrefTabled(s: State, id: Id)
    requires Tabled(s, None) && id in s.handles && s.handles[id].refs >= 1 && CountOk(s, multiset{id}, id)
    ensures Tabled(Unref(s, id), None)
  {
    var s' := Unref(s, id);
    hide Without;
    forall x | x in s'.handles && s'.handles[x].inCache ensures KeyOf(s', x) {
      assert KeyOf(s, x);
    }
  }

  lemma UnrefLists(s: State, id: Id)
    requires Lists(s) && id in s.handles && CountOk(s, multiset{id}, id)
    ensures Lists(Unref(s, id))
  {
    WithoutMember(s.inUse, id);
    if id in s.inUse {
      Appended(s.lru, id);
    }
  }

  lemma UnrefCharge(s: State, id: Id)
    requires Lists(s) && Charged(s) && id in s.handles && CountOk(s, multiset{id}, id) && Lists(Unref(s, id))
    ensures Charged(Unref(s, id))
  {
    var s' := Unref(s, id);
    SumSame(s.handles, s'.handles, s.lru);
    if id in s'.handles {
      SumSame(s.handles, s'.handles, s.inUse);
      if id in s.inUse && s.handles[id].refs == 2 {
        SumWithout(s'.handles, s.inUse, id);
        SumAppend(s'.handles, s.lru, id);
      }
    } else {
      SumSame(s.handles, s'.handles, s.inUse);
    }
  }

  /** Taking an entry off its list and giving back the cache's reference. */
  function Detach(s: State, id: Id): State
    requires id in s.handles
  {
    s.(lru := Without(s.lru, id), inUse := Without(s.inUse, id), usage := s.usage - s.handles[id].charge,
       handles := s.handles[id := s.handles[id].(inCache := false)])
  }

  lemma DetachKeeps(s: State, id: Id)
    requires Inv(s, multiset{}, Some(id)) && id in s.handles && s.handles[id].inCache
    ensures Inv(Detach(s, id), multiset{id}, None)
  {
    assert CountOk(s, multiset{}, id);
    DetachLists(s, id);
    DetachCharge(s, id);
    DetachCounts(s, id);
    DetachTabled(s, id);
    hide Lists, Charged, Counts, Tabled, Detach;
  }

  lemma DetachLists(s: State, id: Id)
    requires Lists(s) && id in s.handles && s.handles[id].inCache
    ensures Lists(Detach(s, id))
  {
    WithoutMember(s.lru, id);
    WithoutMember(s.inUse, id);
    if id in s.lru {
      Appended(s.inUse, id);
    }
  }

  lemma DetachCounts(s: State, id: Id)
    requires Counts(s, multiset{}) && id in s.handles && CountOk(s, multiset{}, id) && s.handles[id].inCache
    ensures Counts(Detach(s, id), multiset{id})
  {
    var s' := Detach(s, id);
    hide Without;
    forall x | x in s'.handles ensures CountOk(s', multiset{id}, x) {
      assert CountOk(s, multiset{}, x);
    }
  }

  lemma DetachTabled(s: State, id: Id)
    requires Tabled(s, Some(id)) && id in s.handles && s.handles[id].refs >= 1 && CountOk(s, multiset{}, id) && s.handles[id].inCache
    ensures Tabled(Detach(s, id), None)
  {
    var s' := Detach(s, id);
    hide Without;
    forall x | x in s'.handles && s'.handles[x].inCache ensures KeyOf(s', x) {
      assert KeyOf(s, x);
    }
  }

  lemma DetachCharge(s: State, id: Id)
    requires Lists(s) && Charged(s) && id in s.handles && s.handles[id].inCache && s.handles[id].refs >= 1 && Lists(Detach(s, id))
    ensures Charged(Detach(s, id))
  {
    var s' := Detach(s, id);
    if id in s.lru {
      SumWithout(s.handles, s.lru, id);
      WithoutAbsent(s.inUse, id);
    } else {
      SumWithout(s.handles, s.inUse, id);
      WithoutAbsent(s.lru, id);
    }
    SumSame(s.handles, s'.handles, s'.lru);
    SumSame(s.handles, s'.handles, s'.inUse);
  }

  /** A new entry, held by the client that inserted it; with caching on it replaces the key's entry in the table. */
  function Admit(s: State, id: Id, key: Key, charge: nat, caching: bool): State {
    if caching then
      s.(handles := s.handles[id := Handle(key, charge, 2, true)], inUse := s.inUse + [id], usage := s.usage + charge,
         table := s.table[key := id], clients := s.clients + multiset{id})
    else s.(handles := s.handles[id := Handle(key, charge, 1, false)], clients := s.clients + multiset{id})
  }

  /** The entry the new one pushes out of the table. */
  function Displaced(s: State, key: Key, caching: bool): Option<Id> {
    if caching && key in s.table then Some(s.table[key]) else None
  }

  lemma AdmitKeeps(s: State, id: Id, key: Key, charge: nat, caching: bool)
    requires Inv(s, multiset{}, None) && id !in s.handles && id !in s.freed
    ensures Inv(Admit(s, id, key, charge, caching), multiset{}, Displaced(s, key, caching))
  {
    AdmitLists(s, id, key, charge, caching);
    AdmitCounts(s, id, key, charge, caching);
    AdmitTabled(s, id, key, charge, caching);
    AdmitCharge(s, id, key, charge, caching);
    hide Lists, Charged, Counts, Tabled, Admit, Displaced;
  }

  lemma AdmitLists(s: State, id: Id, key: Key, charge: nat, caching: bool)
    requires Lists(s) && id !in s.handles
    ensures Lists(Admit(s, id, key, charge, caching))
  {
    Appended(s.inUse, id);
  }

  lemma AdmitCharge(s: State, id: Id, key: Key, charge: nat, caching: bool)
    requires Lists(s) && Charged(s) && id !in s.handles && Lists(Admit(s, id, key, charge, caching))
    ensures Charged(Admit(s, id, key, charge, caching))
  {
    var s' := Admit(s, id, key, charge, caching);
    SumSame(s.handles, s'.handles, s.lru);
    SumSame(s.handles, s'.handles, s.inUse);
    if caching {
      SumAppend(s'.handles, s.inUse, id);
    }
  }

  lemma AdmitCounts(s: State, id: Id, key: Key, charge: nat, caching: bool)
    requires Counts(s, multiset{}) && id !in s.handles && id !in s.freed
    ensures Counts(Admit(s, id, key, charge, caching), multiset{})
  {
    var s' := Admit(s, id, key, charge, caching);
    assert id !in s.clients;
    forall x | x in s'.handles ensures CountOk(s', multiset{}, x) {
      if x != id {
        assert CountOk(s, multiset{}, x);
      }
    }
  }

  lemma AdmitTabled(s: State, id: Id, key: Key, charge: nat, caching: bool)
    requires Tabled(s, None) && id !in s.handles
    ensures Tabled(Admit(s, id, key, charge, caching), Displaced(s, key, caching))
  {
    var s' := Admit(s, id, key, charge, caching);
    forall x | x in s'.handles && s'.handles[x].inCache && Displaced(s, key, caching) != Some(x) ensures KeyOf(s', x) {
      if x != id {
        assert KeyOf(s, x);
      }
    }
  }

  /** A client gives its handle back. */
  lemma ReleaseStarts(s: State, id: Id)
    requires Inv(s, multiset{}, None) && id in s.clients
    ensures id in s.handles && Inv(s.(clients := s.clients - multiset{id}), multiset{id}, None)
  {
    var s' := s.(clients := s.clients - multiset{id});
    ReleaseCounts(s, id);
    Retable(s, s');
    Relist(s, s');
    hide Lists, Charged, Counts, Tabled;
  }

  lemma ReleaseCounts(s: State, id: Id)
    requires Counts(s, multiset{}) && id in s.clients
    ensures id in s.handles && Counts(s.(clients := s.clients - multiset{id}), multiset{id})
  {
    var s' := s.(clients := s.clients - multiset{id});
    forall x | x in s'.handles ensures CountOk(s', multiset{id}, x) {
      assert CountOk(s, multiset{}, x);
    }
  }

  lemma Retable(s: State, s': State)
    requires Tabled(s, None) && s'.handles == s.handles && s'.table == s.table
    ensures Tabled(s', None)
  {
    forall x | x in s'.handles && s'.handles[x].inCache ensures KeyOf(s', x) {
      assert KeyOf(s, x);
    }
  }

  lemma Relist(s: State, s': State)
    requires Lists(s) && Charged(s) && s'.lru == s.lru && s'.inUse == s.inUse && s'.handles == s.handles && s'.usage == s.usage
    ensures Lists(s') && Charged(s')
  {}

  /** Taking a cached entry's key out of the table leaves the entry to be finished off. */
  lemma Untable(s: State, key: Key)
    requires Inv(s, multiset{}, None) && key in s.table
    ensures var id := s.table[key];
      && id in s.handles && s.handles[id].inCache && s.handles[id].key == key
      && Inv(s.(table := s.table - {key}), multiset{}, Some(id))
  {
    var id, s' := s.table[key], s.(table := s.table - {key});
    hide Lists, Sum;
    forall x | x in s'.handles ensures CountOk(s', multiset{}, x) {
      assert CountOk(s, multiset{}, x);
    }
    forall x | x in s'.handles && s'.handles[x].inCache && x != id ensures KeyOf(s', x) {
      assert KeyOf(s, x);
    }
    Relist(s, s');
  }

  /** The whole of FinishErase. */
  function Erased(s: State, id: Id): State
    requires id in s.handles && s.handles[id].refs >= 1
  {
    Unref(Detach(s, id), id)
  }

  lemma EraseKeeps(s: State, id: Id)
    requires Inv(s, multiset{}, Some(id)) && id in s.handles && s.handles[id].inCache
    ensures s.handles[id].refs >= 1 && Inv(Erased(s, id), multiset{}, None)
  {
    assert CountOk(s, multiset{}, id);
    DetachKeeps(s, id);
    UnrefKeeps(Detach(s, id), id);
    hide Inv;
  }

  /** What erasing does not touch: other entries, the other keys, and who holds what. */
  lemma EraseEffect(s: State, id: Id)
    requires Inv(s, multiset{}, Some(id)) && id in s.handles && s.handles[id].inCache && s.handles[id].refs >= 1
    ensures var s' := Erased(s, id);
      && s'.table == s.table && s'.clients == s.clients && s'.usage == s.usage - s.handles[id].charge
      && s'.lru == Without(s.lru, id) && s'.inUse == Without(s.inUse, id)
      && (if id in s.clients then s'.freed == s.freed else s'.freed == s.freed + {id})
      && s'.handles.Keys <= s.handles.Keys && (forall x :: x in s.handles && x != id ==> x in s'.handles && s'.handles[x] == s.handles[x])
  {
    assert CountOk(s, multiset{}, id);
    hide Without, Sum, Lists;
  }

  lemma Held(s: State, key: Key)
    requires Inv(s, multiset{}, None) && key in s.table
    ensures s.table[key] in s.handles
  {}

  lemma ReleaseEffect(s: State, id: Id)
    requires Inv(s, multiset{}, None) && id in s.clients
    ensures id in s.handles && s.handles[id].refs >= 1
    ensures var s' := Unref(s.(clients := s.clients - multiset{id}), id);
      && s'.table == s.table && s'.usage == s.usage && s'.clients == s.clients - multiset{id}
      && s'.freed == s.freed + if s.clients[id] == 1 && !s.handles[id].inCache then {id} else {}
  {
    hide Lists, Sum, Without, Tabled;
    assert CountOk(s, multiset{}, id);
  }

  /** The last client of an entry that is still in the cache. */
  ghost predicate LastOfCached(s: State, id: Id) { id in s.handles && s.handles[id].inCache && s.clients[id] == 1 }

  lemma RefMoves(s: State, id: Id)
    requires Inv(s, multiset{}, None) && id in s.handles
    ensures var s' := Ref(s, id);
      s'.lru == Without(s.lru, id) && s'.inUse == s.inUse + (if id in s.lru then [id] else [])
  {
    if id !in s.lru {
      WithoutAbsent(s.lru, id);
    }
  }

  lemma ReleaseMoves(s: State, id: Id)
    requires Inv(s, multiset{}, None) && id in s.clients
    ensures id in s.handles && s.handles[id].refs >= 1 && id !in s.lru
    ensures var s' := Unref(s.(clients := s.clients - multiset{id}), id);
      && s'.lru == s.lru + (if LastOfCached(s, id) then [id] else [])
      && s'.inUse == if LastOfCached(s, id) then Without(s.inUse, id) else s.inUse
  {
    hide Sum, Without, Tabled;
    assert CountOk(s, multiset{}, id);
  }

  // ----- The order of the list -----

  /** The last time the entry was released, counted in releases. */
  function LastRelease(releases: seq<Id>, id: Id): (n: nat)
    requires id in releases
    ensures n < |releases| && releases[n] == id && forall i :: n < i < |releases| ==> releases[i] != id
  {
    var k := |releases| - 1;
    if releases[k] == id then k else LastRelease(releases[..k], id)
  }

  /** The list is ordered by last release. */
  ghost predicate ByRelease(lru: seq<Id>, releases: seq<Id>) {
    && (forall id :: id in lru ==> id in releases)
    && forall i, j :: 0 <= i < j < |lru| ==> LastRelease(releases, lru[i]) < LastRelease(releases, lru[j])
  }

  lemma LaterRelease(releases: seq<Id>, id: Id, x: Id)
    requires x in releases
    ensures LastRelease(releases + [id], x) == if x == id then |releases| else LastRelease(releases, x)
  {
    assert (releases + [id])[..|releases|] == releases;
  }

  /** Releasing an entry that is not on the list leaves the order alone, and so does putting it there as the newest. */
  lemma ReleasedOrder(lru: seq<Id>, releases: seq<Id>, id: Id)
    requires ByRelease(lru, releases) && id !in lru
    ensures ByRelease(lru, releases + [id]) && ByRelease(lru + [id], releases + [id])
  {
    var releases' := releases + [id];
    forall x | x in lru ensures x in releases' && LastRelease(releases', x) == LastRelease(releases, x) {
      LaterRelease(releases, id, x);
    }
    assert id in releases' && LastRelease(releases', id) == |releases|;
    hide LastRelease;
    forall i, j | 0 <= i < j < |lru| ensures LastRelease(releases', lru[i]) < LastRelease(releases', lru[j]) {
      assert lru[i] in lru && lru[j] in lru;
    }
    var ids := lru + [id];
    forall i, j | 0 <= i < j < |ids| ensures LastRelease(releases', ids[i]) < LastRelease(releases', ids[j]) {
      assert ids[i] in lru;
      assert j < |lru| ==> ids[j] in lru;
    }
  }

  lemma {:induction false} WithoutAt(ids: seq<Id>, id: Id)
    requires id in ids
    ensures exists p :: 0 <= p < |ids| && ids[p] == id && Without(ids, id) == ids[..p] + ids[p + 1..]
    decreases |ids|
  {
    if ids[0] == id {
      assert Without(ids, id) == ids[..0] + ids[1..];
    } else {
      WithoutAt(ids[1..], id);
      var rest := ids[1..];
      var p :| 0 <= p < |rest| && rest[p] == id && Without(rest, id) == rest[..p] + rest[p + 1..];
      assert [ids[0]] + (rest[..p] + rest[p + 1..]) == ids[..p + 1] + ids[p + 2..];
    }
  }

  lemma CutOutOrder(lru: seq<Id>, releases: seq<Id>, p: nat)
    requires ByRelease(lru, releases) && p < |lru|
    ensures ByRelease(lru[..p] + lru[p + 1..], releases)
  {
    hide LastRelease;
    var ids := lru[..p] + lru[p + 1..];
    forall i | 0 <= i < |ids| ensures ids[i] == lru[if i < p then i else i + 1] {}
    forall i, j | 0 <= i < j < |ids| ensures LastRelease(releases, ids[i]) < LastRelease(releases, ids[j]) {
      var i', j' := if i < p then i else i + 1, if j < p then j else j + 1;
      assert ids[i] == lru[i'] && ids[j] == lru[j'];
    }
  }

  lemma WithoutOrder(lru: seq<Id>, releases: seq<Id>, id: Id)
    requires ByRelease(lru, releases)
    ensures ByRelease(Without(lru, id), releases)
  {
    if id in lru {
      WithoutAt(lru, id);
      hide Without, LastRelease, ByRelease;
      var p :| 0 <= p < |lru| && lru[p] == id && Without(lru, id) == lru[..p] + lru[p + 1..];
      CutOutOrder(lru, releases, p);
    } else {
      WithoutAbsent(lru, id);
    }
  }

  /** A prefix of the list was released before the rest. */
  lemma PrefixOrder(gone: seq<Id>, rest: seq<Id>, releases: seq<Id>)
    requires ByRelease(gone + rest, releases)
    ensures ByRelease(rest, releases) && OlderThan(gone, rest, releases)
  {
    hide LastRelease;
    var ids := gone + rest;
    assert forall i :: 0 <= i < |gone| ==> gone[i] == ids[i];
    assert forall i :: 0 <= i < |rest| ==> rest[i] == ids[|gone| + i];
  }

  ghost predicate OlderThan(gone: seq<Id>, rest: seq<Id>, releases: seq<Id>) {
    forall x, y :: x in gone && y in rest ==>
      x in releases && y in releases && LastRelease(releases, x) < LastRelease(releases, y)
  }

  lemma NothingCached()
    ensures Inv(State(0, [], [], map[], map[], multiset{}, {}), multiset{}, None)
  {}

  // ----- The cache -----

  class LRUCache {
    const table: HandleTable
    var capacity: nat
    var usage: int
    var lru: seq<Id>
    var inUse: seq<Id>
    var handles: map<Id, Handle>
    var nextId: Id
    ghost var clients: multiset<Id>
    ghost var freed: set<Id>
    /** Every handle ever given back, in order. */
    ghost var releases: seq<Id>

    ghost function View(): State reads this, table {
      State(usage, lru, inUse, handles, table.m, clients, freed)
    }

    /** Entries come from fresh memory. */
    ghost predicate Allocated() reads this {
      (forall id :: id in handles ==> id < nextId) && forall id :: id in freed ==> id < nextId
    }

    ghost predicate Ok() reads this, table { table.Ok() && Allocated() && Inv(View(), multiset{}, None) && ByRelease(lru, releases) }

    constructor (h: Hash, cap: nat)
      ensures Ok() && fresh(table) && capacity == cap && table.m == map[] && clients == multiset{} && releases == []
    {
      table := new HandleTable(h);
      capacity, usage, lru, inUse, handles, nextId, clients, freed, releases := cap, 0, [], [], map[], 0, multiset{}, {}, [];
      new;
      hide Inv, TableIs;
      NothingCached();
    }

    /** Drop one reference. */
    method UnrefEntry(id: Id)
      requires Allocated() && Inv(View(), multiset{id}, None) && id in handles
      modifies `handles, `lru, `inUse, `freed
      ensures Allocated() && old(handles[id].refs) >= 1 && View() == old(Unref(View(), id)) && Inv(View(), multiset{}, None)
    {
      hide Inv, Without;
      UnrefKeeps(View(), id);
      var h := handles[id];
      if h.refs == 1 {
        freed := freed + {id};
        handles := handles - {id};
      } else {
        handles := handles[id := h.(refs := h.refs - 1)];
        if h.inCache && h.refs == 2 {
          inUse := Without(inUse, id);
          lru := lru + [id];
        }
      }
    }

    /** Finish removing an entry that is no longer in the table. */
    method FinishErase(id: Id)
      requires Allocated() && Inv(View(), multiset{}, Some(id)) && id in handles && handles[id].inCache
      modifies `handles, `lru, `inUse, `freed, `usage
      ensures Allocated() && old(handles[id].refs) >= 1 && View() == old(Erased(View(), id)) && Inv(View(), multiset{}, None)
    {
      hide Inv, Without, Unref;
      EraseKeeps(View(), id);
      DetachKeeps(View(), id);
      lru := Without(lru, id);
      inUse := Without(inUse, id);
      usage := usage - handles[id].charge;
      handles := handles[id := handles[id].(inCache := false)];
      UnrefEntry(id);
    }

    method Lookup(key: Key) returns (r: Option<Id>)
      requires Ok()
      modifies this
      ensures Ok() && r == (if key in table.m then Some(table.m[key]) else None)
      ensures clients == old(clients) + (if r.Some? then multiset{r.value} else multiset{})
      ensures usage == old(usage) && freed == old(freed) && capacity == old(capacity) && releases == old(releases)
      ensures r.None? ==> View() == old(View())
      ensures r.Some? ==> lru == Without(old(lru), r.value) && inUse == old(inUse) + (if r.value in old(lru) then [r.value] else [])
    {
      hide Inv, Without, TableIs, ByRelease;
      ghost var s := View();
      r := table.Lookup(key);
      if r.Some? {
        var id := r.value;
        Held(s, key);
        RefKeeps(s, id);
        RefMoves(s, id);
        WithoutOrder(lru, releases, id);
        if handles[id].refs == 1 && handles[id].inCache {
          lru := Without(lru, id);
          inUse := inUse + [id];
        }
        handles := handles[id := handles[id].(refs := handles[id].refs + 1)];
        clients := clients + multiset{id};
        assert View() == Ref(s, id);
      }
    }

    method Release(id: Id)
      requires Ok() && id in clients
      modifies this
      ensures Ok() && clients == old(clients) - multiset{id} && table.m == old(table.m)
      ensures usage == old(usage) && capacity == old(capacity)
      ensures freed == old(freed) + if old(clients[id] == 1 && id in handles && !handles[id].inCache) then {id} else {}
      ensures releases == old(releases) + [id]
      ensures lru == old(lru) + if old(LastOfCached(View(), id)) then [id] else []
      ensures inUse == if old(LastOfCached(View(), id)) then Without(old(inUse), id) else old(inUse)
    {
      hide Inv, Without, Unref, TableIs, ByRelease, LastOfCached;
      ReleaseStarts(View(), id);
      ReleaseEffect(View(), id);
      ReleaseMoves(View(), id);
      ReleasedOrder(lru, releases, id);
      assert lru + [] == lru;
      clients := clients - multiset{id};
      releases := releases + [id];
      UnrefEntry(id);
    }

    /** Take the key out of the table; its entry, if any, is still to be finished off. */
    method Unlist(key: Key) returns (r: Option<Id>)
      requires Ok()
      modifies table
      ensures table.Ok() && Inv(View(), multiset{}, r) && View() == old(View()).(table := old(table.m) - {key})
      ensures r == if key in old(table.m) then Some(old(table.m)[key]) else None
      ensures r.Some? ==> r.value in handles && handles[r.value].inCache
    {
      hide Inv, TableIs;
      if key in table.m {
        Untable(View(), key);
      }
      r := table.Remove(key);
    }

    /** The entry leaves the cache at once; it is freed at once too, unless a client still holds it. */
    method Erase(key: Key)
      requires Ok()
      modifies this, table
      ensures Ok() && table.m == old(table.m) - {key} && clients == old(clients) && capacity == old(capacity)
      ensures key !in old(table.m) ==> View() == old(View())
      ensures key in old(table.m) ==> old(table.m[key] in handles) && TakenOut(old(View()), View(), old(table.m)[key])
      ensures releases == old(releases)
    {
      hide Inv, Unref, TableIs, Erased, Without, ByRelease;
      ghost var s := View();
      if key in table.m {
        Held(s, key);
      }
      var r := Unlist(key);
      if r.Some? {
        EraseTakesOut(View(), r.value);
        WithoutOrder(lru, releases, r.value);
        FinishErase(r.value);
      } else {
        NotThere(s.table, key);
      }
    }

    /** Give up the entry that was released longest ago. */
    method EvictOldest() returns (ghost key: Key)
      requires Ok() && lru != []
      modifies this, table
      ensures Ok() && lru == old(lru[1..]) && inUse == old(inUse) && clients == old(clients) && capacity == old(capacity)
      ensures old(key in table.m && table.m[key] == lru[0]) && table.m == old(table.m) - {key}
      ensures freed == old(freed + {lru[0]}) && nextId == old(nextId) && releases == old(releases)
      ensures old(lru[0] in handles) && usage == old(usage - handles[lru[0]].charge)
      ensures forall x :: x in old(handles) && x != old(lru[0]) ==> x in handles && handles[x] == old(handles)[x]
    {
      hide Inv, Without, Unref, TableIs, Erased, ByRelease;
      Oldest(View());
      assert [lru[0]] + lru[1..] == lru;
      PrefixOrder([lru[0]], lru[1..], releases);
      key := handles[lru[0]].key;
      var r := Unlist(handles[lru[0]].key);
      if r.Some? {
        OldestErased(View());
        FinishErase(r.value);
      } else {
        assert false;
      }
    }

    /** A new entry in the cache and the table; the one it displaced there is still to be finished off. */
    method LinkEntry(key: Key, charge: nat, id: Id) returns (old_: Option<Id>)
      requires Ok() && id == nextId
      modifies this, table
      ensures table.Ok() && Allocated() && View() == old(Admit(View(), id, key, charge, true))
      ensures old_ == old(Displaced(View(), key, true)) && Inv(View(), multiset{}, old_) && capacity == old(capacity)
      ensures releases == old(releases) && ByRelease(lru, releases)
    {
      hide Inv, TableIs, ByRelease;
      ghost var s := View();
      AdmitKeeps(s, id, key, charge, true);
      nextId := nextId + 1;
      clients := clients + multiset{id};
      handles := handles[id := Handle(key, charge, 2, true)];
      inUse := inUse + [id];
      usage := usage + charge;
      old_ := table.Insert(key, id);
    }

    /** Put a new entry in the cache, and the key's old one, if any, out of it. */
    method CacheEntry(key: Key, charge: nat, id: Id)
      requires Ok() && id == nextId
      modifies this, table
      ensures Ok() && clients == old(clients) + multiset{id} && capacity == old(capacity)
      ensures table.m == old(table.m)[key := id] && id in inUse
      ensures Admitted(old(View()), View(), key, charge, true) && releases == old(releases)
    {
      hide Inv, Without, Unref, TableIs, Erased, Admitted, ByRelease;
      ghost var s := View();
      var old_ := LinkEntry(key, charge, id);
      AdmitShape(s, id, key, charge, true);
      if old_.Some? {
        DisplacedOther(s, View(), key, id);
        EraseTakesOut(View(), old_.value);
        AdmittedBoth(s, View(), Erased(View(), old_.value), id, key, charge);
        WithoutOrder(lru, releases, old_.value);
        FinishErase(old_.value);
      }
    }

    /** The new entry, cached unless the capacity is zero. */
    method AdmitEntry(key: Key, charge: nat) returns (id: Id)
      requires Ok()
      modifies this, table
      ensures Ok() && clients == old(clients) + multiset{id} && capacity == old(capacity)
      ensures table.m == if capacity > 0 then old(table.m)[key := id] else old(table.m)
      ensures capacity > 0 ==> id in inUse
      ensures Admitted(old(View()), View(), key, charge, capacity > 0) && releases == old(releases)
    {
      hide Inv, TableIs, Admitted, ByRelease;
      id := nextId;
      if capacity > 0 {
        CacheEntry(key, charge, id);
      } else {
        ghost var s := View();
        AdmitKeeps(s, id, key, charge, false);
        AdmitShape(s, id, key, charge, false);
        nextId := nextId + 1;
        clients := clients + multiset{id};
        handles := handles[id := Handle(key, charge, 1, false)];
        assert View() == Admit(s, id, key, charge, false);
      }
    }

    /** The loop of Insert: give up entries, oldest first, while too much is in use. */
    method EvictToFit(ghost key: Key, ghost id: Id) returns (ghost evicted: seq<Id>)
      requires Ok() && (capacity > 0 ==> id in inUse && key in table.m && table.m[key] == id)
      modifies this, table
      ensures Ok() && clients == old(clients) && capacity == old(capacity) && (usage <= capacity || lru == [])
      ensures capacity > 0 ==> key in table.m && table.m[key] == id
      ensures forall k :: k in table.m ==> k in old(table.m) && table.m[k] == old(table.m)[k]
      ensures Evictable(old(View()), View(), capacity, evicted) && releases == old(releases)
    {
      hide Inv, TableIs, Evictable, ByRelease;
      ghost var m, s := table.m, View();
      evicted := [];
      NoneEvicted(s);
      while usage > capacity && lru != []
        invariant Ok() && clients == old(clients) && capacity == old(capacity) && releases == old(releases)
        invariant capacity > 0 ==> id in inUse && key in table.m && table.m[key] == id
        invariant forall k :: k in table.m ==> k in m && table.m[k] == m[k]
        invariant Evictable(s, View(), capacity, evicted)
        decreases |lru|
      {
        if capacity > 0 {
          NotBoth(View(), id);
        }
        ghost var before := View();
        NoDupLru(before);
        var _ := EvictOldest();
        OneMoreEvicted(s, before, View(), capacity, evicted);
        evicted := evicted + [before.lru[0]];
      }
    }

    /** Entries are evicted in the order of their last release, just as many as bring the usage down to the capacity, or all that no
        client holds; nothing else is freed but the entry of the key's old value, unless a client holds it. */
    method Insert(key: Key, charge: nat) returns (id: Id, ghost evicted: seq<Id>)
      requires Ok()
      modifies this, table
      ensures Ok() && clients == old(clients) + multiset{id} && capacity == old(capacity)
      ensures usage <= capacity || lru == []
      ensures capacity > 0 ==> key in table.m && table.m[key] == id
      ensures forall k :: k in table.m && k != key ==> k in old(table.m) && table.m[k] == old(table.m)[k]
      ensures Evicted(old(View()), View(), key, charge, capacity, evicted)
      ensures releases == old(releases) && OlderThan(evicted, lru, releases)
    {
      hide Inv, TableIs, Admitted, Evictable, Evicted, ByRelease, OlderThan;
      ghost var s0 := View();
      id := AdmitEntry(key, charge);
      ghost var s := View();
      evicted := EvictToFit(key, id);
      EvictedIs(s0, s, View(), key, charge, capacity, evicted);
      EvictedPrefix(s, View(), capacity, evicted);
      PrefixOrder(evicted, lru, releases);
    }

    method Prune()
      requires Ok()
      modifies this, table
      ensures Ok() && lru == [] && inUse == old(inUse) && clients == old(clients) && capacity == old(capacity)
      ensures freed == old(freed) + IdSet(old(lru)) && releases == old(releases)
    {
      hide Inv, TableIs, ByRelease;
      ghost var gone: seq<Id> := [];
      while lru != []
        invariant Ok() && inUse == old(inUse) && clients == old(clients) && capacity == old(capacity) && releases == old(releases)
        invariant gone + lru == old(lru) && freed == old(freed) + IdSet(gone)
        decreases |lru|
      {
        assert gone + lru == (gone + [lru[0]]) + lru[1..];
        gone := gone + [lru[0]];
        var _ := EvictOldest();
      }
      assert gone + [] == gone;
    }
  }

  lemma NotThere(m: map<Key, Id>, key: Key) requires key !in m ensures m - {key} == m {}

  ghost function IdSet(ids: seq<Id>): set<Id> { set x | x in ids }

  /** Entry id is out of the cache: off its list, its charge given back, and freed unless a client holds it. */
  ghost predicate TakenOut(s: State, s': State, id: Id)
    requires id in s.handles
  {
    && s'.lru == Without(s.lru, id) && s'.inUse == Without(s.inUse, id) && s'.usage == s.usage - s.handles[id].charge
    && s'.freed == (if id in s.clients then s.freed else s.freed + {id})
    && forall x :: x in s.handles && x != id ==> x in s'.handles && s'.handles[x] == s.handles[x]
  }

  lemma EraseTakesOut(s: State, id: Id)
    requires Inv(s, multiset{}, Some(id)) && id in s.handles && s.handles[id].inCache
    ensures s.handles[id].refs >= 1 && TakenOut(s, Erased(s, id), id)
  {
    assert CountOk(s, multiset{}, id);
    EraseEffect(s, id);
  }

  /** What is on the LRU list, and how much is in use, once the new entry is in and the displaced one out. */
  ghost function LruThen(s: State, key: Key, caching: bool): seq<Id> {
    if Displaced(s, key, caching).Some? then Without(s.lru, s.table[key]) else s.lru
  }

  ghost function UsageThen(s: State, key: Key, charge: nat, caching: bool): int
    requires Displaced(s, key, caching).Some? ==> s.table[key] in s.handles
  {
    s.usage + (if caching then charge else 0) - (if Displaced(s, key, caching).Some? then s.handles[s.table[key]].charge else 0)
  }

  ghost function FreedThen(s: State, key: Key, caching: bool): set<Id> {
    s.freed + if Displaced(s, key, caching).Some? && s.table[key] !in s.clients then {s.table[key]} else {}
  }

  ghost predicate Admitted(s: State, s': State, key: Key, charge: nat, caching: bool) {
    && (Displaced(s, key, caching).Some? ==> s.table[key] in s.handles)
    && s'.lru == LruThen(s, key, caching) && s'.usage == UsageThen(s, key, charge, caching) && s'.freed == FreedThen(s, key, caching)
    && forall x :: x in s.handles && Displaced(s, key, caching) != Some(x) ==> x in s'.handles && s'.handles[x] == s.handles[x]
  }

  lemma AdmitShape(s: State, id: Id, key: Key, charge: nat, caching: bool)
    requires id !in s.handles
    ensures Displaced(s, key, caching).None? ==> Admitted(s, Admit(s, id, key, charge, caching), key, charge, caching)
  {
    hide Without;
  }

  lemma AdmittedBoth(s: State, s1: State, s': State, id: Id, key: Key, charge: nat)
    requires Inv(s, multiset{}, None) && id !in s.handles && key in s.table && s1 == Admit(s, id, key, charge, true)
    requires s.table[key] in s1.handles && s.table[key] != id && TakenOut(s1, s', s.table[key])
    ensures Admitted(s, s', key, charge, true)
  {
    hide Without, Lists, Sum;
    assert id !in s.clients;
  }

  /** Of the entries on the list of s, `gone` have been evicted so far, each while the usage was too high. */
  ghost predicate Evictable(s: State, s': State, capacity: nat, gone: seq<Id>) {
    && gone + s'.lru == s.lru && s'.freed == s.freed + IdSet(gone)
    && (forall x :: x in s.lru ==> x in s.handles)
    && (forall x :: x in s'.lru ==> x in s'.handles && s'.handles[x].charge == s.handles[x].charge)
    && s'.usage == s.usage - Sum(s.handles, gone)
    && (forall i :: 0 <= i < |gone| ==> TooMuch(s, gone, i, capacity))
  }

  /** With only the first i gone the usage is still above the capacity. */
  ghost predicate TooMuch(s: State, gone: seq<Id>, i: nat, capacity: nat)
    requires i <= |gone| && forall x :: x in gone ==> x in s.handles
  {
    s.usage - Sum(s.handles, gone[..i]) > capacity
  }

  /** The evicted entries are a prefix of the LRU list, oldest first, and no longer than it has to be. */
  ghost predicate Evicted(s: State, s': State, key: Key, charge: nat, capacity: nat, gone: seq<Id>) {
    && gone + s'.lru == LruThen(s, key, capacity > 0)
    && s'.freed == FreedThen(s, key, capacity > 0) + IdSet(gone)
    && (forall x :: x in gone ==> x in s.handles)
    && (Displaced(s, key, capacity > 0).Some? ==> s.table[key] in s.handles)
    && s'.usage == UsageThen(s, key, charge, capacity > 0) - Sum(s.handles, gone)
    && (forall i :: 0 <= i < |gone| ==> UsageThen(s, key, charge, capacity > 0) - Sum(s.handles, gone[..i]) > capacity)
  }

  lemma NoneEvicted(s: State)
    requires Inv(s, multiset{}, None)
    ensures forall capacity :: Evictable(s, s, capacity, [])
  {
    hide Sum;
    assert Sum(s.handles, []) == 0 by { EmptySum(s.handles); }
    assert [] + s.lru == s.lru;
  }

  lemma EmptySum(handles: map<Id, Handle>) ensures Sum(handles, []) == 0 {}

  lemma OneMoreEvicted(s: State, before: State, after: State, capacity: nat, gone: seq<Id>)
    requires Evictable(s, before, capacity, gone) && before.lru != [] && before.usage > capacity && NoDup(before.lru)
    requires after.lru == before.lru[1..] && after.freed == before.freed + {before.lru[0]} && before.lru[0] in before.handles
    requires after.usage == before.usage - before.handles[before.lru[0]].charge
    requires forall x :: x in before.handles && x != before.lru[0] ==> x in after.handles && after.handles[x] == before.handles[x]
    ensures Evictable(s, after, capacity, gone + [before.lru[0]])
  {
    hide Sum, NoDup;
    var id := before.lru[0];
    var gone' := gone + [id];
    assert before.lru == [id] + after.lru;
    Rejoin(gone, id, after.lru);
    assert id in s.lru;
    assert forall x :: x in gone ==> x in s.lru;
    SumAppend(s.handles, gone, id);
    assert gone'[..|gone|] == gone;
    forall i | 0 <= i < |gone'| ensures TooMuch(s, gone', i, capacity) {
      if i < |gone| {
        assert gone'[..i] == gone[..i];
        assert TooMuch(s, gone, i, capacity);
      }
    }
    forall x | x in after.lru ensures x in after.handles && after.handles[x].charge == s.handles[x].charge {
      assert x in before.lru;
      TailDiffers(before.lru, x);
    }
  }

  lemma Rejoin(a: seq<Id>, x: Id, b: seq<Id>) ensures (a + [x]) + b == a + ([x] + b) {}

  lemma TailDiffers(ids: seq<Id>, x: Id)
    requires NoDup(ids) && ids != [] && x in ids[1..]
    ensures x != ids[0]
  {}

  lemma EvictedIs(s0: State, s: State, s': State, key: Key, charge: nat, capacity: nat, gone: seq<Id>)
    requires Inv(s0, multiset{}, None) && Admitted(s0, s, key, charge, capacity > 0) && Evictable(s, s', capacity, gone)
    ensures Evicted(s0, s', key, charge, capacity, gone)
  {
    hide Sum, Without;
    forall x | x in gone ensures x in s0.handles && x in s.handles && s.handles[x].charge == s0.handles[x].charge {
      assert x in s.lru;
      OnOldList(s0, x, key, capacity > 0);
    }
    SumSame(s0.handles, s.handles, gone);
    forall i | 0 <= i < |gone|
      ensures UsageThen(s0, key, charge, capacity > 0) - Sum(s0.handles, gone[..i]) > capacity
    {
      assert TooMuch(s, gone, i, capacity);
      SumSame(s0.handles, s.handles, gone[..i]);
    }
  }

  lemma EvictedPrefix(s: State, s': State, capacity: nat, gone: seq<Id>)
    requires Evictable(s, s', capacity, gone)
    ensures gone + s'.lru == s.lru
  {}

  lemma OnOldList(s: State, x: Id, key: Key, caching: bool)
    requires Inv(s, multiset{}, None) && x in LruThen(s, key, caching)
    ensures x in s.handles && Displaced(s, key, caching) != Some(x)
  {
    if Displaced(s, key, caching).Some? {
      WithoutMember(s.lru, s.table[key]);
    }
  }

  lemma NoDupLru(s: State)
    requires Inv(s, multiset{}, None)
    ensures NoDup(s.lru)
  {}

  lemma NotBoth(s: State, id: Id)
    requires Inv(s, multiset{}, None) && id in s.inUse
    ensures id !in s.lru
  {}

  lemma Oldest(s: State)
    requires Inv(s, multiset{}, None) && s.lru != []
    ensures var id := s.lru[0]; id in s.handles && s.handles[id].key in s.table && s.table[s.handles[id].key] == id
  {
    var id := s.lru[0];
    assert id in s.lru;
    assert KeyOf(s, id);
  }

  lemma OldestErased(s: State)
    requires s.lru != [] && s.lru[0] in s.handles && s.handles[s.lru[0]].inCache && Inv(s, multiset{}, Some(s.lru[0]))
    ensures s.handles[s.lru[0]].refs >= 1
    ensures var id, s' := s.lru[0], Erased(s, s.lru[0]);
      && s'.lru == s.lru[1..] && s'.inUse == s.inUse && s'.freed == s.freed + {id}
      && s'.usage == s.usage - s.handles[id].charge
      && (forall x :: x in s.handles && x != id ==> x in s'.handles && s'.handles[x] == s.handles[x])
  {
    var id := s.lru[0];
    assert id in s.lru && CountOk(s, multiset{}, id);
    WithoutAbsent(s.inUse, id);
    EraseEffect(s, id);
    assert Without(s.lru, id) == s.lru[1..];
  }

  lemma DisplacedOther(s: State, s': State, key: Key, id: Id)
    requires Inv(s, multiset{}, None) && id !in s.handles && key in s.table
    requires id in s'.handles && s'.handles == s.handles[id := s'.handles[id]] && s'.inUse == s.inUse + [id] && Inv(s', multiset{}, Some(s.table[key]))
    ensures var x := s.table[key]; x != id && x in s'.handles && s'.handles[x].inCache && s'.handles[x].refs >= 1
    ensures id in Erased(s', s.table[key]).inUse
  {
    var x := s.table[key];
    assert s.handles[x].inCache;
    assert CountOk(s', multiset{}, x);
    EraseEffect(s', x);
    WithoutMember(s'.inUse, x);
    assert id in s'.inUse;
  }
}
