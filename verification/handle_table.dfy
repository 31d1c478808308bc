/** The cache's hash table: chains of handles, doubled when they get long. */
module HandleTables {
  import opened Wrappers

  type Key = string
  type Id = nat
  type Hash = Key -> nat

  datatype Slot = Slot(key: Key, id: Id)

  ghost predicate Distinct(chain: seq<Slot>) {
    forall i, j :: 0 <= i < j < |chain| ==> chain[i].key != chain[j].key
  }

  /** Chain b of n holds exactly the part of the map that hashes to it. */
  ghost predicate ChainIs(hash: Hash, chain: seq<Slot>, b: nat, n: nat, m: map<Key, Id>)
    requires n > 0
  {
    && Distinct(chain)
    && forall s :: s in chain <==> s.key in m && m[s.key] == s.id && hash(s.key) % n == b
  }

  ghost predicate TableIs(hash: Hash, list: seq<seq<Slot>>, m: map<Key, Id>) {
    |list| > 0 && forall b: nat :: b < |list| ==> ChainIs(hash, list[b], b, |list|, m)
  }

  /** Where FindPointer stops: at the key's slot, or at the end of the chain. */
  ghost predicate Points(chain: seq<Slot>, key: Key, j: nat) {
    && j <= |chain| && (j < |chain| ==> chain[j].key == key)
    && (j == |chain| ==> forall i :: 0 <= i < |chain| ==> chain[i].key != key)
  }

  method FindPointer(chain: seq<Slot>, key: Key) returns (j: nat)
    ensures Points(chain, key, j)
  {
    j := 0;
    while j < |chain| && chain[j].key != key
      invariant j <= |chain| && forall i :: 0 <= i < j ==> chain[i].key != key
    {
      j := j + 1;
    }
  }

  lemma Pointed(hash: Hash, list: seq<seq<Slot>>, m: map<Key, Id>, key: Key, j: nat)
    requires TableIs(hash, list, m) && Points(list[hash(key) % |list|], key, j)
    ensures var chain := list[hash(key) % |list|];
      (j < |chain| <==> key in m) && (key in m ==> chain[j] == Slot(key, m[key]))
  {
    var b := hash(key) % |list|;
    var chain := list[b];
    assert ChainIs(hash, chain, b, |list|, m);
    if j < |chain| {
      assert chain[j] in chain;
    }
    if key in m {
      assert Slot(key, m[key]) in chain;
    }
  }

  /** The chain after the key's slot is replaced or added. */
  function Put(chain: seq<Slot>, j: nat, s: Slot): seq<Slot>
    requires j <= |chain|
  {
    if j < |chain| then chain[j := s] else chain + [s]
  }

  lemma PutChain(hash: Hash, list: seq<seq<Slot>>, m: map<Key, Id>, key: Key, id: Id, j: nat)
    requires TableIs(hash, list, m) && Points(list[hash(key) % |list|], key, j)
    ensures var b := hash(key) % |list|; ChainIs(hash, Put(list[b], j, Slot(key, id)), b, |list|, m[key := id])
  {
    var b := hash(key) % |list|;
    var chain, s := list[b], Slot(key, id);
    var chain' := Put(chain, j, s);
    assert ChainIs(hash, chain, b, |list|, m);
    forall x ensures x in chain' <==> x.key in m[key := id] && m[key := id][x.key] == x.id && hash(x.key) % |list| == b {
      if x in chain' && x != s {
        var i :| 0 <= i < |chain'| && chain'[i] == x;
        assert chain[i] == x && x in chain;
        if j < |chain| {
          assert chain[i].key != chain[j].key;
        }
      }
      if x.key == key && x.id == id {
        assert chain'[j] == s;
      } else if x in chain && x.key != key {
        var i :| 0 <= i < |chain| && chain[i] == x;
        assert chain'[i] == x;
      }
    }
  }

  lemma OtherChain(hash: Hash, list: seq<seq<Slot>>, m: map<Key, Id>, m': map<Key, Id>, key: Key, b: nat)
    requires TableIs(hash, list, m) && b < |list| && b != hash(key) % |list|
    requires forall k :: k != key ==> (k in m <==> k in m') && (k in m ==> m[k] == m'[k])
    ensures ChainIs(hash, list[b], b, |list|, m')
  {
    assert ChainIs(hash, list[b], b, |list|, m);
  }

  lemma PutTable(hash: Hash, list: seq<seq<Slot>>, m: map<Key, Id>, key: Key, id: Id, j: nat)
    requires TableIs(hash, list, m) && Points(list[hash(key) % |list|], key, j)
    ensures var b := hash(key) % |list|; TableIs(hash, list[b := Put(list[b], j, Slot(key, id))], m[key := id])
  {
    var b := hash(key) % |list|;
    var list' := list[b := Put(list[b], j, Slot(key, id))];
    forall c: nat | c < |list'| ensures ChainIs(hash, list'[c], c, |list'|, m[key := id]) {
      if c == b {
        PutChain(hash, list, m, key, id, j);
      } else {
        OtherChain(hash, list, m, m[key := id], key, c);
      }
    }
  }

  function Drop(chain: seq<Slot>, j: nat): seq<Slot>
    requires j < |chain|
  {
    chain[..j] + chain[j + 1..]
  }

  lemma DropMembers(chain: seq<Slot>, j: nat)
    requires Distinct(chain) && j < |chain|
    ensures Distinct(Drop(chain, j))
    ensures forall x :: x in Drop(chain, j) <==> x in chain && x.key != chain[j].key
  {
    var chain' := Drop(chain, j);
    forall i | 0 <= i < |chain'| ensures chain'[i] == chain[if i < j then i else i + 1] {}
    forall x | x in chain && x.key != chain[j].key ensures x in chain' {
      var i :| 0 <= i < |chain| && chain[i] == x;
      assert chain'[if i < j then i else i - 1] == x;
    }
    forall x | x in chain' ensures x in chain && x.key != chain[j].key {
      var i :| 0 <= i < |chain'| && chain'[i] == x;
    }
  }

  lemma DropChain(hash: Hash, list: seq<seq<Slot>>, m: map<Key, Id>, key: Key, j: nat)
    requires TableIs(hash, list, m) && Points(list[hash(key) % |list|], key, j) && key in m
    requires j < |list[hash(key) % |list|]|
    ensures var b := hash(key) % |list|; ChainIs(hash, Drop(list[b], j), b, |list|, m - {key})
  {
    var b := hash(key) % |list|;
    assert ChainIs(hash, list[b], b, |list|, m);
    DropMembers(list[b], j);
    hide Distinct, Drop;
  }

  lemma DropTable(hash: Hash, list: seq<seq<Slot>>, m: map<Key, Id>, key: Key, j: nat)
    requires TableIs(hash, list, m) && Points(list[hash(key) % |list|], key, j) && key in m
    requires j < |list[hash(key) % |list|]|
    ensures var b := hash(key) % |list|; TableIs(hash, list[b := Drop(list[b], j)], m - {key})
  {
    var b := hash(key) % |list|;
    var list' := list[b := Drop(list[b], j)];
    forall c: nat | c < |list'| ensures ChainIs(hash, list'[c], c, |list'|, m - {key}) {
      if c == b {
        DropChain(hash, list, m, key, j);
      } else {
        OtherChain(hash, list, m, m - {key}, key, c);
      }
    }
  }

  // ----- Resizing -----

  /** Pushing a new key onto the front of its chain. */
  lemma PushTable(hash: Hash, list: seq<seq<Slot>>, m: map<Key, Id>, s: Slot)
    requires TableIs(hash, list, m) && s.key !in m
    ensures var b := hash(s.key) % |list|; TableIs(hash, list[b := [s] + list[b]], m[s.key := s.id])
  {
    var b := hash(s.key) % |list|;
    var list' := list[b := [s] + list[b]];
    forall c: nat | c < |list'| ensures ChainIs(hash, list'[c], c, |list'|, m[s.key := s.id]) {
      if c == b {
        PushChain(hash, list, m, s);
      } else {
        OtherChain(hash, list, m, m[s.key := s.id], s.key, c);
      }
    }
  }

  lemma PushChain(hash: Hash, list: seq<seq<Slot>>, m: map<Key, Id>, s: Slot)
    requires TableIs(hash, list, m) && s.key !in m
    ensures var b := hash(s.key) % |list|; ChainIs(hash, [s] + list[b], b, |list|, m[s.key := s.id])
  {
    var b := hash(s.key) % |list|;
    var chain := list[b];
    assert ChainIs(hash, chain, b, |list|, m);
    forall i | 0 <= i < |chain| ensures chain[i].key != s.key {
      assert chain[i] in chain;
    }
  }

  /** The map with the slots of a chain added. */
  ghost predicate Grown(m: map<Key, Id>, chain: seq<Slot>, n: nat, m': map<Key, Id>)
    requires n <= |chain|
  {
    && (forall k :: k in m ==> k in m' && m'[k] == m[k])
    && (forall i :: 0 <= i < n ==> chain[i].key in m' && m'[chain[i].key] == chain[i].id)
    && (forall k :: k in m' ==> k in m || exists i :: 0 <= i < n && chain[i].key == k)
  }

  /** Move every slot of one old chain. */
  method MoveChain(hash: Hash, list: seq<seq<Slot>>, chain: seq<Slot>, ghost m: map<Key, Id>)
    returns (r: seq<seq<Slot>>, ghost m': map<Key, Id>)
    requires TableIs(hash, list, m) && Distinct(chain) && forall i :: 0 <= i < |chain| ==> chain[i].key !in m
    ensures |r| == |list| && TableIs(hash, r, m') && Grown(m, chain, |chain|, m')
  {
    hide TableIs;
    r, m' := list, m;
    var i := 0;
    NotEmpty(hash, list, m);
    while i < |chain|
      invariant 0 <= i <= |chain| && |r| == |list| > 0 && TableIs(hash, r, m') && Grown(m, chain, i, m')
    {
      var s := chain[i];
      PushTable(hash, r, m', s);
      var b := hash(s.key) % |r|;
      r := r[b := [s] + r[b]];
      m' := m'[s.key := s.id];
      i := i + 1;
    }
  }

  lemma NotEmpty(hash: Hash, list: seq<seq<Slot>>, m: map<Key, Id>)
    requires TableIs(hash, list, m)
    ensures |list| > 0
  {}

  lemma EmptyTable(hash: Hash, n: nat)
    requires n > 0
    ensures TableIs(hash, seq(n, _ => []), map[])
  {}

  /** The keys of the first i chains. */
  ghost predicate Moved(hash: Hash, n: nat, m: map<Key, Id>, i: nat, moved: map<Key, Id>)
    requires n > 0
  {
    forall k :: (k in moved <==> k in m && hash(k) % n < i) && (k in moved ==> moved[k] == m[k])
  }

  lemma ChainMoved(hash: Hash, list: seq<seq<Slot>>, m: map<Key, Id>, i: nat, moved: map<Key, Id>, moved': map<Key, Id>)
    requires TableIs(hash, list, m) && i < |list| && Moved(hash, |list|, m, i, moved)
    requires Grown(moved, list[i], |list[i]|, moved')
    ensures Moved(hash, |list|, m, i + 1, moved')
  {
    var chain := list[i];
    assert ChainIs(hash, chain, i, |list|, m);
    forall k ensures (k in moved' <==> k in m && hash(k) % |list| < i + 1) && (k in moved' ==> moved'[k] == m[k]) {
      if k in m && hash(k) % |list| == i {
        assert Slot(k, m[k]) in chain;
      }
      if k in moved' && k !in moved {
        var j :| 0 <= j < |chain| && chain[j].key == k;
        assert chain[j] in chain;
      }
    }
  }

  lemma ChainUnmoved(hash: Hash, list: seq<seq<Slot>>, m: map<Key, Id>, i: nat, moved: map<Key, Id>)
    requires TableIs(hash, list, m) && i < |list| && Moved(hash, |list|, m, i, moved)
    ensures Distinct(list[i]) && forall j :: 0 <= j < |list[i]| ==> list[i][j].key !in moved
  {
    assert ChainIs(hash, list[i], i, |list|, m);
    forall j | 0 <= j < |list[i]| ensures list[i][j].key !in moved {
      assert list[i][j] in list[i];
    }
  }

  // ----- The table -----

  class HandleTable {
    const hash: Hash
    var list: seq<seq<Slot>>
    var elems: nat
    ghost var m: map<Key, Id>

    ghost predicate Holds() reads this { TableIs(hash, list, m) && elems == |m| }

    /** Never more entries than chains. */
    ghost predicate Ok() reads this { Holds() && elems <= |list| }

    constructor (h: Hash)
      ensures Ok() && m == map[] && hash == h
    {
      hash, list, elems, m := h, seq(4, _ => []), 0, map[];
    }

    method Lookup(key: Key) returns (r: Option<Id>)
      requires Ok()
      ensures r == if key in m then Some(m[key]) else None
    {
      var b := hash(key) % |list|;
      var j := FindPointer(list[b], key);
      Pointed(hash, list, m, key, j);
      r := if j < |list[b]| then Some(list[b][j].id) else None;
    }

    method Insert(key: Key, id: Id) returns (old_: Option<Id>)
      requires Ok()
      modifies this
      ensures Ok() && m == old(m)[key := id]
      ensures old_ == if key in old(m) then Some(old(m)[key]) else None
    {
      NotEmpty(hash, list, m);
      var b := hash(key) % |list|;
      var j := FindPointer(list[b], key);
      Pointed(hash, list, m, key, j);
      PutTable(hash, list, m, key, id, j);
      hide TableIs;
      old_ := if j < |list[b]| then Some(list[b][j].id) else None;
      list := list[b := Put(list[b], j, Slot(key, id))];
      if old_.None? {
        elems := elems + 1;
      }
      MapSize(m, key, id);
      m := m[key := id];
      if old_.None? && elems > |list| {
        Resize();
      }
    }

    method Remove(key: Key) returns (r: Option<Id>)
      requires Ok()
      modifies this
      ensures Ok() && m == old(m) - {key} && (key !in old(m) ==> m == old(m))
      ensures r == if key in old(m) then Some(old(m)[key]) else None
    {
      NotEmpty(hash, list, m);
      var b := hash(key) % |list|;
      var j := FindPointer(list[b], key);
      Pointed(hash, list, m, key, j);
      r := None;
      if j < |list[b]| {
        DropTable(hash, list, m, key, j);
        hide TableIs;
        r := Some(list[b][j].id);
        list := list[b := Drop(list[b], j)];
        elems := elems - 1;
        assert m == (m - {key})[key := m[key]];
        MapSize(m - {key}, key, m[key]);
        m := m - {key};
      } else {
        assert m - {key} == m;
      }
    }

    /** Rehash into more chains; what is stored does not change. */
    method Resize()
      requires Holds()
      modifies `list
      ensures Ok() && |list| >= elems && |list| >= 4 && (|list| == 4 || |list| < 2 * elems)
    {
      hide TableIs, Grown, Moved;
      var length := 4;
      while length < elems
        invariant length >= 4 && Holds() && (length == 4 || length < 2 * elems)
      {
        length := length * 2;
      }
      list := Rehash(hash, list, length, m);
    }
  }

  method Rehash(hash: Hash, list: seq<seq<Slot>>, length: nat, ghost m: map<Key, Id>) returns (r: seq<seq<Slot>>)
    requires TableIs(hash, list, m) && length > 0
    ensures |r| == length && TableIs(hash, r, m)
  {
    NotEmpty(hash, list, m);
    hide TableIs, Grown, Moved;
    r := seq(length, _ => []);
    EmptyTable(hash, length);
    ghost var moved: map<Key, Id> := map[];
    var i := 0;
    NoneMoved(hash, |list|, m);
    while i < |list|
      invariant 0 <= i <= |list| && |r| == length
      invariant TableIs(hash, r, moved) && Moved(hash, |list|, m, i, moved)
    {
      ChainUnmoved(hash, list, m, i, moved);
      ghost var before := moved;
      r, moved := MoveChain(hash, r, list[i], moved);
      ChainMoved(hash, list, m, i, before, moved);
      i := i + 1;
    }
    AllMoved(hash, |list|, m, moved);
  }

  lemma NoneMoved(hash: Hash, n: nat, m: map<Key, Id>)
    requires n > 0
    ensures Moved(hash, n, m, 0, map[])
  {}

  lemma AllMoved(hash: Hash, n: nat, m: map<Key, Id>, moved: map<Key, Id>)
    requires n > 0 && Moved(hash, n, m, n, moved)
    ensures moved == m
  {}

  lemma MapSize(m: map<Key, Id>, key: Key, id: Id)
    ensures |m[key := id]| == if key in m then |m| else |m| + 1
  {
    var m' := m[key := id];
    assert m'.Keys == m.Keys + {key};
    assert |m'| == |m'.Keys| && |m| == |m.Keys|;
  }
}
