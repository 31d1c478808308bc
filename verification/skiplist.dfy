/** The memtable's skip list: one writer, and readers searching between its pointer stores. */
module SkipLists {
  import opened Wrappers

  /** Keys enter only through a total order. */
  type Key = real

  /** Node 0 is the head, which comes before every key. */
  type Node = nat

  const MAX_HEIGHT: nat := 12

  /** The nodes' keys and next pointers by level, and which nodes are linked in on each level. */
  datatype Links = Links(keys: seq<Key>, next: seq<seq<Option<Node>>>, maxHeight: nat, linked: seq<set<Node>>)

  // ----- Order -----

  ghost predicate Shape(v: Links) {
    && |v.keys| >= 1 && |v.next| == MAX_HEIGHT && |v.linked| == MAX_HEIGHT
    && (forall l :: 0 <= l < MAX_HEIGHT ==> |v.next[l]| == |v.keys|)
    && (forall l, x :: 0 <= l < MAX_HEIGHT && x in v.linked[l] ==> 1 <= x < |v.keys|)
  }

  /** y lies to the right of x. */
  predicate RightOf(keys: seq<Key>, x: Node, y: Node)
    requires x < |keys| && y < |keys|
  {
    x == 0 || keys[x] < keys[y]
  }

  /** Node x is on level l (the head is on all of them). */
  ghost predicate On(v: Links, l: nat, x: Node)
    requires Shape(v) && l < MAX_HEIGHT
  {
    x == 0 || x in v.linked[l]
  }

  /** r is the closest node of level l to the right of x. */
  ghost predicate Successor(v: Links, l: nat, x: Node, r: Option<Node>)
    requires Shape(v) && l < MAX_HEIGHT && x < |v.keys|
  {
    match r
    case None => forall z :: z in v.linked[l] ==> !RightOf(v.keys, x, z)
    case Some(y) =>
      && y in v.linked[l] && RightOf(v.keys, x, y)
      && forall z :: z in v.linked[l] && RightOf(v.keys, x, z) ==> z == y || v.keys[y] < v.keys[z]
  }

  ghost predicate LevelOk(v: Links, l: nat)
    requires Shape(v) && l < MAX_HEIGHT
  {
    && (forall x: Node :: On(v, l, x) ==> x < |v.keys| && Successor(v, l, x, v.next[l][x]))
    && (l > 0 ==> v.linked[l] <= v.linked[l - 1])
    && (l >= v.maxHeight ==> v.linked[l] == {})
  }

  /** Every level is a sorted list, and a sublist of the level below. */
  ghost predicate Ok(v: Links) {
    && Shape(v) && 1 <= v.maxHeight <= MAX_HEIGHT
    && (forall l :: 0 <= l < MAX_HEIGHT ==> LevelOk(v, l))
    && (forall x, y :: x in v.linked[0] && y in v.linked[0] && v.keys[x] == v.keys[y] ==> x == y)
  }

  lemma LevelsNest(v: Links, a: nat, b: nat)
    requires Ok(v) && a <= b < MAX_HEIGHT
    ensures v.linked[b] <= v.linked[a]
    decreases b
  {
    assert LevelOk(v, b);
    if a < b {
      LevelsNest(v, a, b - 1);
    }
  }

  // ----- What searches are for -----

  ghost predicate FirstFrom(v: Links, k: Key, r: Option<Node>)
    requires Shape(v)
  {
    match r
    case None => forall z :: z in v.linked[0] ==> v.keys[z] < k
    case Some(y) =>
      && y in v.linked[0] && v.keys[y] >= k
      && forall z :: z in v.linked[0] && v.keys[z] >= k ==> v.keys[y] <= v.keys[z]
  }

  /** p is the last node of level l before key k (or the head). */
  ghost predicate LastBefore(v: Links, l: nat, k: Key, p: Node)
    requires Shape(v) && l < MAX_HEIGHT
  {
    && On(v, l, p) && (p != 0 ==> p < |v.keys| && v.keys[p] < k)
    && forall z :: z in v.linked[l] && v.keys[z] < k ==> p != 0 && v.keys[z] <= v.keys[p]
  }

  /** A search stands at a node of its level that is before its key. */
  ghost predicate Standing(v: Links, k: Key, x: Node, l: nat)
    requires Shape(v)
  {
    l < MAX_HEIGHT && On(v, l, x) && (x != 0 ==> x < |v.keys| && v.keys[x] < k)
  }

  predicate KeyIsAfterNode(keys: seq<Key>, k: Key, n: Option<Node>)
    requires n.Some? ==> n.value < |keys|
  {
    n.Some? && keys[n.value] < k
  }

  /** The pointer loaded at a standing search: it leads to a place still standing, or this is the last node
      before the key on the level, and on level 0 the pointer is the answer. */
  lemma SearchStep(v: Links, k: Key, x: Node, l: nat)
    requires Ok(v) && Standing(v, k, x, l)
    ensures x < |v.keys| && l < |v.next| && x < |v.next[l]|
    ensures var n := v.next[l][x];
      && (n.Some? ==> n.value < |v.keys|)
      && (if KeyIsAfterNode(v.keys, k, n) then Standing(v, k, n.value, l) && RightOf(v.keys, x, n.value) && n.value in v.linked[0]
          else LastBefore(v, l, k, x) && (l > 0 ==> Standing(v, k, x, l - 1)) && (l == 0 ==> FirstFrom(v, k, n)))
  {
    assert LevelOk(v, l);
    var n := v.next[l][x];
    assert Successor(v, l, x, n);
    LevelsNest(v, 0, l);
    if l > 0 {
      LevelsNest(v, l - 1, l);
    }
  }

  /** x is the last node of the list (or the head of an empty one). */
  ghost predicate LastNode(v: Links, x: Node)
    requires Shape(v)
  {
    x < |v.keys| && On(v, 0, x) && forall z :: z in v.linked[0] ==> x != 0 && v.keys[z] <= v.keys[x]
  }

  lemma LastStep(v: Links, x: Node, l: nat)
    requires Ok(v) && l < MAX_HEIGHT && On(v, l, x)
    ensures x < |v.keys| && l < |v.next| && x < |v.next[l]|
    ensures var n := v.next[l][x];
      && (n.Some? ==> n.value < |v.keys| && On(v, l, n.value) && RightOf(v.keys, x, n.value) && n.value in v.linked[0])
      && (n.None? && l > 0 ==> On(v, l - 1, x)) && (n.None? && l == 0 ==> LastNode(v, x))
  {
    assert LevelOk(v, l);
    assert Successor(v, l, x, v.next[l][x]);
    LevelsNest(v, 0, l);
    if l > 0 {
      LevelsNest(v, l - 1, l);
    }
  }

  // ----- Single stores -----

  function AddNode(v: Links, k: Key): Links {
    v.(keys := v.keys + [k], next := seq(|v.next|, l requires 0 <= l < |v.next| => v.next[l] + [None]))
  }

  function SetNext(v: Links, l: nat, x: Node, n: Option<Node>): Links
    requires l < |v.next| && x < |v.next[l]|
  {
    v.(next := v.next[l := v.next[l][x := n]])
  }

  /** The store that makes x reachable on level l. */
  function Publish(v: Links, l: nat, p: Node, x: Node): Links
    requires l < |v.next| && l < |v.linked| && p < |v.next[l]|
  {
    SetNext(v, l, p, Some(x)).(linked := v.linked[l := v.linked[l] + {x}])
  }

  lemma AddNodeOk(v: Links, k: Key)
    requires Ok(v)
    ensures Ok(AddNode(v, k))
  {
    var v' := AddNode(v, k);
    forall l | 0 <= l < MAX_HEIGHT ensures LevelOk(v', l) {
      assert LevelOk(v, l);
      forall x: Node | On(v', l, x) ensures x < |v'.keys| && Successor(v', l, x, v'.next[l][x]) {
        assert On(v, l, x) && Successor(v, l, x, v.next[l][x]);
      }
    }
  }

  lemma RaiseOk(v: Links, h: nat)
    requires Ok(v) && v.maxHeight <= h <= MAX_HEIGHT
    ensures Ok(v.(maxHeight := h))
  {
    var v' := v.(maxHeight := h);
    forall l | 0 <= l < MAX_HEIGHT ensures LevelOk(v', l) {
      assert LevelOk(v, l);
      forall x: Node | On(v', l, x) ensures x < |v'.keys| && Successor(v', l, x, v'.next[l][x]) {
        assert On(v, l, x);
      }
    }
  }

  /** Preparing a pointer of a node that is not on the level yet disturbs nothing. */
  lemma SetNextOk(v: Links, l: nat, x: Node, n: Option<Node>)
    requires Ok(v) && l < MAX_HEIGHT && x < |v.keys| && !On(v, l, x)
    ensures Ok(SetNext(v, l, x, n))
  {
    var v' := SetNext(v, l, x, n);
    forall a | 0 <= a < MAX_HEIGHT ensures LevelOk(v', a) {
      assert LevelOk(v, a);
      forall y: Node | On(v', a, y) ensures y < |v'.keys| && Successor(v', a, y, v'.next[a][y]) {
        assert On(v, a, y) && Successor(v, a, y, v.next[a][y]);
      }
    }
  }

  /** x may be linked behind p on level l. */
  ghost predicate Linkable(v: Links, l: nat, p: Node, x: Node)
    requires Shape(v)
  {
    && l < v.maxHeight <= MAX_HEIGHT && 1 <= x < |v.keys| && x !in v.linked[l] && (l > 0 ==> x in v.linked[l - 1])
    && (l == 0 ==> forall z :: z in v.linked[0] ==> v.keys[z] != v.keys[x])
    && LastBefore(v, l, v.keys[x], p)
  }

  lemma Between(v: Links, l: nat, p: Node, x: Node)
    requires Ok(v) && Linkable(v, l, p, x)
    ensures p < |v.keys| && p != x && RightOf(v.keys, p, x)
    ensures forall z :: z in v.linked[l] ==> v.keys[z] != v.keys[x]
    ensures forall z :: z in v.linked[l] && RightOf(v.keys, p, z) ==> v.keys[x] < v.keys[z]
  {
    LevelsNest(v, 0, l);
    if l > 0 {
      LevelsNest(v, 0, l - 1);
    }
  }

  lemma PublishSuccessors(v: Links, l: nat, p: Node, x: Node, y: Node)
    requires Ok(v) && Linkable(v, l, p, x) && v.next[l][x] == v.next[l][p]
    requires Shape(Publish(v, l, p, x)) && On(Publish(v, l, p, x), l, y)
    ensures y < |v.keys| && Successor(Publish(v, l, p, x), l, y, Publish(v, l, p, x).next[l][y])
  {
    Between(v, l, p, x);
    assert LevelOk(v, l) && On(v, l, p) && Successor(v, l, p, v.next[l][p]);
    if y != p && y != x {
      assert On(v, l, y) && Successor(v, l, y, v.next[l][y]);
      LeftOfBoth(v, l, p, x, y);
      hide Ok, LevelOk;
    }
  }

  lemma LeftOfBoth(v: Links, l: nat, p: Node, x: Node, y: Node)
    requires Ok(v) && Linkable(v, l, p, x) && On(v, l, y) && y != p && y < |v.keys|
    ensures RightOf(v.keys, y, x) ==> p in v.linked[l] && RightOf(v.keys, y, p)
  {
    LevelsNest(v, 0, l);
  }

  lemma PublishOk(v: Links, l: nat, p: Node, x: Node)
    requires Ok(v) && Linkable(v, l, p, x) && v.next[l][x] == v.next[l][p]
    ensures Ok(Publish(v, l, p, x))
  {
    Between(v, l, p, x);
    var v' := Publish(v, l, p, x);
    assert Shape(v');
    forall a | 0 <= a < MAX_HEIGHT ensures LevelOk(v', a) {
      assert LevelOk(v, a);
      forall y: Node | On(v', a, y) ensures y < |v'.keys| && Successor(v', a, y, v'.next[a][y]) {
        if a == l {
          PublishSuccessors(v, l, p, x, y);
        } else {
          assert On(v, a, y) && Successor(v, a, y, v.next[a][y]);
        }
      }
    }
  }

  // ----- The list -----

  class SkipList {
    var keys: seq<Key>
    var next: seq<seq<Option<Node>>>
    var maxHeight: nat
    ghost var linked: seq<set<Node>>

    ghost function View(): Links reads this { Links(keys, next, maxHeight, linked) }

    ghost predicate Valid() reads this { Ok(View()) }

    constructor ()
      ensures Valid() && linked[0] == {}
    {
      keys, maxHeight := [0.0], 1;
      next := seq(MAX_HEIGHT, _ => [None]);
      linked := seq(MAX_HEIGHT, _ => {});
    }

    /** Nodes of the list to the right of x. */
    ghost function Right(x: Node): set<Node>
      requires Shape(View()) && x < |keys|
      reads this
    {
      set z | z in linked[0] && RightOf(keys, x, z)
    }

    method FindGreaterOrEqual(k: Key) returns (r: Option<Node>, prev: seq<Node>)
      requires Valid()
      ensures FirstFrom(View(), k, r)
      ensures 1 <= |prev| == maxHeight <= MAX_HEIGHT && forall l :: 0 <= l < |prev| ==> LastBefore(View(), l, k, prev[l])
    {
      hide Ok, LastBefore, FirstFrom, Standing;
      StartSearch(View(), k);
      var x: nat, level: nat := 0, maxHeight - 1;
      prev := seq(maxHeight, _ => 0);
      while true
        invariant level < |prev| == maxHeight <= MAX_HEIGHT && Standing(View(), k, x, level) && x < |keys|
        invariant forall l :: level < l < |prev| ==> LastBefore(View(), l, k, prev[l])
        decreases level, Right(x)
      {
        SearchStep(View(), k, x, level);
        var n := next[level][x];
        if KeyIsAfterNode(keys, k, n) {
          MovesRight(x, n.value);
          x := n.value;
        } else {
          prev := prev[level := x];
          if level == 0 {
            return n, prev;
          }
          level := level - 1;
        }
      }
    }

    lemma MovesRight(x: Node, y: Node)
      requires Shape(View()) && x < |keys| && y < |keys| && RightOf(keys, x, y) && y in linked[0]
      ensures Right(y) < Right(x)
    {
      assert y in Right(x) && y !in Right(y);
    }

    method FindLessThan(k: Key) returns (x: Node)
      requires Valid()
      ensures LastBefore(View(), 0, k, x)
    {
      hide Ok, LastBefore, FirstFrom, Standing;
      StartSearch(View(), k);
      var level: nat := maxHeight - 1;
      x := 0;
      while true
        invariant level < maxHeight <= MAX_HEIGHT && Standing(View(), k, x, level) && x < |keys|
        decreases level, Right(x)
      {
        SearchStep(View(), k, x, level);
        var n := next[level][x];
        if n.None? || keys[n.value] >= k {
          if level == 0 {
            return x;
          }
          level := level - 1;
        } else {
          MovesRight(x, n.value);
          x := n.value;
        }
      }
    }

    method FindLast() returns (x: Node)
      requires Valid()
      ensures LastNode(View(), x)
    {
      var level: nat := maxHeight - 1;
      x := 0;
      while true
        invariant level < maxHeight && On(View(), level, x) && x < |keys|
        decreases level, Right(x)
      {
        LastStep(View(), x, level);
        var n := next[level][x];
        if n.None? {
          if level == 0 {
            return x;
          }
          level := level - 1;
        } else {
          MovesRight(x, n.value);
          x := n.value;
        }
      }
    }

    method NewNode(k: Key) returns (x: Node)
      requires Valid()
      modifies this
      ensures Valid() && x == |old(keys)| && keys == old(keys) + [k] && maxHeight == old(maxHeight) && linked == old(linked)
    {
      ghost var was := View();
      AddNodeOk(was, k);
      x := |keys|;
      var old_ := next;
      keys := keys + [k];
      next := seq(|old_|, l requires 0 <= l < |old_| => old_[l] + [None]);
      assert View() == AddNode(was, k);
    }

    /** The two stores of one level: the new node's own pointer, then the pointer that publishes it.
        The structure is a skip list after each. */
    method LinkLevel(i: nat, p: Node, x: Node)
      requires Valid() && Linkable(View(), i, p, x) && p < |keys|
      modifies this
      ensures Valid() && keys == old(keys) && maxHeight == old(maxHeight)
      ensures linked == old(linked[i := linked[i] + {x}])
    {
      ghost var before := View();
      StoreKeepsLinkable(before, i, p, x);
      SetNextOk(before, i, x, before.next[i][p]);
      hide Ok, LastBefore;
      next := next[i := next[i][x := next[i][p]]];
      ghost var stored := View();
      assert stored == SetNext(before, i, x, before.next[i][p]);
      assert Valid();
      PublishOk(stored, i, p, x);
      next := next[i := next[i][p := Some(x)]];
      linked := linked[i := linked[i] + {x}];
      assert View() == Publish(stored, i, p, x);
    }

    /** The new key is in the list from the first publishing store on, and nothing else changes. */
    method Insert(k: Key, height: nat) returns (x: Node)
      requires Valid() && 1 <= height <= MAX_HEIGHT
      requires forall z :: z in linked[0] ==> keys[z] != k
      modifies this
      ensures Valid() && keys == old(keys) + [k] && x == |old(keys)|
      ensures maxHeight == if height > old(maxHeight) then height else old(maxHeight)
      ensures linked == LinkedUpTo(old(linked), x, height)
    {
      hide Ok, LastBefore;
      ghost var was := View();
      StartSearch(was, k);
      var _, prev := FindGreaterOrEqual(k);
      if height > maxHeight {
        HeadsBefore(was, k, height);
        prev := prev + seq(height - maxHeight, _ => 0);
        RaiseOk(was, height);
        maxHeight := height;
      }
      x := NewNode(k);
      var i := 0;
      assert linked == LinkedUpTo(was.linked, x, i);
      while i < height
        invariant i <= height <= maxHeight && |prev| >= height && Valid() && Shape(was)
        invariant keys == was.keys + [k] && maxHeight == if height > was.maxHeight then height else was.maxHeight
        invariant linked == LinkedUpTo(was.linked, x, i)
        invariant forall l :: 0 <= l < height ==> LastBefore(was, l, k, prev[l])
      {
        FreshNode(was, View(), i, k, prev[i]);
        LinkLevel(i, prev[i], x);
        LinkedNext(was.linked, x, i);
        i := i + 1;
      }
    }

    method Contains(k: Key) returns (r: bool)
      requires Valid()
      ensures r <==> exists x :: x in linked[0] && keys[x] == k
    {
      var x, _ := FindGreaterOrEqual(k);
      r := x.Some? && keys[x.value] == k;
    }
  }

  /** On a level no search has seen yet the head is the last node before any key. */
  lemma HeadsBefore(v: Links, k: Key, height: nat)
    requires Ok(v) && height <= MAX_HEIGHT
    ensures forall l :: v.maxHeight <= l < height ==> LastBefore(v, l, k, 0)
  {
    forall l | v.maxHeight <= l < height ensures LastBefore(v, l, k, 0) {
      assert LevelOk(v, l);
    }
  }

  /** The last node before k on a level stays so while that level is not touched. */
  lemma BeforeStays(v: Links, v': Links, l: nat, k: Key, p: Node)
    requires Shape(v) && Shape(v') && l < MAX_HEIGHT && v.keys <= v'.keys && v'.linked[l] == v.linked[l]
    requires LastBefore(v, l, k, p)
    ensures LastBefore(v', l, k, p)
  {}

  /** Node x added to the lowest n levels. */
  ghost function LinkedUpTo(linked: seq<set<Node>>, x: Node, n: nat): seq<set<Node>> {
    seq(|linked|, l requires 0 <= l < |linked| => if l < n then linked[l] + {x} else linked[l])
  }

  lemma LinkedNext(linked: seq<set<Node>>, x: Node, n: nat)
    requires n < |linked|
    ensures var upTo := LinkedUpTo(linked, x, n); upTo[n := upTo[n] + {x}] == LinkedUpTo(linked, x, n + 1)
  {}

  lemma FreshNode(was: Links, v: Links, i: nat, k: Key, p: Node)
    requires Ok(was) && Ok(v) && i < v.maxHeight && v.keys == was.keys + [k]
    requires forall z :: z in was.linked[0] ==> was.keys[z] != k
    requires v.linked == LinkedUpTo(was.linked, |was.keys|, i)
    requires i < MAX_HEIGHT && LastBefore(was, i, k, p)
    ensures Linkable(v, i, p, |was.keys|) && p < |v.keys|
  {
    BeforeStays(was, v, i, k, p);
  }

  lemma StoreKeepsLinkable(v: Links, i: nat, p: Node, x: Node)
    requires Ok(v) && Shape(v) && Linkable(v, i, p, x) && p < |v.keys|
    ensures var v' := SetNext(v, i, x, v.next[i][p]);
      Shape(v') && Linkable(v', i, p, x) && v'.next[i][x] == v'.next[i][p]
  {
    Between(v, i, p, x);
  }

  lemma StartSearch(v: Links, k: Key)
    requires Ok(v)
    ensures 1 <= v.maxHeight <= MAX_HEIGHT && |v.keys| >= 1 && Shape(v) && Standing(v, k, 0, v.maxHeight - 1)
  {}
}

/** Any interleaving of one writer's stores with the loads of any number of searches. */
module SkipListRuns {
  import opened Wrappers
  import opened SkipLists

  /** Where the writer is in an insertion of key k. */
  datatype Writer =
    | Idle
    | Found(k: Key, height: nat, prev: seq<Node>)
    | Raised(k: Key, height: nat, prev: seq<Node>)
    | Linking(k: Key, height: nat, prev: seq<Node>, x: Node, level: nat, stored: bool)

  /** What a search looks for: FindGreaterOrEqual, FindLessThan and FindLast. */
  datatype Goal = AtOrAfter(k: Key) | Before(k: Key) | Last

  datatype Reader = Searching(goal: Goal, x: Node, level: nat) | Answered(goal: Goal, answer: Option<Node>)

  datatype State = State(v: Links, w: Writer, readers: seq<Reader>)

  datatype Step =
    | Find(k: Key, height: nat, prev: seq<Node>)
    | Raise
    | Allocate
    | Store
    | Link
    | Finish
    | StartRead(goal: Goal, height: nat)
    | Load(r: nat)

  ghost predicate Next(s: State, step: Step, s': State) {
    Shape(s.v) &&
    match step
    case Find(k, height, prev) =>
      && s.w.Idle? && 1 <= height <= MAX_HEIGHT && height <= |prev|
      && (forall z :: z in s.v.linked[0] ==> s.v.keys[z] != k)
      && (forall l :: 0 <= l < height ==> LastBefore(s.v, l, k, prev[l]))
      && s' == s.(w := Found(k, height, prev))
    case Raise =>
      && s.w.Found?
      && s' == s.(v := if s.w.height > s.v.maxHeight then s.v.(maxHeight := s.w.height) else s.v,
                  w := Raised(s.w.k, s.w.height, s.w.prev))
    case Allocate =>
      && s.w.Raised?
      && s' == s.(v := AddNode(s.v, s.w.k), w := Linking(s.w.k, s.w.height, s.w.prev, |s.v.keys|, 0, false))
    case Store =>
      && s.w.Linking? && !s.w.stored && s.w.level < s.w.height <= MAX_HEIGHT && s.w.level < |s.w.prev|
      && s.w.x < |s.v.keys| && s.w.prev[s.w.level] < |s.v.keys|
      && s' == s.(v := SetNext(s.v, s.w.level, s.w.x, s.v.next[s.w.level][s.w.prev[s.w.level]]), w := s.w.(stored := true))
    case Link =>
      && s.w.Linking? && s.w.stored && s.w.level < s.w.height <= MAX_HEIGHT && s.w.level < |s.w.prev|
      && s.w.prev[s.w.level] < |s.v.keys|
      && s' == s.(v := Publish(s.v, s.w.level, s.w.prev[s.w.level], s.w.x), w := s.w.(level := s.w.level + 1, stored := false))
    case Finish =>
      s.w.Linking? && s.w.level == s.w.height && s' == s.(w := Idle)
    case StartRead(goal, height) =>
      // The height is loaded without a barrier: any value it has had may be seen.
      1 <= height <= s.v.maxHeight && s' == s.(readers := s.readers + [Searching(goal, 0, height - 1)])
    case Load(r) =>
      && r < |s.readers| && s.readers[r].Searching? && s.readers[r].level < MAX_HEIGHT && s.readers[r].x < |s.v.keys|
      && (var n := s.v.next[s.readers[r].level][s.readers[r].x]; n.Some? ==> n.value < |s.v.keys|)
      && s' == s.(readers := s.readers[r := Loaded(s.v, s.readers[r])])
  }

  /** Whether the search goes on to the node just loaded. */
  predicate GoesRight(keys: seq<Key>, goal: Goal, n: Option<Node>)
    requires n.Some? ==> n.value < |keys|
  {
    if goal.Last? then n.Some? else KeyIsAfterNode(keys, goal.k, n)
  }

  /** The search after its next load: to the right, down, or answered. */
  ghost function Loaded(v: Links, r: Reader): Reader
    requires Shape(v) && r.Searching? && r.level < MAX_HEIGHT && r.x < |v.keys|
    requires var n := v.next[r.level][r.x]; n.Some? ==> n.value < |v.keys|
  {
    var n := v.next[r.level][r.x];
    if GoesRight(v.keys, r.goal, n) then r.(x := n.value)
    else if r.level > 0 then r.(level := r.level - 1)
    else Answered(r.goal, if r.goal.AtOrAfter? then n else Some(r.x))
  }

  /** The answer is right for the list as it is. */
  ghost predicate Right(v: Links, goal: Goal, answer: Option<Node>)
    requires Shape(v)
  {
    match goal
    case AtOrAfter(k) => FirstFrom(v, k, answer)
    case Before(k) => answer.Some? && LastBefore(v, 0, k, answer.value)
    case Last => answer.Some? && LastNode(v, answer.value)
  }

  // ----- The invariant -----

  ghost predicate ReaderOk(v: Links, r: Reader)
    requires Shape(v)
  {
    r.Searching? ==> if r.goal.Last? then r.level < MAX_HEIGHT && On(v, r.level, r.x) else Standing(v, r.goal.k, r.x, r.level)
  }

  lemma LoadStep(v: Links, r: Reader)
    requires Ok(v) && r.Searching? && ReaderOk(v, r)
    ensures r.level < MAX_HEIGHT && r.x < |v.keys|
    ensures var n := v.next[r.level][r.x]; n.Some? ==> n.value < |v.keys|
    ensures ReaderOk(v, Loaded(v, r))
    ensures Loaded(v, r).Answered? ==> Right(v, r.goal, Loaded(v, r).answer)
  {
    if r.goal.Last? {
      LastStep(v, r.x, r.level);
    } else {
      SearchStep(v, r.goal.k, r.x, r.level);
    }
    hide Ok, Standing, FirstFrom, LastBefore, LastNode, On;
  }

  /** What the writer found stays true of the levels it has not linked yet. */
  ghost predicate Places(v: Links, k: Key, height: nat, prev: seq<Node>, from: nat)
    requires Shape(v)
  {
    && 1 <= height <= MAX_HEIGHT && height <= |prev|
    && forall l :: from <= l < height ==> LastBefore(v, l, k, prev[l])
  }

  ghost predicate Absent(v: Links, k: Key)
    requires Shape(v)
  {
    forall z :: z in v.linked[0] ==> v.keys[z] != k
  }

  ghost predicate WriterOk(v: Links, w: Writer)
    requires Shape(v)
  {
    match w
    case Idle => true
    case Found(k, height, prev) => Places(v, k, height, prev, 0) && Absent(v, k)
    case Raised(k, height, prev) => Places(v, k, height, prev, 0) && Absent(v, k) && height <= v.maxHeight
    case Linking(k, height, prev, x, level, stored) =>
      && Places(v, k, height, prev, level) && height <= v.maxHeight && level <= height
      && 1 <= x < |v.keys| && v.keys[x] == k
      && (level == 0 ==> Absent(v, k))
      && (forall l :: 0 <= l < MAX_HEIGHT ==> (x in v.linked[l] <==> l < level))
      && (stored ==> level < height && prev[level] < |v.keys| && v.next[level][x] == v.next[level][prev[level]])
  }

  ghost predicate Inv(s: State) {
    Ok(s.v) && WriterOk(s.v, s.w) && forall r :: 0 <= r < |s.readers| ==> ReaderOk(s.v, s.readers[r])
  }

  /** v' holds at least the nodes of v on every level. */
  ghost predicate Grows(v: Links, v': Links) {
    && Shape(v) && Shape(v') && v.keys <= v'.keys
    && forall l :: 0 <= l < MAX_HEIGHT ==> v.linked[l] <= v'.linked[l]
  }

  /** A search in progress is not disturbed by the list growing. */
  lemma ReadersStay(v: Links, v': Links, readers: seq<Reader>)
    requires Grows(v, v') && forall r :: 0 <= r < |readers| ==> ReaderOk(v, readers[r])
    ensures forall r :: 0 <= r < |readers| ==> ReaderOk(v', readers[r])
  {
    forall r | 0 <= r < |readers| ensures ReaderOk(v', readers[r]) {
      assert ReaderOk(v, readers[r]);
    }
  }

  lemma PlacesStay(v: Links, v': Links, k: Key, height: nat, prev: seq<Node>, from: nat)
    requires Shape(v) && Shape(v') && v.keys <= v'.keys && Places(v, k, height, prev, from)
    requires forall l :: from <= l < MAX_HEIGHT ==> v'.linked[l] == v.linked[l]
    ensures Places(v', k, height, prev, from)
  {
    forall l | from <= l < height ensures LastBefore(v', l, k, prev[l]) {
      BeforeStays(v, v', l, k, prev[l]);
    }
  }

  lemma RaiseKeeps(s: State, s': State)
    requires Inv(s) && Next(s, Raise, s')
    ensures Inv(s')
  {
    if s.w.height > s.v.maxHeight {
      RaiseOk(s.v, s.w.height);
    }
    hide Ok;
    PlacesStay(s.v, s'.v, s.w.k, s.w.height, s.w.prev, 0);
    ReadersStay(s.v, s'.v, s.readers);
  }

  lemma AllocateKeeps(s: State, s': State)
    requires Inv(s) && Next(s, Allocate, s')
    ensures Inv(s')
  {
    AddNodeOk(s.v, s.w.k);
    hide Ok;
    PlacesStay(s.v, s'.v, s.w.k, s.w.height, s.w.prev, 0);
    ReadersStay(s.v, s'.v, s.readers);
  }

  lemma PlaceLinkable(v: Links, w: Writer)
    requires Ok(v) && WriterOk(v, w) && w.Linking? && w.level < w.height
    ensures Linkable(v, w.level, w.prev[w.level], w.x) && w.prev[w.level] < |v.keys|
  {}

  lemma StoreKeeps(s: State, s': State)
    requires Inv(s) && Next(s, Store, s')
    ensures Inv(s')
  {
    var l, p, x := s.w.level, s.w.prev[s.w.level], s.w.x;
    PlaceLinkable(s.v, s.w);
    SetNextOk(s.v, l, x, s.v.next[l][p]);
    StoreKeepsLinkable(s.v, l, p, x);
    hide Ok, Linkable;
    PlacesStay(s.v, s'.v, s.w.k, s.w.height, s.w.prev, l);
    ReadersStay(s.v, s'.v, s.readers);
  }

  lemma LinkKeeps(s: State, s': State)
    requires Inv(s) && Next(s, Link, s')
    ensures Inv(s')
  {
    var l, p, x := s.w.level, s.w.prev[s.w.level], s.w.x;
    PlaceLinkable(s.v, s.w);
    PublishOk(s.v, l, p, x);
    hide Ok, Linkable;
    PlacesStay(s.v, s'.v, s.w.k, s.w.height, s.w.prev, l + 1);
    ReadersStay(s.v, s'.v, s.readers);
  }

  lemma LoadKeeps(s: State, r: nat, s': State)
    requires Inv(s) && Next(s, Load(r), s')
    ensures Inv(s')
    ensures s'.readers[r].Answered? ==> Right(s'.v, s'.readers[r].goal, s'.readers[r].answer)
  {
    assert ReaderOk(s.v, s.readers[r]);
    LoadStep(s.v, s.readers[r]);
    hide Ok, Right, ReaderOk;
  }

  lemma StepKeepsInv(s: State, step: Step, s': State)
    requires Inv(s) && Next(s, step, s')
    ensures Inv(s')
  {
    match step
    case Find(k, height, prev) =>
    case Raise => RaiseKeeps(s, s');
    case Allocate => AllocateKeeps(s, s');
    case Store => StoreKeeps(s, s');
    case Link => LinkKeeps(s, s');
    case Finish =>
    case StartRead(goal, height) =>
    case Load(r) => LoadKeeps(s, r, s');
  }

  /** The index guards of the steps never hold anyone up: a begun insertion and a search can always go on. */
  lemma WriterNotBlocked(s: State) returns (step: Step, s': State)
    requires Inv(s) && !s.w.Idle?
    ensures Next(s, step, s')
  {
    var w := s.w;
    match w
    case Found(k, height, prev) =>
      step := Raise;
      s' := s.(v := if height > s.v.maxHeight then s.v.(maxHeight := height) else s.v, w := Raised(k, height, prev));
    case Raised(k, height, prev) =>
      step := Allocate;
      s' := s.(v := AddNode(s.v, k), w := Linking(k, height, prev, |s.v.keys|, 0, false));
    case Linking(k, height, prev, x, level, stored) =>
      if level == height {
        step, s' := Finish, s.(w := Idle);
      } else {
        PlaceLinkable(s.v, w);
        if stored {
          step := Link;
          s' := s.(v := Publish(s.v, level, prev[level], x), w := w.(level := level + 1, stored := false));
        } else {
          step := Store;
          s' := s.(v := SetNext(s.v, level, x, s.v.next[level][prev[level]]), w := w.(stored := true));
        }
      }
  }

  lemma ReaderNotBlocked(s: State, r: nat) returns (s': State)
    requires Inv(s) && r < |s.readers| && s.readers[r].Searching?
    ensures Next(s, Load(r), s')
  {
    assert ReaderOk(s.v, s.readers[r]);
    LoadStep(s.v, s.readers[r]);
    s' := s.(readers := s.readers[r := Loaded(s.v, s.readers[r])]);
  }

  // ----- Over every run -----

  ghost predicate Start(s: State) {
    && s.w.Idle? && s.readers == []
    && s.v == Links([0.0], seq(MAX_HEIGHT, _ => [None]), 1, seq(MAX_HEIGHT, _ => {}))
  }

  ghost predicate IsRun(states: seq<State>, steps: seq<Step>) {
    && |states| == |steps| + 1 && Start(states[0])
    && forall i :: 0 <= i < |steps| ==> Next(states[i], steps[i], states[i + 1])
  }

  lemma {:induction false} RunInv(states: seq<State>, steps: seq<Step>, n: nat)
    requires IsRun(states, steps) && n < |states|
    ensures Inv(states[n])
  {
    hide Next;
    if n > 0 {
      hide Inv;
      RunInv(states, steps, n - 1);
      StepKeepsInv(states[n - 1], steps[n - 1], states[n]);
    }
  }

  /** A search answers rightly for the list as it is at its last load, whatever the writer did meanwhile: the
      first node at or after its key, the last node before it, or the last node of all. */
  lemma SearchExact(states: seq<State>, steps: seq<Step>, n: nat, r: nat)
    requires IsRun(states, steps) && n < |steps| && steps[n] == Load(r)
    ensures Ok(states[n + 1].v) && r < |states[n + 1].readers|
    ensures states[n + 1].readers[r].Answered? ==>
      Right(states[n + 1].v, states[n + 1].readers[r].goal, states[n + 1].readers[r].answer)
  {
    RunInv(states, steps, n);
    assert Next(states[n], steps[n], states[n + 1]);
    hide IsRun, Next, Right;
    LoadKeeps(states[n], r, states[n + 1]);
    LoadedReader(states[n], r, states[n + 1]);
  }

  lemma LoadedReader(s: State, r: nat, s': State)
    requires Next(s, Load(r), s')
    ensures r < |s'.readers|
  {}
}
