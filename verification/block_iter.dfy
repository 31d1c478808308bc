/** The cursor over one block. */
module BlockIters {
  import opened Wrappers
  import opened Bytes
  import opened Blocks

  // ----- Facts of a layout, one at a time -----

  lemma EntryOf(b: Layout, i: nat)
    requires IsLayout(b) && i < |b.es|
    ensures Placed(b) && EntryAt(b, i) && b.offs[i] < b.offs[i + 1] <= b.limit
  {
    hide RestartAt;
  }

  lemma RestartOf(b: Layout, r: nat)
    requires IsLayout(b) && r < |b.firsts|
    ensures Placed(b) && RestartAt(b, r) && b.firsts[0] == 0
    ensures forall s :: r < s < |b.firsts| ==> b.firsts[r] < b.firsts[s]
    ensures forall s :: 0 <= s < r ==> b.firsts[s] < b.firsts[r]
  {
    hide EntryAt;
  }

  lemma SomeRestart(b: Layout) requires IsLayout(b) ensures |b.firsts| >= 1 {
    hide EntryAt, RestartAt;
  }

  lemma OffsetOrder(b: Layout, i: nat, j: nat)
    requires Placed(b) && i <= |b.es| && j <= |b.es|
    ensures b.offs[i] < b.offs[j] <==> i < j
  {
    assert j < i ==> b.offs[j] < b.offs[i];
  }

  lemma Before(less: Less, es: seq<Pair>, i: nat, j: nat, target: seq<Byte>)
    requires IsOrder(less) && Ascending(less, es) && i <= j < |es|
    ensures less(es[j].key, target) ==> less(es[i].key, target)
  {
    assert i < j ==> less(es[i].key, es[j].key);
  }

  /** The restart point of a position: its region starts at or before it, and the next one not before it. */
  ghost predicate InRegion(b: Layout, r: nat, i: nat) {
    r < |b.firsts| && b.firsts[r] <= i && (r + 1 < |b.firsts| ==> i <= b.firsts[r + 1])
  }

  /** Position p is where a search for the target belongs: the first entry at or after it. */
  ghost predicate SeekPos(less: Less, es: seq<Pair>, target: seq<Byte>, p: nat) {
    && p <= |es| && AllBefore(less, es, target, p) && (p < |es| ==> !less(es[p].key, target))
  }

  ghost predicate AllBefore(less: Less, es: seq<Pair>, target: seq<Byte>, n: nat)
    requires n <= |es|
  {
    forall j: nat :: j < n ==> less(es[j].key, target)
  }

  lemma BeforeEntry(less: Less, es: seq<Pair>, target: seq<Byte>, i: nat)
    requires IsOrder(less) && Ascending(less, es) && i < |es|
    ensures less(es[i].key, target) ==> AllBefore(less, es, target, i + 1)
    ensures es[i].key == target ==> SeekPos(less, es, target, i)
  {
    forall j: nat | j < i ensures less(es[i].key, target) ==> less(es[j].key, target) {
      Before(less, es, j, i, target);
    }
    if es[i].key == target {
      assert forall j: nat :: j < i ==> less(es[j].key, es[i].key);
    }
  }

  /** The key at a restart point is stored whole. */
  lemma RestartKey(b: Layout, r: nat)
    requires IsLayout(b) && r < |b.firsts| && b.es != []
    ensures Placed(b) && RestartAt(b, r) && b.firsts[r] < |b.es| && b.offs[b.firsts[r]] <= b.limit <= |b.data|
    ensures var h := DecodeEntry(b.data, b.offs[b.firsts[r]], b.limit);
      && h.Some? && h.value.shared == 0
      && b.data[h.value.at..h.value.at + h.value.nonShared] == b.es[b.firsts[r]].key
  {
    RestartOf(b, r);
    EntryOf(b, b.firsts[r]);
    hide IsLayout, DecodeEntry;
    var i := b.firsts[r];
    assert i in b.firsts;
    var h := DecodeEntry(b.data, b.offs[i], b.limit).value;
    assert KeyBefore(b.es, i)[..0] + b.data[h.at..h.at + h.nonShared] == b.data[h.at..h.at + h.nonShared];
  }

  /** Every entry before restart point r is before the target. */
  ghost predicate StartsBefore(less: Less, b: Layout, target: seq<Byte>, r: nat) {
    r < |b.firsts| && b.firsts[r] <= |b.es| && AllBefore(less, b.es, target, b.firsts[r])
  }

  lemma BeforeRegion(less: Less, b: Layout, target: seq<Byte>, r: nat, i: nat)
    requires IsLayout(b) && InRegion(b, r, i) && i < |b.es|
    ensures AllBefore(less, b.es, target, i + 1) ==> StartsBefore(less, b, target, r)
  {}

  lemma StartsAtZero(less: Less, b: Layout, target: seq<Byte>)
    requires IsLayout(b)
    ensures StartsBefore(less, b, target, 0)
  {
    SomeRestart(b);
    RestartOf(b, 0);
  }

  lemma StartIsBefore(less: Less, b: Layout, target: seq<Byte>, r: nat)
    requires StartsBefore(less, b, target, r)
    ensures r < |b.firsts| && b.firsts[r] <= |b.es| && AllBefore(less, b.es, target, b.firsts[r])
  {}

  /** No restart point after r is before the target. */
  ghost predicate NoneBeyond(less: Less, b: Layout, target: seq<Byte>, r: nat) {
    forall q :: r < q < |b.firsts| && b.firsts[q] < |b.es| ==> !less(b.es[b.firsts[q]].key, target)
  }

  lemma NoneBeyondLast(less: Less, b: Layout, target: seq<Byte>)
    requires |b.firsts| >= 1
    ensures NoneBeyond(less, b, target, |b.firsts| - 1)
  {}

  lemma ToRestart(less: Less, b: Layout, target: seq<Byte>, r: nat, i: nat)
    requires IsLayout(b) && IsOrder(less) && Ascending(less, b.es)
    requires 0 < r < |b.firsts| && i <= b.firsts[r] && i < |b.es| && !less(b.es[i].key, target)
    ensures NoneBeyond(less, b, target, r - 1)
  {
    forall q | r - 1 < q < |b.firsts| && b.firsts[q] < |b.es| ensures !less(b.es[b.firsts[q]].key, target) {
      RestartOf(b, r);
      Before(less, b.es, i, b.firsts[q], target);
    }
  }

  lemma FromRestart(less: Less, b: Layout, target: seq<Byte>, r: nat)
    requires IsLayout(b) && IsOrder(less) && Ascending(less, b.es) && r < |b.firsts| && b.firsts[r] < |b.es|
    requires less(b.es[b.firsts[r]].key, target)
    ensures StartsBefore(less, b, target, r)
  {
    BeforeEntry(less, b.es, target, b.firsts[r]);
  }

  lemma MidKey(b: Layout, mid: nat)
    requires IsLayout(b) && 0 < mid < |b.firsts|
    ensures Placed(b) && RestartAt(b, mid) && b.firsts[mid] < |b.es| && b.offs[b.firsts[mid]] <= b.limit <= |b.data|
    ensures var h := DecodeEntry(b.data, b.offs[b.firsts[mid]], b.limit);
      && h.Some? && h.value.shared == 0
      && b.data[h.value.at..h.value.at + h.value.nonShared] == b.es[b.firsts[mid]].key
  {
    hide IsLayout;
    if b.es == [] {
      NoEntries(b);
      assert false;
    }
    RestartKey(b, mid);
  }

  lemma Equal(less: Less, a: seq<Byte>, b: seq<Byte>)
    requires IsOrder(less) && !less(a, b) && !less(b, a)
    ensures a == b
  {}

  class Iter {
    const less: Less
    const data: seq<Byte>
    const limit: nat
    const num: nat
    var current: nat
    var restartIndex: nat
    var key: seq<Byte>
    var valueStart: nat
    var valueEnd: nat
    /** What the block holds, and the index of the current entry (their number when there is none). */
    ghost const b: Layout
    ghost var pos: nat

    ghost predicate Sane() {
      && IsLayout(b) && IsOrder(less) && Ascending(less, b.es)
      && data == b.data && limit == b.limit && num == |b.firsts|
    }

    ghost predicate Ok() reads this {
      && Sane() && pos <= |b.es|
      && (if pos == |b.es| then current == limit && restartIndex == num else AtEntry())
    }

    ghost predicate AtEntry()
      requires Sane() && pos < |b.es|
      reads this
    {
      && current == b.offs[pos] && key == b.es[pos].key && InRegion(b, restartIndex, pos)
      && valueStart <= valueEnd == b.offs[pos + 1] <= |data| && data[valueStart..valueEnd] == b.es[pos].value
    }

    /** Entry j is the next to be parsed. */
    ghost predicate Ready(j: nat) reads this {
      && Sane() && j <= |b.es| && valueEnd == b.offs[j] && restartIndex < num && b.firsts[restartIndex] <= j
      && (key == KeyBefore(b.es, j) || j in b.firsts)
    }

    constructor (lt: Less, contents: seq<Byte>, restarts: nat, numRestarts: nat, ghost layout: Layout)
      requires IsLayout(layout) && IsOrder(lt) && Ascending(lt, layout.es)
      requires contents == layout.data && restarts == layout.limit && numRestarts == |layout.firsts|
      ensures Ok() && b == layout && less == lt && pos == |b.es|
    {
      less, data, limit, num := lt, contents, restarts, numRestarts;
      current, restartIndex := restarts, numRestarts;
      key, valueStart, valueEnd := [], 0, 0;
      b, pos := layout, |layout.es|;
    }

    method SeekToRestartPoint(r: nat)
      requires Sane() && r < num
      modifies this
      ensures Ready(b.firsts[r]) && restartIndex == r && pos == old(pos) && current == old(current)
    {
      hide IsLayout;
      RestartOf(b, r);
      key, restartIndex := [], r;
      var offset := RestartPoint(data, limit, r);
      valueStart, valueEnd := offset, offset;
      assert b.firsts[r] in b.firsts;
    }

    /** Decode the entry after the current value. */
    method ParseNextKey(ghost j: nat) returns (more: bool)
      requires Ready(j)
      modifies this
      ensures Ok() && pos == j && (more <==> j < |b.es|)
    {
      hide IsLayout, Ascending, IsOrder, DecodeEntry, RestartPoint;
      RestartOf(b, restartIndex);
      OffsetOrder(b, j, |b.es|);
      current := valueEnd;
      pos := j;
      if current >= limit {
        current, restartIndex := limit, num;
        return false;
      }
      EntryOf(b, j);
      var h := DecodeEntry(data, current, limit);
      if h.None? || |key| < h.value.shared {
        assert false;
      }
      ParsedKey(b, j, key);
      key := key[..h.value.shared] + data[h.value.at..h.value.at + h.value.nonShared];
      valueStart := h.value.at + h.value.nonShared;
      valueEnd := valueStart + h.value.valueLen;
      AdvanceRestart();
      more := true;
    }

    method AdvanceRestart()
      requires Sane() && pos < |b.es| && current == b.offs[pos] && restartIndex < num && b.firsts[restartIndex] <= pos
      modifies `restartIndex
      ensures InRegion(b, restartIndex, pos)
    {
      hide IsLayout, Ascending, IsOrder, RestartPoint;
      RestartOf(b, restartIndex);
      if restartIndex + 1 < num {
        RestartOf(b, restartIndex + 1);
      }
      while restartIndex + 1 < num && RestartPoint(data, limit, restartIndex + 1) < current
        invariant restartIndex < num && b.firsts[restartIndex] <= pos
        invariant restartIndex + 1 < num ==> RestartAt(b, restartIndex + 1)
      {
        OffsetOrder(b, b.firsts[restartIndex + 1], pos);
        restartIndex := restartIndex + 1;
        if restartIndex + 1 < num {
          RestartOf(b, restartIndex + 1);
        }
      }
      if restartIndex + 1 < num {
        OffsetOrder(b, b.firsts[restartIndex + 1], pos);
      }
    }

    method Next()
      requires Ok() && pos < |b.es|
      modifies this
      ensures Ok() && pos == old(pos) + 1
    {
      hide IsLayout, Ascending, IsOrder;
      var _ := ParseNextKey(pos + 1);
    }

    /** Undoes Next; from the first entry it leaves the cursor at no entry. */
    method Prev()
      requires Ok() && pos < |b.es|
      modifies this
      ensures Ok() && pos == if old(pos) == 0 then |b.es| else old(pos) - 1
    {
      hide IsLayout, Ascending, IsOrder, RestartPoint;
      var original := current;
      ghost var i := pos;
      RestartOf(b, restartIndex);
      while RestartPoint(data, limit, restartIndex) >= original
        invariant restartIndex < num && pos == i && RestartAt(b, restartIndex) && b.firsts[0] == 0
        invariant current == original == b.offs[i]
      {
        OffsetOrder(b, b.firsts[restartIndex], i);
        if restartIndex == 0 {
          current, restartIndex := limit, num;
          pos := |b.es|;
          return;
        }
        restartIndex := restartIndex - 1;
        RestartOf(b, restartIndex);
      }
      OffsetOrder(b, b.firsts[restartIndex], i);
      SeekToRestartPoint(restartIndex);
      ghost var j := b.firsts[restartIndex];
      while true
        invariant Ready(j) && j < i
        decreases i - j
      {
        var more := ParseNextKey(j);
        OffsetOrder(b, j + 1, i);
        if !(more && valueEnd < original) {
          break;
        }
        j := j + 1;
      }
    }

    /** From any position, including the shortcuts that reuse it. */
    method Seek(target: seq<Byte>)
      requires Ok()
      modifies this
      ensures Ok() && SeekPos(less, b.es, target, pos)
    {
      hide IsLayout, Ascending, IsOrder, SeekPos, AllBefore, StartsBefore, NoneBeyond, AtEntry;
      var left, right, ahead, here := StartRange(target);
      if here {
        return;
      }
      left := SearchRestarts(left, right, target);
      if left == restartIndex && ahead {
        ScanTo(target, pos + 1);
      } else {
        SeekToRestartPoint(left);
        StartIsBefore(less, b, target, left);
        ScanTo(target, b.firsts[left]);
      }
    }

    /** What the current position tells: the target is here, or ahead of it, or behind it. */
    method StartRange(target: seq<Byte>) returns (left: nat, right: nat, ahead: bool, here: bool)
      requires Ok()
      ensures here ==> SeekPos(less, b.es, target, pos)
      ensures !here ==> left <= right < num && StartsBefore(less, b, target, left) && NoneBeyond(less, b, target, right)
      ensures ahead ==> pos < |b.es| && Ready(pos + 1) && AllBefore(less, b.es, target, pos + 1)
    {
      hide IsLayout, Ascending, IsOrder, SeekPos, AllBefore, StartsBefore, NoneBeyond;
      SomeRestart(b);
      RestartOf(b, 0);
      OffsetOrder(b, pos, |b.es|);
      StartsAtZero(less, b, target);
      NoneBeyondLast(less, b, target);
      left, right, ahead, here := 0, num - 1, false, false;
      if current < limit {
        BeforeEntry(less, b.es, target, pos);
        if less(key, target) {
          BeforeRegion(less, b, target, restartIndex, pos);
          left, ahead := restartIndex, true;
        } else if less(target, key) {
          if restartIndex + 1 < num {
            ToRestart(less, b, target, restartIndex + 1, pos);
          }
          right := restartIndex;
        } else {
          Equal(less, key, target);
          here := true;
        }
      }
    }

    /** The last restart point found with a key before the target, between left and right. */
    method SearchRestarts(l: nat, r: nat, target: seq<Byte>) returns (left: nat)
      requires Sane() && l <= r < num && StartsBefore(less, b, target, l) && NoneBeyond(less, b, target, r)
      ensures left < num && StartsBefore(less, b, target, left) && NoneBeyond(less, b, target, left)
    {
      hide IsLayout, Ascending, IsOrder, RestartPoint, DecodeEntry, StartsBefore, NoneBeyond;
      left := l;
      var right := r;
      while left < right
        invariant left <= right < num && StartsBefore(less, b, target, left) && NoneBeyond(less, b, target, right)
        decreases right - left
      {
        var mid := (left + right + 1) / 2;
        MidKey(b, mid);
        var region := RestartPoint(data, limit, mid);
        var h := DecodeEntry(data, region, limit);
        if h.None? || h.value.shared != 0 {
          assert false;
        }
        var midKey := data[h.value.at..h.value.at + h.value.nonShared];
        if less(midKey, target) {
          FromRestart(less, b, target, mid);
          left := mid;
        } else {
          ToRestart(less, b, target, mid, b.firsts[mid]);
          right := mid - 1;
        }
      }
    }

    /** Linear search from entry j on. */
    method ScanTo(target: seq<Byte>, ghost start: nat)
      requires Ready(start) && AllBefore(less, b.es, target, start)
      modifies this
      ensures Ok() && SeekPos(less, b.es, target, pos)
    {
      hide IsLayout, Ascending, IsOrder;
      ghost var j := start;
      while true
        invariant Ready(j) && AllBefore(less, b.es, target, j)
        decreases |b.es| - j
      {
        var more := ParseNextKey(j);
        if !more {
          return;
        }
        if !less(key, target) {
          return;
        }
        j := j + 1;
      }
    }

    method SeekToFirst()
      requires Ok()
      modifies this
      ensures Ok() && pos == 0
    {
      hide IsLayout, Ascending, IsOrder;
      SomeRestart(b);
      RestartOf(b, 0);
      SeekToRestartPoint(0);
      var _ := ParseNextKey(0);
    }

    method SeekToLast()
      requires Ok()
      modifies this
      ensures Ok() && pos == if b.es == [] then 0 else |b.es| - 1
    {
      hide IsLayout, Ascending, IsOrder;
      SomeRestart(b);
      RestartOf(b, num - 1);
      SeekToRestartPoint(num - 1);
      ghost var j := b.firsts[num - 1];
      while true
        invariant Ready(j) && (j < |b.es| || b.es == [])
        decreases |b.es| - j
      {
        var more := ParseNextKey(j);
        if !more {
          break;
        }
        OffsetOrder(b, j + 1, |b.es|);
        if !(valueEnd < limit) {
          break;
        }
        j := j + 1;
      }
    }
  }

  lemma NoEntries(b: Layout)
    requires IsLayout(b) && b.es == []
    ensures |b.firsts| == 1
  {
    if |b.firsts| > 1 {
      RestartOf(b, 1);
      assert false;
    }
  }

  lemma ParsedKey(b: Layout, j: nat, key: seq<Byte>)
    requires IsLayout(b) && j < |b.es| && (key == KeyBefore(b.es, j) || j in b.firsts)
    ensures Placed(b) && b.offs[j] <= b.limit <= |b.data| && DecodeEntry(b.data, b.offs[j], b.limit).Some?
    ensures var h := DecodeEntry(b.data, b.offs[j], b.limit).value;
      && h.shared <= |key| && key[..h.shared] + b.data[h.at..h.at + h.nonShared] == b.es[j].key
      && h.at + h.nonShared + h.valueLen == b.offs[j + 1]
      && b.data[h.at + h.nonShared..b.offs[j + 1]] == b.es[j].value
  {
    EntryOf(b, j);
    hide IsLayout, DecodeEntry;
    var h := DecodeEntry(b.data, b.offs[j], b.limit).value;
    if j in b.firsts {
      assert key[..0] == KeyBefore(b.es, j)[..0];
    }
  }

  method Build(es: seq<Pair>, interval: nat) returns (data: seq<Byte>)
    requires interval >= 1 && Small(es, interval)
    ensures data == BlockBytes(es, interval)
  {
    hide Small, Buffer, RestartOffsets, BlockBytes, KeyBefore;
    var builder := new Builder(interval);
    var i := 0;
    while i < |es|
      invariant 0 <= i <= |es| && builder.Ok() && builder.es == es[..i] && builder.interval == interval
    {
      assert es[..i + 1] == es[..i] + [Pair(es[i].key, es[i].value)];
      builder.Add(es[i].key, es[i].value);
      i := i + 1;
    }
    assert es[..i] == es;
    data := builder.Finish();
  }

  /** Reading a block from first to last gives its entries, in order. */
  method ReadAll(it: Iter) returns (out: seq<Pair>)
    requires it.Ok()
    modifies it
    ensures it.Ok() && out == it.b.es
  {
    hide IsLayout, Iter.AtEntry, IsOrder, Ascending;
    it.SeekToFirst();
    out := [];
    AtSomeEntry(it);
    while it.current < it.limit
      invariant it.Ok() && it.pos <= |it.b.es| && out == it.b.es[..it.pos]
      invariant it.current < it.limit <==> it.pos < |it.b.es|
      decreases |it.b.es| - it.pos
    {
      AtSomeEntry(it);
      ghost var p := it.pos;
      assert it.b.es[..p + 1] == it.b.es[..p] + [it.b.es[p]];
      out := out + [Pair(it.key, it.data[it.valueStart..it.valueEnd])];
      it.Next();
      AtSomeEntry(it);
    }
    assert it.b.es[..it.pos] == it.b.es;
  }

  /** A block built from any ascending entries, with any restart interval, reads back as those entries. */
  method BuildAndRead(less: Less, es: seq<Pair>, interval: nat) returns (out: seq<Pair>)
    requires IsOrder(less) && Ascending(less, es) && interval >= 1 && Small(es, interval)
    ensures out == es
  {
    hide IsOrder, Ascending, Small, IsLayout, Buffer, RestartOffsets, Firsts, BlockBytes, DecodeFixed32;
    var data := Build(es, interval);
    ghost var b := LayoutOf(es, interval);
    BuiltLayout(es, interval);
    OpenBuilt(es, interval);
    var found := Open(data);
    if found.Some? {
      var it := new Iter(less, data, found.value.0, found.value.1, b);
      out := ReadAll(it);
    } else {
      assert false;
    }
  }

  /** Seeking in a built block finds the first entry at or after the target, if there is one. */
  method SeekIn(less: Less, data: seq<Byte>, ghost es: seq<Pair>, ghost interval: nat, target: seq<Byte>)
    returns (r: Option<Pair>, ghost pos: nat)
    requires IsOrder(less) && Ascending(less, es) && interval >= 1 && Small(es, interval) && data == BlockBytes(es, interval)
    ensures SeekPos(less, es, target, pos) && r == if pos < |es| then Some(es[pos]) else None
  {
    hide IsOrder, Ascending, Small, IsLayout, Buffer, RestartOffsets, Firsts, BlockBytes, DecodeFixed32;
    ghost var b := LayoutOf(es, interval);
    BuiltLayout(es, interval);
    OpenBuilt(es, interval);
    var found := Open(data);
    if found.None? {
      assert false;
    }
    var it := new Iter(less, data, found.value.0, found.value.1, b);
    it.Seek(target);
    pos := it.pos;
    AtSomeEntry(it);
    if it.current < it.limit {
      r := Some(Pair(it.key, it.data[it.valueStart..it.valueEnd]));
    } else {
      r := None;
    }
  }

  lemma AtSomeEntry(it: Iter)
    requires it.Ok()
    ensures it.current < it.limit <==> it.pos < |it.b.es|
    ensures it.pos < |it.b.es| ==>
      && it.key == it.b.es[it.pos].key && it.valueStart <= it.valueEnd <= |it.data|
      && it.data[it.valueStart..it.valueEnd] == it.b.es[it.pos].value
  {
    OffsetOrder(it.b, it.pos, |it.b.es|);
    hide IsLayout, IsOrder, Ascending;
  }
}
