/** A version: seven levels of files, the order kept between and inside levels, and point reads. */
module Versions {
  import opened Wrappers
  import opened Entries
  import opened Files

  const NUM_LEVELS: nat := 7

  type Version = seq<seq<File>>

  ghost predicate InVersion(v: Version, e: Entry) { exists l :: 0 <= l < |v| && InFiles(v[l], e) }

  ghost function VersionEntries(v: Version): (s: set<Entry>)
    ensures forall e :: e in s <==> InVersion(v, e)
  {
    var s := set l, e | 0 <= l < |v| && e in LevelEntries(v[l]) :: e;
    assert forall e :: e in s <==> InVersion(v, e) by {
      forall e ensures e in s <==> InVersion(v, e) {
        if InVersion(v, e) {
          var l :| 0 <= l < |v| && InFiles(v[l], e);
          assert e in LevelEntries(v[l]);
        }
      }
    }
    s
  }

  /** For one user key, shallower levels hold only newer entries. */
  ghost predicate LevelOrder(v: Version) {
    forall a, b :: 0 <= a < b < |v| ==> Newer(LevelEntries(v[a]), LevelEntries(v[b]))
  }

  /** For one user key, level-0 files with larger numbers hold only newer entries. */
  ghost predicate NumberOrder(fs: seq<File>) {
    forall f, g :: f in fs && g in fs && f.number > g.number ==> Newer(EntrySet(f.entries), EntrySet(g.entries))
  }

  ghost predicate UniqueNumbers(v: Version) {
    forall a, b, f, g :: 0 <= a < |v| && 0 <= b < |v| && f in v[a] && g in v[b] && f.number == g.number ==> a == b && f == g
  }

  ghost predicate Valid(v: Version) {
    && |v| == NUM_LEVELS
    && (forall l :: 0 <= l < |v| ==> FilesOk(v[l]))
    && (forall l :: 1 <= l < |v| ==> Disjoint(v[l]))
    && LevelOrder(v) && NumberOrder(v[0]) && UniqueNumbers(v)
  }

  lemma ValidLevel(v: Version, l: nat)
    requires Valid(v) && l < NUM_LEVELS
    ensures |v| == NUM_LEVELS && FilesOk(v[l]) && (l >= 1 ==> Disjoint(v[l])) && (l == 0 ==> NumberOrder(v[0]))
  {
    hide UniqueNumbers, LevelOrder, FilesOk, Disjoint;
  }

  lemma SameNumber(v: Version, l: nat, f: File, g: File)
    requires Valid(v) && l < |v| && f in v[l] && g in v[l] && f.number == g.number
    ensures f == g
  {
    hide LevelOrder, NumberOrder, FilesOk, Disjoint;
  }

  // ----- Reading one sorted level -----

  /** Entries of the files before FindFile's answer are not visible. */
  lemma EarlierNotVisible(f: File, k: UserKey, s: nat, e: Entry)
    requires FileOk(f) && e in f.entries && Before(Largest(f), SeekKey(k, s))
    ensures !Visible(e, k, s)
  {
    EntryBounds(f, e);
    SeekVisible(e, k, s);
  }

  /** The first entry at or after (k, s) of file f decides for every later file of the level. */
  lemma LaterAfter(fs: seq<File>, i: nat, j: nat, e: Entry, x: Entry)
    requires FilesOk(fs) && Disjoint(fs) && i < j < |fs| && e in fs[i].entries && x in fs[j].entries
    ensures Before(IKey(e), IKey(x))
  {
    EntryBounds(fs[i], e);
    EntryBounds(fs[j], x);
  }

  /** One level of ForEachOverlapping together with the table lookup it triggers. */
  method LevelGet(fs: seq<File>, k: UserKey, s: nat) returns (r: Option<Entry>)
    requires FilesOk(fs) && Disjoint(fs)
    ensures r.None? ==> NoneVisible(LevelEntries(fs), k, s)
    ensures r.Some? ==> IsNewest(LevelEntries(fs), k, s, r.value)
  {
    r := None;
    if |fs| == 0 {
      return;
    }
    var index := FindFile(fs, SeekKey(k, s));
    if index < |fs| && Smallest(fs[index]).key <= k {
      r := TableGet(fs[index], k, s);
    }
    LevelGetCorrect(fs, k, s, index, r);
  }

  lemma LevelGetCorrect(fs: seq<File>, k: UserKey, s: nat, index: nat, r: Option<Entry>)
    requires FilesOk(fs) && Disjoint(fs) && index <= |fs|
    requires forall i :: 0 <= i < index ==> Before(Largest(fs[i]), SeekKey(k, s))
    requires forall i :: index <= i < |fs| ==> !Before(Largest(fs[i]), SeekKey(k, s))
    requires r == if index < |fs| && Smallest(fs[index]).key <= k then TableGet(fs[index], k, s) else None
    ensures r.None? ==> NoneVisible(LevelEntries(fs), k, s)
    ensures r.Some? ==> IsNewest(LevelEntries(fs), k, s, r.value)
  {
    if index < |fs| {
      TableGetNewest(fs[index], k, s);
    }
    forall x | x in LevelEntries(fs) && Visible(x, k, s) ensures r.Some? && Tag(x) <= Tag(r.value) {
      var f :| f in fs && x in f.entries;
      var i :| 0 <= i < |fs| && fs[i] == f;
      if i < index {
        EarlierNotVisible(f, k, s, x);
      } else {
        VisibleIsCovered(fs, k, s, index, i, x);
      }
    }
    if r.Some? {
      assert r.value in fs[index].entries;
    }
  }

  lemma VisibleIsCovered(fs: seq<File>, k: UserKey, s: nat, index: nat, i: nat, x: Entry)
    requires FilesOk(fs) && Disjoint(fs) && index <= i < |fs| && x in fs[i].entries && Visible(x, k, s)
    requires !Before(Largest(fs[index]), SeekKey(k, s))
    ensures Smallest(fs[index]).key <= k && TableGet(fs[index], k, s).Some?
    ensures Tag(x) <= Tag(TableGet(fs[index], k, s).value)
  {
    var es := fs[index].entries;
    var m := SeekIndex(es, SeekKey(k, s), 0);
    assert m < |es|;
    EntryBounds(fs[index], es[m]);
    TableGetNewest(fs[index], k, s);
    if index < i {
      LaterAfter(fs, index, i, es[m], x);
    } else {
      EntryBounds(fs[index], x);
      assert x in EntrySet(es);
    }
  }

  // ----- Level 0, newest file first -----

  ghost predicate NewestFirst(fs: seq<File>) { forall i, j :: 0 <= i < j < |fs| ==> fs[i].number >= fs[j].number }

  function InsertNewestFirst(f: File, fs: seq<File>): (r: seq<File>)
    requires NewestFirst(fs)
    ensures NewestFirst(r) && forall g :: g in r <==> g == f || g in fs
  {
    if fs == [] || f.number >= fs[0].number then [f] + fs
    else
      var rest := InsertNewestFirst(f, fs[1..]);
      assert fs == [fs[0]] + fs[1..];
      assert forall i :: 0 <= i < |rest| ==> rest[i] in rest;
      [fs[0]] + rest
  }

  function SortNewestFirst(fs: seq<File>): (r: seq<File>)
    ensures NewestFirst(r) && forall g :: g in r <==> g in fs
  {
    if fs == [] then []
    else
      assert fs == [fs[0]] + fs[1..];
      InsertNewestFirst(fs[0], SortNewestFirst(fs[1..]))
  }

  /** The level-0 part of ForEachOverlapping: collect the files around k, then look newest first. */
  method Level0Get(fs: seq<File>, k: UserKey, s: nat) returns (r: Option<Entry>)
    requires FilesOk(fs) && NumberOrder(fs)
    requires NumbersApart(fs)
    ensures r.None? ==> NoneVisible(LevelEntries(fs), k, s)
    ensures r.Some? ==> IsNewest(LevelEntries(fs), k, s, r.value)
  {
    hide NumberOrder, NumbersApart, LevelEntries, EntrySet, TableGet, SortNewestFirst;
    var tmp: seq<File> := [];
    var i := 0;
    while i < |fs|
      invariant 0 <= i <= |fs|
      invariant AroundKey(fs[..i], tmp, k)
    {
      assert fs[..i + 1] == fs[..i] + [fs[i]];
      if Smallest(fs[i]).key <= k && k <= Largest(fs[i]).key {
        tmp := tmp + [fs[i]];
      }
      i := i + 1;
    }
    assert fs[..i] == fs;
    tmp := SortNewestFirst(tmp);
    assert AroundKey(fs, tmp, k);
    i := 0;
    while i < |tmp|
      invariant 0 <= i <= |tmp|
      invariant forall j :: 0 <= j < i ==> NoneVisible(EntrySet(tmp[j].entries), k, s)
    {
      assert tmp[i] in tmp;
      FileOkOf(fs, tmp[i]);
      TableGetNewest(tmp[i], k, s);
      r := TableGet(tmp[i], k, s);
      if r.Some? {
        Level0Hit(fs, tmp, i, k, s, r.value);
        return;
      }
      i := i + 1;
    }
    r := None;
    Level0Miss(fs, tmp, k, s);
  }

  ghost predicate NumbersApart(fs: seq<File>) { forall f, g :: f in fs && g in fs && f.number == g.number ==> f == g }

  ghost predicate AroundKey(fs: seq<File>, tmp: seq<File>, k: UserKey) {
    forall f :: f in tmp <==> f in fs && Smallest(f).key <= k <= Largest(f).key
  }

  lemma Level0Miss(fs: seq<File>, tmp: seq<File>, k: UserKey, s: nat)
    requires FilesOk(fs) && AroundKey(fs, tmp, k)
    requires forall j :: 0 <= j < |tmp| ==> NoneVisible(EntrySet(tmp[j].entries), k, s)
    ensures NoneVisible(LevelEntries(fs), k, s)
  {
    forall x | x in LevelEntries(fs) ensures !Visible(x, k, s) {
      var f :| f in fs && x in f.entries;
      EntryBounds(f, x);
      if x.key == k {
        var j :| 0 <= j < |tmp| && tmp[j] == f;
        assert x in EntrySet(tmp[j].entries);
      }
    }
  }

  lemma Level0HitBeats(fs: seq<File>, tmp: seq<File>, i: nat, j: nat, k: UserKey, s: nat, e: Entry, x: Entry)
    requires FilesOk(fs) && NumberOrder(fs) && NewestFirst(tmp) && i < |tmp| && j < |tmp| && tmp[i] in fs && tmp[j] in fs
    requires tmp[i].number == tmp[j].number ==> tmp[i] == tmp[j]
    requires j < i ==> NoneVisible(EntrySet(tmp[j].entries), k, s)
    requires IsNewest(EntrySet(tmp[i].entries), k, s, e) && x in tmp[j].entries && Visible(x, k, s)
    ensures Tag(x) <= Tag(e)
  {
    hide EntrySet, FilesOk, Tag;
    assert x in EntrySet(tmp[j].entries);
    if j > i && tmp[i] != tmp[j] {
      assert Newer(EntrySet(tmp[i].entries), EntrySet(tmp[j].entries));
    }
  }

  lemma Level0Hit(fs: seq<File>, tmp: seq<File>, i: nat, k: UserKey, s: nat, e: Entry)
    requires FilesOk(fs) && NumberOrder(fs) && AroundKey(fs, tmp, k) && NewestFirst(tmp) && i < |tmp|
    requires NumbersApart(fs)
    requires forall j :: 0 <= j < i ==> NoneVisible(EntrySet(tmp[j].entries), k, s)
    requires IsNewest(EntrySet(tmp[i].entries), k, s, e)
    ensures IsNewest(LevelEntries(fs), k, s, e)
  {
    assert tmp[i] in tmp;
    forall x | x in LevelEntries(fs) && Visible(x, k, s) ensures Tag(x) <= Tag(e) {
      hide EntrySet, LevelEntries, NumberOrder, Tag;
      var f :| f in fs && x in f.entries;
      EntryBounds(f, x);
      var j :| 0 <= j < |tmp| && tmp[j] == f;
      Level0HitBeats(fs, tmp, i, j, k, s, e, x);
    }
    assert InFiles(fs, e);
  }

  // ----- Version::Get -----

  /** The answer of a search that stops at the first hit, shallow levels first. */
  method Get(v: Version, k: UserKey, s: nat) returns (r: Answer)
    requires Valid(v)
    ensures ReadIs(VersionEntries(v), k, s, r)
  {
    ValidLevel(v, 0);
    assert NumbersApart(v[0]);
    hide Valid;
    var hit := Level0Get(v[0], k, s);
    if hit.Some? {
      FirstHitIsNewest(v, 0, k, s, hit.value);
      return AnswerOf(hit.value);
    }
    var level := 1;
    while level < NUM_LEVELS
      invariant 1 <= level <= NUM_LEVELS
      invariant forall l :: 0 <= l < level ==> NoneVisible(LevelEntries(v[l]), k, s)
    {
      ValidLevel(v, level);
      hit := LevelGet(v[level], k, s);
      if hit.Some? {
        FirstHitIsNewest(v, level, k, s, hit.value);
        return AnswerOf(hit.value);
      }
      level := level + 1;
    }
    assert NoneVisible(VersionEntries(v), k, s) by {
      assert forall l, x :: 0 <= l < |v| && x in LevelEntries(v[l]) ==> !Visible(x, k, s);
    }
    r := NotFound;
  }

  lemma FirstHitIsNewest(v: Version, level: nat, k: UserKey, s: nat, e: Entry)
    requires Valid(v) && level < |v| && IsNewest(LevelEntries(v[level]), k, s, e)
    requires forall l :: 0 <= l < level ==> NoneVisible(LevelEntries(v[l]), k, s)
    ensures IsNewest(VersionEntries(v), k, s, e)
  {
    hide FilesOk, Disjoint, NumberOrder, UniqueNumbers;
    forall x | x in VersionEntries(v) && Visible(x, k, s) ensures Tag(x) <= Tag(e) {
      var l :| 0 <= l < |v| && InFiles(v[l], x);
      assert x in LevelEntries(v[l]);
      if l > level {
        assert Newer(LevelEntries(v[level]), LevelEntries(v[l]));
      }
    }
    assert InFiles(v[level], e);
  }

  // ----- Entries are told apart by key and tag -----

  lemma SortedDistinct(es: seq<Entry>, x: Entry, y: Entry)
    requires Sorted(es) && x in es && y in es && x.key == y.key && Tag(x) == Tag(y)
    ensures x == y
  {
    var i :| 0 <= i < |es| && es[i] == x;
    var j :| 0 <= j < |es| && es[j] == y;
  }

  lemma FilesDistinct(fs: seq<File>, f: File, g: File, x: Entry, y: Entry)
    requires NumberOrder(fs) && f in fs && g in fs && x in f.entries && y in g.entries && x.key == y.key && Tag(x) == Tag(y)
    ensures f.number == g.number
  {
    hide EntrySet;
    if f.number != g.number {
      assert false;
    }
  }

  lemma SortedFilesDistinct(fs: seq<File>, f: File, g: File, x: Entry, y: Entry)
    requires FilesOk(fs) && Disjoint(fs) && f in fs && g in fs && x in f.entries && y in g.entries
    requires x.key == y.key && Tag(x) == Tag(y)
    ensures f == g
  {
    var i :| 0 <= i < |fs| && fs[i] == f;
    var j :| 0 <= j < |fs| && fs[j] == g;
    if i < j { LaterAfter(fs, i, j, x, y); }
    if j < i { LaterAfter(fs, j, i, y, x); }
  }

  lemma SameLevel(v: Version, a: nat, b: nat, x: Entry, y: Entry)
    requires LevelOrder(v) && a < |v| && b < |v| && x in LevelEntries(v[a]) && y in LevelEntries(v[b])
    requires x.key == y.key && Tag(x) == Tag(y)
    ensures a == b
  {
    hide LevelEntries;
    if a != b {
      assert false;
    }
  }

  lemma ValidDistinct(v: Version)
    requires Valid(v)
    ensures Distinct(VersionEntries(v))
  {
    hide VersionEntries, LevelEntries, Tag, Valid;
    forall x, y | x in VersionEntries(v) && y in VersionEntries(v) && x.key == y.key && Tag(x) == Tag(y) ensures x == y {
      var a :| 0 <= a < |v| && InFiles(v[a], x);
      var b :| 0 <= b < |v| && InFiles(v[b], y);
      LevelDistinct(v, a, b, x, y);
    }
  }

  lemma LevelDistinct(v: Version, a: nat, b: nat, x: Entry, y: Entry)
    requires Valid(v) && a < |v| && b < |v| && InFiles(v[a], x) && InFiles(v[b], y) && x.key == y.key && Tag(x) == Tag(y)
    ensures x == y
  {
    assert a == b by { SameLevel(v, a, b, x, y); }
    ValidLevel(v, a);
    var f :| f in v[a] && x in f.entries;
    var g :| g in v[a] && y in g.entries;
    hide Tag, FilesOk, Disjoint, NumberOrder, Valid;
    if a == 0 {
      FilesDistinct(v[0], f, g, x, y);
      SameNumber(v, 0, f, g);
    } else {
      SortedFilesDistinct(v[a], f, g, x, y);
    }
    FileOkOf(v[a], f);
    SortedDistinct(f.entries, x, y);
  }

  lemma FileOkOf(fs: seq<File>, f: File) requires FilesOk(fs) && f in fs ensures FileOk(f) {}
}
