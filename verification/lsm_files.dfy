/** Table files, the lists of files of a level, and the searches over them. */
module Files {
  import opened Wrappers
  import opened Entries

  datatype FileData = FileData(number: nat, size: nat, entries: seq<Entry>)

  /** A table file is never empty: its smallest and largest keys are those of its first and last entry. */
  type File = f: FileData | f.entries != [] witness FileData(0, 0, [Entry(0.0, 0, Put, "")])

  function Smallest(f: File): InternalKey { IKey(f.entries[0]) }
  function Largest(f: File): InternalKey { IKey(f.entries[|f.entries| - 1]) }

  ghost predicate FileOk(f: File) {
    Sorted(f.entries) && forall i :: 0 <= i < |f.entries| ==> f.entries[i].seqno <= MAX_SEQUENCE
  }

  ghost predicate FilesOk(fs: seq<File>) { forall i :: 0 <= i < |fs| ==> FileOk(fs[i]) }

  /** Levels above 0: files in key order, no two sharing an internal key range. */
  ghost predicate Disjoint(fs: seq<File>) {
    forall i, j :: 0 <= i < j < |fs| ==> Before(Largest(fs[i]), Smallest(fs[j]))
  }

  ghost predicate InFiles(fs: seq<File>, e: Entry) { exists f :: f in fs && e in f.entries }

  ghost function LevelEntries(fs: seq<File>): (s: set<Entry>)
    ensures forall e :: e in s <==> InFiles(fs, e)
  {
    set f, e | f in fs && e in f.entries :: e
  }

  lemma EntryBounds(f: File, e: Entry)
    requires FileOk(f) && e in f.entries
    ensures AtOrBefore(Smallest(f), IKey(e)) && AtOrBefore(IKey(e), Largest(f))
    ensures Smallest(f).key <= e.key <= Largest(f).key
  {
    var i :| 0 <= i < |f.entries| && f.entries[i] == e;
    assert i > 0 ==> Before(Smallest(f), IKey(e));
    assert i < |f.entries| - 1 ==> Before(IKey(e), Largest(f));
  }

  lemma FileBounds(f: File)
    requires FileOk(f)
    ensures AtOrBefore(Smallest(f), Largest(f)) && Smallest(f).key <= Largest(f).key
    ensures Largest(f).seqno <= MAX_SEQUENCE && Smallest(f).seqno <= MAX_SEQUENCE
  {
    EntryBounds(f, f.entries[0]);
  }

  // ----- FindFile -----

  /** Binary search for the first file whose largest key is at or after the target. */
  method FindFile(fs: seq<File>, target: InternalKey) returns (index: nat)
    requires FilesOk(fs) && Disjoint(fs)
    ensures index <= |fs|
    ensures forall i :: 0 <= i < index ==> Before(Largest(fs[i]), target)
    ensures forall i :: index <= i < |fs| ==> !Before(Largest(fs[i]), target)
  {
    var left, right := 0, |fs|;
    while left < right
      invariant 0 <= left <= right <= |fs|
      invariant forall i :: 0 <= i < left ==> Before(Largest(fs[i]), target)
      invariant forall i :: right <= i < |fs| ==> !Before(Largest(fs[i]), target)
    {
      var mid := (left + right) / 2;
      if Before(Largest(fs[mid]), target) {
        forall i | 0 <= i < mid ensures Before(Largest(fs[i]), target) { FileBounds(fs[mid]); }
        left := mid + 1;
      } else {
        forall i | mid < i < |fs| ensures !Before(Largest(fs[i]), target) { FileBounds(fs[i]); }
        right := mid;
      }
    }
    index := right;
  }

  // ----- Overlap of user key ranges -----

  /** A missing bound is unbounded. */
  predicate Overlaps(f: File, begin: Option<UserKey>, end: Option<UserKey>) {
    !(begin.Some? && Largest(f).key < begin.value) && !(end.Some? && Smallest(f).key > end.value)
  }

  /** SomeFileOverlapsRange: a scan on level 0, a binary search on the others. */
  method SomeFileOverlapsRange(disjointSorted: bool, fs: seq<File>, begin: Option<UserKey>, end: Option<UserKey>)
    returns (r: bool)
    requires FilesOk(fs) && (disjointSorted ==> Disjoint(fs))
    ensures r <==> exists f :: f in fs && Overlaps(f, begin, end)
  {
    if !disjointSorted {
      var i := 0;
      while i < |fs|
        invariant 0 <= i <= |fs|
        invariant forall j :: 0 <= j < i ==> !Overlaps(fs[j], begin, end)
      {
        if Overlaps(fs[i], begin, end) {
          return true;
        }
        i := i + 1;
      }
      return false;
    }
    var index := 0;
    if begin.Some? {
      index := FindFile(fs, SeekKey(begin.value, MAX_SEQUENCE));
    }
    forall i | 0 <= i < |fs| ensures FileOk(fs[i]) && Smallest(fs[i]).key <= Largest(fs[i]).key && Largest(fs[i]).seqno <= MAX_SEQUENCE {
      FileBounds(fs[i]);
    }
    if index >= |fs| {
      return false;
    }
    r := !(end.Some? && end.value < Smallest(fs[index]).key);
    if r {
      assert Overlaps(fs[index], begin, end);
    }
  }

  // ----- Point lookup in one table -----

  /** The position of the first entry at or after the target. */
  function SeekIndex(es: seq<Entry>, target: InternalKey, i: nat): (r: nat)
    requires i <= |es|
    ensures i <= r <= |es|
    ensures forall j :: i <= j < r ==> Before(IKey(es[j]), target)
    ensures r < |es| ==> !Before(IKey(es[r]), target)
    decreases |es| - i
  {
    if i == |es| || !Before(IKey(es[i]), target) then i else SeekIndex(es, target, i + 1)
  }

  /** What a table lookup hands to SaveValue, if it has the sought user key. */
  function TableGet(f: File, k: UserKey, s: nat): Option<Entry> {
    var i := SeekIndex(f.entries, SeekKey(k, s), 0);
    if i < |f.entries| && f.entries[i].key == k then Some(f.entries[i]) else None
  }

  ghost function EntrySet(es: seq<Entry>): (s: set<Entry>)
    ensures forall e :: e in s <==> e in es
  {
    set e | e in es
  }

  lemma SeekVisible(e: Entry, k: UserKey, s: nat)
    ensures e.key == k ==> (Before(IKey(e), SeekKey(k, s)) <==> e.seqno > s)
  {}

  /** The first entry at or after (k, s) is the newest visible entry of k, if there is one. */
  lemma TableGetNewest(f: File, k: UserKey, s: nat)
    requires FileOk(f)
    ensures TableGet(f, k, s).None? <==> NoneVisible(EntrySet(f.entries), k, s)
    ensures TableGet(f, k, s).Some? ==> IsNewest(EntrySet(f.entries), k, s, TableGet(f, k, s).value)
  {
    SeekNewest(f.entries, k, s);
  }

  lemma SeekNewest(es: seq<Entry>, k: UserKey, s: nat)
    requires Sorted(es)
    ensures var i := SeekIndex(es, SeekKey(k, s), 0);
      if i < |es| && es[i].key == k then IsNewest(EntrySet(es), k, s, es[i]) else NoneVisible(EntrySet(es), k, s)
  {
    var i := SeekIndex(es, SeekKey(k, s), 0);
    forall j | 0 <= j < |es| && Visible(es[j], k, s)
      ensures i <= j && es[i].key == k && Tag(es[j]) <= Tag(es[i])
    {
      SeekVisible(es[j], k, s);
      if i < j {
        assert Before(IKey(es[i]), IKey(es[j]));
      }
    }
    if i < |es| && es[i].key == k {
      SeekVisible(es[i], k, s);
    }
  }
}
