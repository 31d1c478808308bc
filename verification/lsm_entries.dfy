/** Entries of the database and what a read of a collection of entries answers.
    User keys enter LevelDB only through a total order; they are modelled as reals, into which every
    countable total order embeds. */
module Entries {

  type UserKey = real
  type Value = string

  datatype Kind = Deletion | Put

  datatype Entry = Entry(key: UserKey, seqno: nat, kind: Kind, value: Value)

  /** kMaxSequenceNumber: 56 bits. */
  const MAX_SEQUENCE: nat := 0xFF_FFFF_FFFF_FFFF

  datatype InternalKey = InternalKey(key: UserKey, seqno: nat, kind: Kind)

  function IKey(e: Entry): InternalKey { InternalKey(e.key, e.seqno, e.kind) }

  /** PackSequenceAndType. */
  function Pack(k: InternalKey): nat { 256 * k.seqno + (if k.kind.Put? then 1 else 0) }

  function Tag(e: Entry): nat { Pack(IKey(e)) }

  /** The internal order: user keys up, then sequence numbers and types down. */
  predicate Before(a: InternalKey, b: InternalKey) {
    a.key < b.key || (a.key == b.key && Pack(a) > Pack(b))
  }

  predicate AtOrBefore(a: InternalKey, b: InternalKey) { !Before(b, a) }

  /** The key a read of user key k at snapshot s seeks to. */
  function SeekKey(k: UserKey, s: nat): InternalKey { InternalKey(k, s, Put) }

  ghost predicate Sorted(es: seq<Entry>) {
    forall i, j :: 0 <= i < j < |es| ==> Before(IKey(es[i]), IKey(es[j]))
  }

  // ----- Reads -----

  ghost predicate Visible(e: Entry, k: UserKey, s: nat) { e.key == k && e.seqno <= s }

  ghost predicate NoneVisible(es: set<Entry>, k: UserKey, s: nat) {
    forall x :: x in es ==> !Visible(x, k, s)
  }

  ghost predicate IsNewest(es: set<Entry>, k: UserKey, s: nat, e: Entry) {
    && e in es && Visible(e, k, s)
    && forall x :: x in es && Visible(x, k, s) ==> Tag(x) <= Tag(e)
  }

  datatype Answer = NotFound | Found(value: Value)

  function AnswerOf(e: Entry): Answer { if e.kind.Put? then Found(e.value) else NotFound }

  /** Reading key k at snapshot s from the entries answers r: the newest visible entry decides. */
  ghost predicate ReadIs(es: set<Entry>, k: UserKey, s: nat, r: Answer) {
    || (NoneVisible(es, k, s) && r == NotFound)
    || exists e :: IsNewest(es, k, s, e) && r == AnswerOf(e)
  }

  /** No two entries of one key carry the same tag. */
  ghost predicate Distinct(es: set<Entry>) {
    forall x, y :: x in es && y in es && x.key == y.key && Tag(x) == Tag(y) ==> x == y
  }

  /** For every user key, all entries of a are newer than all entries of b. */
  ghost predicate Newer(a: set<Entry>, b: set<Entry>) {
    forall x, y :: x in a && y in b && x.key == y.key ==> Tag(x) > Tag(y)
  }

  ghost predicate SameReads(a: set<Entry>, b: set<Entry>, oldest: nat) {
    forall k: UserKey, s: nat, r: Answer :: s >= oldest ==> (ReadIs(a, k, s, r) <==> ReadIs(b, k, s, r))
  }

  lemma {:induction false} NewestExists(es: set<Entry>, k: UserKey, s: nat) returns (e: Entry)
    requires !NoneVisible(es, k, s)
    ensures IsNewest(es, k, s, e)
    decreases |es|
  {
    var x :| x in es && Visible(x, k, s);
    var rest := es - {x};
    if NoneVisible(rest, k, s) {
      e := x;
    } else {
      e := NewestExists(rest, k, s);
      if Tag(e) < Tag(x) {
        e := x;
      }
    }
  }

  /** With distinct tags a read has at most one answer. */
  lemma ReadFunctional(es: set<Entry>, k: UserKey, s: nat, r: Answer, r': Answer)
    requires Distinct(es) && ReadIs(es, k, s, r) && ReadIs(es, k, s, r')
    ensures r == r'
  {}

  /** Entries may be thinned out to `kept` without changing any answer at s when the newest visible
      entry is kept, or was a deletion below which nothing visible is kept. */
  ghost predicate Redundant(all: set<Entry>, kept: set<Entry>, k: UserKey, s: nat) {
    forall e :: IsNewest(all, k, s, e) ==> e in kept || (e.kind.Deletion? && NoneVisible(kept, k, s))
  }

  lemma ThinningKeepsAnswer(all: set<Entry>, kept: set<Entry>, k: UserKey, s: nat, r: Answer)
    requires kept <= all && Distinct(all) && Redundant(all, kept, k, s)
    ensures ReadIs(all, k, s, r) <==> ReadIs(kept, k, s, r)
  {
    if !NoneVisible(all, k, s) {
      var e := NewestExists(all, k, s);
      if e in kept {
        assert IsNewest(kept, k, s, e);
      }
    }
  }

  lemma ThinningKeepsReads(all: set<Entry>, kept: set<Entry>, oldest: nat)
    requires kept <= all && Distinct(all)
    requires forall k: UserKey, s: nat :: s >= oldest ==> Redundant(all, kept, k, s)
    ensures SameReads(all, kept, oldest)
  {
    forall k: UserKey, s: nat, r: Answer | s >= oldest ensures ReadIs(all, k, s, r) <==> ReadIs(kept, k, s, r) {
      ThinningKeepsAnswer(all, kept, k, s, r);
    }
  }
}
