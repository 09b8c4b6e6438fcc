/** One sorted run of entries, whether a memtable or a table file, and the point
    lookup both answer: the first entry at or after (key, snapshot). */
module Tables {
  import opened Order
  import opened Cursors
  import opened InternalKeys

  type Entry<U, V> = (InternalKey<U>, V)
  type Entries<U, V> = seq<Entry<U, V>>

  ghost predicate Ordered<U(!new), V>(ucmp: Comparator<U>, es: Entries<U, V>) {
    Sorted(InternalComparator(ucmp), es)
  }

  /** What a lookup in one run reports (SaverState in version_set.cc). */
  datatype Answer<V> = NotFound | Found(value: V) | Deleted

  function AnswerOf<U, V>(e: Entry<U, V>): Answer<V> {
    match e.0.kind
    case Value => Found(e.1)
    case Deletion => Deleted
  }

  /** A reader of k at snapshot s may see e. */
  ghost predicate Matches<U, V>(e: Entry<U, V>, k: U, s: nat) {
    e.0.user == k && e.0.sequence <= s
  }

  /** LookupKey: it sorts before everything of k that s can see and after everything of k it cannot. */
  function LookupKey<U>(k: U, s: nat): InternalKey<U> { InternalKey(k, s, Value) }

  /** Seek to the lookup key, then check that the entry found belongs to the user key. */
  function Lookup<U, V>(ucmp: Comparator<U>, es: Entries<U, V>, k: U, s: nat): Answer<V> {
    var i := FirstAtOrAfter(InternalComparator(ucmp), es, LookupKey(k, s));
    if i < |es| && ucmp(es[i].0.user, k) == 0 then AnswerOf(es[i]) else NotFound
  }

  // ------------------------------------------------------------ order facts

  lemma UsersAscend<U(!new), V>(ucmp: Comparator<U>, es: Entries<U, V>, i: nat, j: nat)
    requires TotalOrder(ucmp) && Ordered(ucmp, es) && i <= j < |es|
    ensures ucmp(es[i].0.user, es[j].0.user) <= 0
  {
    Laws(ucmp);
    InternalIsTotal(ucmp);
    SortedAt(InternalComparator(ucmp), es, i, j);
  }

  /** For one user key, entries come newest first. */
  lemma NewestComesFirst<U(!new), V>(ucmp: Comparator<U>, es: Entries<U, V>, i: nat, j: nat)
    requires TotalOrder(ucmp) && Ordered(ucmp, es) && i < j < |es| && es[i].0.user == es[j].0.user
    ensures Tag(es[i].0) > Tag(es[j].0) && es[i].0.sequence >= es[j].0.sequence
  {
    Laws(ucmp);
    InternalIsTotal(ucmp);
    SortedAt(InternalComparator(ucmp), es, i, j);
    TagInjective(es[i].0, es[j].0);
  }

  /** An entry is at or after the lookup key exactly when its user key is beyond k, or is k and s sees it. */
  lemma AgainstLookupKey<U(!new), V>(ucmp: Comparator<U>, e: Entry<U, V>, k: U, s: nat)
    requires TotalOrder(ucmp)
    ensures InternalCompare(ucmp, e.0, LookupKey(k, s)) >= 0 <==> ucmp(e.0.user, k) > 0 || Matches(e, k, s)
    ensures InternalCompare(ucmp, LookupKey(k, s), e.0) <= 0 <==> ucmp(e.0.user, k) > 0 || Matches(e, k, s)
  {
    Laws(ucmp);
    TagInjective(e.0, LookupKey(k, s));
  }

  ghost predicate Best<U, V>(es: Entries<U, V>, e: Entry<U, V>, k: U, s: nat) {
    && e in es && Matches(e, k, s)
    && forall x :: x in es && Matches(x, k, s) ==> Tag(x.0) <= Tag(e.0)
  }

  /** Lookup answers with the newest matching entry of the run, and NotFound only if there is none. */
  lemma LookupIsNewest<U(!new), V>(ucmp: Comparator<U>, es: Entries<U, V>, k: U, s: nat) returns (e: Entry<U, V>)
    requires TotalOrder(ucmp) && Ordered(ucmp, es)
    requires exists x :: x in es && Matches(x, k, s)
    ensures Best(es, e, k, s) && Lookup(ucmp, es, k, s) == AnswerOf(e)
  {
    var cmp, t := InternalComparator(ucmp), LookupKey(k, s);
    var i := FirstAtOrAfter(cmp, es, t);
    FirstAtOrAfterSplits(cmp, es, t);
    Laws(ucmp);
    var x :| x in es && Matches(x, k, s);
    var m :| 0 <= m < |es| && es[m] == x;
    AgainstLookupKey(ucmp, x, k, s);
    assert i <= m;
    UsersAscend(ucmp, es, i, m);
    e := es[i];
    AgainstLookupKey(ucmp, e, k, s);
    assert Matches(e, k, s);
    forall y | y in es && Matches(y, k, s) ensures Tag(y.0) <= Tag(e.0) {
      var j :| 0 <= j < |es| && es[j] == y;
      AgainstLookupKey(ucmp, y, k, s);
      if i < j { NewestComesFirst(ucmp, es, i, j); }
    }
  }

  lemma LookupOfNone<U(!new), V>(ucmp: Comparator<U>, es: Entries<U, V>, k: U, s: nat)
    requires TotalOrder(ucmp) && forall x :: x in es ==> !Matches(x, k, s)
    ensures Lookup(ucmp, es, k, s) == NotFound
  {
    var cmp, t := InternalComparator(ucmp), LookupKey(k, s);
    var i := FirstAtOrAfter(cmp, es, t);
    FirstAtOrAfterSplits(cmp, es, t);
    Laws(ucmp);
    if i < |es| {
      assert es[i] in es;
      AgainstLookupKey(ucmp, es[i], k, s);
    }
  }
}
