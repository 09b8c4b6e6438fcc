/** What a compaction may throw away (db/db_impl.cc DoCompactionWork): the two drop rules
    as a statement about sets of entries, and exactly when no reader can tell. */
module Drops {
  import opened InternalKeys
  import opened Options
  import opened Tables
  import opened Versions
  /** What Get hands its caller: a deletion marker and nothing at all look the same. */
  ghost predicate ReadsValue<U(!new), V(!new)>(S: set<Entry<U, V>>, k: U, s: nat, x: Option<V>) {
    match x
    case Some(value) => Reads(S, k, s, Found(value))
    case None => Reads(S, k, s, NotFound) || Reads(S, k, s, Deleted)
  }

  /** Rule (A): a newer entry of the same user key is already visible at the smallest snapshot. */
  ghost predicate Hidden<U(!new), V(!new)>(I: set<Entry<U, V>>, e: Entry<U, V>, snapshot: nat) {
    exists x :: x in I && x.0.user == e.0.user && x.0.sequence <= snapshot && Tag(x.0) > Tag(e.0)
  }

  /** A deletion marker every snapshot sees, of a key that no deeper level may hold. */
  ghost predicate Obsolete<U(!new), V(!new)>(base: iset<U>, e: Entry<U, V>, snapshot: nat) {
    e.0.kind == Deletion && e.0.sequence <= snapshot && e.0.user in base
  }

  /** K is what the rules leave of the inputs I. */
  ghost predicate Survives<U(!new), V(!new)>(I: set<Entry<U, V>>, K: set<Entry<U, V>>, base: iset<U>, snapshot: nat) {
    && K <= I
    && forall e :: e in I ==> (e in K <==> !Hidden(I, e, snapshot) && !Obsolete(base, e, snapshot))
  }

  /** What else a compaction of I can count on in the store S: outside I, the only older entries
      of a base-level key are in O, the files of the output level that were not picked. */
  ghost predicate OlderOnlyIn<U(!new), V(!new)>(S: set<Entry<U, V>>, I: set<Entry<U, V>>, O: set<Entry<U, V>>,
                                                base: iset<U>)
  {
    && I <= S && O <= S && O !! I
    && forall e, x :: e in I && x in S && x !in I && x.0.user == e.0.user && e.0.user in base && Tag(x.0) < Tag(e.0) ==>
        x in O
  }

  /** An old value that an obsolete deletion marker covered is left behind in O, and nothing newer covers it. */
  ghost predicate Resurfaces<U(!new), V(!new)>(S: set<Entry<U, V>>, I: set<Entry<U, V>>, O: set<Entry<U, V>>,
                                               base: iset<U>, k: U, snapshot: nat)
  {
    exists z, w {:trigger BestOf(S, z, k, snapshot), BestOf(O, w, k, snapshot)} ::
      && z in I && BestOf(S, z, k, snapshot) && Obsolete(base, z, snapshot)
      && w in O && BestOf(O, w, k, snapshot) && w.0.kind == Value
  }

  ghost predicate SameReads<U(!new), V(!new)>(S: set<Entry<U, V>>, S': set<Entry<U, V>>, k: U, snapshot: nat) {
    forall s: nat, x {:trigger ReadsValue(S, k, s, x)} :: snapshot <= s ==>
        (ReadsValue(S, k, s, x) <==> ReadsValue(S', k, s, x))
  }

  ghost predicate SomeMatch<U(!new), V(!new)>(S: set<Entry<U, V>>, k: U, s: nat) {
    exists e :: e in S && Matches(e, k, s)
  }

  /** A non-empty choice has a newest entry. */
  lemma {:induction false} BestExists<U(!new), V(!new)>(S: set<Entry<U, V>>, k: U, s: nat) returns (e: Entry<U, V>)
    requires SomeMatch(S, k, s)
    ensures BestOf(S, e, k, s)
    decreases |S|
  {
    var x :| x in S && Matches(x, k, s);
    var T := S - {x};
    if SomeMatch(T, k, s) {
      var y := BestExists(T, k, s);
      e := if Tag(x.0) > Tag(y.0) then x else y;
    } else {
      e := x;
    }
    forall y | y in S && Matches(y, k, s) ensures Tag(y.0) <= Tag(e.0) {
      if y != x { assert y in T; }
    }
  }

  /** What a reader gets is fixed by any newest matching entry. */
  lemma ReadsBest<U(!new), V(!new)>(S: set<Entry<U, V>>, e: Entry<U, V>, k: U, s: nat, x: Option<V>)
    requires Distinct(S) && BestOf(S, e, k, s)
    ensures ReadsValue(S, k, s, x) <==> x == (if e.0.kind == Value then Some(e.1) else None)
  {
    assert Reads(S, k, s, AnswerOf(e));
    assert !Reads(S, k, s, NotFound);
    if Reads(S, k, s, Deleted) { ReadsUnique(S, k, s, Deleted, AnswerOf(e)); }
    if x.Some? && Reads(S, k, s, Found(x.value)) { ReadsUnique(S, k, s, Found(x.value), AnswerOf(e)); }
  }

  lemma ReadsNone<U(!new), V(!new)>(S: set<Entry<U, V>>, k: U, s: nat, x: Option<V>)
    requires !SomeMatch(S, k, s)
    ensures ReadsValue(S, k, s, x) <==> x == None
  {
    assert Reads(S, k, s, NotFound);
    assert forall e :: e in S ==> !BestOf(S, e, k, s);
  }

  /** An entry that the drop rules remove although readers see it is an obsolete deletion marker. */
  lemma BestDroppedIsObsolete<U(!new), V(!new)>(S: set<Entry<U, V>>, I: set<Entry<U, V>>, K: set<Entry<U, V>>,
                                                base: iset<U>, e: Entry<U, V>, k: U, s: nat, snapshot: nat)
    requires I <= S && Survives(I, K, base, snapshot) && snapshot <= s
    requires BestOf(S, e, k, s) && e in I && e !in K
    ensures Obsolete(base, e, snapshot) && BestOf(S, e, k, snapshot)
  {
    assert !Hidden(I, e, snapshot);
  }

  /** Behind a dropped marker only O can still answer. */
  lemma BehindMarker<U(!new), V(!new)>(S: set<Entry<U, V>>, I: set<Entry<U, V>>, K: set<Entry<U, V>>,
                                       O: set<Entry<U, V>>, base: iset<U>, e: Entry<U, V>, x: Entry<U, V>, k: U, s: nat,
                                       snapshot: nat)
    requires Distinct(S) && OlderOnlyIn(S, I, O, base) && Survives(I, K, base, snapshot)
    requires BestOf(S, e, k, s) && e in I && Obsolete(base, e, snapshot)
    requires x in S - I + K && Matches(x, k, s)
    ensures x in O && Tag(x.0) < Tag(e.0)
  {
    assert x in S && Tag(x.0) <= Tag(e.0);
    assert e !in K;
    assert x in K ==> Hidden(I, x, snapshot);
  }

  /** One snapshot: unless an old value resurfaces, the answer stays the same. */
  lemma SameAnswer<U(!new), V(!new)>(S: set<Entry<U, V>>, I: set<Entry<U, V>>, K: set<Entry<U, V>>, O: set<Entry<U, V>>,
                                     base: iset<U>, k: U, s: nat, snapshot: nat, x: Option<V>)
    requires Distinct(S) && OlderOnlyIn(S, I, O, base) && Survives(I, K, base, snapshot) && snapshot <= s
    requires !Resurfaces(S, I, O, base, k, snapshot)
    ensures ReadsValue(S, k, s, x) <==> ReadsValue(S - I + K, k, s, x)
  {
    var S' := S - I + K;
    if SomeMatch(S, k, s) {
      var e := BestExists(S, k, s);
      ReadsBest(S, e, k, s, x);
      if e in S' {
        assert BestOf(S', e, k, s);
        ReadsBest(S', e, k, s, x);
      } else {
        BestDroppedIsObsolete(S, I, K, base, e, k, s, snapshot);
        AfterMarker(S, I, K, O, base, e, k, s, snapshot, x);
      }
    } else {
      ReadsNone(S, k, s, x);
      ReadsNone(S', k, s, x);
    }
  }

  lemma AfterMarker<U(!new), V(!new)>(S: set<Entry<U, V>>, I: set<Entry<U, V>>, K: set<Entry<U, V>>,
                                      O: set<Entry<U, V>>, base: iset<U>, e: Entry<U, V>, k: U, s: nat, snapshot: nat,
                                      x: Option<V>)
    requires Distinct(S) && OlderOnlyIn(S, I, O, base) && Survives(I, K, base, snapshot) && snapshot <= s
    requires BestOf(S, e, k, s) && e in I && Obsolete(base, e, snapshot) && BestOf(S, e, k, snapshot)
    requires !Resurfaces(S, I, O, base, k, snapshot)
    ensures ReadsValue(S - I + K, k, s, x) <==> x == None
  {
    var S' := S - I + K;
    if SomeMatch(S', k, s) {
      var w := BestExists(S', k, s);
      BehindMarker(S, I, K, O, base, e, w, k, s, snapshot);
      ReadsBest(S', w, k, s, x);
      assert BestOf(O, w, k, snapshot);
    } else {
      ReadsNone(S', k, s, x);
    }
  }

  lemma ResurfacedDiffers<U(!new), V(!new)>(S: set<Entry<U, V>>, I: set<Entry<U, V>>, K: set<Entry<U, V>>,
                                            O: set<Entry<U, V>>, base: iset<U>, k: U, snapshot: nat)
    requires Distinct(S) && OlderOnlyIn(S, I, O, base) && Survives(I, K, base, snapshot)
    requires Resurfaces(S, I, O, base, k, snapshot)
    ensures !SameReads(S, S - I + K, k, snapshot)
  {
    var S' := S - I + K;
    var z, w :| && z in I && BestOf(S, z, k, snapshot) && Obsolete(base, z, snapshot)
                && w in O && BestOf(O, w, k, snapshot) && w.0.kind == Value;
    ReadsBest(S, z, k, snapshot, None);
    forall x | x in S' && Matches(x, k, snapshot) ensures Tag(x.0) <= Tag(w.0) {
      BehindMarker(S, I, K, O, base, z, x, k, snapshot, snapshot);
    }
    assert BestOf(S', w, k, snapshot);
    ReadsBest(S', w, k, snapshot, None);
  }

  /** Dropping entries by the two rules keeps every read at or above the smallest snapshot,
      if and only if no old value resurfaces. */
  lemma DropsInvisibleIff<U(!new), V(!new)>(S: set<Entry<U, V>>, I: set<Entry<U, V>>, K: set<Entry<U, V>>,
                                            O: set<Entry<U, V>>, base: iset<U>, k: U, snapshot: nat)
    requires Distinct(S) && OlderOnlyIn(S, I, O, base) && Survives(I, K, base, snapshot)
    ensures SameReads(S, S - I + K, k, snapshot) <==> !Resurfaces(S, I, O, base, k, snapshot)
  {
    if Resurfaces(S, I, O, base, k, snapshot) {
      ResurfacedDiffers(S, I, K, O, base, k, snapshot);
    } else {
      forall s: nat, x | snapshot <= s ensures ReadsValue(S, k, s, x) <==> ReadsValue(S - I + K, k, s, x) {
        SameAnswer(S, I, K, O, base, k, s, snapshot, x);
      }
    }
  }
}
