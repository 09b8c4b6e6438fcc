/** The abstract iterator that every LevelDB iterator is proved against: a
    position in a strictly sorted sequence of entries, or off it. */
module Cursors {
  import opened Order

  /** pos == |entries| is the one "not Valid()" position; moving off either
      end leads there, as the Iterator interface promises. */
  datatype Cursor<K, V> = Cursor(entries: seq<(K, V)>, pos: nat) {
    predicate Valid() { pos < |entries| }

    predicate InRange() { pos <= |entries| }

    function Key(): K
      requires Valid()
    { entries[pos].0 }

    function Value(): V
      requires Valid()
    { entries[pos].1 }

    function Next(): Cursor<K, V>
      requires Valid()
    { this.(pos := pos + 1) }

    function Prev(): Cursor<K, V>
      requires Valid()
    { this.(pos := if pos == 0 then |entries| else pos - 1) }

    function SeekToFirst(): Cursor<K, V> { this.(pos := 0) }

    function SeekToLast(): Cursor<K, V> {
      this.(pos := if |entries| == 0 then 0 else |entries| - 1)
    }

    function Seek(cmp: Comparator<K>, target: K): Cursor<K, V> {
      this.(pos := FirstAtOrAfter(cmp, entries, target))
    }
  }

  ghost predicate Precedes<K, V>(cmp: Comparator<K>, es: seq<(K, V)>, i: int, j: int)
    requires 0 <= i < |es| && 0 <= j < |es|
  {
    cmp(es[i].0, es[j].0) < 0
  }

  /** Strictly increasing keys. */
  ghost predicate Sorted<K, V>(cmp: Comparator<K>, es: seq<(K, V)>) {
    forall i, j {:trigger Precedes(cmp, es, i, j)} :: 0 <= i < j < |es| ==> Precedes(cmp, es, i, j)
  }

  lemma SortedAt<K(!new), V>(cmp: Comparator<K>, es: seq<(K, V)>, i: nat, j: nat)
    requires TotalOrder(cmp) && Sorted(cmp, es) && i <= j < |es|
    ensures i < j ==> cmp(es[i].0, es[j].0) < 0
    ensures cmp(es[i].0, es[j].0) <= 0 && cmp(es[j].0, es[i].0) >= 0
    ensures i < j ==> es[i].0 != es[j].0
  {
    Laws(cmp);
    assert i < j ==> Precedes(cmp, es, i, j);
  }

  /** The index of the first entry at or after the target, or |es|. */
  function FirstAtOrAfter<K, V>(cmp: Comparator<K>, es: seq<(K, V)>, target: K): (n: nat)
    ensures n <= |es|
  {
    if es == [] || cmp(es[0].0, target) >= 0 then 0 else 1 + FirstAtOrAfter(cmp, es[1..], target)
  }

  lemma {:induction false} FirstAtOrAfterSplits<K, V>(cmp: Comparator<K>, es: seq<(K, V)>, target: K)
    ensures var n := FirstAtOrAfter(cmp, es, target);
            && (forall i :: 0 <= i < n ==> cmp(es[i].0, target) < 0)
            && (n < |es| ==> cmp(es[n].0, target) >= 0)
  {
    if es != [] && cmp(es[0].0, target) < 0 {
      FirstAtOrAfterSplits(cmp, es[1..], target);
      var n := FirstAtOrAfter(cmp, es, target);
      forall i | 0 <= i < n ensures cmp(es[i].0, target) < 0 {
        if i > 0 { assert es[i] == es[1..][i - 1]; }
      }
    }
  }

  /** The first entry at or after the target is pinned down by its two neighbours. */
  lemma FirstAtOrAfterIs<K(!new), V>(cmp: Comparator<K>, es: seq<(K, V)>, target: K, n: nat)
    requires TotalOrder(cmp) && Sorted(cmp, es) && n <= |es|
    requires n > 0 ==> cmp(es[n - 1].0, target) < 0
    requires n < |es| ==> cmp(es[n].0, target) >= 0
    ensures FirstAtOrAfter(cmp, es, target) == n
  {
    Laws(cmp);
    var q := FirstAtOrAfter(cmp, es, target);
    FirstAtOrAfterSplits(cmp, es, target);
    if q < n {
      SortedAt(cmp, es, q, n - 1);
      Transitive(cmp, es[q].0, es[n - 1].0, target);
    }
  }
}
