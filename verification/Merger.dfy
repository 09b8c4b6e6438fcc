/** MergingIterator (table/merger.cc): one cursor made of several. */
module Merger {
  import opened Order
  import opened Cursors

  datatype Direction = Forward | Reverse

  // ------------------------------------------------------------ sorted union

  /** Two-way merge, the reference the n-way iterator is held against. */
  ghost function Merge2<K, V>(cmp: Comparator<K>, a: seq<(K, V)>, b: seq<(K, V)>): seq<(K, V)> {
    if a == [] then b
    else if b == [] then a
    else if cmp(a[0].0, b[0].0) <= 0 then [a[0]] + Merge2(cmp, a[1..], b)
    else [b[0]] + Merge2(cmp, a, b[1..])
  }

  ghost function Union<K, V>(cmp: Comparator<K>, lists: seq<seq<(K, V)>>): seq<(K, V)> {
    if lists == [] then [] else Merge2(cmp, lists[0], Union(cmp, lists[1..]))
  }

  ghost predicate Disjoint<K, V>(a: seq<(K, V)>, b: seq<(K, V)>) {
    forall i, j :: 0 <= i < |a| && 0 <= j < |b| ==> a[i].0 != b[j].0
  }

  /** What the iterator needs of its inputs: each sorted, all keys distinct, as internal keys are. */
  ghost predicate Mergeable<K, V>(cmp: Comparator<K>, lists: seq<seq<(K, V)>>) {
    && (forall c :: 0 <= c < |lists| ==> Sorted(cmp, lists[c]))
    && (forall c, d {:trigger Disjoint(lists[c], lists[d])} :: 0 <= c < |lists| && 0 <= d < |lists| && c != d ==>
        Disjoint(lists[c], lists[d]))
  }

  lemma {:induction false} Merge2Keeps<K, V>(cmp: Comparator<K>, a: seq<(K, V)>, b: seq<(K, V)>, e: (K, V))
    ensures e in Merge2(cmp, a, b) <==> e in a || e in b
  {
    if a != [] && b != [] {
      if cmp(a[0].0, b[0].0) <= 0 {
        Merge2Keeps(cmp, a[1..], b, e);
        assert a == [a[0]] + a[1..];
      } else {
        Merge2Keeps(cmp, a, b[1..], e);
        assert b == [b[0]] + b[1..];
      }
    }
  }

  lemma {:induction false} Merge2Sorted<K(!new), V>(cmp: Comparator<K>, a: seq<(K, V)>, b: seq<(K, V)>)
    requires TotalOrder(cmp) && Sorted(cmp, a) && Sorted(cmp, b) && Disjoint(a, b)
    ensures Sorted(cmp, Merge2(cmp, a, b))
  {
    Laws(cmp);
    if a != [] && b != [] {
      if cmp(a[0].0, b[0].0) <= 0 {
        TailSorted(cmp, a);
        Merge2Sorted(cmp, a[1..], b);
        LeastFirst(cmp, a, b);
        ConsSorted(cmp, a[0], Merge2(cmp, a[1..], b));
      } else {
        TailSorted(cmp, b);
        Merge2Sorted(cmp, a, b[1..]);
        LeastFirst(cmp, b, a);
        forall e | e in Merge2(cmp, a, b[1..]) ensures cmp(b[0].0, e.0) < 0 {
          Merge2Keeps(cmp, a, b[1..], e);
        }
        ConsSorted(cmp, b[0], Merge2(cmp, a, b[1..]));
      }
    }
  }

  lemma TailSorted<K(!new), V>(cmp: Comparator<K>, a: seq<(K, V)>)
    requires Sorted(cmp, a) && a != []
    ensures Sorted(cmp, a[1..])
  {
    forall i, j | 0 <= i < j < |a[1..]| ensures Precedes(cmp, a[1..], i, j) {
      assert Precedes(cmp, a, i + 1, j + 1);
    }
  }

  lemma ConsSorted<K(!new), V>(cmp: Comparator<K>, e: (K, V), rest: seq<(K, V)>)
    requires Sorted(cmp, rest) && forall x :: x in rest ==> cmp(e.0, x.0) < 0
    ensures Sorted(cmp, [e] + rest)
  {
    var a := [e] + rest;
    forall i, j | 0 <= i < j < |a| ensures Precedes(cmp, a, i, j) {
      if i > 0 { assert Precedes(cmp, rest, i - 1, j - 1); }
      else { assert a[j] in rest; }
    }
  }

  /** The lesser of two heads precedes everything else. */
  lemma LeastFirst<K(!new), V>(cmp: Comparator<K>, a: seq<(K, V)>, b: seq<(K, V)>)
    requires TotalOrder(cmp) && Sorted(cmp, a) && Sorted(cmp, b) && Disjoint(a, b)
    requires a != [] && b != [] && cmp(a[0].0, b[0].0) <= 0
    ensures forall e :: e in a[1..] || e in b ==> cmp(a[0].0, e.0) < 0
    ensures forall e :: e in Merge2(cmp, a[1..], b) ==> cmp(a[0].0, e.0) < 0
  {
    Laws(cmp);
    assert a[0].0 != b[0].0;
    forall e | e in a[1..] ensures cmp(a[0].0, e.0) < 0 {
      var j := IndexOf(a[1..], e);
      SortedAt(cmp, a, 0, j + 1);
    }
    forall e | e in b ensures cmp(a[0].0, e.0) < 0 {
      var j := IndexOf(b, e);
      SortedAt(cmp, b, 0, j);
      Transitive(cmp, a[0].0, b[0].0, e.0);
    }
    forall e | e in Merge2(cmp, a[1..], b) ensures cmp(a[0].0, e.0) < 0 {
      Merge2Keeps(cmp, a[1..], b, e);
    }
  }

  /** The union holds exactly the entries of the lists. */
  lemma {:induction false} UnionKeeps<K, V>(cmp: Comparator<K>, lists: seq<seq<(K, V)>>, e: (K, V))
    ensures e in Union(cmp, lists) <==> exists c :: 0 <= c < |lists| && e in lists[c]
  {
    if lists != [] {
      UnionKeeps(cmp, lists[1..], e);
      Merge2Keeps(cmp, lists[0], Union(cmp, lists[1..]), e);
      if e in lists[0] {
      } else if e in Union(cmp, lists[1..]) {
        var c :| 0 <= c < |lists[1..]| && e in lists[1..][c];
        assert e in lists[c + 1];
      }
      if c :| 0 < c < |lists| && e in lists[c] {
        assert e in lists[1..][c - 1];
      }
    }
  }

  /** Distinct keys make the union strictly sorted. */
  lemma {:induction false} UnionSorted<K(!new), V>(cmp: Comparator<K>, lists: seq<seq<(K, V)>>)
    requires TotalOrder(cmp) && Mergeable(cmp, lists)
    ensures Sorted(cmp, Union(cmp, lists))
  {
    Laws(cmp);
    if lists != [] {
      var rest := lists[1..];
      forall c, d | 0 <= c < |rest| && 0 <= d < |rest| && c != d ensures Disjoint(rest[c], rest[d]) {
        assert Disjoint(lists[c + 1], lists[d + 1]);
      }
      UnionSorted(cmp, rest);
      var u := Union(cmp, rest);
      forall i, j | 0 <= i < |lists[0]| && 0 <= j < |u| ensures lists[0][i].0 != u[j].0 {
        UnionKeeps(cmp, rest, u[j]);
        var c :| 0 <= c < |rest| && u[j] in rest[c];
        assert Disjoint(lists[0], lists[c + 1]);
      }
      Merge2Sorted(cmp, lists[0], u);
    }
  }

  lemma IndexOf<T>(s: seq<T>, e: T) returns (m: nat)
    requires e in s
    ensures m < |s| && s[m] == e
  {
    m :| m < |s| && s[m] == e;
  }

  // ---------------------------------------------------------------- positions

  /** How many entries of a child list precede entry n of the union. */
  ghost function Cut<K, V>(cmp: Comparator<K>, es: seq<(K, V)>, merged: seq<(K, V)>, n: nat): nat {
    if n < |merged| then FirstAtOrAfter(cmp, es, merged[n].0) else |es|
  }

  /** The child has passed its entries from merged[..n] and none from merged[n..]. */
  ghost predicate CutAt<K, V>(cmp: Comparator<K>, child: Cursor<K, V>, merged: seq<(K, V)>, n: nat) {
    child.pos == Cut(cmp, child.entries, merged, n)
  }

  /** The child stands on its last entry among merged[..n], or is off its list if it has none there. */
  ghost predicate LastBefore<K, V>(cmp: Comparator<K>, child: Cursor<K, V>, merged: seq<(K, V)>, n: nat) {
    var p := Cut(cmp, child.entries, merged, n);
    child.pos == if p == 0 then |child.entries| else p - 1
  }

  ghost predicate AllCutAt<K, V>(cmp: Comparator<K>, children: seq<Cursor<K, V>>, merged: seq<(K, V)>, n: nat) {
    forall c :: 0 <= c < |children| ==> CutAt(cmp, children[c], merged, n)
  }

  ghost predicate AllLastBefore<K, V>(cmp: Comparator<K>, children: seq<Cursor<K, V>>, merged: seq<(K, V)>, n: nat) {
    forall c :: 0 <= c < |children| ==> LastBefore(cmp, children[c], merged, n)
  }

  /** A cut is pinned down by the two entries around it. */
  lemma CutIs<K(!new), V>(cmp: Comparator<K>, es: seq<(K, V)>, merged: seq<(K, V)>, n: nat, p: nat)
    requires TotalOrder(cmp) && Sorted(cmp, es) && n <= |merged| && p <= |es|
    requires p > 0 && n < |merged| ==> cmp(es[p - 1].0, merged[n].0) < 0
    requires p < |es| ==> n < |merged| && cmp(es[p].0, merged[n].0) >= 0
    ensures Cut(cmp, es, merged, n) == p
  {
    Laws(cmp);
    if n < |merged| { FirstAtOrAfterIs(cmp, es, merged[n].0, p); }
  }

  lemma AfterCut<K(!new), V>(cmp: Comparator<K>, es: seq<(K, V)>, merged: seq<(K, V)>, n: nat, i: nat)
    requires TotalOrder(cmp) && Sorted(cmp, es) && n < |merged|
    requires Cut(cmp, es, merged, n) <= i < |es|
    ensures cmp(es[i].0, merged[n].0) >= 0
  {
    Laws(cmp);
    var p := Cut(cmp, es, merged, n);
    FirstAtOrAfterSplits(cmp, es, merged[n].0);
    SortedAt(cmp, es, p, i);
    Transitive(cmp, merged[n].0, es[p].0, es[i].0);
  }

  lemma AtMostBySort<K(!new), V>(cmp: Comparator<K>, merged: seq<(K, V)>, m: nat, n: nat)
    requires TotalOrder(cmp) && Sorted(cmp, merged) && m < |merged| && n < |merged|
    ensures cmp(merged[m].0, merged[n].0) <= 0 <==> m <= n
    ensures cmp(merged[m].0, merged[n].0) < 0 <==> m < n
  {
    Laws(cmp);
    if m <= n { SortedAt(cmp, merged, m, n); } else { SortedAt(cmp, merged, n, m); }
  }

  /** A seek to any target cuts a child where it cuts the union. */
  lemma SeekCuts<K(!new), V>(cmp: Comparator<K>, es: seq<(K, V)>, merged: seq<(K, V)>, target: K)
    requires TotalOrder(cmp) && Sorted(cmp, es) && Sorted(cmp, merged) && forall e :: e in es ==> e in merged
    ensures FirstAtOrAfter(cmp, es, target) == Cut(cmp, es, merged, FirstAtOrAfter(cmp, merged, target))
  {
    Laws(cmp);
    var n, p := FirstAtOrAfter(cmp, merged, target), FirstAtOrAfter(cmp, es, target);
    FirstAtOrAfterSplits(cmp, merged, target);
    FirstAtOrAfterSplits(cmp, es, target);
    if p > 0 && n < |merged| {
      Transitive(cmp, es[p - 1].0, target, merged[n].0);
    }
    if p < |es| {
      var m := IndexOf(merged, es[p]);
      assert n <= m;
      SortedAt(cmp, merged, n, m);
    }
    CutIs(cmp, es, merged, n, p);
  }

  /** A list without entry n is cut the same on both sides of it. */
  lemma OthersStepOver<K(!new), V>(cmp: Comparator<K>, es: seq<(K, V)>, merged: seq<(K, V)>, n: nat)
    requires TotalOrder(cmp) && Sorted(cmp, es) && Sorted(cmp, merged) && n < |merged|
    requires forall i :: 0 <= i < |es| ==> es[i] in merged && es[i].0 != merged[n].0
    ensures Cut(cmp, es, merged, n) == Cut(cmp, es, merged, n + 1)
  {
    Laws(cmp);
    var p := Cut(cmp, es, merged, n);
    FirstAtOrAfterSplits(cmp, es, merged[n].0);
    if p > 0 && n + 1 < |merged| {
      SortedAt(cmp, merged, n, n + 1);
      Transitive(cmp, es[p - 1].0, merged[n].0, merged[n + 1].0);
    }
    if p < |es| {
      var m := IndexOf(merged, es[p]);
      AtMostBySort(cmp, merged, m, n);
      AtMostBySort(cmp, merged, n + 1, m);
    }
    CutIs(cmp, es, merged, n + 1, p);
  }

  /** The list holding entry n is cut at it and, one further, just past it. */
  lemma HolderCuts<K(!new), V>(cmp: Comparator<K>, es: seq<(K, V)>, merged: seq<(K, V)>, n: nat, p: nat)
    requires TotalOrder(cmp) && Sorted(cmp, es) && Sorted(cmp, merged) && n < |merged|
    requires forall e :: e in es ==> e in merged
    requires p < |es| && es[p] == merged[n]
    ensures Cut(cmp, es, merged, n) == p && Cut(cmp, es, merged, n + 1) == p + 1
  {
    Laws(cmp);
    assert cmp(es[p].0, es[p].0) == 0;
    if p > 0 { SortedAt(cmp, es, p - 1, p); }
    CutIs(cmp, es, merged, n, p);
    if n + 1 < |merged| { SortedAt(cmp, merged, n, n + 1); }
    if p + 1 < |es| {
      var m := IndexOf(merged, es[p + 1]);
      SortedAt(cmp, es, p, p + 1);
      AtMostBySort(cmp, merged, n, m);
      AtMostBySort(cmp, merged, n + 1, m);
    }
    CutIs(cmp, es, merged, n + 1, p + 1);
  }

  /** Next's repositioning of a non-current child: seek to the current key, and step past it if the child has it too. */
  function PastKey<K, V>(cmp: Comparator<K>, child: Cursor<K, V>, key: K): Cursor<K, V> {
    var sought := child.Seek(cmp, key);
    if sought.Valid() && cmp(key, sought.Key()) == 0 then sought.Next() else sought
  }

  lemma PastKeyCuts<K(!new), V>(cmp: Comparator<K>, child: Cursor<K, V>, merged: seq<(K, V)>, n: nat)
    requires TotalOrder(cmp) && Sorted(cmp, child.entries) && Sorted(cmp, merged) && n < |merged|
    requires forall e :: e in child.entries ==> e in merged
    ensures CutAt(cmp, PastKey(cmp, child, merged[n].0), merged, n + 1)
  {
    Laws(cmp);
    var es, k, r := child.entries, merged[n].0, PastKey(cmp, child, merged[n].0).pos;
    var s := Cut(cmp, es, merged, n);
    FirstAtOrAfterSplits(cmp, es, k);
    if r > 0 && n + 1 < |merged| {
      SortedAt(cmp, merged, n, n + 1);
      Transitive(cmp, es[r - 1].0, k, merged[n + 1].0);
    }
    if r < |es| {
      AfterCut(cmp, es, merged, n, r);
      if r > s { SortedAt(cmp, es, s, r); }
      var m := IndexOf(merged, es[r]);
      AtMostBySort(cmp, merged, n, m);
      AtMostBySort(cmp, merged, m, n);
      AtMostBySort(cmp, merged, n + 1, m);
    }
    CutIs(cmp, es, merged, n + 1, r);
  }

  /** Prev's repositioning: seek to the current key, then step back, or go to the last entry. */
  function BeforeKey<K, V>(cmp: Comparator<K>, child: Cursor<K, V>, key: K): Cursor<K, V> {
    var sought := child.Seek(cmp, key);
    if sought.Valid() then sought.Prev() else sought.SeekToLast()
  }

  lemma BeforeKeyIsLastBefore<K, V>(cmp: Comparator<K>, child: Cursor<K, V>, merged: seq<(K, V)>, n: nat)
    requires n < |merged|
    ensures LastBefore(cmp, BeforeKey(cmp, child, merged[n].0), merged, n)
  {
  }

  /** The first entry of the union is at or after the first of every list. */
  lemma CutAtFirst<K(!new), V>(cmp: Comparator<K>, es: seq<(K, V)>, merged: seq<(K, V)>)
    requires TotalOrder(cmp) && Sorted(cmp, es) && Sorted(cmp, merged) && forall e :: e in es ==> e in merged
    ensures Cut(cmp, es, merged, 0) == 0
  {
    Laws(cmp);
    if es != [] {
      var m := IndexOf(merged, es[0]);
      SortedAt(cmp, merged, 0, m);
    }
    CutIs(cmp, es, merged, 0, 0);
  }

  // ----------------------------------------------------- smallest and largest

  /** Among children[lo..hi]: no child when all are exhausted, otherwise one with the smallest key. */
  ghost predicate SmallestIn<K, V>(cmp: Comparator<K>, children: seq<Cursor<K, V>>, lo: int, hi: int, best: int)
    requires 0 <= lo <= hi <= |children|
  {
    && (best == -1 ==> forall c :: lo <= c < hi ==> !children[c].Valid())
    && (best != -1 ==>
          && lo <= best < hi && children[best].Valid()
          && forall c :: lo <= c < hi && children[c].Valid() ==> cmp(children[best].Key(), children[c].Key()) <= 0)
  }

  ghost predicate LargestIn<K, V>(cmp: Comparator<K>, children: seq<Cursor<K, V>>, lo: int, hi: int, best: int)
    requires 0 <= lo <= hi <= |children|
  {
    && (best == -1 ==> forall c :: lo <= c < hi ==> !children[c].Valid())
    && (best != -1 ==>
          && lo <= best < hi && children[best].Valid()
          && forall c :: lo <= c < hi && children[c].Valid() ==> cmp(children[best].Key(), children[c].Key()) >= 0)
  }

  lemma SmallerStill<K(!new), V>(cmp: Comparator<K>, children: seq<Cursor<K, V>>, i: nat, best: int)
    requires TotalOrder(cmp) && i < |children| && children[i].Valid()
    requires SmallestIn(cmp, children, 0, i, best) && best != -1
    requires cmp(children[i].Key(), children[best].Key()) < 0
    ensures SmallestIn(cmp, children, 0, i + 1, i)
  {
    Laws(cmp);
    forall c | 0 <= c < i && children[c].Valid() ensures cmp(children[i].Key(), children[c].Key()) <= 0 {
      Transitive(cmp, children[i].Key(), children[best].Key(), children[c].Key());
    }
  }

  lemma LargerStill<K(!new), V>(cmp: Comparator<K>, children: seq<Cursor<K, V>>, i: nat, best: int)
    requires TotalOrder(cmp) && i < |children| && children[i].Valid()
    requires LargestIn(cmp, children, i + 1, |children|, best) && best != -1
    requires cmp(children[i].Key(), children[best].Key()) > 0
    ensures LargestIn(cmp, children, i, |children|, i)
  {
    Laws(cmp);
    forall c | i < c < |children| && children[c].Valid() ensures cmp(children[i].Key(), children[c].Key()) >= 0 {
      Transitive(cmp, children[c].Key(), children[best].Key(), children[i].Key());
    }
  }

  /** The children stand over the lists, each somewhere or off its end. */
  ghost predicate Holds<K, V>(lists: seq<seq<(K, V)>>, children: seq<Cursor<K, V>>) {
    && |children| == |lists|
    && forall c :: 0 <= c < |children| ==> children[c].entries == lists[c] && children[c].InRange()
  }

  lemma ListInUnion<K, V>(cmp: Comparator<K>, lists: seq<seq<(K, V)>>, c: nat)
    requires c < |lists|
    ensures forall e :: e in lists[c] ==> e in Union(cmp, lists)
  {
    forall e | e in lists[c] ensures e in Union(cmp, lists) {
      UnionKeeps(cmp, lists, e);
    }
  }

  /** The list that holds entry n of the union is cut there. */
  lemma SomeHolder<K(!new), V>(cmp: Comparator<K>, lists: seq<seq<(K, V)>>, n: nat) returns (c: nat, j: nat)
    requires TotalOrder(cmp) && Mergeable(cmp, lists) && n < |Union(cmp, lists)|
    ensures c < |lists| && j < |lists[c]| && lists[c][j] == Union(cmp, lists)[n]
    ensures Cut(cmp, lists[c], Union(cmp, lists), n) == j
    ensures Cut(cmp, lists[c], Union(cmp, lists), n + 1) == j + 1
  {
    Laws(cmp);
    var e := Union(cmp, lists)[n];
    UnionKeeps(cmp, lists, e);
    c :| c < |lists| && e in lists[c];
    j := IndexOf(lists[c], e);
    UnionSorted(cmp, lists);
    ListInUnion(cmp, lists, c);
    HolderCuts(cmp, lists[c], Union(cmp, lists), n, j);
  }

  /** If all children are cut at n, the smallest of their keys belongs to entry n of the union. */
  lemma SmallestIsNext<K(!new), V>(cmp: Comparator<K>, lists: seq<seq<(K, V)>>, children: seq<Cursor<K, V>>, n: nat,
                                   best: int)
    requires TotalOrder(cmp) && Mergeable(cmp, lists) && Holds(lists, children) && n <= |Union(cmp, lists)|
    requires AllCutAt(cmp, children, Union(cmp, lists), n)
    requires SmallestIn(cmp, children, 0, |children|, best)
    ensures best == -1 <==> n == |Union(cmp, lists)|
    ensures best != -1 ==> children[best].entries[children[best].pos] == Union(cmp, lists)[n]
  {
    Laws(cmp);
    var merged := Union(cmp, lists);
    if n < |merged| {
      var c, j := SomeHolder(cmp, lists, n);
      assert CutAt(cmp, children[c], merged, n);
    }
    if best != -1 {
      assert CutAt(cmp, children[best], merged, n);
      assert Sorted(cmp, lists[best]);
      AfterCut(cmp, lists[best], merged, n, children[best].pos);
      EntryOfKey(cmp, lists, best, children[best].pos, n);
    }
  }

  /** If all children are at their last entry before n, the largest of their keys belongs to entry n - 1. */
  lemma LargestIsPrevious<K(!new), V>(cmp: Comparator<K>, lists: seq<seq<(K, V)>>, children: seq<Cursor<K, V>>, n: nat,
                                      best: int)
    requires TotalOrder(cmp) && Mergeable(cmp, lists) && Holds(lists, children) && n <= |Union(cmp, lists)|
    requires AllLastBefore(cmp, children, Union(cmp, lists), n)
    requires LargestIn(cmp, children, 0, |children|, best)
    ensures best == -1 <==> n == 0
    ensures best != -1 ==> children[best].entries[children[best].pos] == Union(cmp, lists)[n - 1]
  {
    Laws(cmp);
    var merged := Union(cmp, lists);
    if n > 0 {
      var c, j := SomeHolder(cmp, lists, n - 1);
      assert LastBefore(cmp, children[c], merged, n);
    }
    if best != -1 {
      assert LastBefore(cmp, children[best], merged, n);
      BehindCut(cmp, lists, best, children[best].pos, n);
      EntryOfKey(cmp, lists, best, children[best].pos, n - 1);
    }
  }

  /** An entry passed before n is at most entry n - 1. */
  lemma BehindCut<K(!new), V>(cmp: Comparator<K>, lists: seq<seq<(K, V)>>, c: nat, i: nat, n: nat)
    requires TotalOrder(cmp) && Mergeable(cmp, lists) && n <= |Union(cmp, lists)|
    requires c < |lists| && i < |lists[c]| && i < Cut(cmp, lists[c], Union(cmp, lists), n)
    ensures n > 0 && cmp(lists[c][i].0, Union(cmp, lists)[n - 1].0) <= 0
  {
    Laws(cmp);
    var merged := Union(cmp, lists);
    UnionSorted(cmp, lists);
    ListInUnion(cmp, lists, c);
    var m := IndexOf(merged, lists[c][i]);
    if n < |merged| {
      FirstAtOrAfterSplits(cmp, lists[c], merged[n].0);
      AtMostBySort(cmp, merged, m, n);
    }
    AtMostBySort(cmp, merged, m, n - 1);
  }

  /** Equal keys mean equal entries. */
  lemma EntryOfKey<K(!new), V>(cmp: Comparator<K>, lists: seq<seq<(K, V)>>, c: nat, i: nat, n: nat)
    requires TotalOrder(cmp) && Mergeable(cmp, lists) && n < |Union(cmp, lists)|
    requires c < |lists| && i < |lists[c]| && lists[c][i].0 == Union(cmp, lists)[n].0
    ensures lists[c][i] == Union(cmp, lists)[n]
  {
    Laws(cmp);
    UnionSorted(cmp, lists);
    ListInUnion(cmp, lists, c);
    var m := IndexOf(Union(cmp, lists), lists[c][i]);
    assert cmp(lists[c][i].0, lists[c][i].0) == 0;
    AtMostBySort(cmp, Union(cmp, lists), m, n);
    AtMostBySort(cmp, Union(cmp, lists), n, m);
  }

  ghost predicate OthersCutAt<K, V>(cmp: Comparator<K>, children: seq<Cursor<K, V>>, holder: int, merged: seq<(K, V)>,
                                    n: nat)
  {
    forall c :: 0 <= c < |children| && c != holder ==> CutAt(cmp, children[c], merged, n)
  }

  ghost predicate OthersLastBefore<K, V>(cmp: Comparator<K>, children: seq<Cursor<K, V>>, holder: int,
                                         merged: seq<(K, V)>, n: nat)
  {
    forall c :: 0 <= c < |children| && c != holder ==> LastBefore(cmp, children[c], merged, n)
  }

  /** The current child holds entry n of the union. */
  ghost predicate OnEntry<K, V>(children: seq<Cursor<K, V>>, holder: int, merged: seq<(K, V)>, n: nat) {
    && n < |merged|
    && 0 <= holder < |children|
    && children[holder].Valid()
    && children[holder].entries[children[holder].pos] == merged[n]
  }

  /** The holder of entry n moves either way, and is then cut on that side of it. */
  lemma HolderMoves<K(!new), V>(cmp: Comparator<K>, lists: seq<seq<(K, V)>>, children: seq<Cursor<K, V>>, holder: int,
                                n: nat)
    requires TotalOrder(cmp) && Mergeable(cmp, lists) && Holds(lists, children)
    requires OnEntry(children, holder, Union(cmp, lists), n)
    ensures CutAt(cmp, children[holder].Next(), Union(cmp, lists), n + 1)
    ensures LastBefore(cmp, children[holder].Prev(), Union(cmp, lists), n)
  {
    Laws(cmp);
    UnionSorted(cmp, lists);
    ListInUnion(cmp, lists, holder);
    HolderCuts(cmp, lists[holder], Union(cmp, lists), n, children[holder].pos);
  }

  /** No other list holds the entry one list holds, so it is cut the same on both sides of it. */
  lemma OthersCut<K(!new), V>(cmp: Comparator<K>, lists: seq<seq<(K, V)>>, holder: nat, c: nat, n: nat)
    requires TotalOrder(cmp) && Mergeable(cmp, lists) && holder < |lists| && c < |lists| && c != holder
    requires n < |Union(cmp, lists)| && Union(cmp, lists)[n] in lists[holder]
    ensures Cut(cmp, lists[c], Union(cmp, lists), n) == Cut(cmp, lists[c], Union(cmp, lists), n + 1)
  {
    Laws(cmp);
    var j := IndexOf(lists[holder], Union(cmp, lists)[n]);
    assert Disjoint(lists[c], lists[holder]);
    UnionSorted(cmp, lists);
    ListInUnion(cmp, lists, c);
    OthersStepOver(cmp, lists[c], Union(cmp, lists), n);
  }

  ghost function Lists<K, V>(children: seq<Cursor<K, V>>): seq<seq<(K, V)>> {
    seq(|children|, c requires 0 <= c < |children| => children[c].entries)
  }

  // ------------------------------------------------------------ the iterator

  class MergingIterator<K(!new), V> {
    const cmp: Comparator<K>
    var children: seq<Cursor<K, V>>
    var current: int  // index of the current child; -1 stands for the null pointer
    var direction: Direction
    ghost const lists: seq<seq<(K, V)>>
    ghost const merged: seq<(K, V)>
    ghost var at: nat

    /** The one cursor this iterator stands for. */
    ghost function View(): Cursor<K, V>
      reads this
    { Cursor(merged, at) }

    /** The children are the given lists, and merged is their sorted union. */
    ghost predicate Shape()
      reads this
    {
      && TotalOrder(cmp)
      && Mergeable(cmp, lists)
      && merged == Union(cmp, lists)
      && Sorted(cmp, merged)
      && Holds(lists, children)
    }

    /** All children stand just after key() when moving forward and just before
        it when moving back; the current one holds it. */
    ghost predicate Valid()
      reads this
    {
      && Shape()
      && at <= |merged|
      && -1 <= current < |children|
      && (current == -1 <==> at == |merged|)
      && (current != -1 ==>
            && OnEntry(children, current, merged, at)
            && (direction == Forward ==> AllCutAt(cmp, children, merged, at))
            && (direction == Reverse ==> AllLastBefore(cmp, children, merged, at + 1)))
    }

    constructor (cmp: Comparator<K>, children: seq<Cursor<K, V>>)
      requires TotalOrder(cmp) && Mergeable(cmp, Lists(children))
      requires forall c :: 0 <= c < |children| ==> children[c].InRange()
      ensures Valid() && this.cmp == cmp && lists == Lists(children)
      ensures View() == Cursor(Union(cmp, lists), |Union(cmp, lists)|)
    {
      this.cmp, this.children, this.lists := cmp, children, Lists(children);
      this.merged := Union(cmp, Lists(children));
      current, direction, at := -1, Forward, |Union(cmp, Lists(children))|;
      UnionSorted(cmp, Lists(children));
    }

    method IsValid() returns (b: bool)
      requires Valid()
      ensures b <==> View().Valid()
    {
      b := current != -1;
    }

    method Key() returns (key: K)
      requires Valid() && View().Valid()
      ensures key == View().Key()
    {
      key := children[current].Key();
    }

    method Value() returns (value: V)
      requires Valid() && View().Valid()
      ensures value == View().Value()
    {
      value := children[current].Value();
    }

    method FindSmallest()
      requires TotalOrder(cmp)
      modifies this`current
      ensures SmallestIn(cmp, children, 0, |children|, current)
    {
      var smallest := -1;
      var i := 0;
      while i < |children|
        invariant 0 <= i <= |children| && SmallestIn(cmp, children, 0, i, smallest)
      {
        if children[i].Valid() {
          if smallest == -1 {
            Laws(cmp);
            smallest := i;
          } else if cmp(children[i].Key(), children[smallest].Key()) < 0 {
            SmallerStill(cmp, children, i, smallest);
            smallest := i;
          } else {
            Laws(cmp);
          }
        }
        i := i + 1;
      }
      current := smallest;
    }

    method FindLargest()
      requires TotalOrder(cmp)
      modifies this`current
      ensures LargestIn(cmp, children, 0, |children|, current)
    {
      var largest := -1;
      var i := |children| - 1;
      while i >= 0
        invariant -1 <= i < |children| && LargestIn(cmp, children, i + 1, |children|, largest)
      {
        if children[i].Valid() {
          if largest == -1 {
            Laws(cmp);
            largest := i;
          } else if cmp(children[i].Key(), children[largest].Key()) > 0 {
            LargerStill(cmp, children, i, largest);
            largest := i;
          } else {
            Laws(cmp);
          }
        }
        i := i - 1;
      }
      current := largest;
    }

    method SeekToFirst()
      requires Valid()
      modifies this
      ensures Valid() && View() == old(View()).SeekToFirst()
    {
      var moved := children;
      for i := 0 to |moved|
        invariant Holds(lists, moved)
        invariant forall c :: 0 <= c < i ==> CutAt(cmp, moved[c], merged, 0)
      {
        ListInUnion(cmp, lists, i);
        CutAtFirst(cmp, lists[i], merged);
        moved := moved[i := moved[i].SeekToFirst()];
      }
      children := moved;
      FindSmallest();
      direction := Forward;
      SmallestIsNext(cmp, lists, children, 0, current);
      at := 0;
    }

    method SeekToLast()
      requires Valid()
      modifies this
      ensures Valid() && View() == old(View()).SeekToLast()
    {
      var moved := children;
      for i := 0 to |moved|
        invariant Holds(lists, moved)
        invariant forall c :: 0 <= c < i ==> LastBefore(cmp, moved[c], merged, |merged|)
      {
        moved := moved[i := moved[i].SeekToLast()];
      }
      children := moved;
      FindLargest();
      direction := Reverse;
      LargestIsPrevious(cmp, lists, children, |merged|, current);
      at := if |merged| == 0 then 0 else |merged| - 1;
    }

    method Seek(target: K)
      requires Valid()
      modifies this
      ensures Valid() && View() == old(View()).Seek(cmp, target)
    {
      ghost var n := FirstAtOrAfter(cmp, merged, target);
      var moved := children;
      for i := 0 to |moved|
        invariant Holds(lists, moved)
        invariant forall c :: 0 <= c < i ==> CutAt(cmp, moved[c], merged, n)
      {
        ListInUnion(cmp, lists, i);
        SeekCuts(cmp, lists[i], merged, target);
        moved := moved[i := moved[i].Seek(cmp, target)];
      }
      children := moved;
      FindSmallest();
      direction := Forward;
      SmallestIsNext(cmp, lists, children, n, current);
      at := n;
    }

    method Next()
      requires Valid() && View().Valid()
      modifies this
      ensures Valid() && View() == old(View()).Next()
    {
      if direction != Forward {
        PutOthersPast();
        direction := Forward;
      } else {
        OthersArePast();
      }
      AdvanceCurrent();
    }

    method AdvanceCurrent()
      requires Placed() && direction == Forward && OthersCutAt(cmp, children, current, merged, at + 1)
      modifies this
      ensures Valid() && at == old(at) + 1
    {
      hide Mergeable;
      hide Union;
      hide Sorted;
      hide CutAt;
      hide LastBefore;
      HolderMoves(cmp, lists, children, current, at);
      children := children[current := children[current].Next()];
      FindSmallest();
      SmallestIsNext(cmp, lists, children, at + 1, current);
      at := at + 1;
    }

    method Prev()
      requires Valid() && View().Valid()
      modifies this
      ensures Valid() && View() == old(View()).Prev()
    {
      if direction != Reverse {
        PutOthersBefore();
        direction := Reverse;
      } else {
        OthersAreBefore();
      }
      RetreatCurrent();
    }

    method RetreatCurrent()
      requires Placed() && direction == Reverse && OthersLastBefore(cmp, children, current, merged, at)
      modifies this
      ensures Valid() && at == if old(at) == 0 then |merged| else old(at) - 1
    {
      hide Mergeable;
      hide Union;
      hide Sorted;
      hide CutAt;
      hide LastBefore;
      HolderMoves(cmp, lists, children, current, at);
      children := children[current := children[current].Prev()];
      FindLargest();
      LargestIsPrevious(cmp, lists, children, at, current);
      at := if at == 0 then |merged| else at - 1;
    }

    ghost predicate Placed()
      reads this
    {
      Shape() && OnEntry(children, current, merged, at)
    }

    /** Turning forward: every other child is sought to just after key(). */
    method PutOthersPast()
      requires Placed()
      modifies `children
      ensures Placed() && OthersCutAt(cmp, children, current, merged, at + 1)
    {
      hide Union;
      hide Sorted;
      hide CutAt;
      hide LastBefore;
      var moved, holder := children, current;
      var key := moved[holder].Key();
      ghost var held := moved[holder];
      for i := 0 to |moved|
        invariant Holds(lists, moved) && moved[holder] == held
        invariant forall c :: 0 <= c < i && c != holder ==> CutAt(cmp, moved[c], merged, at + 1)
      {
        if i != holder {
          ListInUnion(cmp, lists, i);
          PastKeyCuts(cmp, moved[i], merged, at);
          moved := moved[i := PastKey(cmp, moved[i], key)];
        }
      }
      children := moved;
    }

    /** Turning back: every other child is put on its last entry before key(). */
    method PutOthersBefore()
      requires Placed()
      modifies `children
      ensures Placed() && OthersLastBefore(cmp, children, current, merged, at)
    {
      hide Mergeable;
      hide Union;
      hide Sorted;
      hide CutAt;
      hide LastBefore;
      var moved, holder := children, current;
      var key := moved[holder].Key();
      ghost var held := moved[holder];
      for i := 0 to |moved|
        invariant Holds(lists, moved) && moved[holder] == held
        invariant forall c :: 0 <= c < i && c != holder ==> LastBefore(cmp, moved[c], merged, at)
      {
        if i != holder {
          BeforeKeyIsLastBefore(cmp, moved[i], merged, at);
          moved := moved[i := BeforeKey(cmp, moved[i], key)];
        }
      }
      children := moved;
    }

    lemma OthersArePast()
      requires Placed() && AllCutAt(cmp, children, merged, at)
      ensures OthersCutAt(cmp, children, current, merged, at + 1)
    {
      forall c | 0 <= c < |children| && c != current ensures CutAt(cmp, children[c], merged, at + 1) {
        assert CutAt(cmp, children[c], merged, at);
        OthersCut(cmp, lists, current, c, at);
      }
    }

    lemma OthersAreBefore()
      requires Placed() && AllLastBefore(cmp, children, merged, at + 1)
      ensures OthersLastBefore(cmp, children, current, merged, at)
    {
      forall c | 0 <= c < |children| && c != current ensures LastBefore(cmp, children[c], merged, at) {
        assert LastBefore(cmp, children[c], merged, at + 1);
        OthersCut(cmp, lists, current, c, at);
      }
    }
  }
}
