/** MakeInputIterator (db/version_set.cc): the lists a compaction merges, and that the
    merging iterator over them yields exactly the inputs' entries in order. */
module CompactionInputs {
  import opened Order
  import opened Cursors
  import opened InternalKeys
  import opened Options
  import opened Tables
  import opened Versions
  import opened Inputs
  import opened Picking
  import opened Levels
  import opened Compactions
  import opened CompactionSteps
  import opened CompactionEffects
  import Merger

  function Lists<U, V>(files: seq<File<U, V>>): seq<Entries<U, V>> {
    seq(|files|, i requires 0 <= i < |files| => files[i].entries)
  }

  /** Level-0 files one by one; the files of a sorted level end to end. */
  function InputLists<U, V>(level: nat, in0: seq<File<U, V>>, in1: seq<File<U, V>>): seq<Entries<U, V>> {
    (if level == 0 then Lists(in0) else if in0 == [] then [] else [Concat(in0)])
    + (if in1 == [] then [] else [Concat(in1)])
  }

  lemma AppendOrdered<U(!new), V(!new)>(ucmp: Comparator<U>, a: Entries<U, V>, b: Entries<U, V>)
    requires Ordered(ucmp, a) && Ordered(ucmp, b) && forall x, y :: x in a && y in b ==>
        InternalCompare(ucmp, x.0, y.0) < 0
    ensures Ordered(ucmp, a + b)
  {
    var cmp, all := InternalComparator(ucmp), a + b;
    forall i, j | 0 <= i < j < |all| ensures Precedes(cmp, all, i, j) {
      if j < |a| {
        assert Precedes(cmp, a, i, j);
      } else if i >= |a| {
        assert Precedes(cmp, b, i - |a|, j - |a|);
      } else {
        assert a[i] in a && b[j - |a|] in b;
      }
    }
  }

  lemma {:induction false} ConcatOrdered<U(!new), V(!new)>(ucmp: Comparator<U>, files: seq<File<U, V>>)
    requires TotalOrder(ucmp) && FilesOk(ucmp, files) && SortedFiles(ucmp, files)
    ensures Ordered(ucmp, Concat(files))
  {
    if files != [] {
      var n := |files| - 1;
      var cmp, init, last := InternalComparator(ucmp), files[..n], files[n];
      InternalIsTotal(ucmp);
      ConcatOrdered(ucmp, init);
      assert FileOk(ucmp, last);
      forall x, y | x in Concat(init) && y in last.entries ensures cmp(x.0, y.0) < 0 {
        ConcatHas(init, x);
        var f :| f in init && x in f.entries;
        var i :| 0 <= i < n && files[i] == f;
        assert FileBefore(ucmp, files[i], files[n]);
        EntryInRange(ucmp, f, x);
        EntryInRange(ucmp, last, y);
        Transitive(cmp, x.0, f.largest, last.smallest);
        Transitive(cmp, x.0, last.smallest, y.0);
      }
      AppendOrdered(ucmp, Concat(init), last.entries);
    }
  }

  lemma StretchSorted<U(!new), V(!new)>(ucmp: Comparator<U>, files: seq<File<U, V>>, part: seq<File<U, V>>)
    requires FilesOk(ucmp, files) && SortedFiles(ucmp, files) && Stretch(files, part)
    ensures FilesOk(ucmp, part) && SortedFiles(ucmp, part)
  {
    var a: nat :| SliceAt(files, part, a);
    forall f | f in part ensures FileOk(ucmp, f) { assert f in files[a..a + |part|]; }
    forall i, j | 0 <= i < j < |part| ensures FileBefore(ucmp, part[i], part[j]) {
      assert files[a + i] == part[i] && files[a + j] == part[j];
    }
  }

  lemma {:induction false} OverlappingDistinct<U(!new), V(!new)>(ucmp: Comparator<U>, files: seq<File<U, V>>,
                                                                 b: Option<U>, e: Option<U>)
    requires DistinctNumbers(files)
    ensures DistinctNumbers(Overlapping(ucmp, files, b, e))
  {
    if files != [] {
      var n := |files| - 1;
      OverlappingDistinct(ucmp, files[..n], b, e);
      var init := Overlapping(ucmp, files[..n], b, e);
      forall i | 0 <= i < |init| ensures init[i].number != files[n].number {
        OverlappingHas(ucmp, files[..n], b, e, init[i]);
        assert init[i] in init;
      }
    }
  }

  lemma NewerNoSharedKey<U(!new), V(!new)>(a: Entries<U, V>, b: Entries<U, V>, A: set<Entry<U, V>>, B: set<Entry<U, V>>)
    requires Newer(A, B) && (forall e :: e in a ==> e in A) && forall e :: e in b ==> e in B
    ensures Merger.Disjoint(a, b) && Merger.Disjoint(b, a)
  {
  }

  /** No two level-0 inputs share an internal key. */
  lemma Level0Disjoint<U(!new), V(!new)>(ucmp: Comparator<U>, v: Version<U, V>, in0: seq<File<U, V>>, i: nat, j: nat)
    requires Good(ucmp, v) && ClosedPart(ucmp, v[0], in0) && i < |in0| && j < |in0| && i != j
    ensures Merger.Disjoint(in0[i].entries, in0[j].entries)
  {
    var b, e :| Closed(ucmp, v[0], b, e) && in0 == Overlapping(ucmp, v[0], b, e);
    OverlappingDistinct(ucmp, v[0], b, e);
    OverlappingHas(ucmp, v[0], b, e, in0[i]);
    OverlappingHas(ucmp, v[0], b, e, in0[j]);
    var m :| 0 <= m < |v[0]| && v[0][m] == in0[i];
    var n :| 0 <= n < |v[0]| && v[0][n] == in0[j];
    if in0[i].number > in0[j].number {
      assert FileNewer(v[0][m], v[0][n]);
      NewerNoSharedKey(in0[i].entries, in0[j].entries, (set x | x in in0[i].entries), (set x | x in in0[j].entries));
    } else {
      assert FileNewer(v[0][n], v[0][m]);
      NewerNoSharedKey(in0[j].entries, in0[i].entries, (set x | x in in0[j].entries), (set x | x in in0[i].entries));
    }
  }

  /** Every list holds entries of one level only. */
  lemma ListLevel<U(!new), V(!new)>(ucmp: Comparator<U>, v: Version<U, V>, level: nat, in0: seq<File<U, V>>,
                                    in1: seq<File<U, V>>, c: nat, e: Entry<U, V>)
    requires level + 1 < |v| && Picked(ucmp, v, level, in0, in1) && c < |InputLists(level, in0, in1)|
        && e in InputLists(level, in0, in1)[c]
    ensures e in Contents(in0 + in1)
    ensures e in Contents(v[if c < |InputLists(level, in0, [])| then level else level + 1])
  {
    var upper := c < |InputLists(level, in0, [])|;
    if upper && level == 0 {
      assert in0[c] in in0 && in0[c] in in0 + in1;
    } else {
      var files := if upper then in0 else in1;
      ConcatHas(files, e);
      var f :| f in files && e in f.entries;
      assert f in in0 + in1;
    }
  }

  lemma ListsMergeable<U(!new), V(!new)>(ucmp: Comparator<U>, v: Version<U, V>, level: nat, in0: seq<File<U, V>>,
                                         in1: seq<File<U, V>>, smallest: InternalKey<U>, largest: InternalKey<U>)
    requires TotalOrder(ucmp) && Good(ucmp, v) && level + 1 < NumLevels
        && Chosen(ucmp, v, level, in0, in1, smallest, largest)
    ensures Merger.Mergeable(InternalComparator(ucmp), InputLists(level, in0, in1))
  {
    var cmp, lists, n := InternalComparator(ucmp), InputLists(level, in0, in1), |InputLists(level, in0, [])|;
    GoodByAge(ucmp, v);
    ChosenIsPicked(ucmp, v, level, in0, in1, smallest, largest);
    forall c | 0 <= c < |lists| ensures Sorted(cmp, lists[c]) {
      ListSorted(ucmp, v, level, in0, in1, smallest, largest, c);
    }
    forall c, d | 0 <= c < |lists| && 0 <= d < |lists| && c != d ensures Merger.Disjoint(lists[c], lists[d]) {
      if c < n && d < n {
        Level0Disjoint(ucmp, v, in0, c, d);
      } else {
        ListsOfTwoLevels(ucmp, v, level, in0, in1, if c < n then c else d, if c < n then d else c);
      }
    }
  }

  lemma ListSorted<U(!new), V(!new)>(ucmp: Comparator<U>, v: Version<U, V>, level: nat, in0: seq<File<U, V>>,
                                     in1: seq<File<U, V>>, smallest: InternalKey<U>, largest: InternalKey<U>, c: nat)
    requires TotalOrder(ucmp) && Good(ucmp, v) && level + 1 < NumLevels
        && Chosen(ucmp, v, level, in0, in1, smallest, largest)
    requires c < |InputLists(level, in0, in1)|
    ensures Sorted(InternalComparator(ucmp), InputLists(level, in0, in1)[c])
  {
    if c >= |InputLists(level, in0, [])| {
      var a, z := OverlappingIsStretch(ucmp, v[level + 1], Some(smallest.user), Some(largest.user));
      assert SliceAt(v[level + 1], in1, a);
      StretchSorted(ucmp, v[level + 1], in1);
      ConcatOrdered(ucmp, in1);
    } else if level == 0 {
      PartOf(ucmp, v, level, in0, in0[c]);
      assert FileOk(ucmp, in0[c]);
    } else {
      StretchSorted(ucmp, v[level], in0);
      ConcatOrdered(ucmp, in0);
    }
  }

  lemma ListsOfTwoLevels<U(!new), V(!new)>(ucmp: Comparator<U>, v: Version<U, V>, level: nat, in0: seq<File<U, V>>,
                                           in1: seq<File<U, V>>, c: nat, d: nat)
    requires level + 1 < |v| && Picked(ucmp, v, level, in0, in1) && LevelsByAge(v)
    requires c < |InputLists(level, in0, [])| <= d < |InputLists(level, in0, in1)|
    ensures var lists := InputLists(level, in0, in1);
        Merger.Disjoint(lists[c], lists[d]) && Merger.Disjoint(lists[d], lists[c])
  {
    var lists := InputLists(level, in0, in1);
    forall e | e in lists[c] ensures e in Contents(v[level]) { ListLevel(ucmp, v, level, in0, in1, c, e); }
    forall e | e in lists[d] ensures e in Contents(v[level + 1]) { ListLevel(ucmp, v, level, in0, in1, d, e); }
    assert Newer(Contents(v[level]), Contents(v[level + 1]));
    NewerNoSharedKey(lists[c], lists[d], Contents(v[level]), Contents(v[level + 1]));
  }

  /** The merging iterator over the input lists is a cursor over the inputs' entries in order. */
  lemma UnionMergesInputs<U(!new), V(!new)>(ucmp: Comparator<U>, v: Version<U, V>, level: nat, in0: seq<File<U, V>>,
                                            in1: seq<File<U, V>>, smallest: InternalKey<U>, largest: InternalKey<U>)
    requires TotalOrder(ucmp) && Good(ucmp, v) && level + 1 < NumLevels
        && Chosen(ucmp, v, level, in0, in1, smallest, largest)
    ensures Merger.Mergeable(InternalComparator(ucmp), InputLists(level, in0, in1))
    ensures Merges(ucmp, Merger.Union(InternalComparator(ucmp), InputLists(level, in0, in1)), in0 + in1)
  {
    var cmp, lists := InternalComparator(ucmp), InputLists(level, in0, in1);
    InternalIsTotal(ucmp);
    ListsMergeable(ucmp, v, level, in0, in1, smallest, largest);
    Merger.UnionSorted(cmp, lists);
    ChosenIsPicked(ucmp, v, level, in0, in1, smallest, largest);
    forall e ensures e in Merger.Union(cmp, lists) <==> e in Contents(in0 + in1) {
      Merger.UnionKeeps(cmp, lists, e);
      if c :| 0 <= c < |lists| && e in lists[c] { ListLevel(ucmp, v, level, in0, in1, c, e); }
      if e in Contents(in0 + in1) { var c := SomeList(level, in0, in1, e); }
    }
  }

  lemma SomeList<U(!new), V(!new)>(level: nat, in0: seq<File<U, V>>, in1: seq<File<U, V>>, e: Entry<U, V>)
      returns (c: nat)
    requires e in Contents(in0 + in1)
    ensures c < |InputLists(level, in0, in1)| && e in InputLists(level, in0, in1)[c]
  {
    var f :| f in in0 + in1 && e in f.entries;
    if f in in0 && level == 0 {
      var i :| 0 <= i < |in0| && in0[i] == f;
      c := i;
    } else if f in in0 {
      ConcatHas(in0, e);
      c := 0;
    } else {
      ConcatHas(in1, e);
      c := |InputLists(level, in0, in1)| - 1;
    }
  }

  /** MakeInputIterator: the iterator the compaction loop walks. */
  method MakeInputIterator<U(!new), V(!new)>(ucmp: Comparator<U>, v: Version<U, V>, level: nat, in0: seq<File<U, V>>,
                                             in1: seq<File<U, V>>, ghost smallest: InternalKey<U>,
                                             ghost largest: InternalKey<U>)
    returns (input: Merger.MergingIterator<InternalKey<U>, V>)
    requires TotalOrder(ucmp) && Good(ucmp, v) && level + 1 < NumLevels
        && Chosen(ucmp, v, level, in0, in1, smallest, largest)
    ensures fresh(input) && input.Valid() && Merges(ucmp, input.View().entries, in0 + in1)
  {
    var lists := InputLists(level, in0, in1);
    var children := seq(|lists|, c requires 0 <= c < |lists| => Cursor(lists[c], |lists[c]|));
    UnionMergesInputs(ucmp, v, level, in0, in1, smallest, largest);
    InternalIsTotal(ucmp);
    assert Merger.Lists(children) == lists;
    input := new Merger.MergingIterator(InternalComparator(ucmp), children);
  }
}
