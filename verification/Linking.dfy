/** Sets of files without a gap in their user keys (db/version_set.cc): what a file between two of a compaction's
    inputs would have to fit into. */
module Linking {
  import opened Order
  import opened InternalKeys
  import opened Options
  import opened Versions
  import opened Inputs

  ghost predicate Contains<U(!new), V(!new)>(ucmp: Comparator<U>, f: File<U, V>, u: U) {
    ucmp(f.smallest.user, u) <= 0 && ucmp(u, f.largest.user) <= 0
  }

  ghost predicate SomeContains<U(!new), V(!new)>(ucmp: Comparator<U>, files: seq<File<U, V>>, u: U) {
    exists f :: f in files && Contains(ucmp, f, u)
  }

  /** Every user key between two of the files lies in one of them. */
  ghost predicate Linked<U(!new), V(!new)>(ucmp: Comparator<U>, files: seq<File<U, V>>) {
    forall u, x, y {:trigger Between(ucmp, x, u, y)} :: x in files && y in files && Between(ucmp, x, u, y) ==>
        SomeContains(ucmp, files, u)
  }

  ghost predicate Between<U(!new), V(!new)>(ucmp: Comparator<U>, x: File<U, V>, u: U, y: File<U, V>) {
    ucmp(x.largest.user, u) < 0 && ucmp(u, y.smallest.user) < 0
  }

  lemma LinkedOne<U(!new), V(!new)>(ucmp: Comparator<U>, f: File<U, V>)
    requires TotalOrder(ucmp) && FileOk(ucmp, f)
    ensures Linked(ucmp, [f])
  {
    Laws(ucmp);
    RangeOk(ucmp, f);
    forall u ensures !Between(ucmp, f, u, f) {
      if Between(ucmp, f, u, f) { Transitive(ucmp, f.largest.user, u, f.smallest.user); }
    }
  }

  lemma LinkedAlike<U(!new), V(!new)>(ucmp: Comparator<U>, files: seq<File<U, V>>, files': seq<File<U, V>>)
    requires Linked(ucmp, files) && forall f :: f in files <==> f in files'
    ensures Linked(ucmp, files')
  {
    forall u, x, y | x in files' && y in files' && Between(ucmp, x, u, y) ensures SomeContains(ucmp, files', u) {
      assert SomeContains(ucmp, files, u);
    }
  }

  /** x reaches into the range of the files. */
  ghost predicate Touches<U(!new), V(!new)>(ucmp: Comparator<U>, files: seq<File<U, V>>, x: File<U, V>) {
    && (exists f :: f in files && ucmp(f.smallest.user, x.largest.user) <= 0)
    && (exists f :: f in files && ucmp(x.smallest.user, f.largest.user) <= 0)
  }

  /** A key that the files reach on both sides is in one of them. */
  lemma ReachedIsContained<U(!new), V(!new)>(ucmp: Comparator<U>, files: seq<File<U, V>>, f: File<U, V>, u: U,
                                             g: File<U, V>)
    requires TotalOrder(ucmp) && Linked(ucmp, files) && f in files && g in files
    requires ucmp(f.smallest.user, u) <= 0 && ucmp(u, g.largest.user) <= 0
    ensures SomeContains(ucmp, files, u)
  {
    Laws(ucmp);
    if ucmp(u, f.largest.user) <= 0 {
      assert Contains(ucmp, f, u);
    } else if ucmp(g.smallest.user, u) <= 0 {
      assert Contains(ucmp, g, u);
    } else {
      assert Between(ucmp, f, u, g);
    }
  }

  /** Files that reach into the range of linked ones are linked with them. */
  lemma LinkedMore<U(!new), V(!new)>(ucmp: Comparator<U>, files: seq<File<U, V>>, more: seq<File<U, V>>)
    requires TotalOrder(ucmp) && Linked(ucmp, files) && forall x :: x in more ==> Touches(ucmp, files, x)
    ensures Linked(ucmp, files + more)
  {
    var all := files + more;
    forall u, x, y | x in all && y in all && Between(ucmp, x, u, y) ensures SomeContains(ucmp, all, u) {
      ReachesUp(ucmp, files, more, x, u);
      ReachesDown(ucmp, files, more, y, u);
      if f, g :| f in files && g in files && (ucmp(f.smallest.user, u) <= 0 || ucmp(f.largest.user, u) < 0)
                 && (ucmp(u, g.largest.user) <= 0 || ucmp(u, g.smallest.user) < 0)
      {
        EitherWay(ucmp, files, f, u, g);
        assert forall h :: h in files ==> h in all;
      }
    }
  }

  lemma ReachesUp<U(!new), V(!new)>(ucmp: Comparator<U>, files: seq<File<U, V>>, more: seq<File<U, V>>, x: File<U, V>,
                                    u: U)
    requires TotalOrder(ucmp) && (x in files || (x in more && Touches(ucmp, files, x))) && ucmp(x.largest.user, u) < 0
    ensures exists f :: f in files && (ucmp(f.smallest.user, u) <= 0 || ucmp(f.largest.user, u) < 0)
  {
    if x !in files {
      var f :| f in files && ucmp(f.smallest.user, x.largest.user) <= 0;
      Transitive(ucmp, f.smallest.user, x.largest.user, u);
    }
  }

  lemma ReachesDown<U(!new), V(!new)>(ucmp: Comparator<U>, files: seq<File<U, V>>, more: seq<File<U, V>>, y: File<U, V>,
                                      u: U)
    requires TotalOrder(ucmp) && (y in files || (y in more && Touches(ucmp, files, y))) && ucmp(u, y.smallest.user) < 0
    ensures exists g :: g in files && (ucmp(u, g.largest.user) <= 0 || ucmp(u, g.smallest.user) < 0)
  {
    if y !in files {
      var g :| g in files && ucmp(y.smallest.user, g.largest.user) <= 0;
      Transitive(ucmp, u, y.smallest.user, g.largest.user);
    }
  }

  lemma EitherWay<U(!new), V(!new)>(ucmp: Comparator<U>, files: seq<File<U, V>>, f: File<U, V>, u: U, g: File<U, V>)
    requires TotalOrder(ucmp) && Linked(ucmp, files) && f in files && g in files
    requires ucmp(f.smallest.user, u) <= 0 || ucmp(f.largest.user, u) < 0
    requires ucmp(u, g.largest.user) <= 0 || ucmp(u, g.smallest.user) < 0
    ensures SomeContains(ucmp, files, u)
  {
    Laws(ucmp);
    if ucmp(f.smallest.user, u) <= 0 && ucmp(u, f.largest.user) <= 0 {
      assert Contains(ucmp, f, u);
    } else if ucmp(g.smallest.user, u) <= 0 && ucmp(u, g.largest.user) <= 0 {
      assert Contains(ucmp, g, u);
    } else {
      assert Between(ucmp, f, u, g);
    }
  }

  // ------------------------------------------------- the sets the code puts together

  /** Boundary files link on to what they extend. */
  lemma {:induction false} GrownLinked<U(!new), V(!new)>(ucmp: Comparator<U>, files: seq<File<U, V>>,
                                                         given: seq<File<U, V>>, chosen: seq<File<U, V>>,
                                                         rest: seq<File<U, V>>, n: nat)
    requires TotalOrder(ucmp) && FilesOk(ucmp, files) && (forall f :: f in given ==> f in files)
    requires Grown(ucmp, files, given, chosen) && |given| <= n <= |chosen| && Linked(ucmp, given + rest)
    ensures Linked(ucmp, chosen[..n] + rest) && forall f :: f in chosen[..n] ==> f in files
  {
    hide Linked;
    hide SmallestContinuing;
    hide IsLargestKey;
    if n == |given| {
      assert chosen[..n] == given;
    } else {
      GrownLinked(ucmp, files, given, chosen, rest, n - 1);
      assert GrewAt(ucmp, files, chosen, n - 1);
      var key :| IsLargestKey(ucmp, chosen[..n - 1], key) && SmallestContinuing(ucmp, files, key, Some(chosen[n - 1]));
      OneMoreLinked(ucmp, files, chosen[..n - 1], rest, key, chosen[n - 1]);
      assert chosen[..n] == chosen[..n - 1] + [chosen[n - 1]];
    }
  }

  lemma OneMoreLinked<U(!new), V(!new)>(ucmp: Comparator<U>, files: seq<File<U, V>>, before: seq<File<U, V>>,
                                        rest: seq<File<U, V>>, key: InternalKey<U>, x: File<U, V>)
    requires TotalOrder(ucmp) && FilesOk(ucmp, files) && Linked(ucmp, before + rest)
    requires forall f :: f in before ==> f in files
    requires IsLargestKey(ucmp, before, key) && SmallestContinuing(ucmp, files, key, Some(x))
    ensures Linked(ucmp, before + [x] + rest) && forall f :: f in before + [x] ==> f in files
  {
    hide Linked;
    ContinuingTouches(ucmp, files, before, rest, key, x);
    LinkedMore(ucmp, before + rest, [x]);
    LinkedAlike(ucmp, before + rest + [x], before + [x] + rest);
  }

  lemma ContinuingTouches<U(!new), V(!new)>(ucmp: Comparator<U>, files: seq<File<U, V>>, before: seq<File<U, V>>,
                                            rest: seq<File<U, V>>, key: InternalKey<U>, x: File<U, V>)
    requires TotalOrder(ucmp) && FilesOk(ucmp, files) && forall f :: f in before ==> f in files
    requires IsLargestKey(ucmp, before, key) && SmallestContinuing(ucmp, files, key, Some(x))
    ensures Touches(ucmp, before + rest, x)
  {
    Laws(ucmp);
    var f :| f in before && f.largest == key;
    assert FileOk(ucmp, f) && FileOk(ucmp, x);
    RangeOk(ucmp, f);
    RangeOk(ucmp, x);
    Transitive(ucmp, f.smallest.user, key.user, x.largest.user);
    assert f in before + rest;
  }

  /** Files that overlap the range of others touch them. */
  lemma OverlappingTouches<U(!new), V(!new)>(ucmp: Comparator<U>, files: seq<File<U, V>>, lo: File<U, V>,
                                             hi: File<U, V>, x: File<U, V>)
    requires TotalOrder(ucmp) && lo in files && hi in files
    requires Overlaps(ucmp, x, Some(lo.smallest.user), Some(hi.largest.user))
    ensures Touches(ucmp, files, x)
  {
    Laws(ucmp);
  }

  /** No key strictly inside the widened range, and outside the one asked for, is in none of the files. */
  lemma WidenedContains<U(!new), V(!new)>(ucmp: Comparator<U>, files: seq<File<U, V>>, begin: U, end: U, b: U, e: U,
                                          u: U)
    requires TotalOrder(ucmp) && Closed(ucmp, files, Some(b), Some(e))
    requires Widened(ucmp, files, Some(begin), Some(end), Some(b), Some(e))
    requires ucmp(b, u) < 0 && ucmp(u, e) < 0 && (ucmp(u, begin) < 0 || ucmp(end, u) < 0)
    ensures SomeContains(ucmp, files, u)
  {
    Laws(ucmp);
    if !SomeContains(ucmp, files, u) {
      var b', e' := if ucmp(end, u) < 0 then Some(b) else Some(u), if ucmp(end, u) < 0 then Some(u) else Some(e);
      forall f | f in files && Overlaps(ucmp, f, b', e') ensures Inside(ucmp, f, b', e') {
        assert !Contains(ucmp, f, u);
        OverlapsWider(ucmp, f, Some(b), Some(e), b', e');
      }
      assert Closed(ucmp, files, b', e') && Covers(ucmp, b', e', Some(begin), Some(end));
    }
  }

  /** The files of level 0 closed under overlap with linked ones are linked with them. */
  lemma WidenedLinked<U(!new), V(!new)>(ucmp: Comparator<U>, files: seq<File<U, V>>, around: seq<File<U, V>>,
                                        lo: File<U, V>, hi: File<U, V>, b: U, e: U)
    requires TotalOrder(ucmp) && Linked(ucmp, around) && lo in around && hi in around
    requires FilesOk(ucmp, files) && FilesOk(ucmp, around)
    requires forall f :: f in around ==>
        ucmp(lo.smallest.user, f.smallest.user) <= 0 && ucmp(f.largest.user, hi.largest.user) <= 0
    requires Closed(ucmp, files, Some(b), Some(e))
        && Widened(ucmp, files, Some(lo.smallest.user), Some(hi.largest.user), Some(b), Some(e))
    ensures Linked(ucmp, around + Overlapping(ucmp, files, Some(b), Some(e)))
  {
    var begin, end, closed := lo.smallest.user, hi.largest.user, Overlapping(ucmp, files, Some(b), Some(e));
    var all := around + closed;
    forall u, x, y | x in all && y in all && Between(ucmp, x, u, y) ensures SomeContains(ucmp, all, u) {
      WithinBounds(ucmp, files, around, begin, end, b, e, x);
      WithinBounds(ucmp, files, around, begin, end, b, e, y);
      Transitive(ucmp, b, x.largest.user, u);
      Transitive(ucmp, u, y.smallest.user, e);
      Laws(ucmp);
      if ucmp(u, begin) < 0 || ucmp(end, u) < 0 {
        WidenedContains(ucmp, files, begin, end, b, e, u);
        var h :| h in files && Contains(ucmp, h, u);
        ContainedOverlaps(ucmp, h, b, u, e);
        OverlappingHas(ucmp, files, Some(b), Some(e), h);
        assert h in all;
      } else {
        ReachedIsContained(ucmp, around, lo, u, hi);
        assert forall h :: h in around ==> h in all;
      }
    }
  }

  lemma ContainedOverlaps<U(!new), V(!new)>(ucmp: Comparator<U>, h: File<U, V>, b: U, u: U, e: U)
    requires TotalOrder(ucmp) && Contains(ucmp, h, u) && ucmp(b, u) < 0 && ucmp(u, e) < 0
    ensures Overlaps(ucmp, h, Some(b), Some(e))
  {
    Laws(ucmp);
    Transitive(ucmp, b, u, h.largest.user);
    Transitive(ucmp, h.smallest.user, u, e);
  }

  lemma WithinBounds<U(!new), V(!new)>(ucmp: Comparator<U>, files: seq<File<U, V>>, around: seq<File<U, V>>, begin: U,
                                       end: U, b: U, e: U, x: File<U, V>)
    requires TotalOrder(ucmp) && Closed(ucmp, files, Some(b), Some(e))
        && Covers(ucmp, Some(b), Some(e), Some(begin), Some(end))
    requires FilesOk(ucmp, files) && FilesOk(ucmp, around)
    requires x in around ==> ucmp(begin, x.smallest.user) <= 0 && ucmp(x.largest.user, end) <= 0
    requires x in around || x in Overlapping(ucmp, files, Some(b), Some(e))
    ensures ucmp(b, x.smallest.user) <= 0 && ucmp(x.largest.user, e) <= 0
    ensures ucmp(b, x.largest.user) <= 0 && ucmp(x.smallest.user, e) <= 0
  {
    Laws(ucmp);
    OverlappingHas(ucmp, files, Some(b), Some(e), x);
    assert FileOk(ucmp, x);
    RangeOk(ucmp, x);
    if x in around {
      Transitive(ucmp, b, begin, x.smallest.user);
      Transitive(ucmp, x.largest.user, end, e);
    }
    Transitive(ucmp, b, x.smallest.user, x.largest.user);
    Transitive(ucmp, x.smallest.user, x.largest.user, e);
  }
}
