/** Setting up the inputs of a compaction (VersionSet in db/version_set.cc): what is
    picked at a level is closed enough for its files to move one level down. */
module Picking {
  import opened Order
  import opened InternalKeys
  import opened Options
  import opened Versions
  import opened Inputs
  import opened Linking

  // ------------------------------------------------------------------- ranges

  ghost predicate IsSmallestKey<U(!new), V(!new)>(ucmp: Comparator<U>, files: seq<File<U, V>>, key: InternalKey<U>) {
    && (exists f :: f in files && f.smallest == key)
    && (forall f :: f in files ==> InternalCompare(ucmp, key, f.smallest) <= 0)
  }

  lemma SmallestSteps<U(!new), V(!new)>(ucmp: Comparator<U>, files: seq<File<U, V>>, i: nat, key: InternalKey<U>)
    requires TotalOrder(ucmp) && i < |files| && IsSmallestKey(ucmp, files[..i], key)
    ensures IsSmallestKey(ucmp, files[..i + 1], if InternalCompare(ucmp, files[i].smallest, key) < 0
        then files[i].smallest else key)
  {
    var cmp := InternalComparator(ucmp);
    InternalIsTotal(ucmp);
    Laws(cmp);
    assert files[..i + 1] == files[..i] + [files[i]];
    assert cmp(files[i].smallest, files[i].smallest) == 0;
    if cmp(files[i].smallest, key) < 0 {
      forall f | f in files[..i] ensures cmp(files[i].smallest, f.smallest) <= 0 {
        Transitive(cmp, files[i].smallest, key, f.smallest);
      }
      assert files[i] in files[..i + 1];
    } else {
      var f :| f in files[..i] && f.smallest == key;
      assert f in files[..i + 1];
    }
  }

  method GetRange<U(!new), V(!new)>(ucmp: Comparator<U>, files: seq<File<U, V>>)
      returns (smallest: InternalKey<U>, largest: InternalKey<U>)
    requires TotalOrder(ucmp) && files != []
    ensures IsSmallestKey(ucmp, files, smallest) && IsLargestKey(ucmp, files, largest)
  {
    InternalIsTotal(ucmp);
    Laws(InternalComparator(ucmp));
    smallest, largest := files[0].smallest, files[0].largest;
    assert InternalComparator(ucmp)(largest, largest) == 0 && InternalComparator(ucmp)(smallest, smallest) == 0;
    var i := 1;
    while i < |files|
      invariant 1 <= i <= |files| && IsSmallestKey(ucmp, files[..i], smallest)
          && IsLargestKey(ucmp, files[..i], largest)
    {
      var f := files[i];
      SmallestSteps(ucmp, files, i, smallest);
      LargestSteps(ucmp, files, i, largest);
      if InternalCompare(ucmp, f.smallest, smallest) < 0 {
        smallest := f.smallest;
      }
      if InternalCompare(ucmp, f.largest, largest) > 0 {
        largest := f.largest;
      }
      i := i + 1;
    }
    assert files[..|files|] == files;
  }

  /** The user keys of a set's range bound those of each of its files. */
  lemma RangeBounds<U(!new), V(!new)>(ucmp: Comparator<U>, files: seq<File<U, V>>, smallest: InternalKey<U>,
                                      largest: InternalKey<U>, f: File<U, V>)
    requires TotalOrder(ucmp) && f in files && FileOk(ucmp, f)
    requires IsSmallestKey(ucmp, files, smallest) && IsLargestKey(ucmp, files, largest)
    ensures ucmp(smallest.user, f.smallest.user) <= 0 && ucmp(f.largest.user, largest.user) <= 0
    ensures Overlaps(ucmp, f, Some(smallest.user), Some(largest.user))
  {
    Laws(ucmp);
    RangeOk(ucmp, f);
    Transitive(ucmp, smallest.user, f.smallest.user, f.largest.user);
    Transitive(ucmp, f.smallest.user, f.largest.user, largest.user);
  }

  // --------------------------------------------------------- what may be picked

  ghost predicate Stretch<U(!new), V(!new)>(files: seq<File<U, V>>, part: seq<File<U, V>>) {
    exists a: nat :: SliceAt(files, part, a)
  }

  ghost predicate ClosedPart<U(!new), V(!new)>(ucmp: Comparator<U>, files: seq<File<U, V>>, part: seq<File<U, V>>) {
    exists b, e :: Closed(ucmp, files, b, e) && part == Overlapping(ucmp, files, b, e)
  }

  /** Level 0: closed under overlap.  Above: a contiguous stretch. */
  ghost predicate Pickable<U(!new), V(!new)>(ucmp: Comparator<U>, v: Version<U, V>, level: nat, part: seq<File<U, V>>)
    requires level < |v|
  {
    part != [] && if level == 0 then ClosedPart(ucmp, v[0], part) else Stretch(v[level], part)
  }

  lemma PartOf<U(!new), V(!new)>(ucmp: Comparator<U>, v: Version<U, V>, level: nat, part: seq<File<U, V>>,
                                 f: File<U, V>)
    requires level < |v| && Pickable(ucmp, v, level, part) && f in part
    ensures f in v[level]
  {
    if level == 0 {
      var b, e :| Closed(ucmp, v[0], b, e) && part == Overlapping(ucmp, v[0], b, e);
      OverlappingHas(ucmp, v[0], b, e, f);
    } else {
      var a: nat :| SliceAt(v[level], part, a);
      assert f in v[level][a..a + |part|];
    }
  }

  lemma UsersAscendInLevel<U(!new), V(!new)>(ucmp: Comparator<U>, files: seq<File<U, V>>, i: nat, j: nat)
    requires TotalOrder(ucmp) && FilesOk(ucmp, files) && SortedFiles(ucmp, files) && i < j < |files|
    ensures ucmp(files[i].smallest.user, files[j].smallest.user) <= 0
    ensures ucmp(files[i].largest.user, files[j].largest.user) <= 0
  {
    Laws(ucmp);
    assert FileOk(ucmp, files[i]) && FileOk(ucmp, files[j]);
    RangeOk(ucmp, files[i]);
    RangeOk(ucmp, files[j]);
    assert FileBefore(ucmp, files[i], files[j]);
    Transitive(ucmp, files[i].smallest.user, files[i].largest.user, files[j].smallest.user);
    Transitive(ucmp, files[i].largest.user, files[j].smallest.user, files[j].largest.user);
  }

  /** A file between two overlapping files of a sorted level overlaps too. */
  lemma BetweenOverlaps<U(!new), V(!new)>(ucmp: Comparator<U>, files: seq<File<U, V>>, b: Option<U>, e: Option<U>,
                                          i: nat, m: nat, j: nat)
    requires TotalOrder(ucmp) && FilesOk(ucmp, files) && SortedFiles(ucmp, files) && i < m < j < |files|
    requires Overlaps(ucmp, files[i], b, e) && Overlaps(ucmp, files[j], b, e)
    ensures Overlaps(ucmp, files[m], b, e)
  {
    Laws(ucmp);
    UsersAscendInLevel(ucmp, files, i, m);
    UsersAscendInLevel(ucmp, files, m, j);
    if b.Some? && ucmp(files[m].largest.user, b.value) < 0 {
      Transitive(ucmp, files[i].largest.user, files[m].largest.user, b.value);
    }
    if e.Some? && ucmp(files[m].smallest.user, e.value) > 0 {
      Transitive(ucmp, e.value, files[m].smallest.user, files[j].smallest.user);
    }
  }

  ghost predicate OverlapExactly<U(!new), V(!new)>(ucmp: Comparator<U>, files: seq<File<U, V>>, b: Option<U>,
                                                   e: Option<U>, a: nat, z: nat)
  {
    && a <= z <= |files|
    && forall i :: 0 <= i < |files| ==> (Overlaps(ucmp, files[i], b, e) <==> a <= i < z)
  }

  lemma {:induction false} OverlapRange<U(!new), V(!new)>(ucmp: Comparator<U>, files: seq<File<U, V>>, b: Option<U>,
                                                          e: Option<U>) returns (a: nat, z: nat)
    requires TotalOrder(ucmp) && FilesOk(ucmp, files) && SortedFiles(ucmp, files)
    ensures OverlapExactly(ucmp, files, b, e, a, z)
  {
    if files == [] {
      return 0, 0;
    }
    var n := |files| - 1;
    var init := files[..n];
    a, z := OverlapRange(ucmp, init, b, e);
    forall i | 0 <= i < n ensures Overlaps(ucmp, files[i], b, e) <==> a <= i < z {
      assert init[i] == files[i];
    }
    if Overlaps(ucmp, files[n], b, e) {
      if a < z < n {
        BetweenOverlaps(ucmp, files, b, e, a, z, n);
      }
      if a == z { a := n; }
      z := n + 1;
    }
  }

  lemma {:induction false} ExactlyTheStretch<U(!new), V(!new)>(ucmp: Comparator<U>, files: seq<File<U, V>>,
                                                               b: Option<U>, e: Option<U>, a: nat, z: nat)
    requires OverlapExactly(ucmp, files, b, e, a, z)
    ensures Overlapping(ucmp, files, b, e) == files[a..z]
  {
    if files != [] {
      var n := |files| - 1;
      var init := files[..n];
      if z == n + 1 && a <= n {
        ExactlyTheStretch(ucmp, init, b, e, a, n);
        assert files[a..n + 1] == init[a..n] + [files[n]];
      } else if z <= n {
        ExactlyTheStretch(ucmp, init, b, e, a, z);
      } else {
        ExactlyTheStretch(ucmp, init, b, e, n, n);
      }
    }
  }

  /** In a sorted level the overlapping files are a contiguous stretch. */
  lemma OverlappingIsStretch<U(!new), V(!new)>(ucmp: Comparator<U>, files: seq<File<U, V>>, b: Option<U>, e: Option<U>)
      returns (a: nat, z: nat)
    requires TotalOrder(ucmp) && FilesOk(ucmp, files) && SortedFiles(ucmp, files)
    ensures OverlapExactly(ucmp, files, b, e, a, z) && Overlapping(ucmp, files, b, e) == files[a..z]
  {
    a, z := OverlapRange(ucmp, files, b, e);
    ExactlyTheStretch(ucmp, files, b, e, a, z);
  }

  lemma OverlappingPickable<U(!new), V(!new)>(ucmp: Comparator<U>, v: Version<U, V>, level: nat, begin: Option<U>,
                                              end: Option<U>, b: Option<U>, e: Option<U>, part: seq<File<U, V>>)
    requires TotalOrder(ucmp) && Good(ucmp, v) && level < NumLevels
    requires part == Overlapping(ucmp, v[level], b, e) && part != []
    requires level == 0 ==> Closed(ucmp, v[level], b, e)
    ensures Pickable(ucmp, v, level, part)
  {
    if level > 0 {
      var a, z := OverlappingIsStretch(ucmp, v[level], b, e);
      assert SliceAt(v[level], part, a);
    }
  }

  /** At level 0 there is never a boundary file to add. */
  lemma NoneContinuesAtLevel0<U(!new), V(!new)>(ucmp: Comparator<U>, files: seq<File<U, V>>, part: seq<File<U, V>>,
                                                key: InternalKey<U>)
    requires TotalOrder(ucmp) && FilesOk(ucmp, files) && ClosedPart(ucmp, files, part) && IsLargestKey(ucmp, part, key)
    ensures NothingContinues(ucmp, files, key)
  {
    var b, e :| Closed(ucmp, files, b, e) && part == Overlapping(ucmp, files, b, e);
    var f :| f in part && f.largest == key;
    OverlappingHas(ucmp, files, b, e, f);
    forall g | g in files ensures !Continues(ucmp, g, key) {
      if Continues(ucmp, g, key) {
        ContinuingOverlaps(ucmp, f, g, b, e);
        OverlappingHas(ucmp, files, b, e, g);
        RangeOk(ucmp, g);
        InternalIsTotal(ucmp);
        Laws(InternalComparator(ucmp));
        Transitive(InternalComparator(ucmp), g.smallest, g.largest, key);
      }
    }
  }

  lemma ContinuingOverlaps<U(!new), V(!new)>(ucmp: Comparator<U>, f: File<U, V>, g: File<U, V>, b: Option<U>,
                                             e: Option<U>)
    requires TotalOrder(ucmp) && FileOk(ucmp, f) && FileOk(ucmp, g)
    requires Inside(ucmp, f, b, e) && Continues(ucmp, g, f.largest)
    ensures Overlaps(ucmp, g, b, e)
  {
    Laws(ucmp);
    RangeOk(ucmp, f);
    RangeOk(ucmp, g);
    if b.Some? {
      Transitive(ucmp, b.value, f.smallest.user, f.largest.user);
      Transitive(ucmp, b.value, f.largest.user, g.largest.user);
    }
  }

  // ---------------------------------------------------------- SetupOtherInputs

  /** What a compaction works on: files of level, closed upwards in age, and every file of
      level + 1 that overlaps their user keys. */
  ghost predicate Chosen<U(!new), V(!new)>(ucmp: Comparator<U>, v: Version<U, V>, level: nat, in0: seq<File<U, V>>,
                                           in1: seq<File<U, V>>, smallest: InternalKey<U>, largest: InternalKey<U>)
    requires level + 1 < |v|
  {
    && Pickable(ucmp, v, level, in0)
    && IsSmallestKey(ucmp, in0, smallest) && IsLargestKey(ucmp, in0, largest)
    && NothingContinues(ucmp, v[level], largest)
    && in1 == Overlapping(ucmp, v[level + 1], Some(smallest.user), Some(largest.user))
  }

  /** AddBoundaryInputs on pickable files leaves them pickable. */
  lemma ExtendedPickable<U(!new), V(!new)>(ucmp: Comparator<U>, v: Version<U, V>, level: nat, given: seq<File<U, V>>,
                                           chosen: seq<File<U, V>>, key: InternalKey<U>)
    requires TotalOrder(ucmp) && Good(ucmp, v) && level < NumLevels && Pickable(ucmp, v, level, given)
    requires Extending(ucmp, v[level], given, chosen, key)
    requires forall first :: IsLargestKey(ucmp, given, first) && NothingContinues(ucmp, v[level], first) ==>
        chosen == given
    ensures Pickable(ucmp, v, level, chosen)
  {
    if level == 0 {
      var first := LargestExists(ucmp, given);
      NoneContinuesAtLevel0(ucmp, v[0], given, first);
    } else {
      var a: nat :| SliceAt(v[level], given, a);
      assert SliceAt(v[level], chosen, a);
    }
  }

  lemma {:induction false} LargestExists<U(!new), V(!new)>(ucmp: Comparator<U>, files: seq<File<U, V>>)
      returns (key: InternalKey<U>)
    requires TotalOrder(ucmp) && files != []
    ensures IsLargestKey(ucmp, files, key)
  {
    InternalIsTotal(ucmp);
    Laws(InternalComparator(ucmp));
    var n := |files| - 1;
    if n == 0 {
      key := files[0].largest;
      assert InternalComparator(ucmp)(key, key) == 0;
    } else {
      var k := LargestExists(ucmp, files[..n]);
      LargestSteps(ucmp, files, n, k);
      assert files[..n + 1] == files;
      key := if InternalCompare(ucmp, files[n].largest, k) > 0 then files[n].largest else k;
    }
  }

  /** AddBoundaryInputs, on a pickable set of files. */
  method Extend<U(!new), V(!new)>(ucmp: Comparator<U>, v: Version<U, V>, level: nat, given: seq<File<U, V>>)
    returns (in0: seq<File<U, V>>, ghost key: InternalKey<U>)
    requires TotalOrder(ucmp) && Good(ucmp, v) && level < NumLevels && Pickable(ucmp, v, level, given)
    ensures Pickable(ucmp, v, level, in0) && Grown(ucmp, v[level], given, in0)
    ensures IsLargestKey(ucmp, in0, key) && NothingContinues(ucmp, v[level], key)
  {
    ghost var k;
    in0, k := AddBoundaryInputs(ucmp, v[level], given);
    ExtendedPickable(ucmp, v, level, given, in0, k.value);
    key := k.value;
  }

  /** The files picked for level stay among those of the widened choice. */
  lemma WidenedKeeps<U(!new), V(!new)>(ucmp: Comparator<U>, v: Version<U, V>, level: nat, in0: seq<File<U, V>>,
                                       in1: seq<File<U, V>>, start: InternalKey<U>, limit: InternalKey<U>, b: Option<U>,
                                       e: Option<U>)
    requires TotalOrder(ucmp) && Good(ucmp, v) && level < NumLevels && Pickable(ucmp, v, level, in0)
    requires IsSmallestKey(ucmp, in0 + in1, start) && IsLargestKey(ucmp, in0 + in1, limit)
    requires Covers(ucmp, b, e, Some(start.user), Some(limit.user))
    ensures forall f :: f in in0 ==> f in Overlapping(ucmp, v[level], b, e)
  {
    forall f | f in in0 ensures f in Overlapping(ucmp, v[level], b, e) {
      PartOf(ucmp, v, level, in0, f);
      RangeBounds(ucmp, in0 + in1, start, limit, f);
      OverlapsWider(ucmp, f, b, e, Some(start.user), Some(limit.user));
      OverlappingHas(ucmp, v[level], b, e, f);
    }
  }

  /** The files of the next level that overlap the user keys of in0. */
  method FilesBelow<U(!new), V(!new)>(ucmp: Comparator<U>, v: Version<U, V>, level: nat, in0: seq<File<U, V>>,
                                      ghost key: InternalKey<U>)
    returns (in1: seq<File<U, V>>, smallest: InternalKey<U>, largest: InternalKey<U>)
    requires TotalOrder(ucmp) && level + 1 < |v| && Pickable(ucmp, v, level, in0)
    requires IsLargestKey(ucmp, in0, key) && NothingContinues(ucmp, v[level], key)
    ensures Chosen(ucmp, v, level, in0, in1, smallest, largest)
  {
    ghost var b, e;
    smallest, largest := GetRange(ucmp, in0);
    LargestKeyUnique(ucmp, in0, key, largest);
    in1, b, e := GetOverlappingInputs(ucmp, v[level + 1], level + 1, Some(smallest.user), Some(largest.user));
  }

  /** What GetOverlappingInputs finds. */
  ghost predicate InRange<U(!new), V(!new)>(ucmp: Comparator<U>, files: seq<File<U, V>>, level: nat, begin: Option<U>,
                                            end: Option<U>, found: seq<File<U, V>>)
  {
    exists b, e {:trigger Overlapping(ucmp, files, b, e)} ::
      && found == Overlapping(ucmp, files, b, e)
      && if level == 0 then Closed(ucmp, files, b, e) && Widened(ucmp, files, begin, end, b, e)
         else b == begin && e == end
  }

  /** The files that overlap the range of all inputs, and the boundary files behind them. */
  ghost predicate Widening<U(!new), V(!new)>(ucmp: Comparator<U>, files: seq<File<U, V>>, level: nat,
                                             inputs: seq<File<U, V>>, wide: seq<File<U, V>>)
  {
    exists start, limit, over ::
      && IsSmallestKey(ucmp, inputs, start) && IsLargestKey(ucmp, inputs, limit)
      && InRange(ucmp, files, level, Some(start.user), Some(limit.user), over) && Grown(ucmp, files, over, wide)
  }

  /** All files of level that overlap the user keys of both inputs. */
  method Widen<U(!new), V(!new)>(ucmp: Comparator<U>, v: Version<U, V>, level: nat, in0: seq<File<U, V>>,
                                 in1: seq<File<U, V>>)
    returns (expanded0: seq<File<U, V>>, ghost key: InternalKey<U>)
    requires TotalOrder(ucmp) && Good(ucmp, v) && level < NumLevels && Pickable(ucmp, v, level, in0)
    ensures Pickable(ucmp, v, level, expanded0) && forall f :: f in in0 ==> f in expanded0
    ensures IsLargestKey(ucmp, expanded0, key) && NothingContinues(ucmp, v[level], key)
    ensures Widening(ucmp, v[level], level, in0 + in1, expanded0)
  {
    var allStart, allLimit := GetRange(ucmp, in0 + in1);
    var over0;
    ghost var b, e;
    over0, b, e := GetOverlappingInputs(ucmp, v[level], level, Some(allStart.user), Some(allLimit.user));
    WidestCovers(ucmp, v[level], level, Some(allStart.user), Some(allLimit.user), b, e);
    WidenedKeeps(ucmp, v, level, in0, in1, allStart, allLimit, b, e);
    assert in0[0] in over0;
    OverlappingPickable(ucmp, v, level, Some(allStart.user), Some(allLimit.user), b, e, over0);
    expanded0, key := Extend(ucmp, v, level, over0);
    assert InRange(ucmp, v[level], level, Some(allStart.user), Some(allLimit.user), over0);
  }

  lemma WidestCovers<U(!new), V(!new)>(ucmp: Comparator<U>, files: seq<File<U, V>>, level: nat, begin: Option<U>,
                                       end: Option<U>, b: Option<U>, e: Option<U>)
    requires TotalOrder(ucmp)
    requires if level == 0 then Widened(ucmp, files, begin, end, b, e) else b == begin && e == end
    ensures Covers(ucmp, b, e, begin, end)
  {
    Laws(ucmp);
  }

  lemma AroundBounds<U(!new), V(!new)>(ucmp: Comparator<U>, files: seq<File<U, V>>, smallest: InternalKey<U>,
                                       largest: InternalKey<U>) returns (lo: File<U, V>, hi: File<U, V>)
    requires TotalOrder(ucmp) && FilesOk(ucmp, files)
    requires IsSmallestKey(ucmp, files, smallest) && IsLargestKey(ucmp, files, largest)
    ensures lo in files && lo.smallest == smallest && hi in files && hi.largest == largest
    ensures forall f :: f in files ==>
        ucmp(smallest.user, f.smallest.user) <= 0 && ucmp(f.largest.user, largest.user) <= 0
  {
    lo :| lo in files && lo.smallest == smallest;
    hi :| hi in files && hi.largest == largest;
    forall f | f in files
      ensures ucmp(smallest.user, f.smallest.user) <= 0 && ucmp(f.largest.user, largest.user) <= 0
    {
      RangeBounds(ucmp, files, smallest, largest, f);
    }
  }

  /** The next level's files in a range link on to the files of the range. */
  lemma BelowLinked<U(!new), V(!new)>(ucmp: Comparator<U>, v: Version<U, V>, level: nat, in0: seq<File<U, V>>,
                                      rest: seq<File<U, V>>, in1: seq<File<U, V>>, smallest: InternalKey<U>,
                                      largest: InternalKey<U>)
    requires TotalOrder(ucmp) && Good(ucmp, v) && level + 1 < NumLevels && Linked(ucmp, in0 + rest)
    requires Chosen(ucmp, v, level, in0, in1, smallest, largest)
    ensures Linked(ucmp, in0 + rest + in1)
  {
    hide Linked;
    forall f | f in in0 ensures f in v[level] { PartOf(ucmp, v, level, in0, f); }
    var lo, hi := AroundBounds(ucmp, in0, smallest, largest);
    forall x | x in in1 ensures Touches(ucmp, in0 + rest, x) {
      OverlappingHas(ucmp, v[level + 1], Some(smallest.user), Some(largest.user), x);
      OverlappingTouches(ucmp, in0 + rest, lo, hi, x);
    }
    LinkedMore(ucmp, in0 + rest, in1);
  }

  lemma FirstLinked<U(!new), V(!new)>(ucmp: Comparator<U>, v: Version<U, V>, level: nat, given: seq<File<U, V>>,
                                      in0: seq<File<U, V>>, in1: seq<File<U, V>>, smallest: InternalKey<U>,
                                      largest: InternalKey<U>)
    requires TotalOrder(ucmp) && Good(ucmp, v) && level + 1 < NumLevels && Pickable(ucmp, v, level, given)
    requires Linked(ucmp, given) && Grown(ucmp, v[level], given, in0)
    requires Chosen(ucmp, v, level, in0, in1, smallest, largest)
    ensures Linked(ucmp, in0 + in1)
  {
    hide Linked;
    var none: seq<File<U, V>> := [];
    forall f | f in given ensures f in v[level] { PartOf(ucmp, v, level, given, f); }
    assert given + none == given && in0[..|in0|] == in0 && in0 + none == in0;
    GrownLinked(ucmp, v[level], given, in0, none, |in0|);
    BelowLinked(ucmp, v, level, in0, none, in1, smallest, largest);
  }

  /** The files of a level in the range of linked ones are linked with them. */
  lemma OverLinked<U(!new), V(!new)>(ucmp: Comparator<U>, files: seq<File<U, V>>, level: nat, inputs: seq<File<U, V>>,
                                     start: InternalKey<U>, limit: InternalKey<U>, over: seq<File<U, V>>)
    requires TotalOrder(ucmp) && FilesOk(ucmp, files) && FilesOk(ucmp, inputs) && Linked(ucmp, inputs)
    requires IsSmallestKey(ucmp, inputs, start) && IsLargestKey(ucmp, inputs, limit)
    requires InRange(ucmp, files, level, Some(start.user), Some(limit.user), over)
    ensures Linked(ucmp, inputs + over)
    ensures forall f :: f in over ==> f in files
    ensures forall f :: f in files && f in inputs ==> f in over
  {
    hide Linked;
    var lo, hi := AroundBounds(ucmp, inputs, start, limit);
    var b, e :| over == Overlapping(ucmp, files, b, e)
        && if level == 0 then Closed(ucmp, files, b, e)
            && Widened(ucmp, files, Some(start.user), Some(limit.user), b, e)
           else b == Some(start.user) && e == Some(limit.user);
    WidestCovers(ucmp, files, level, Some(start.user), Some(limit.user), b, e);
    forall f ensures f in over <==> f in files && Overlaps(ucmp, f, b, e) { OverlappingHas(ucmp, files, b, e, f); }
    forall f | f in files && f in inputs ensures f in over {
      RangeBounds(ucmp, inputs, start, limit, f);
      OverlapsWider(ucmp, f, b, e, Some(start.user), Some(limit.user));
    }
    if level == 0 {
      WidenedLinked(ucmp, files, inputs, lo, hi, b.value, e.value);
    } else {
      forall x | x in over ensures Touches(ucmp, inputs, x) { OverlappingTouches(ucmp, inputs, lo, hi, x); }
      LinkedMore(ucmp, inputs, over);
    }
  }

  lemma WideLinked<U(!new), V(!new)>(ucmp: Comparator<U>, v: Version<U, V>, level: nat, in0: seq<File<U, V>>,
                                     in1: seq<File<U, V>>, wide0: seq<File<U, V>>)
    requires TotalOrder(ucmp) && Good(ucmp, v) && level + 1 < NumLevels && Linked(ucmp, in0 + in1)
    requires (forall f :: f in in0 ==> f in v[level]) && (forall f :: f in in1 ==> f in v[level + 1])
    requires Widening(ucmp, v[level], level, in0 + in1, wide0)
    ensures Linked(ucmp, wide0 + in1)
  {
    hide Linked;
    hide InRange;
    hide Grown;
    var start, limit, over :| && IsSmallestKey(ucmp, in0 + in1, start) && IsLargestKey(ucmp, in0 + in1, limit)
        && InRange(ucmp, v[level], level, Some(start.user), Some(limit.user), over)
            && Grown(ucmp, v[level], over, wide0);
    OverLinked(ucmp, v[level], level, in0 + in1, start, limit, over);
    LinkedAlike(ucmp, in0 + in1 + over, over + in1);
    GrownIs(ucmp, v[level], over, wide0);
    GrownLinked(ucmp, v[level], over, wide0, in1, |wide0|);
  }

  lemma GrownIs<U(!new), V(!new)>(ucmp: Comparator<U>, files: seq<File<U, V>>, given: seq<File<U, V>>,
                                  chosen: seq<File<U, V>>)
    requires Grown(ucmp, files, given, chosen)
    ensures |given| <= |chosen| && chosen[..|chosen|] == chosen && forall f :: f in given ==> f in chosen
  {
    forall f | f in given ensures f in chosen {
      var i :| 0 <= i < |given| && given[i] == f;
      assert chosen[i] == f;
    }
  }

  /** The wider inputs have no gap if the first ones had none. */
  lemma WidenedStillLinked<U(!new), V(!new)>(ucmp: Comparator<U>, v: Version<U, V>, level: nat, in0: seq<File<U, V>>,
                                             in1: seq<File<U, V>>, smallest: InternalKey<U>, largest: InternalKey<U>,
                                             wide0: seq<File<U, V>>, wide1: seq<File<U, V>>, start: InternalKey<U>,
                                             limit: InternalKey<U>)
    requires TotalOrder(ucmp) && Good(ucmp, v) && level + 1 < NumLevels && Linked(ucmp, in0 + in1)
    requires Chosen(ucmp, v, level, in0, in1, smallest, largest) && Chosen(ucmp, v, level, wide0, wide1, start, limit)
    requires Widening(ucmp, v[level], level, in0 + in1, wide0) && forall f :: f in in0 ==> f in wide0
    ensures Linked(ucmp, wide0 + wide1)
  {
    hide Linked;
    hide Widening;
    hide Pickable;
    forall f | f in in0 ensures f in v[level] { PartOf(ucmp, v, level, in0, f); }
    forall f | f in in1 ensures f in v[level + 1] && f in wide1 {
      OverlappingHas(ucmp, v[level + 1], Some(smallest.user), Some(largest.user), f);
      RangeGrows(ucmp, v, level, in0, smallest, largest, wide0, start, limit);
      OverlapsWider(ucmp, f, Some(start.user), Some(limit.user), Some(smallest.user), Some(largest.user));
      OverlappingHas(ucmp, v[level + 1], Some(start.user), Some(limit.user), f);
    }
    WideLinked(ucmp, v, level, in0, in1, wide0);
    BelowLinked(ucmp, v, level, wide0, in1, wide1, start, limit);
    LinkedAlike(ucmp, wide0 + in1 + wide1, wide0 + wide1);
  }

  lemma RangeGrows<U(!new), V(!new)>(ucmp: Comparator<U>, v: Version<U, V>, level: nat, in0: seq<File<U, V>>,
                                     smallest: InternalKey<U>, largest: InternalKey<U>, wide0: seq<File<U, V>>,
                                     start: InternalKey<U>, limit: InternalKey<U>)
    requires TotalOrder(ucmp) && Good(ucmp, v) && level < NumLevels && Pickable(ucmp, v, level, wide0)
    requires IsSmallestKey(ucmp, in0, smallest) && IsLargestKey(ucmp, in0, largest)
    requires IsSmallestKey(ucmp, wide0, start) && IsLargestKey(ucmp, wide0, limit)
    requires forall f :: f in in0 ==> f in wide0
    ensures Covers(ucmp, Some(start.user), Some(limit.user), Some(smallest.user), Some(largest.user))
  {
    forall f | f in wide0 ensures f in v[level] { PartOf(ucmp, v, level, wide0, f); }
    var lo, hi := AroundBounds(ucmp, wide0, start, limit);
    var f :| f in in0 && f.smallest == smallest;
    var g :| g in in0 && g.largest == largest;
  }

  /** The inputs are the given files with their boundary files, and the next level's files in their range; or, if that
      finds more files for the level, none for the next and stays below the size limit, those in the range of both. */
  ghost predicate SetUp<U(!new), V(!new)>(ucmp: Comparator<U>, v: Version<U, V>, level: nat, given: seq<File<U, V>>,
                                          limit: nat, in0: seq<File<U, V>>, in1: seq<File<U, V>>)
    requires level + 1 < |v|
  {
    exists first0, first1, smallest, largest ::
      && Grown(ucmp, v[level], given, first0) && Chosen(ucmp, v, level, first0, first1, smallest, largest)
      && if first1 == [] then in0 == first0 && in1 == []
         else exists wide0 ::
             && Widening(ucmp, v[level], level, first0 + first1, wide0)
             && GrowsTo(ucmp, v, level, first0, first1, wide0, limit, in0, in1)
  }

  ghost predicate GrowsTo<U(!new), V(!new)>(ucmp: Comparator<U>, v: Version<U, V>, level: nat, first0: seq<File<U, V>>,
                                            first1: seq<File<U, V>>, wide0: seq<File<U, V>>, limit: nat,
                                            in0: seq<File<U, V>>, in1: seq<File<U, V>>)
    requires level + 1 < |v|
  {
    if |wide0| > |first0| && TotalFileSize(first1) + TotalFileSize(wide0) < limit then
      exists wide1, smallest, largest ::
        && Chosen(ucmp, v, level, wide0, wide1, smallest, largest)
        && if |wide1| == |first1| then in0 == wide0 && in1 == wide1 else in0 == first0 && in1 == first1
    else in0 == first0 && in1 == first1
  }

  /** SetupOtherInputs: widen the files picked at level, add the next level's, then take more of
      level if that adds nothing to the next level's and stays within the size limit. */
  method SetupOtherInputs<U(!new), V(!new)>(ucmp: Comparator<U>, v: Version<U, V>, level: nat, given: seq<File<U, V>>,
                                            limit: nat)
    returns (in0: seq<File<U, V>>, in1: seq<File<U, V>>, smallest: InternalKey<U>, largest: InternalKey<U>)
    requires TotalOrder(ucmp) && Good(ucmp, v) && level + 1 < NumLevels && Pickable(ucmp, v, level, given)
    ensures Chosen(ucmp, v, level, in0, in1, smallest, largest)
    ensures SetUp(ucmp, v, level, given, limit, in0, in1)
    ensures forall f :: f in given ==> f in in0
    ensures Linked(ucmp, given) ==> Linked(ucmp, in0 + in1)
  {
    hide Chosen;
    hide Pickable;
    hide Widening;
    hide Linked;
    ghost var key;
    in0, key := Extend(ucmp, v, level, given);
    in1, smallest, largest := FilesBelow(ucmp, v, level, in0, key);
    if Linked(ucmp, given) { FirstLinked(ucmp, v, level, given, in0, in1, smallest, largest); }
    if in1 != [] {
      ghost var first0, first1 := in0, in1;
      var expanded0;
      expanded0, key := Widen(ucmp, v, level, in0, in1);
      if |expanded0| > |in0| && TotalFileSize(in1) + TotalFileSize(expanded0) < limit {
        var expanded1, newStart, newLimit := FilesBelow(ucmp, v, level, expanded0, key);
        if |expanded1| == |in1| {
          if Linked(ucmp, in0 + in1) {
            WidenedStillLinked(ucmp, v, level, in0, in1, smallest, largest, expanded0, expanded1, newStart, newLimit);
          }
          in0, in1, smallest, largest := expanded0, expanded1, newStart, newLimit;
        }
      }
      assert GrowsTo(ucmp, v, level, first0, first1, expanded0, limit, in0, in1);
    }
  }

  /** What is picked for a file: at level 0 with all that overlap it. */
  ghost predicate PicksFor<U(!new), V(!new)>(ucmp: Comparator<U>, v: Version<U, V>, level: nat, f: File<U, V>,
                                             limit: nat, in0: seq<File<U, V>>, in1: seq<File<U, V>>)
    requires level + 1 < |v|
  {
    exists given :: SetUp(ucmp, v, level, given, limit, in0, in1) && if level > 0 then given == [f]
               else InRange(ucmp, v[0], 0, Some(f.smallest.user), Some(f.largest.user), given)
  }

  /** PickCompaction, once the level and the file have been picked. */
  method PickCompaction<U(!new), V(!new)>(ucmp: Comparator<U>, v: Version<U, V>, level: nat, index: nat, limit: nat)
    returns (in0: seq<File<U, V>>, in1: seq<File<U, V>>, smallest: InternalKey<U>, largest: InternalKey<U>)
    requires TotalOrder(ucmp) && Good(ucmp, v) && level + 1 < NumLevels && index < |v[level]|
    ensures Chosen(ucmp, v, level, in0, in1, smallest, largest)
    ensures v[level][index] in in0 && Linked(ucmp, in0 + in1)
    ensures PicksFor(ucmp, v, level, v[level][index], limit, in0, in1)
  {
    hide SetUp;
    hide Linked;
    hide Chosen;
    var f := v[level][index];
    assert FileOk(ucmp, f);
    LinkedOne(ucmp, f);
    var inputs := [f];
    if level == 0 {
      ghost var b, e;
      inputs, b, e := GetOverlappingInputs(ucmp, v[0], 0, Some(f.smallest.user), Some(f.largest.user));
      assert InRange(ucmp, v[0], 0, Some(f.smallest.user), Some(f.largest.user), inputs);
      OwnRange(ucmp, f, b, e);
      OverlappingHas(ucmp, v[0], b, e, f);
      OwnLinked(ucmp, v[0], f, inputs);
    } else {
      assert SliceAt(v[level], [f], index);
    }
    in0, in1, smallest, largest := SetupOtherInputs(ucmp, v, level, inputs, limit);
  }

  lemma OwnLinked<U(!new), V(!new)>(ucmp: Comparator<U>, files: seq<File<U, V>>, f: File<U, V>, inputs: seq<File<U, V>>)
    requires TotalOrder(ucmp) && FilesOk(ucmp, files) && f in files && f in inputs
    requires InRange(ucmp, files, 0, Some(f.smallest.user), Some(f.largest.user), inputs)
    ensures Linked(ucmp, inputs)
  {
    hide Linked;
    InternalIsTotal(ucmp);
    Laws(InternalComparator(ucmp));
    LinkedOne(ucmp, f);
    var cmp := InternalComparator(ucmp);
    assert f in [f] && cmp(f.smallest, f.smallest) == 0 && cmp(f.largest, f.largest) == 0;
    OverLinked(ucmp, files, 0, [f], f.smallest, f.largest, inputs);
    LinkedAlike(ucmp, [f] + inputs, inputs);
  }

  lemma OwnRange<U(!new), V(!new)>(ucmp: Comparator<U>, f: File<U, V>, b: Option<U>, e: Option<U>)
    requires TotalOrder(ucmp) && FileOk(ucmp, f) && Covers(ucmp, b, e, Some(f.smallest.user), Some(f.largest.user))
    ensures Overlaps(ucmp, f, b, e)
  {
    Laws(ucmp);
    RangeOk(ucmp, f);
    assert f.smallest.user == f.smallest.user;
    OverlapsWider(ucmp, f, b, e, Some(f.smallest.user), Some(f.largest.user));
  }

  /** The restarts of GetOverlappingInputs do not change whether it finds anything. */
  lemma FoundIff<U(!new), V(!new)>(ucmp: Comparator<U>, files: seq<File<U, V>>, level: nat, begin: Option<U>,
                                   end: Option<U>, b: Option<U>, e: Option<U>)
    requires TotalOrder(ucmp)
    requires if level == 0 then Widened(ucmp, files, begin, end, b, e) else b == begin && e == end
    ensures Overlapping(ucmp, files, b, e) == [] ==> forall f :: f in files ==> !Overlaps(ucmp, f, begin, end)
    ensures Overlapping(ucmp, files, b, e) != [] ==>
        exists f :: f in Overlapping(ucmp, files, b, e) && Overlaps(ucmp, f, begin, end)
    ensures level > 0 ==> forall f :: f in Overlapping(ucmp, files, b, e) ==> Overlaps(ucmp, f, begin, end)
  {
    WidestCovers(ucmp, files, level, begin, end, b, e);
    forall f | f in files ensures f in Overlapping(ucmp, files, b, e) <==> Overlaps(ucmp, f, b, e) {
      OverlappingHas(ucmp, files, b, e, f);
    }
    forall f | f in files && Overlaps(ucmp, f, begin, end) ensures f in Overlapping(ucmp, files, b, e) {
      OverlapsWider(ucmp, f, b, e, begin, end);
    }
    if Overlapping(ucmp, files, b, e) != [] {
      var g := Overlapping(ucmp, files, b, e)[0];
      OverlappingHas(ucmp, files, b, e, g);
      if forall f :: f in files ==> !Overlaps(ucmp, f, begin, end) {
        Laws(ucmp);
        assert Closed(ucmp, files, begin, end) && Covers(ucmp, begin, end, begin, end);
        OverlapsWider(ucmp, g, begin, end, b, e);
      }
    }
    forall f | level > 0 && f in Overlapping(ucmp, files, b, e) ensures Overlaps(ucmp, f, begin, end) {
      OverlappingHas(ucmp, files, b, e, f);
    }
  }

  /** The first of the files, up to the one with which they come to maxSize. */
  ghost predicate CutTo<U(!new), V(!new)>(files: seq<File<U, V>>, maxSize: nat, given: seq<File<U, V>>) {
    && given <= files && given != []
    && (|given| > 1 ==> TotalFileSize(given[..|given| - 1]) < maxSize)
    && (given != files ==> TotalFileSize(given) >= maxSize)
  }

  lemma {:induction false} SizeAppend<U(!new), V(!new)>(files: seq<File<U, V>>, f: File<U, V>)
    ensures TotalFileSize(files + [f]) == TotalFileSize(files) + f.size
  {
    if files == [] {
      assert files + [f] == [f];
    } else {
      assert (files + [f])[1..] == files[1..] + [f];
      SizeAppend(files[1..], f);
    }
  }

  /** What a manual compaction of a range takes at its level. */
  ghost predicate ManualRange<U(!new), V(!new)>(ucmp: Comparator<U>, v: Version<U, V>, level: nat, begin: Option<U>,
                                                end: Option<U>, maxSize: nat, given: seq<File<U, V>>)
    requires level < |v|
  {
    exists all :: InRange(ucmp, v[level], level, begin, end, all)
             && if level == 0 then given == all else CutTo(all, maxSize, given)
  }

  /** The files cut to maxSize. */
  method TakeUpTo<U(!new), V(!new)>(files: seq<File<U, V>>, maxSize: nat) returns (given: seq<File<U, V>>)
    requires files != []
    ensures CutTo(files, maxSize, given)
  {
    var i, total := 0, 0;
    while i < |files|
      invariant 0 <= i <= |files| && total == TotalFileSize(files[..i]) && (i > 0 ==> total < maxSize)
    {
      assert files[..i + 1] == files[..i] + [files[i]];
      SizeAppend(files[..i], files[i]);
      total := total + files[i].size;
      if total >= maxSize {
        given := files[..i + 1];
        assert given[..i] == files[..i];
        return;
      }
      i := i + 1;
    }
    assert files[..|files|] == files;
    if |files| > 1 {
      assert files == files[..|files| - 1] + [files[|files| - 1]];
      SizeAppend(files[..|files| - 1], files[|files| - 1]);
    }
    given := files;
  }

  /** CompactRange: the files overlapping [begin, end], cut short above level 0. */
  method CompactRange<U(!new), V(!new)>(ucmp: Comparator<U>, v: Version<U, V>, level: nat, begin: Option<U>,
                                        end: Option<U>, maxSize: nat, limit: nat)
    returns (found: bool, in0: seq<File<U, V>>, in1: seq<File<U, V>>, ghost smallest: Option<InternalKey<U>>,
        ghost largest: Option<InternalKey<U>>)
    requires TotalOrder(ucmp) && Good(ucmp, v) && level + 1 < NumLevels
    ensures !found ==> forall f :: f in v[level] ==> !Overlaps(ucmp, f, begin, end)
    ensures found ==> smallest.Some? && largest.Some? && Chosen(ucmp, v, level, in0, in1, smallest.value, largest.value)
    ensures found ==> exists f :: f in in0 && Overlaps(ucmp, f, begin, end)
    ensures found ==> exists given ::
        ManualRange(ucmp, v, level, begin, end, maxSize, given) && SetUp(ucmp, v, level, given, limit, in0, in1)
  {
    hide SetUp;
    hide Chosen;
    ghost var b, e;
    var inputs;
    in0, in1, smallest, largest := [], [], None, None;
    inputs, b, e := GetOverlappingInputs(ucmp, v[level], level, begin, end);
    FoundIff(ucmp, v[level], level, begin, end, b, e);
    if inputs == [] {
      return false, in0, in1, None, None;
    }
    OverlappingPickable(ucmp, v, level, begin, end, b, e, inputs);
    assert InRange(ucmp, v[level], level, begin, end, inputs);
    if level > 0 {
      var given := TakeUpTo(inputs, maxSize);
      PrefixPickable(ucmp, v, level, inputs, |given|);
      assert inputs[..|given|] == given;
      assert given[0] in given && given[0] == inputs[0] && inputs[0] in inputs;
      inputs := given;
    }
    assert ManualRange(ucmp, v, level, begin, end, maxSize, inputs);
    var lo, hi;
    in0, in1, lo, hi := SetupOtherInputs(ucmp, v, level, inputs, limit);
    found, smallest, largest := true, Some(lo), Some(hi);
  }

  lemma PrefixPickable<U(!new), V(!new)>(ucmp: Comparator<U>, v: Version<U, V>, level: nat, part: seq<File<U, V>>,
                                         n: nat)
    requires level > 0 && level < |v| && Pickable(ucmp, v, level, part) && 0 < n <= |part|
    ensures Pickable(ucmp, v, level, part[..n])
  {
    var a: nat :| SliceAt(v[level], part, a);
    assert v[level][a..a + n] == part[..n];
    assert SliceAt(v[level], part[..n], a);
  }
}
