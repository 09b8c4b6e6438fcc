/** Choosing the files of a compaction (db/version_set.cc). */
module Inputs {
  import opened Order
  import opened InternalKeys
  import opened Options
  import opened Versions

  function TotalFileSize<U, V>(files: seq<File<U, V>>): nat {
    if files == [] then 0 else files[0].size + TotalFileSize(files[1..])
  }

  // --------------------------------------------------------- overlapping files

  /** f holds some user key in [b, e], where None stands for no bound. */
  predicate Overlaps<U, V>(ucmp: Comparator<U>, f: File<U, V>, b: Option<U>, e: Option<U>) {
    && !(b.Some? && ucmp(f.largest.user, b.value) < 0)
    && !(e.Some? && ucmp(f.smallest.user, e.value) > 0)
  }

  /** f lies inside [b, e]. */
  predicate Inside<U, V>(ucmp: Comparator<U>, f: File<U, V>, b: Option<U>, e: Option<U>) {
    && !(b.Some? && ucmp(f.smallest.user, b.value) < 0)
    && !(e.Some? && ucmp(f.largest.user, e.value) > 0)
  }

  function Overlapping<U, V>(ucmp: Comparator<U>, files: seq<File<U, V>>, b: Option<U>, e: Option<U>): seq<File<U, V>> {
    if files == [] then []
    else
      var init := Overlapping(ucmp, files[..|files| - 1], b, e);
      if Overlaps(ucmp, files[|files| - 1], b, e) then init + [files[|files| - 1]] else init
  }

  /** No file straddles the bounds. */
  ghost predicate Closed<U, V>(ucmp: Comparator<U>, files: seq<File<U, V>>, b: Option<U>, e: Option<U>) {
    forall f :: f in files && Overlaps(ucmp, f, b, e) ==> Inside(ucmp, f, b, e)
  }

  /** [b, e] contains [b', e']. */
  ghost predicate Covers<U>(ucmp: Comparator<U>, b: Option<U>, e: Option<U>, b': Option<U>, e': Option<U>) {
    && (b.None? || (b'.Some? && ucmp(b.value, b'.value) <= 0))
    && (e.None? || (e'.Some? && ucmp(e'.value, e.value) <= 0))
  }

  /** How many files stick out of the bounds on either side; this is what each restart reduces. */
  function Outside<U, V>(ucmp: Comparator<U>, files: seq<File<U, V>>, b: Option<U>, e: Option<U>): nat {
    if files == [] then 0
    else
      (if b.Some? && ucmp(files[0].smallest.user, b.value) < 0 then 1 else 0)
      + (if e.Some? && ucmp(files[0].largest.user, e.value) > 0 then 1 else 0)
      + Outside(ucmp, files[1..], b, e)
  }

  /** One end of f sticks out of [b, e] but not of [b', e']. */
  ghost predicate Enters<U, V>(ucmp: Comparator<U>, f: File<U, V>, b: Option<U>, e: Option<U>, b': Option<U>,
                               e': Option<U>)
  {
    || (b.Some? && b'.Some? && ucmp(f.smallest.user, b.value) < 0 && ucmp(f.smallest.user, b'.value) >= 0)
    || (e.Some? && e'.Some? && ucmp(f.largest.user, e.value) > 0 && ucmp(f.largest.user, e'.value) <= 0)
  }

  lemma {:induction false} OutsideShrinks<U(!new), V(!new)>(ucmp: Comparator<U>, files: seq<File<U, V>>, b: Option<U>,
                                                            e: Option<U>, b': Option<U>, e': Option<U>)
    requires TotalOrder(ucmp) && Covers(ucmp, b', e', b, e) && (b.None? <==> b'.None?) && (e.None? <==> e'.None?)
    ensures Outside(ucmp, files, b', e') <= Outside(ucmp, files, b, e)
    ensures (exists f :: f in files && Enters(ucmp, f, b, e, b', e')) ==>
        Outside(ucmp, files, b', e') < Outside(ucmp, files, b, e)
  {
    if files != [] {
      var f := files[0];
      OutsideShrinks(ucmp, files[1..], b, e, b', e');
      Laws(ucmp);
      if b.Some? && ucmp(f.smallest.user, b'.value) < 0 {
        Transitive(ucmp, f.smallest.user, b'.value, b.value);
      }
      if e.Some? && ucmp(f.largest.user, e'.value) > 0 {
        Transitive(ucmp, e.value, e'.value, f.largest.user);
      }
      assert files == [f] + files[1..];
    }
  }

  /** Every closed range around [begin, end] also contains [b, e]. */
  ghost predicate Least<U(!new), V(!new)>(ucmp: Comparator<U>, files: seq<File<U, V>>, begin: Option<U>, end: Option<U>,
                                          b: Option<U>, e: Option<U>)
  {
    forall b', e' {:trigger Closed(ucmp, files, b', e')} ::
      Closed(ucmp, files, b', e') && Covers(ucmp, b', e', begin, end) ==> Covers(ucmp, b', e', b, e)
  }

  ghost predicate Widened<U(!new), V(!new)>(ucmp: Comparator<U>, files: seq<File<U, V>>, begin: Option<U>,
                                            end: Option<U>, b: Option<U>, e: Option<U>)
  {
    && (b.None? <==> begin.None?) && (e.None? <==> end.None?)
    && Covers(ucmp, b, e, begin, end)
    && Least(ucmp, files, begin, end, b, e)
  }

  lemma CoversTrans<U(!new)>(ucmp: Comparator<U>, b: Option<U>, e: Option<U>, b': Option<U>, e': Option<U>,
                             b'': Option<U>, e'': Option<U>)
    requires TotalOrder(ucmp) && Covers(ucmp, b, e, b', e') && Covers(ucmp, b', e', b'', e'')
    ensures Covers(ucmp, b, e, b'', e'')
  {
    if b.Some? { Transitive(ucmp, b.value, b'.value, b''.value); }
    if e.Some? { Transitive(ucmp, e''.value, e'.value, e.value); }
  }

  /** A file overlapping a range overlaps every wider one. */
  lemma OverlapsWider<U(!new), V(!new)>(ucmp: Comparator<U>, f: File<U, V>, b: Option<U>, e: Option<U>, b': Option<U>,
                                        e': Option<U>)
    requires TotalOrder(ucmp) && Covers(ucmp, b, e, b', e') && Overlaps(ucmp, f, b', e')
    ensures Overlaps(ucmp, f, b, e)
  {
    Laws(ucmp);
    if b.Some? && ucmp(f.largest.user, b.value) < 0 { Transitive(ucmp, f.largest.user, b.value, b'.value); }
    if e.Some? && ucmp(f.smallest.user, e.value) > 0 { Transitive(ucmp, e'.value, e.value, f.smallest.user); }
  }

  /** Growing the range to an overlapping file's end keeps it the least. */
  lemma GrowLeast<U(!new), V(!new)>(ucmp: Comparator<U>, files: seq<File<U, V>>, begin: Option<U>, end: Option<U>,
                                    b: Option<U>, e: Option<U>, f: File<U, V>, b1: Option<U>, e1: Option<U>)
    requires TotalOrder(ucmp) && Widened(ucmp, files, begin, end, b, e)
    requires f in files && Overlaps(ucmp, f, b, e)
    requires || (b.Some? && ucmp(f.smallest.user, b.value) < 0 && b1 == Some(f.smallest.user) && e1 == e)
             || (e.Some? && ucmp(f.largest.user, e.value) > 0 && b1 == b && e1 == Some(f.largest.user))
    ensures Widened(ucmp, files, begin, end, b1, e1)
    ensures Covers(ucmp, b1, e1, b, e)
    ensures Outside(ucmp, files, b1, e1) < Outside(ucmp, files, b, e)
  {
    Laws(ucmp);
    assert Covers(ucmp, b1, e1, b, e);
    CoversTrans(ucmp, b1, e1, b, e, begin, end);
    forall b', e' | Closed(ucmp, files, b', e') && Covers(ucmp, b', e', begin, end)
      ensures Covers(ucmp, b', e', b1, e1)
    {
      OverlapsWider(ucmp, f, b', e', b, e);
      assert Inside(ucmp, f, b', e');
    }
    assert Enters(ucmp, f, b, e, b1, e1);
    OutsideShrinks(ucmp, files, b, e, b1, e1);
  }

  /** What the scan knows after the first i files: the overlapping ones, and that the range is still the least. */
  ghost predicate Scan<U(!new), V(!new)>(ucmp: Comparator<U>, files: seq<File<U, V>>, level: nat, begin: Option<U>,
                                         end: Option<U>, b: Option<U>, e: Option<U>, i: nat, inputs: seq<File<U, V>>)
    requires i <= |files|
  {
    && inputs == Overlapping(ucmp, files[..i], b, e)
    && match level
       case 0 => Closed(ucmp, files[..i], b, e) && Widened(ucmp, files, begin, end, b, e)
       case _ => b == begin && e == end
  }

  lemma ScanStarts<U(!new), V(!new)>(ucmp: Comparator<U>, files: seq<File<U, V>>, level: nat, begin: Option<U>,
                                     end: Option<U>)
    requires TotalOrder(ucmp)
    ensures Scan(ucmp, files, level, begin, end, begin, end, 0, [])
  {
    Laws(ucmp);
  }

  lemma ScanSteps<U(!new), V(!new)>(ucmp: Comparator<U>, files: seq<File<U, V>>, level: nat, begin: Option<U>,
                                    end: Option<U>, b: Option<U>, e: Option<U>, i: nat, inputs: seq<File<U, V>>)
    requires i < |files| && Scan(ucmp, files, level, begin, end, b, e, i, inputs)
    requires level == 0 && Overlaps(ucmp, files[i], b, e) ==> Inside(ucmp, files[i], b, e)
    ensures Scan(ucmp, files, level, begin, end, b, e, i + 1,
        if Overlaps(ucmp, files[i], b, e) then inputs + [files[i]] else inputs)
  {
    assert files[..i + 1][..i] == files[..i];
  }

  lemma ScanRestarts<U(!new), V(!new)>(ucmp: Comparator<U>, files: seq<File<U, V>>, begin: Option<U>, end: Option<U>,
                                       b: Option<U>, e: Option<U>, i: nat, inputs: seq<File<U, V>>, b1: Option<U>,
                                       e1: Option<U>)
    requires TotalOrder(ucmp) && i < |files| && Scan(ucmp, files, 0, begin, end, b, e, i, inputs)
    requires Overlaps(ucmp, files[i], b, e)
    requires || (b.Some? && ucmp(files[i].smallest.user, b.value) < 0 && b1 == Some(files[i].smallest.user) && e1 == e)
             || (e.Some? && ucmp(files[i].largest.user, e.value) > 0 && b1 == b && e1 == Some(files[i].largest.user))
    ensures Scan(ucmp, files, 0, begin, end, b1, e1, 0, [])
    ensures Outside(ucmp, files, b1, e1) < Outside(ucmp, files, b, e)
  {
    GrowLeast(ucmp, files, begin, end, b, e, files[i], b1, e1);
  }

  /** GetOverlappingInputs.  Above level 0 it returns the files that overlap the range;
      at level 0 it restarts with a wider range until no overlapping file sticks out. */
  method GetOverlappingInputs<U(!new), V(!new)>(ucmp: Comparator<U>, files: seq<File<U, V>>, level: nat,
                                                begin: Option<U>, end: Option<U>)
    returns (inputs: seq<File<U, V>>, ghost b: Option<U>, ghost e: Option<U>)
    requires TotalOrder(ucmp)
    ensures inputs == Overlapping(ucmp, files, b, e)
    ensures level != 0 ==> b == begin && e == end
    ensures level == 0 ==> Closed(ucmp, files, b, e) && Widened(ucmp, files, begin, end, b, e)
  {
    inputs := [];
    var userBegin, userEnd := begin, end;
    ScanStarts(ucmp, files, level, begin, end);
    var i := 0;
    while i < |files|
      invariant 0 <= i <= |files| && Scan(ucmp, files, level, begin, end, userBegin, userEnd, i, inputs)
      decreases Outside(ucmp, files, userBegin, userEnd), |files| - i
    {
      var f := files[i];
      if userBegin.Some? && ucmp(f.largest.user, userBegin.value) < 0 {
        // completely before the range
        ScanSteps(ucmp, files, level, begin, end, userBegin, userEnd, i, inputs);
        i := i + 1;
      } else if userEnd.Some? && ucmp(f.smallest.user, userEnd.value) > 0 {
        // completely after the range
        ScanSteps(ucmp, files, level, begin, end, userBegin, userEnd, i, inputs);
        i := i + 1;
      } else if level == 0 && userBegin.Some? && ucmp(f.smallest.user, userBegin.value) < 0 {
        ScanRestarts(ucmp, files, begin, end, userBegin, userEnd, i, inputs, Some(f.smallest.user), userEnd);
        userBegin, inputs, i := Some(f.smallest.user), [], 0;
      } else if level == 0 && userEnd.Some? && ucmp(f.largest.user, userEnd.value) > 0 {
        ScanRestarts(ucmp, files, begin, end, userBegin, userEnd, i, inputs, userBegin, Some(f.largest.user));
        userEnd, inputs, i := Some(f.largest.user), [], 0;
      } else {
        ScanSteps(ucmp, files, level, begin, end, userBegin, userEnd, i, inputs);
        inputs, i := inputs + [f], i + 1;
      }
    }
    assert files[..|files|] == files;
    b, e := userBegin, userEnd;
  }

  lemma {:induction false} OverlappingHas<U(!new), V(!new)>(ucmp: Comparator<U>, files: seq<File<U, V>>, b: Option<U>,
                                                            e: Option<U>, f: File<U, V>)
    ensures f in Overlapping(ucmp, files, b, e) <==> f in files && Overlaps(ucmp, f, b, e)
  {
    if files != [] {
      OverlappingHas(ucmp, files[..|files| - 1], b, e, f);
      assert files == files[..|files| - 1] + [files[|files| - 1]];
    }
  }

  // ----------------------------------------------------------- boundary files

  /** g starts inside the user key that key ends in (FindSmallestBoundaryFile's condition). */
  predicate Continues<U, V>(ucmp: Comparator<U>, g: File<U, V>, key: InternalKey<U>) {
    InternalCompare(ucmp, g.smallest, key) > 0 && ucmp(g.smallest.user, key.user) == 0
  }

  ghost predicate IsLargestKey<U(!new), V(!new)>(ucmp: Comparator<U>, files: seq<File<U, V>>, key: InternalKey<U>) {
    && (exists f :: f in files && f.largest == key)
    && (forall f :: f in files ==> InternalCompare(ucmp, f.largest, key) <= 0)
  }

  ghost predicate NothingContinues<U(!new), V(!new)>(ucmp: Comparator<U>, files: seq<File<U, V>>, key: InternalKey<U>) {
    forall g :: g in files ==> !Continues(ucmp, g, key)
  }

  method FindLargestKey<U(!new), V(!new)>(ucmp: Comparator<U>, files: seq<File<U, V>>)
      returns (key: Option<InternalKey<U>>)
    requires TotalOrder(ucmp)
    ensures files == [] <==> key.None?
    ensures key.Some? ==> IsLargestKey(ucmp, files, key.value)
  {
    if files == [] {
      return None;
    }
    InternalIsTotal(ucmp);
    Laws(InternalComparator(ucmp));
    var largest := files[0].largest;
    var i := 1;
    assert InternalComparator(ucmp)(largest, largest) == 0;
    while i < |files|
      invariant 1 <= i <= |files| && IsLargestKey(ucmp, files[..i], largest)
    {
      LargestSteps(ucmp, files, i, largest);
      if InternalCompare(ucmp, files[i].largest, largest) > 0 {
        largest := files[i].largest;
      }
      i := i + 1;
    }
    assert files[..|files|] == files;
    key := Some(largest);
  }

  lemma LargestSteps<U(!new), V(!new)>(ucmp: Comparator<U>, files: seq<File<U, V>>, i: nat, key: InternalKey<U>)
    requires TotalOrder(ucmp) && i < |files| && IsLargestKey(ucmp, files[..i], key)
    ensures IsLargestKey(ucmp, files[..i + 1], if InternalCompare(ucmp, files[i].largest, key) > 0 then files[i].largest
        else key)
  {
    var cmp := InternalComparator(ucmp);
    InternalIsTotal(ucmp);
    Laws(cmp);
    assert files[..i + 1] == files[..i] + [files[i]];
    assert cmp(files[i].largest, files[i].largest) == 0;
    if cmp(files[i].largest, key) > 0 {
      forall f | f in files[..i] ensures cmp(f.largest, files[i].largest) <= 0 {
        Transitive(cmp, f.largest, key, files[i].largest);
      }
      assert files[i] in files[..i + 1];
    } else {
      var f :| f in files[..i] && f.largest == key;
      assert f in files[..i + 1];
    }
  }

  ghost predicate SmallestContinuing<U(!new), V(!new)>(ucmp: Comparator<U>, files: seq<File<U, V>>, key: InternalKey<U>,
                                                       best: Option<File<U, V>>)
  {
    match best
    case None => NothingContinues(ucmp, files, key)
    case Some(f) =>
      && f in files && Continues(ucmp, f, key)
      && forall g :: g in files && Continues(ucmp, g, key) ==> InternalCompare(ucmp, f.smallest, g.smallest) <= 0
  }

  method FindSmallestBoundaryFile<U(!new), V(!new)>(ucmp: Comparator<U>, files: seq<File<U, V>>, key: InternalKey<U>)
      returns (best: Option<File<U, V>>)
    requires TotalOrder(ucmp)
    ensures SmallestContinuing(ucmp, files, key, best)
  {
    best := None;
    var i := 0;
    while i < |files|
      invariant 0 <= i <= |files| && SmallestContinuing(ucmp, files[..i], key, best)
    {
      var f := files[i];
      BoundarySteps(ucmp, files, i, key, best);
      if Continues(ucmp, f, key) {
        if best.None? || InternalCompare(ucmp, f.smallest, best.value.smallest) < 0 {
          best := Some(f);
        }
      }
      i := i + 1;
    }
    assert files[..|files|] == files;
  }

  lemma BoundarySteps<U(!new), V(!new)>(ucmp: Comparator<U>, files: seq<File<U, V>>, i: nat, key: InternalKey<U>,
                                        best: Option<File<U, V>>)
    requires TotalOrder(ucmp) && i < |files| && SmallestContinuing(ucmp, files[..i], key, best)
    ensures SmallestContinuing(ucmp, files[..i + 1], key,
              if Continues(ucmp, files[i], key) && (best.None?
                  || InternalCompare(ucmp, files[i].smallest, best.value.smallest) < 0)
              then Some(files[i]) else best)
  {
    var cmp := InternalComparator(ucmp);
    InternalIsTotal(ucmp);
    Laws(cmp);
    assert files[..i + 1] == files[..i] + [files[i]];
    assert files[i] in files[..i + 1];
    assert cmp(files[i].smallest, files[i].smallest) == 0;
    if best.Some? {
      assert best.value in files[..i + 1];
      forall g | g in files[..i] && Continues(ucmp, g, key) && cmp(files[i].smallest, best.value.smallest) < 0
        ensures cmp(files[i].smallest, g.smallest) <= 0
      {
        Transitive(cmp, files[i].smallest, best.value.smallest, g.smallest);
      }
    }
  }

  /** How many files start beyond the key; each file added by AddBoundaryInputs leaves this count. */
  function Beyond<U, V>(ucmp: Comparator<U>, files: seq<File<U, V>>, key: InternalKey<U>): nat {
    if files == [] then 0
    else (if InternalCompare(ucmp, files[0].smallest, key) > 0 then 1 else 0) + Beyond(ucmp, files[1..], key)
  }

  lemma {:induction false} BeyondShrinks<U(!new), V(!new)>(ucmp: Comparator<U>, files: seq<File<U, V>>,
                                                           key: InternalKey<U>, key': InternalKey<U>)
    requires TotalOrder(ucmp) && InternalCompare(ucmp, key, key') <= 0
    ensures Beyond(ucmp, files, key') <= Beyond(ucmp, files, key)
    ensures (exists f ::
        f in files && InternalCompare(ucmp, f.smallest, key) > 0
        && InternalCompare(ucmp, f.smallest, key') <= 0)
            ==> Beyond(ucmp, files, key') < Beyond(ucmp, files, key)
  {
    if files != [] {
      var cmp := InternalComparator(ucmp);
      BeyondShrinks(ucmp, files[1..], key, key');
      InternalIsTotal(ucmp);
      Laws(cmp);
      if cmp(files[0].smallest, key') > 0 { Transitive(cmp, key, key', files[0].smallest); }
      assert files == [files[0]] + files[1..];
    }
  }

  /** part is the contiguous stretch of files that starts at index a. */
  ghost predicate SliceAt<U(!new), V(!new)>(files: seq<File<U, V>>, part: seq<File<U, V>>, a: nat) {
    a + |part| <= |files| && files[a..a + |part|] == part
  }

  /** The largest key of a stretch of a sorted level is its last file's. */
  lemma KeyIsLast<U(!new), V(!new)>(ucmp: Comparator<U>, files: seq<File<U, V>>, part: seq<File<U, V>>, a: nat,
                                    key: InternalKey<U>)
    requires TotalOrder(ucmp) && FilesOk(ucmp, files) && SortedFiles(ucmp, files)
    requires SliceAt(files, part, a) && part != [] && IsLargestKey(ucmp, part, key)
    ensures key == files[a + |part| - 1].largest
  {
    var cmp := InternalComparator(ucmp);
    InternalIsTotal(ucmp);
    Laws(cmp);
    var last := files[a + |part| - 1];
    var f :| f in part && f.largest == key;
    var j :| 0 <= j < |part| && part[j] == f;
    assert files[a + j] == f;
    LargestAscends(ucmp, files, a + j, a + |part| - 1);
    assert part[|part| - 1] == last && last in part;
    assert cmp(key, last.largest) <= 0 && cmp(last.largest, key) <= 0;
  }

  /** A file that starts after the last file of a stretch comes after it in the level. */
  lemma StartsAfter<U(!new), V(!new)>(ucmp: Comparator<U>, files: seq<File<U, V>>, i: nat, b: nat)
    requires TotalOrder(ucmp) && FilesOk(ucmp, files) && SortedFiles(ucmp, files) && i < |files| && 0 < b <= |files|
    requires InternalCompare(ucmp, files[i].smallest, files[b - 1].largest) > 0
    ensures i >= b
  {
    var cmp := InternalComparator(ucmp);
    InternalIsTotal(ucmp);
    Laws(cmp);
    if i < b {
      assert FileOk(ucmp, files[i]);
      RangeOk(ucmp, files[i]);
      LargestAscends(ucmp, files, i, b - 1);
      Transitive(cmp, files[i].smallest, files[i].largest, files[b - 1].largest);
    }
  }

  /** If a later file continues the key, the next file does too, and starts earlier. */
  lemma NextContinues<U(!new), V(!new)>(ucmp: Comparator<U>, files: seq<File<U, V>>, i: nat, b: nat)
    requires TotalOrder(ucmp) && FilesOk(ucmp, files) && SortedFiles(ucmp, files) && 0 < b < i < |files|
    requires Continues(ucmp, files[i], files[b - 1].largest)
    ensures Continues(ucmp, files[b], files[b - 1].largest)
    ensures InternalCompare(ucmp, files[i].smallest, files[b].smallest) > 0
  {
    var cmp := InternalComparator(ucmp);
    InternalIsTotal(ucmp);
    Laws(cmp);
    Laws(ucmp);
    assert FileOk(ucmp, files[b]);
    RangeOk(ucmp, files[b]);
    assert FileBefore(ucmp, files[b], files[i]);
    assert FileBefore(ucmp, files[b - 1], files[b]);
    Transitive(cmp, files[b].smallest, files[b].largest, files[i].smallest);
    assert cmp(files[i].smallest, files[b].smallest) > 0;
    assert Chain(files[b - 1].largest.user, files[b].smallest.user, files[i].smallest.user);
  }

  /** In a sorted level, the file AddBoundaryInputs finds is the one right after the stretch. */
  lemma BoundaryIsNext<U(!new), V(!new)>(ucmp: Comparator<U>, files: seq<File<U, V>>, part: seq<File<U, V>>, a: nat,
                                         key: InternalKey<U>, f: File<U, V>)
    requires TotalOrder(ucmp) && FilesOk(ucmp, files) && SortedFiles(ucmp, files)
    requires SliceAt(files, part, a) && part != [] && IsLargestKey(ucmp, part, key)
    requires SmallestContinuing(ucmp, files, key, Some(f))
    ensures SliceAt(files, part + [f], a)
  {
    var i :| 0 <= i < |files| && files[i] == f;
    var b := a + |part|;
    KeyIsLast(ucmp, files, part, a, key);
    StartsAfter(ucmp, files, i, b);
    if i > b {
      NextContinues(ucmp, files, i, b);
    }
    assert i == b;
    assert files[a..b + 1] == files[a..b] + [files[b]];
  }

  /** What AddBoundaryInputs knows on the way: chosen extends what it was given, key is its largest. */
  ghost predicate Extending<U(!new), V(!new)>(ucmp: Comparator<U>, files: seq<File<U, V>>, given: seq<File<U, V>>,
                                              chosen: seq<File<U, V>>, key: InternalKey<U>)
  {
    && given <= chosen
    && IsLargestKey(ucmp, chosen, key)
    && (forall f :: f in chosen ==> f in given || f in files)
    && (SortedFiles(ucmp, files) ==> forall a :: SliceAt(files, given, a) ==> SliceAt(files, chosen, a))
  }

  lemma ExtendingSteps<U(!new), V(!new)>(ucmp: Comparator<U>, files: seq<File<U, V>>, given: seq<File<U, V>>,
                                         chosen: seq<File<U, V>>, key: InternalKey<U>, f: File<U, V>)
    requires TotalOrder(ucmp) && FilesOk(ucmp, files) && given != []
    requires Extending(ucmp, files, given, chosen, key) && SmallestContinuing(ucmp, files, key, Some(f))
    ensures Extending(ucmp, files, given, chosen + [f], f.largest)
    ensures Beyond(ucmp, files, f.largest) < Beyond(ucmp, files, key)
  {
    var cmp := InternalComparator(ucmp);
    InternalIsTotal(ucmp);
    Laws(cmp);
    assert FileOk(ucmp, f);
    RangeOk(ucmp, f);
    Transitive(cmp, key, f.smallest, f.largest);
    BeyondShrinks(ucmp, files, key, f.largest);
    LargestGrows(ucmp, chosen, key, f);
    forall a | SortedFiles(ucmp, files) && SliceAt(files, given, a) ensures SliceAt(files, chosen + [f], a) {
      BoundaryIsNext(ucmp, files, chosen, a, key, f);
    }
  }

  lemma LargestGrows<U(!new), V(!new)>(ucmp: Comparator<U>, files: seq<File<U, V>>, key: InternalKey<U>, f: File<U, V>)
    requires TotalOrder(ucmp) && IsLargestKey(ucmp, files, key) && InternalCompare(ucmp, f.largest, key) > 0
    ensures IsLargestKey(ucmp, files + [f], f.largest)
  {
    assert (files + [f])[..|files|] == files && (files + [f])[..|files| + 1] == files + [f];
    LargestSteps(ucmp, files + [f], |files|, key);
  }

  /** Each file added is the first of those in which the largest key chosen so far continues. */
  ghost predicate Grown<U(!new), V(!new)>(ucmp: Comparator<U>, files: seq<File<U, V>>, given: seq<File<U, V>>,
                                          chosen: seq<File<U, V>>)
  {
    given <= chosen && forall i :: |given| <= i < |chosen| ==> GrewAt(ucmp, files, chosen, i)
  }

  ghost predicate GrewAt<U(!new), V(!new)>(ucmp: Comparator<U>, files: seq<File<U, V>>, chosen: seq<File<U, V>>, i: nat)
    requires i < |chosen|
  {
    exists key ::
      IsLargestKey(ucmp, chosen[..i], key) && SmallestContinuing(ucmp, files, key, Some(chosen[i]))
  }

  lemma GrowsOn<U(!new), V(!new)>(ucmp: Comparator<U>, files: seq<File<U, V>>, given: seq<File<U, V>>,
                                  chosen: seq<File<U, V>>, key: InternalKey<U>, f: File<U, V>)
    requires Grown(ucmp, files, given, chosen) && IsLargestKey(ucmp, chosen, key)
    requires SmallestContinuing(ucmp, files, key, Some(f))
    ensures Grown(ucmp, files, given, chosen + [f])
  {
    var more := chosen + [f];
    assert more[..|chosen|] == chosen;
    forall i | |given| <= i < |more| ensures GrewAt(ucmp, files, more, i) {
      if i < |chosen| {
        assert GrewAt(ucmp, files, chosen, i);
        assert more[..i] == chosen[..i];
      }
    }
  }

  /** AddBoundaryInputs: keep adding the file in which the largest user key continues. */
  method AddBoundaryInputs<U(!new), V(!new)>(ucmp: Comparator<U>, levelFiles: seq<File<U, V>>,
                                             compactionFiles: seq<File<U, V>>)
    returns (chosen: seq<File<U, V>>, ghost key: Option<InternalKey<U>>)
    requires TotalOrder(ucmp) && FilesOk(ucmp, levelFiles)
    ensures compactionFiles == [] ==> chosen == []
    ensures compactionFiles != [] ==> key.Some? && Extending(ucmp, levelFiles, compactionFiles, chosen, key.value)
    ensures key.Some? ==> NothingContinues(ucmp, levelFiles, key.value)
    ensures Grown(ucmp, levelFiles, compactionFiles, chosen)
    ensures forall first :: IsLargestKey(ucmp, compactionFiles, first) && NothingContinues(ucmp, levelFiles, first) ==>
        chosen == compactionFiles
  {
    chosen := compactionFiles;
    key := None;
    var found := FindLargestKey(ucmp, compactionFiles);
    if found.None? {
      return;
    }
    var largestKey, continueSearching := found.value, true;
    while continueSearching
      invariant Extending(ucmp, levelFiles, compactionFiles, chosen, largestKey)
      invariant !continueSearching ==> NothingContinues(ucmp, levelFiles, largestKey)
      invariant Grown(ucmp, levelFiles, compactionFiles, chosen)
      invariant NothingContinues(ucmp, levelFiles, found.value) ==>
          chosen == compactionFiles && largestKey == found.value
      decreases Beyond(ucmp, levelFiles, largestKey), continueSearching
    {
      var boundary := FindSmallestBoundaryFile(ucmp, levelFiles, largestKey);
      if boundary.Some? {
        ExtendingSteps(ucmp, levelFiles, compactionFiles, chosen, largestKey, boundary.value);
        GrowsOn(ucmp, levelFiles, compactionFiles, chosen, largestKey, boundary.value);
        chosen, largestKey := chosen + [boundary.value], boundary.value.largest;
      } else {
        continueSearching := false;
      }
    }
    key := Some(largestKey);
    forall first | IsLargestKey(ucmp, compactionFiles, first) ensures first == found.value {
      LargestKeyUnique(ucmp, compactionFiles, first, found.value);
    }
  }

  lemma LargestKeyUnique<U(!new), V(!new)>(ucmp: Comparator<U>, files: seq<File<U, V>>, key: InternalKey<U>,
                                           key': InternalKey<U>)
    requires TotalOrder(ucmp) && IsLargestKey(ucmp, files, key) && IsLargestKey(ucmp, files, key')
    ensures key == key'
  {
    InternalIsTotal(ucmp);
    Laws(InternalComparator(ucmp));
    var f :| f in files && f.largest == key;
    var f' :| f' in files && f'.largest == key';
    assert InternalComparator(ucmp)(key, key') <= 0 && InternalComparator(ucmp)(key', key) <= 0;
  }
}
