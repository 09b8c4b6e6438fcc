/** A compaction seen from outside: the version it leaves is good, and readers get the
    answers they got before exactly when no old value resurfaces. */
module CompactionSteps {
  import opened Order
  import opened InternalKeys
  import opened Options
  import opened Tables
  import opened Versions
  import opened Inputs
  import opened Picking
  import opened Levels
  import opened Flush
  // ------------------------------------------------------------- the picked files

  /** Where a file outside a stretch stands: before the stretch's file f, or after its last file. */
  lemma StandsOutside<U(!new), V(!new)>(files: seq<File<U, V>>, part: seq<File<U, V>>, a: nat, f: File<U, V>,
                                        g: File<U, V>) returns (j: nat, i: nat)
    requires SliceAt(files, part, a) && f in part && g in files && g !in part
    ensures j < a + |part| <= |files| && files[j] == f
    ensures i < |files| && files[i] == g && (i < j || i >= a + |part|)
  {
    var m :| 0 <= m < |part| && part[m] == f;
    assert files[a + m] == f;
    j := a + m;
    i :| 0 <= i < |files| && files[i] == g;
    forall n | a <= n < a + |part| ensures files[n] in part {
      assert part[n - a] == files[n];
    }
  }

  /** Files of a sorted level outside a stretch that nothing continues hold only newer entries of its user keys. */
  lemma OutsideStretchNewer<U(!new), V(!new)>(ucmp: Comparator<U>, files: seq<File<U, V>>, part: seq<File<U, V>>,
                                              largest: InternalKey<U>, f: File<U, V>, g: File<U, V>)
    requires TotalOrder(ucmp) && FilesOk(ucmp, files) && SortedFiles(ucmp, files)
    requires Stretch(files, part) && IsLargestKey(ucmp, part, largest) && NothingContinues(ucmp, files, largest)
    requires f in part && g in files && g !in part
    ensures FileNewer(g, f)
  {
    var a: nat :| SliceAt(files, part, a);
    var j, i := StandsOutside(files, part, a, f, g);
    KeyIsLast(ucmp, files, part, a, largest);
    assert !Continues(ucmp, files[i], files[a + |part| - 1].largest);
    forall y, x | y in g.entries && x in f.entries && y.0.user == x.0.user ensures Tag(y.0) > Tag(x.0) {
      if i < j {
        BeforeIsNewer(ucmp, files, i, j, y, x);
      } else {
        NothingSharedAfter(ucmp, files, j, a + |part| - 1, i, x, y);
      }
    }
  }

  lemma BeforeIsNewer<U(!new), V(!new)>(ucmp: Comparator<U>, files: seq<File<U, V>>, i: nat, j: nat, y: Entry<U, V>,
                                        x: Entry<U, V>)
    requires TotalOrder(ucmp) && FilesOk(ucmp, files) && SortedFiles(ucmp, files) && i < j < |files|
    requires y in files[i].entries && x in files[j].entries && x.0.user == y.0.user
    ensures Tag(y.0) > Tag(x.0)
  {
    var cmp := InternalComparator(ucmp);
    InternalIsTotal(ucmp);
    Laws(ucmp);
    EntryInRange(ucmp, files[i], y);
    EntryInRange(ucmp, files[j], x);
    assert FileBefore(ucmp, files[i], files[j]);
    Transitive(cmp, y.0, files[i].largest, files[j].smallest);
    Transitive(cmp, y.0, files[j].smallest, x.0);
  }

  lemma NothingSharedAfter<U(!new), V(!new)>(ucmp: Comparator<U>, files: seq<File<U, V>>, j: nat, last: nat, i: nat,
                                             x: Entry<U, V>, y: Entry<U, V>)
    requires TotalOrder(ucmp) && FilesOk(ucmp, files) && SortedFiles(ucmp, files) && j <= last < i < |files|
    requires !Continues(ucmp, files[i], files[last].largest)
    requires x in files[j].entries && y in files[i].entries
    ensures x.0.user != y.0.user
  {
    var cmp := InternalComparator(ucmp);
    InternalIsTotal(ucmp);
    Laws(ucmp);
    Laws(cmp);
    EntryInRange(ucmp, files[j], x);
    EntryInRange(ucmp, files[i], y);
    LargestAscends(ucmp, files, j, last);
    assert FileBefore(ucmp, files[last], files[i]);
    Transitive(ucmp, x.0.user, files[j].largest.user, files[last].largest.user);
    Transitive(ucmp, x.0.user, files[last].largest.user, files[i].smallest.user);
    Transitive(ucmp, x.0.user, files[i].smallest.user, y.0.user);
  }

  lemma OutsideClosedShared<U(!new), V(!new)>(ucmp: Comparator<U>, files: seq<File<U, V>>, part: seq<File<U, V>>,
                                              f: File<U, V>, g: File<U, V>, x: Entry<U, V>, y: Entry<U, V>)
    requires TotalOrder(ucmp) && FilesOk(ucmp, files) && ClosedPart(ucmp, files, part)
    requires f in part && g in files && g !in part && x in f.entries && y in g.entries
    ensures x.0.user != y.0.user
  {
    var b, e :| Closed(ucmp, files, b, e) && part == Overlapping(ucmp, files, b, e);
    OverlappingHas(ucmp, files, b, e, f);
    OverlappingHas(ucmp, files, b, e, g);
    Laws(ucmp);
    EntryInRange(ucmp, f, x);
    EntryInRange(ucmp, g, y);
    if b.Some? { Transitive(ucmp, b.value, f.smallest.user, x.0.user); }
    if e.Some? { Transitive(ucmp, x.0.user, f.largest.user, e.value); }
    if x.0.user == y.0.user {
      if b.Some? { Transitive(ucmp, b.value, y.0.user, g.largest.user); }
      if e.Some? { Transitive(ucmp, g.smallest.user, y.0.user, e.value); }
    }
  }

  /** What stays at the level is newer, for every user key, than what leaves it. */
  lemma RestIsNewer<U(!new), V(!new)>(ucmp: Comparator<U>, v: Version<U, V>, level: nat, in0: seq<File<U, V>>,
                                      in1: seq<File<U, V>>, smallest: InternalKey<U>, largest: InternalKey<U>,
                                      f: File<U, V>, g: File<U, V>)
    requires TotalOrder(ucmp) && Good(ucmp, v) && level + 1 < NumLevels
        && Chosen(ucmp, v, level, in0, in1, smallest, largest)
    requires f in in0 && g in v[level] && g !in in0
    ensures FileNewer(g, f)
  {
    if level == 0 {
      forall y, x | y in g.entries && x in f.entries ensures y.0.user != x.0.user {
        OutsideClosedShared(ucmp, v[0], in0, f, g, x, y);
      }
    } else {
      OutsideStretchNewer(ucmp, v[level], in0, largest, f, g);
    }
  }

  // -------------------------------------------------- files of the next level left alone

  /** g lies wholly to one side of every file of the set. */
  ghost predicate Beside<U(!new), V(!new)>(ucmp: Comparator<U>, g: File<U, V>, files: seq<File<U, V>>) {
    || (forall f :: f in files ==> FileBefore(ucmp, g, f))
    || (forall f :: f in files ==> FileBefore(ucmp, f, g))
  }

  lemma LeftOfRange<U(!new), V(!new)>(ucmp: Comparator<U>, g: File<U, V>, f: File<U, V>, lo: U)
    requires TotalOrder(ucmp) && FileOk(ucmp, f) && FileOk(ucmp, g) && ucmp(g.largest.user, lo) < 0
    requires ucmp(lo, f.smallest.user) <= 0 || (Apart(ucmp, f, g) && ucmp(f.largest.user, lo) >= 0)
    ensures FileBefore(ucmp, g, f)
  {
    Laws(ucmp);
    if ucmp(lo, f.smallest.user) <= 0 {
      Transitive(ucmp, g.largest.user, lo, f.smallest.user);
    } else if FileBefore(ucmp, f, g) {
      RangeOk(ucmp, g);
      Transitive(ucmp, f.largest.user, g.smallest.user, g.largest.user);
      Transitive(ucmp, f.largest.user, g.largest.user, lo);
    }
  }

  lemma RightOfRange<U(!new), V(!new)>(ucmp: Comparator<U>, g: File<U, V>, f: File<U, V>, hi: U)
    requires TotalOrder(ucmp) && FileOk(ucmp, f) && FileOk(ucmp, g) && ucmp(g.smallest.user, hi) > 0
    requires ucmp(f.largest.user, hi) <= 0 || (Apart(ucmp, f, g) && ucmp(f.smallest.user, hi) <= 0)
    ensures FileBefore(ucmp, f, g)
  {
    Laws(ucmp);
    if ucmp(f.largest.user, hi) <= 0 {
      Transitive(ucmp, f.largest.user, hi, g.smallest.user);
    } else if FileBefore(ucmp, g, f) {
      RangeOk(ucmp, g);
      Transitive(ucmp, g.smallest.user, g.largest.user, f.smallest.user);
      Transitive(ucmp, g.smallest.user, f.smallest.user, hi);
    }
  }

  lemma SortedApart<U(!new), V(!new)>(ucmp: Comparator<U>, files: seq<File<U, V>>, f: File<U, V>, g: File<U, V>)
    requires SortedFiles(ucmp, files) && f in files && g in files && f != g
    ensures Apart(ucmp, f, g)
  {
    var i :| 0 <= i < |files| && files[i] == f;
    var j :| 0 <= j < |files| && files[j] == g;
    assert FileBefore(ucmp, files[i], files[j]) || FileBefore(ucmp, files[j], files[i]);
  }

  lemma LeftAloneIsBeside<U(!new), V(!new)>(ucmp: Comparator<U>, v: Version<U, V>, level: nat, in0: seq<File<U, V>>,
                                            in1: seq<File<U, V>>, smallest: InternalKey<U>, largest: InternalKey<U>,
                                            g: File<U, V>)
    requires TotalOrder(ucmp) && Good(ucmp, v) && level + 1 < NumLevels
        && Chosen(ucmp, v, level, in0, in1, smallest, largest)
    requires g in v[level + 1] && g !in in1
    ensures Beside(ucmp, g, in0 + in1)
  {
    var next, lo, hi := v[level + 1], smallest.user, largest.user;
    OverlappingHas(ucmp, next, Some(lo), Some(hi), g);
    assert FileOk(ucmp, g);
    forall f | f in in0 + in1
      ensures ucmp(g.largest.user, lo) < 0 ==> FileBefore(ucmp, g, f)
      ensures ucmp(g.smallest.user, hi) > 0 ==> FileBefore(ucmp, f, g)
    {
      if f in in0 {
        PartOf(ucmp, v, level, in0, f);
        RangeBounds(ucmp, in0, smallest, largest, f);
      } else {
        OverlappingHas(ucmp, next, Some(lo), Some(hi), f);
        SortedApart(ucmp, next, f, g);
      }
      assert FileOk(ucmp, f);
      if ucmp(g.largest.user, lo) < 0 { LeftOfRange(ucmp, g, f, lo); }
      if ucmp(g.smallest.user, hi) > 0 { RightOfRange(ucmp, g, f, hi); }
    }
  }

  /** An output holds entries of the inputs only, so it lies apart from what was left alone. */
  lemma OutputApart<U(!new), V(!new)>(ucmp: Comparator<U>, inputs: seq<File<U, V>>, g: File<U, V>, h: File<U, V>)
    requires TotalOrder(ucmp) && FilesOk(ucmp, inputs) && FileOk(ucmp, h)
    requires Beside(ucmp, g, inputs) && forall e :: e in h.entries ==> e in Contents(inputs)
    ensures Apart(ucmp, h, g)
  {
    var cmp := InternalComparator(ucmp);
    InternalIsTotal(ucmp);
    assert h.entries[0] in h.entries && h.entries[|h.entries| - 1] in h.entries;
    var f :| f in inputs && h.entries[0] in f.entries;
    var f' :| f' in inputs && h.entries[|h.entries| - 1] in f'.entries;
    EntryInRange(ucmp, f, h.entries[0]);
    EntryInRange(ucmp, f', h.entries[|h.entries| - 1]);
    if forall f :: f in inputs ==> FileBefore(ucmp, g, f) {
      Transitive(cmp, g.largest, f.smallest, h.smallest);
    } else {
      Transitive(cmp, h.largest, f'.largest, g.smallest);
    }
  }

  // ---------------------------------------------------------------- the new version

  /** InstallCompactionResults: the inputs leave their levels, the outputs enter the next one. */
  ghost function Compacted<U(!new), V(!new)>(ucmp: Comparator<U>, v: Version<U, V>, level: nat, in0: seq<File<U, V>>,
                                             in1: seq<File<U, V>>, outputs: seq<File<U, V>>): Version<U, V>
    requires level + 1 < |v|
  {
    v[level := Without(v[level], Numbers(in0))]
     [level + 1 := InsertAll(ucmp, outputs, Without(v[level + 1], Numbers(in1)))]
  }

  /** Files that may leave their levels: what stays at the upper one is newer. */
  ghost predicate Leaving<U(!new), V(!new)>(v: Version<U, V>, level: nat, in0: seq<File<U, V>>, in1: seq<File<U, V>>)
    requires level + 1 < |v|
  {
    && (forall f :: f in in0 ==> f in v[level])
    && (forall f :: f in in1 ==> f in v[level + 1])
    && (forall f, g {:trigger FileNewer(g, f)} :: f in in0 && g in v[level] && g !in in0 ==> FileNewer(g, f))
  }

  /** All that the steps below need of the picked files. */
  ghost predicate Picked<U(!new), V(!new)>(ucmp: Comparator<U>, v: Version<U, V>, level: nat, in0: seq<File<U, V>>,
                                           in1: seq<File<U, V>>)
    requires level + 1 < |v|
  {
    && Leaving(v, level, in0, in1)
    && (forall g :: g in v[level + 1] && g !in in1 ==> Beside(ucmp, g, in0 + in1))
  }

  lemma ChosenIsPicked<U(!new), V(!new)>(ucmp: Comparator<U>, v: Version<U, V>, level: nat, in0: seq<File<U, V>>,
                                         in1: seq<File<U, V>>, smallest: InternalKey<U>, largest: InternalKey<U>)
    requires TotalOrder(ucmp) && Good(ucmp, v) && level + 1 < NumLevels
        && Chosen(ucmp, v, level, in0, in1, smallest, largest)
    ensures Picked(ucmp, v, level, in0, in1)
  {
    forall f | f in in0 ensures f in v[level] { PartOf(ucmp, v, level, in0, f); }
    forall f | f in in1 ensures f in v[level + 1] {
      OverlappingHas(ucmp, v[level + 1], Some(smallest.user), Some(largest.user), f);
    }
    forall f, g | f in in0 && g in v[level] && g !in in0 ensures FileNewer(g, f) {
      RestIsNewer(ucmp, v, level, in0, in1, smallest, largest, f, g);
    }
    forall g | g in v[level + 1] && g !in in1 ensures Beside(ucmp, g, in0 + in1) {
      LeftAloneIsBeside(ucmp, v, level, in0, in1, smallest, largest, g);
    }
  }

  /** Files built from entries of the inputs, sorted among themselves, with numbers new to the next level. */
  ghost predicate OutputsOk<U(!new), V(!new)>(ucmp: Comparator<U>, next: seq<File<U, V>>, inputs: seq<File<U, V>>,
                                              outputs: seq<File<U, V>>)
  {
    && FilesOk(ucmp, outputs) && SortedFiles(ucmp, outputs) && DistinctNumbers(outputs)
    && Contents(outputs) <= Contents(inputs)
    && forall f, g :: f in next && g in outputs ==> f.number != g.number
  }

  /** Which files v' has, compared with v. */
  ghost predicate Replaces<U(!new), V(!new)>(v: Version<U, V>, v': Version<U, V>, level: nat, in0: seq<File<U, V>>,
                                             in1: seq<File<U, V>>, outputs: seq<File<U, V>>)
    requires level + 1 < |v| == |v'|
  {
    && (forall l :: 0 <= l < |v| && l != level && l != level + 1 ==> v'[l] == v[l])
    && (forall g :: g in v'[level] <==> g in v[level] && g !in in0)
    && (forall g :: g in v'[level + 1] <==> g in outputs || (g in v[level + 1] && g !in in1))
  }

  lemma CompactedReplaces<U(!new), V(!new)>(ucmp: Comparator<U>, v: Version<U, V>, level: nat, in0: seq<File<U, V>>,
                                            in1: seq<File<U, V>>, outputs: seq<File<U, V>>)
    requires level + 1 < NumLevels && Good(ucmp, v) && Leaving(v, level, in0, in1)
    ensures Replaces(v, Compacted(ucmp, v, level, in0, in1, outputs), level, in0, in1, outputs)
  {
    forall g ensures g in Without(v[level], Numbers(in0)) <==> g in v[level] && g !in in0 {
      WithoutPart(v[level], in0, g);
    }
    forall g
      ensures g in InsertAll(ucmp, outputs, Without(v[level + 1], Numbers(in1))) <==>
          g in outputs || (g in v[level + 1] && g !in in1)
    {
      InsertAllHas(ucmp, outputs, Without(v[level + 1], Numbers(in1)), g);
      WithoutPart(v[level + 1], in1, g);
    }
  }

  /** Outputs that may enter level + 1 in place of the inputs: they keep clear of the files that stay there. */
  ghost predicate Ready<U(!new), V(!new)>(ucmp: Comparator<U>, v: Version<U, V>, level: nat, in0: seq<File<U, V>>,
                                          in1: seq<File<U, V>>, outputs: seq<File<U, V>>)
    requires level + 1 < |v|
  {
    && Leaving(v, level, in0, in1)
    && OutputsOk(ucmp, v[level + 1], in0 + in1, outputs)
    && forall h, g :: h in outputs && g in v[level + 1] && g !in in1 ==> Apart(ucmp, h, g)
  }

  lemma PickedIsReady<U(!new), V(!new)>(ucmp: Comparator<U>, v: Version<U, V>, level: nat, in0: seq<File<U, V>>,
                                        in1: seq<File<U, V>>, outputs: seq<File<U, V>>)
    requires TotalOrder(ucmp) && level + 1 < NumLevels && Good(ucmp, v) && Picked(ucmp, v, level, in0, in1)
        && OutputsOk(ucmp, v[level + 1], in0 + in1, outputs)
    ensures Ready(ucmp, v, level, in0, in1, outputs)
  {
    assert FilesOk(ucmp, in0 + in1);
    forall h, g | h in outputs && g in v[level + 1] && g !in in1 ensures Apart(ucmp, h, g) {
      InLevel(outputs, h);
      OutputApart(ucmp, in0 + in1, g, h);
    }
  }

  lemma NextLevelSorted<U(!new), V(!new)>(ucmp: Comparator<U>, v: Version<U, V>, level: nat, in0: seq<File<U, V>>,
                                          in1: seq<File<U, V>>, outputs: seq<File<U, V>>)
    requires TotalOrder(ucmp) && level + 1 < NumLevels && Good(ucmp, v) && Ready(ucmp, v, level, in0, in1, outputs)
    ensures SortedFiles(ucmp, InsertAll(ucmp, outputs, Without(v[level + 1], Numbers(in1))))
    ensures DistinctNumbers(InsertAll(ucmp, outputs, Without(v[level + 1], Numbers(in1))))
  {
    var rest := Without(v[level + 1], Numbers(in1));
    forall g ensures g in rest <==> g in v[level + 1] && g !in in1 { WithoutPart(v[level + 1], in1, g); }
    WithoutKeepsSorted(ucmp, v[level + 1], Numbers(in1));
    WithoutKeepsDistinct(v[level + 1], Numbers(in1));
    InsertAllKeepsDistinct(ucmp, outputs, rest);
    InsertAllKeepsSorted(ucmp, outputs, rest);
  }

  lemma InLevel<U(!new), V(!new)>(files: seq<File<U, V>>, f: File<U, V>)
    requires f in files
    ensures forall e :: e in f.entries ==> e in Contents(files)
  {
  }

  lemma WithoutKeepsAge<U(!new), V(!new)>(files: seq<File<U, V>>, gone: set<nat>)
    requires NumberedByAge(files)
    ensures NumberedByAge(Without(files, gone))
  {
    var rest := Without(files, gone);
    forall i, j | 0 <= i < |rest| && 0 <= j < |rest| && rest[i].number > rest[j].number
      ensures FileNewer(rest[i], rest[j])
    {
      assert rest[i] in rest && rest[j] in rest;
      WithoutHas(files, gone, rest[i]);
      WithoutHas(files, gone, rest[j]);
      var a :| 0 <= a < |files| && files[a] == rest[i];
      var b :| 0 <= b < |files| && files[b] == rest[j];
      assert FileNewer(files[a], files[b]);
    }
  }

  // --------------------------------------------------------- age of the levels afterwards

  lemma SubContents<U(!new), V(!new)>(part: seq<File<U, V>>, files: seq<File<U, V>>)
    requires forall f :: f in part ==> f in files
    ensures Contents(part) <= Contents(files)
  {
  }

  lemma NewerParts<U(!new), V(!new)>(A: set<Entry<U, V>>, B: set<Entry<U, V>>, A': set<Entry<U, V>>,
                                     B': set<Entry<U, V>>)
    requires Newer(A, B) && A' <= A && B' <= B
    ensures Newer(A', B')
  {
  }

  lemma NewerUnion<U(!new), V(!new)>(A: set<Entry<U, V>>, B: set<Entry<U, V>>, C: set<Entry<U, V>>)
    requires (Newer(A, B) && Newer(A, C)) || (Newer(B, A) && Newer(C, A))
    ensures Newer(A, B) && Newer(A, C) ==> Newer(A, B + C)
    ensures Newer(B, A) && Newer(C, A) ==> Newer(B + C, A)
  {
  }

  lemma RestNewerThanInputs<U(!new), V(!new)>(rest: seq<File<U, V>>, in0: seq<File<U, V>>)
    requires forall f, g {:trigger FileNewer(g, f)} :: f in in0 && g in rest ==> FileNewer(g, f)
    ensures Newer(Contents(rest), Contents(in0))
  {
    forall a, b | a in Contents(rest) && b in Contents(in0) && a.0.user == b.0.user ensures Tag(a.0) > Tag(b.0) {
      var g :| g in rest && a in g.entries;
      var f :| f in in0 && b in f.entries;
      assert FileNewer(g, f);
      assert a in EntriesOf(g) && b in EntriesOf(f);
    }
  }

  lemma NextContents<U(!new), V(!new)>(v: Version<U, V>, v': Version<U, V>, level: nat, in0: seq<File<U, V>>,
                                       in1: seq<File<U, V>>, outputs: seq<File<U, V>>)
    requires level + 1 < |v| == |v'| && Replaces(v, v', level, in0, in1, outputs)
    requires Contents(outputs) <= Contents(in0 + in1) && forall f :: f in in1 ==> f in v[level + 1]
    ensures Contents(v'[level + 1]) <= Contents(v[level + 1]) + Contents(in0)
  {
    var A, B := v'[level + 1], Contents(v[level + 1]) + Contents(in0);
    forall f: File<U, V>, e | f in A && e in f.entries ensures e in B {
      if f in outputs {
        InLevel(outputs, f);
        var h :| h in in0 + in1 && e in h.entries;
        if h in in0 { InLevel(in0, h); } else { InLevel(v[level + 1], h); }
      } else {
        InLevel(v[level + 1], f);
      }
    }
  }

  /** Ages, level against level, once the inputs have moved down. */
  lemma AgeAfter<U(!new), V(!new)>(ucmp: Comparator<U>, v: Version<U, V>, v': Version<U, V>, level: nat,
                                   in0: seq<File<U, V>>, i: nat, j: nat)
    requires |v| == |v'| && level + 1 < |v| && LevelsByAge(v) && i < j < |v|
    requires forall l :: 0 <= l < |v| && l != level && l != level + 1 ==> v'[l] == v[l]
    requires Contents(v'[level]) <= Contents(v[level]) && Contents(in0) <= Contents(v[level])
    requires Newer(Contents(v'[level]), Contents(in0))
        && Contents(v'[level + 1]) <= Contents(v[level + 1]) + Contents(in0)
    ensures Newer(Contents(v'[i]), Contents(v'[j]))
  {
    assert Newer(Contents(v[i]), Contents(v[j]));
    var A, B := Contents(v[level]), Contents(v[level + 1]);
    if j == level + 1 {
      if i == level {
        NewerParts(A, B, Contents(v'[level]), B);
        NewerUnion(Contents(v'[level]), B, Contents(in0));
        NewerParts(Contents(v'[i]), B + Contents(in0), Contents(v'[i]), Contents(v'[j]));
      } else {
        assert Newer(Contents(v[i]), A);
        NewerParts(Contents(v[i]), A, Contents(v[i]), Contents(in0));
        NewerUnion(Contents(v[i]), B, Contents(in0));
        NewerParts(Contents(v[i]), B + Contents(in0), Contents(v'[i]), Contents(v'[j]));
      }
    } else if i == level + 1 {
      assert Newer(A, Contents(v[j]));
      NewerParts(A, Contents(v[j]), Contents(in0), Contents(v[j]));
      NewerUnion(Contents(v[j]), B, Contents(in0));
      NewerParts(B + Contents(in0), Contents(v[j]), Contents(v'[i]), Contents(v'[j]));
    } else {
      NewerParts(Contents(v[i]), Contents(v[j]), Contents(v'[i]), Contents(v'[j]));
    }
  }

  lemma ReplacedByAge<U(!new), V(!new)>(ucmp: Comparator<U>, v: Version<U, V>, v': Version<U, V>, level: nat,
                                        in0: seq<File<U, V>>, in1: seq<File<U, V>>, outputs: seq<File<U, V>>)
    requires level + 1 < NumLevels == |v'| && Good(ucmp, v) && Leaving(v, level, in0, in1)
        && Contents(outputs) <= Contents(in0 + in1)
    requires Replaces(v, v', level, in0, in1, outputs)
    ensures LevelsByAge(v')
  {
    GoodByAge(ucmp, v);
    SubContents(v'[level], v[level]);
    SubContents(in0, v[level]);
    RestNewerThanInputs(v'[level], in0);
    NextContents(v, v', level, in0, in1, outputs);
    forall i, j | 0 <= i < j < |v'| ensures Newer(Contents(v'[i]), Contents(v'[j])) {
      AgeAfter(ucmp, v, v', level, in0, i, j);
    }
  }

  /** Whatever the drop rules keep and however it is cut, the version stays good. */
  lemma CompactedIsGood<U(!new), V(!new)>(ucmp: Comparator<U>, v: Version<U, V>, level: nat, in0: seq<File<U, V>>,
                                          in1: seq<File<U, V>>, outputs: seq<File<U, V>>)
    requires TotalOrder(ucmp) && level + 1 < NumLevels && Good(ucmp, v) && Ready(ucmp, v, level, in0, in1, outputs)
    ensures Good(ucmp, Compacted(ucmp, v, level, in0, in1, outputs))
  {
    var v' := Compacted(ucmp, v, level, in0, in1, outputs);
    CompactedReplaces(ucmp, v, level, in0, in1, outputs);
    ReplacedByAge(ucmp, v, v', level, in0, in1, outputs);
    NextLevelSorted(ucmp, v, level, in0, in1, outputs);
    WithoutKeepsDistinct(v[level], Numbers(in0));
    if level == 0 {
      WithoutKeepsAge(v[0], Numbers(in0));
    } else {
      WithoutKeepsSorted(ucmp, v[level], Numbers(in0));
    }
    forall l | 0 <= l < NumLevels ensures FilesOk(ucmp, v'[l]) && DistinctNumbers(v'[l]) {
      assert l != level && l != level + 1 ==> v'[l] == v[l];
    }
    GoodIf(ucmp, v');
  }

  // ------------------------------------------------------------ the whole store's entries

  lemma NotInBoth<U(!new), V(!new)>(v: Version<U, V>, l: nat, m: nat, g: File<U, V>, f: File<U, V>, e: Entry<U, V>)
    requires LevelsByAge(v) && l < |v| && m < |v| && l != m && g in v[l] && f in v[m] && e in g.entries
    ensures e !in f.entries
  {
    InLevel(v[l], g);
    InLevel(v[m], f);
    if l < m {
      assert Newer(Contents(v[l]), Contents(v[m]));
    } else {
      assert Newer(Contents(v[m]), Contents(v[l]));
    }
  }

  /** No entry of the inputs is also in a file that stays. */
  lemma InputsNotElsewhere<U(!new), V(!new)>(ucmp: Comparator<U>, v: Version<U, V>, level: nat, in0: seq<File<U, V>>,
                                             in1: seq<File<U, V>>, l: nat, g: File<U, V>, e: Entry<U, V>)
    requires TotalOrder(ucmp) && level + 1 < NumLevels && Good(ucmp, v) && LevelsByAge(v)
        && Leaving(v, level, in0, in1)
    requires l < NumLevels && g in v[l] && e in g.entries && (l == level ==> g !in in0)
        && (l == level + 1 ==> g !in in1)
    ensures e !in Contents(in0 + in1)
  {
    forall f | f in in0 + in1 ensures e !in f.entries {
      if f in in0 {
        if l == level {
          assert FileNewer(g, f);
          assert e in EntriesOf(g);
        } else {
          NotInBoth(v, l, level, g, f, e);
        }
      } else if l == level + 1 {
        SortedApart(ucmp, v[l], f, g);
        assert FileOk(ucmp, f) && FileOk(ucmp, g);
        ApartShareNothing(ucmp, f, g, e);
      } else {
        NotInBoth(v, l, level + 1, g, f, e);
      }
    }
  }

  lemma ApartShareNothing<U(!new), V(!new)>(ucmp: Comparator<U>, f: File<U, V>, g: File<U, V>, e: Entry<U, V>)
    requires TotalOrder(ucmp) && FileOk(ucmp, f) && FileOk(ucmp, g) && Apart(ucmp, f, g) && e in g.entries
    ensures e !in f.entries
  {
    var cmp := InternalComparator(ucmp);
    InternalIsTotal(ucmp);
    Laws(cmp);
    EntryInRange(ucmp, g, e);
    if e in f.entries {
      EntryInRange(ucmp, f, e);
      if FileBefore(ucmp, f, g) {
        Transitive(cmp, e.0, f.largest, g.smallest);
        Transitive(cmp, e.0, g.smallest, e.0);
      } else {
        Transitive(cmp, e.0, g.largest, f.smallest);
        Transitive(cmp, e.0, f.smallest, e.0);
      }
    }
  }

  lemma FromFile<U(!new), V(!new)>(v: Version<U, V>, e: Entry<U, V>) returns (l: nat, g: File<U, V>)
    requires e in From(v, 0)
    ensures l < |v| && g in v[l] && e in g.entries
  {
    l := FromLevel(v, 0, e);
    g :| g in v[l] && e in g.entries;
  }

  lemma FileInFrom<U(!new), V(!new)>(v: Version<U, V>, l: nat, g: File<U, V>, e: Entry<U, V>)
    requires l < |v| && g in v[l] && e in g.entries
    ensures e in From(v, 0)
  {
    InLevel(v[l], g);
    FromHas(v, 0, l);
  }

  /** The store after the compaction: the inputs' entries are gone, the outputs' are there, nothing else changed. */
  lemma StoreAfter<U(!new), V(!new)>(ucmp: Comparator<U>, v: Version<U, V>, v': Version<U, V>, level: nat,
                                     in0: seq<File<U, V>>, in1: seq<File<U, V>>, outputs: seq<File<U, V>>)
    requires TotalOrder(ucmp) && level + 1 < NumLevels == |v'| && Good(ucmp, v) && Leaving(v, level, in0, in1)
    requires Replaces(v, v', level, in0, in1, outputs)
    ensures From(v', 0) == From(v, 0) - Contents(in0 + in1) + Contents(outputs)
  {
    var I := Contents(in0 + in1);
    GoodByAge(ucmp, v);
    forall e | e in From(v', 0) ensures e in From(v, 0) - I + Contents(outputs) {
      var l, g := FromFile(v', e);
      if l == level + 1 && g in outputs {
        InLevel(outputs, g);
      } else {
        assert g in v[l];
        InputsNotElsewhere(ucmp, v, level, in0, in1, l, g, e);
        FileInFrom(v, l, g, e);
      }
    }
    forall e | e in From(v, 0) - I + Contents(outputs) ensures e in From(v', 0) {
      StaysOrEnters(v, v', level, in0, in1, outputs, e);
    }
  }

  lemma StaysOrEnters<U(!new), V(!new)>(v: Version<U, V>, v': Version<U, V>, level: nat, in0: seq<File<U, V>>,
                                        in1: seq<File<U, V>>, outputs: seq<File<U, V>>, e: Entry<U, V>)
    requires level + 1 < |v| == |v'| && Replaces(v, v', level, in0, in1, outputs)
    requires e in From(v, 0) - Contents(in0 + in1) + Contents(outputs)
    ensures e in From(v', 0)
  {
    if e in Contents(outputs) {
      var f :| f in outputs && e in f.entries;
      FileInFrom(v', level + 1, f, e);
    } else {
      var l, g := FromFile(v, e);
      assert g !in in0 + in1;
      assert g in v'[l];
      FileInFrom(v', l, g, e);
    }
  }
}
