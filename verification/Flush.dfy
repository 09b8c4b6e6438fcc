/** Writing a memtable out as a table (db/db_impl.cc WriteLevel0Table, db/version_set.cc
    PickLevelForMemTableOutput): the level chosen may be deeper than 0, and no reader can tell. */
module Flush {
  import opened Order
  import opened InternalKeys
  import opened Options
  import opened Tables
  import opened Versions
  import opened Inputs
  import opened Levels

  ghost predicate SequencesBounded<U(!new), V(!new)>(files: seq<File<U, V>>) {
    forall f :: f in files ==> f.largest.sequence <= MaxSequence
  }

  ghost predicate SomeOverlap<U(!new), V(!new)>(ucmp: Comparator<U>, files: seq<File<U, V>>, b: Option<U>, e: Option<U>)
  {
    exists f :: f in files && Overlaps(ucmp, f, b, e)
  }

  // ------------------------------------------------------ SomeFileOverlapsRange

  /** The earliest possible key of b separates the files that end before b from the rest. */
  lemma AgainstEarliest<U(!new)>(ucmp: Comparator<U>, largest: InternalKey<U>, b: U)
    requires TotalOrder(ucmp) && largest.sequence <= MaxSequence
    ensures InternalCompare(ucmp, largest, InternalKey(b, MaxSequence, Value)) < 0 <==> ucmp(largest.user, b) < 0
  {
    Laws(ucmp);
    assert Tag(largest) <= Tag(InternalKey(b, MaxSequence, Value));
  }

  lemma {:induction false} StartsAscend<U(!new), V(!new)>(ucmp: Comparator<U>, files: seq<File<U, V>>, i: nat, j: nat)
    requires TotalOrder(ucmp) && FilesOk(ucmp, files) && SortedFiles(ucmp, files) && i <= j < |files|
    ensures ucmp(files[i].smallest.user, files[j].smallest.user) <= 0
  {
    Laws(ucmp);
    if i < j {
      assert FileOk(ucmp, files[i]);
      RangeOk(ucmp, files[i]);
      assert FileBefore(ucmp, files[i], files[j]);
      Transitive(ucmp, files[i].smallest.user, files[i].largest.user, files[j].smallest.user);
    }
  }

  lemma FoundOverlap<U(!new), V(!new)>(ucmp: Comparator<U>, files: seq<File<U, V>>, b: Option<U>, e: Option<U>,
                                       index: nat)
    requires TotalOrder(ucmp) && FilesOk(ucmp, files) && SortedFiles(ucmp, files) && index <= |files|
    requires forall i :: 0 <= i < index ==> b.Some? && ucmp(files[i].largest.user, b.value) < 0
    requires forall i :: index <= i < |files| ==> !(b.Some? && ucmp(files[i].largest.user, b.value) < 0)
    ensures SomeOverlap(ucmp, files, b, e) <==>
        index < |files|
        && !(e.Some? && ucmp(e.value, files[index].smallest.user) < 0)
  {
    Laws(ucmp);
    if SomeOverlap(ucmp, files, b, e) {
      var f :| f in files && Overlaps(ucmp, f, b, e);
      var i :| 0 <= i < |files| && files[i] == f;
      assert index <= i;
      StartsAscend(ucmp, files, index, i);
      if e.Some? { Transitive(ucmp, files[index].smallest.user, f.smallest.user, e.value); }
    }
    if index < |files| && !(e.Some? && ucmp(e.value, files[index].smallest.user) < 0) {
      assert files[index] in files && Overlaps(ucmp, files[index], b, e);
    }
  }

  /** SomeFileOverlapsRange: a scan of level 0, a binary search of the sorted levels; the same question. */
  method SomeFileOverlapsRange<U(!new), V(!new)>(ucmp: Comparator<U>, disjointSortedFiles: bool, files: seq<File<U, V>>,
                                                 b: Option<U>, e: Option<U>)
    returns (r: bool)
    requires TotalOrder(ucmp) && FilesOk(ucmp, files) && SequencesBounded(files)
    requires disjointSortedFiles ==> SortedFiles(ucmp, files)
    ensures r <==> SomeOverlap(ucmp, files, b, e)
  {
    if !disjointSortedFiles {
      for i := 0 to |files|
        invariant forall j :: 0 <= j < i ==> !Overlaps(ucmp, files[j], b, e)
      {
        var f := files[i];
        Laws(ucmp);
        if (b.Some? && ucmp(b.value, f.largest.user) > 0) || (e.Some? && ucmp(e.value, f.smallest.user) < 0) {
          // no overlap
        } else {
          assert f in files && Overlaps(ucmp, f, b, e);
          return true;
        }
      }
      return false;
    }
    var index := 0;
    if b.Some? {
      index := FindFile(ucmp, files, InternalKey(b.value, MaxSequence, Value));
      forall i | 0 <= i < |files|
        ensures InternalCompare(ucmp, files[i].largest, InternalKey(b.value, MaxSequence, Value)) < 0 <==>
            ucmp(files[i].largest.user, b.value) < 0
      {
        AgainstEarliest(ucmp, files[i].largest, b.value);
      }
    }
    FoundOverlap(ucmp, files, b, e, index);
    if index >= |files| {
      return false;
    }
    r := !(e.Some? && ucmp(e.value, files[index].smallest.user) < 0);
  }

  // ------------------------------------------------------------ picking the level

  /** Nothing in levels 0 to level touches [lo, hi]. */
  ghost predicate ClearDownTo<U(!new), V(!new)>(ucmp: Comparator<U>, v: Version<U, V>, lo: U, hi: U, level: nat)
    requires level < |v|
  {
    forall l :: 0 <= l <= level ==> !SomeOverlap(ucmp, v[l], Some(lo), Some(hi))
  }

  ghost predicate AllBounded<U(!new), V(!new)>(v: Version<U, V>) {
    forall l :: 0 <= l < |v| ==> SequencesBounded(v[l])
  }

  method OverlapInLevel<U(!new), V(!new)>(ucmp: Comparator<U>, v: Version<U, V>, level: nat, lo: U, hi: U)
      returns (r: bool)
    requires TotalOrder(ucmp) && Good(ucmp, v) && AllBounded(v) && level < NumLevels
    ensures r <==> SomeOverlap(ucmp, v[level], Some(lo), Some(hi))
  {
    r := SomeFileOverlapsRange(ucmp, level > 0, v[level], Some(lo), Some(hi));
  }

  /** A table of this range at level l may go one level down: nothing there overlaps it, and no more than maxOverlap
      bytes do in the level after that. */
  ghost predicate MayPass<U(!new), V(!new)>(ucmp: Comparator<U>, v: Version<U, V>, lo: U, hi: U, maxOverlap: nat,
                                            l: nat)
    requires l + 2 < |v|
  {
    && !SomeOverlap(ucmp, v[l + 1], Some(lo), Some(hi))
    && TotalFileSize(Overlapping(ucmp, v[l + 2], Some(lo), Some(hi))) <= maxOverlap
  }

  /** Where such a table goes: as far down as it may, but not beyond MaxMemCompactLevel, and not at all if level 0
      overlaps it. */
  ghost predicate GoesTo<U(!new), V(!new)>(ucmp: Comparator<U>, v: Version<U, V>, lo: U, hi: U, maxOverlap: nat,
                                           level: nat)
    requires |v| == NumLevels
  {
    && level <= MaxMemCompactLevel
    && if SomeOverlap(ucmp, v[0], Some(lo), Some(hi)) then level == 0
       else
         && (forall l :: 0 <= l < level ==> MayPass(ucmp, v, lo, hi, maxOverlap, l))
         && (level < MaxMemCompactLevel ==> !MayPass(ucmp, v, lo, hi, maxOverlap, level))
  }

  /** PickLevelForMemTableOutput: a level below 0 is chosen only when no level down to it holds
      anything in the range; maxOverlap bounds the bytes overlapped two levels further down. */
  method PickLevelForMemTableOutput<U(!new), V(!new)>(ucmp: Comparator<U>, v: Version<U, V>, lo: U, hi: U,
                                                      maxOverlap: nat) returns (level: nat)
    requires TotalOrder(ucmp) && Good(ucmp, v) && AllBounded(v)
    ensures level <= MaxMemCompactLevel
    ensures level > 0 ==> ClearDownTo(ucmp, v, lo, hi, level)
    ensures |v| == NumLevels && GoesTo(ucmp, v, lo, hi, maxOverlap, level)
  {
    GoodLength(ucmp, v);
    level := 0;
    var overlap := OverlapInLevel(ucmp, v, 0, lo, hi);
    if !overlap {
      while level < MaxMemCompactLevel
        invariant level <= MaxMemCompactLevel && ClearDownTo(ucmp, v, lo, hi, level)
        invariant forall l :: 0 <= l < level ==> MayPass(ucmp, v, lo, hi, maxOverlap, l)
      {
        overlap := OverlapInLevel(ucmp, v, level + 1, lo, hi);
        if overlap {
          break;
        }
        if level + 2 < NumLevels {
          ghost var b, e;
          var overlaps;
          overlaps, b, e := GetOverlappingInputs(ucmp, v[level + 2], level + 2, Some(lo), Some(hi));
          if TotalFileSize(overlaps) > maxOverlap {
            break;
          }
        }
        level := level + 1;
      }
    }
  }

  // ------------------------------------------------------------------- the flush

  ghost function EntriesOf<U, V>(f: File<U, V>): set<Entry<U, V>> { set e | e in f.entries }

  /** The memtable's file may enter v: nothing there is newer, and its number is the highest. */
  ghost predicate Flushable<U(!new), V(!new)>(ucmp: Comparator<U>, v: Version<U, V>, f: File<U, V>) {
    && FileOk(ucmp, f)
    && Newer(EntriesOf(f), From(v, 0))
    && forall l, g :: 0 <= l < |v| && g in v[l] ==> g.number < f.number
  }

  lemma NoOverlapApart<U(!new), V(!new)>(ucmp: Comparator<U>, f: File<U, V>, g: File<U, V>)
    requires TotalOrder(ucmp) && FileOk(ucmp, f) && FileOk(ucmp, g)
    requires !Overlaps(ucmp, g, Some(f.smallest.user), Some(f.largest.user))
    ensures Apart(ucmp, f, g)
    ensures forall a, b :: a in f.entries && b in g.entries ==> a.0.user != b.0.user
  {
    Laws(ucmp);
    forall a, b | a in f.entries && b in g.entries ensures a.0.user != b.0.user {
      EntryInRange(ucmp, f, a);
      EntryInRange(ucmp, g, b);
      if a.0.user == b.0.user {
        Transitive(ucmp, f.smallest.user, a.0.user, g.largest.user);
        Transitive(ucmp, g.smallest.user, a.0.user, f.largest.user);
      }
    }
  }

  /** The entries of one file more. */
  lemma ContentsInsert<U(!new), V(!new)>(ucmp: Comparator<U>, f: File<U, V>, files: seq<File<U, V>>)
    ensures Contents(Insert(ucmp, f, files)) == Contents(files) + EntriesOf(f)
  {
    forall g ensures g in Insert(ucmp, f, files) <==> g == f || g in files { InsertHas(ucmp, f, files, g); }
    assert f in Insert(ucmp, f, files);
    forall e | e in Contents(files) ensures e in Contents(Insert(ucmp, f, files)) {
      var g :| g in files && e in g.entries;
      assert g in Insert(ucmp, f, files);
    }
  }

  lemma NoneShared<U(!new), V(!new)>(ucmp: Comparator<U>, v: Version<U, V>, f: File<U, V>, l: nat)
    requires TotalOrder(ucmp) && FileOk(ucmp, f) && l < |v| && FilesOk(ucmp, v[l])
    requires !SomeOverlap(ucmp, v[l], Some(f.smallest.user), Some(f.largest.user))
    ensures Newer(Contents(v[l]), EntriesOf(f))
  {
    forall a, b | a in Contents(v[l]) && b in EntriesOf(f) ensures a.0.user != b.0.user {
      var g :| g in v[l] && a in g.entries;
      NoOverlapApart(ucmp, f, g);
    }
  }

  lemma FlushKeepsAge<U(!new), V(!new)>(ucmp: Comparator<U>, v: Version<U, V>, f: File<U, V>, level: nat)
    requires TotalOrder(ucmp) && Good(ucmp, v) && Flushable(ucmp, v, f) && level < NumLevels
    requires level > 0 ==> ClearDownTo(ucmp, v, f.smallest.user, f.largest.user, level)
    ensures LevelsByAge(v[level := Insert(ucmp, f, v[level])])
  {
    var v' := v[level := Insert(ucmp, f, v[level])];
    GoodByAge(ucmp, v);
    ContentsInsert(ucmp, f, v[level]);
    forall i, j | 0 <= i < j < |v'| ensures Newer(Contents(v'[i]), Contents(v'[j])) {
      assert Newer(Contents(v[i]), Contents(v[j]));
      if j == level {
        NoneShared(ucmp, v, f, i);
      } else if i == level {
        FromHas(v, 0, j);
      }
    }
  }

  lemma FlushKeepsLevel0<U(!new), V(!new)>(ucmp: Comparator<U>, v: Version<U, V>, f: File<U, V>)
    requires |v| > 0 && NumberedByAge(v[0]) && Flushable(ucmp, v, f)
    ensures NumberedByAge(Insert(ucmp, f, v[0]))
  {
    var files := Insert(ucmp, f, v[0]);
    forall i, j | 0 <= i < |files| && 0 <= j < |files| && files[i].number > files[j].number
      ensures FileNewer(files[i], files[j])
    {
      InsertHas(ucmp, f, v[0], files[i]);
      InsertHas(ucmp, f, v[0], files[j]);
      assert files[i] in files && files[j] in files;
      if files[i] == f {
        assert files[j] in v[0];
        FileInVersion(v, files[j]);
      } else if files[j] != f {
        var a :| 0 <= a < |v[0]| && v[0][a] == files[i];
        var b :| 0 <= b < |v[0]| && v[0][b] == files[j];
        assert FileNewer(v[0][a], v[0][b]);
      }
    }
  }

  lemma FileInVersion<U(!new), V(!new)>(v: Version<U, V>, g: File<U, V>)
    requires |v| > 0 && g in v[0]
    ensures EntriesOf(g) <= From(v, 0)
  {
    FromHas(v, 0, 0);
    forall e | e in EntriesOf(g) ensures e in Contents(v[0]) { }
  }

  lemma GoodLength<U(!new), V(!new)>(ucmp: Comparator<U>, v: Version<U, V>)
    requires Good(ucmp, v)
    ensures |v| == NumLevels
  {
  }

  /** A flush at the picked level keeps the version good. */
  lemma FlushKeepsGood<U(!new), V(!new)>(ucmp: Comparator<U>, v: Version<U, V>, f: File<U, V>, level: nat)
    requires TotalOrder(ucmp) && Good(ucmp, v) && Flushable(ucmp, v, f) && level < NumLevels
    requires level > 0 ==> ClearDownTo(ucmp, v, f.smallest.user, f.largest.user, level)
    ensures Good(ucmp, v[level := Insert(ucmp, f, v[level])])
    ensures From(v[level := Insert(ucmp, f, v[level])], 0) == From(v, 0) + EntriesOf(f)
  {
    var v' := v[level := Insert(ucmp, f, v[level])];
    FlushKeepsAge(ucmp, v, f, level);
    InsertKeepsDistinct(ucmp, f, v[level]);
    forall g ensures g in Insert(ucmp, f, v[level]) <==> g == f || g in v[level] { InsertHas(ucmp, f, v[level], g); }
    if level == 0 {
      FlushKeepsLevel0(ucmp, v, f);
    } else {
      forall g | g in v[level] ensures Apart(ucmp, f, g) { NoOverlapApart(ucmp, f, g); }
      InsertKeepsSorted(ucmp, f, v[level]);
    }
    GoodIf(ucmp, v');
    FlushContents(ucmp, v, f, level);
  }

  lemma FlushContents<U(!new), V(!new)>(ucmp: Comparator<U>, v: Version<U, V>, f: File<U, V>, level: nat)
    requires level < |v|
    ensures From(v[level := Insert(ucmp, f, v[level])], 0) == From(v, 0) + EntriesOf(f)
  {
    var v' := v[level := Insert(ucmp, f, v[level])];
    ContentsInsert(ucmp, f, v[level]);
    forall e | e in From(v', 0) ensures e in From(v, 0) + EntriesOf(f) {
      var j := FromLevel(v', 0, e);
      FromHas(v, 0, j);
    }
    forall e | e in From(v, 0) + EntriesOf(f) ensures e in From(v', 0) {
      if e in EntriesOf(f) {
        FromHas(v', 0, level);
      } else {
        var j := FromLevel(v, 0, e);
        FromHas(v', 0, j);
      }
    }
  }

  lemma FlushKeepsNumbers<U(!new), V(!new)>(ucmp: Comparator<U>, v: Version<U, V>, f: File<U, V>, level: nat)
    requires level < |v| && UniqueNumbers(v) && NumbersBelow(v, f.number)
    ensures UniqueNumbers(v[level := Insert(ucmp, f, v[level])])
    ensures NumbersBelow(v[level := Insert(ucmp, f, v[level])], f.number + 1)
  {
    var v' := v[level := Insert(ucmp, f, v[level])];
    forall l, g: File<U, V> | 0 <= l < |v'| && g in v'[l]
      ensures (g == f && l == level) || (g in v[l] && g.number < f.number)
    {
      if l == level { InsertHas(ucmp, f, v[level], g); }
    }
  }

  /** The one file more is where GoesTo says. */
  ghost predicate Added<U(!new), V(!new)>(ucmp: Comparator<U>, v: Version<U, V>, v': Version<U, V>, f: File<U, V>,
                                          maxOverlap: nat)
    requires |v| == NumLevels
  {
    exists level: nat :: GoesTo(ucmp, v, f.smallest.user, f.largest.user, maxOverlap, level)
                    && v' == v[level := Insert(ucmp, f, v[level])]
  }

  /** What a flush makes of the version. */
  ghost predicate FlushesTo<U(!new), V(!new)>(ucmp: Comparator<U>, v: Version<U, V>, v': Version<U, V>, number: nat,
                                              size: nat, mem: Entries<U, V>, maxOverlap: nat)
    requires |v| == NumLevels
  {
    if mem == [] then v' == v else Added(ucmp, v, v', TableOf(number, size, mem), maxOverlap)
  }

  /** WriteLevel0Table and LogAndApply: the memtable's entries join the version's, which stays good. */
  method WriteLevel0Table<U(!new), V(!new)>(ucmp: Comparator<U>, v: Version<U, V>, number: nat, size: nat,
                                            mem: Entries<U, V>, maxOverlap: nat)
    returns (v': Version<U, V>)
    requires TotalOrder(ucmp) && Good(ucmp, v) && AllBounded(v) && UniqueNumbers(v) && NumbersBelow(v, number)
    requires mem != [] ==> Flushable(ucmp, v, TableOf(number, size, mem))
    ensures Good(ucmp, v') && UniqueNumbers(v') && NumbersBelow(v', number + 1)
    ensures From(v', 0) == From(v, 0) + (set e | e in mem)
    ensures |v'| == |v| == NumLevels && forall l, g :: 0 <= l < |v| && g in v'[l] ==>
        g in v[l] || (mem != [] && g == TableOf(number, size, mem))
    ensures FlushesTo(ucmp, v, v', number, size, mem, maxOverlap)
  {
    hide Good;
    hide UniqueNumbers;
    hide AllBounded;
    hide Flushable;
    hide ClearDownTo;
    hide Insert;
    v' := v;
    GoodLength(ucmp, v);
    if mem != [] {
      var f := TableOf(number, size, mem);
      var level := PickLevelForMemTableOutput(ucmp, v, f.smallest.user, f.largest.user, maxOverlap);
      v' := v[level := Insert(ucmp, f, v[level])];
      FlushKeepsGood(ucmp, v, f, level);
      FlushKeepsNumbers(ucmp, v, f, level);
      forall g | g in v'[level] ensures g in v[level] || g == f { InsertHas(ucmp, f, v[level], g); }
      assert EntriesOf(f) == set e | e in mem;
    }
  }
}
