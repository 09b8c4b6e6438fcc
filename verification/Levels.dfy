/** Edits of a version and what they keep (db/version_set.cc): a file entering a level,
    files leaving one, and the ordering of the levels by age. */
module Levels {
  import opened Order
  import opened InternalKeys
  import opened Tables
  import opened Versions
  // ------------------------------------------------------------ adding, removing

  /** Builder's BySmallestKey. */
  predicate BySmallestKey<U, V>(ucmp: Comparator<U>, f: File<U, V>, g: File<U, V>) {
    var r := InternalCompare(ucmp, f.smallest, g.smallest);
    if r != 0 then r < 0 else f.number < g.number
  }

  function Insert<U, V>(ucmp: Comparator<U>, f: File<U, V>, files: seq<File<U, V>>): seq<File<U, V>> {
    if files == [] || BySmallestKey(ucmp, f, files[0]) then [f] + files
    else [files[0]] + Insert(ucmp, f, files[1..])
  }

  function InsertAll<U, V>(ucmp: Comparator<U>, added: seq<File<U, V>>, files: seq<File<U, V>>): seq<File<U, V>> {
    if added == [] then files else InsertAll(ucmp, added[1..], Insert(ucmp, added[0], files))
  }

  function Without<U, V>(files: seq<File<U, V>>, gone: set<nat>): seq<File<U, V>> {
    if files == [] then []
    else if files[0].number in gone then Without(files[1..], gone)
    else [files[0]] + Without(files[1..], gone)
  }

  ghost function Numbers<U, V>(files: seq<File<U, V>>): set<nat> {
    set f | f in files :: f.number
  }

  lemma {:induction false} InsertHas<U(!new), V(!new)>(ucmp: Comparator<U>, f: File<U, V>, files: seq<File<U, V>>,
                                                       g: File<U, V>)
    ensures g in Insert(ucmp, f, files) <==> g == f || g in files
  {
    if !(files == [] || BySmallestKey(ucmp, f, files[0])) {
      InsertHas(ucmp, f, files[1..], g);
      assert files == [files[0]] + files[1..];
    }
  }

  lemma {:induction false} InsertAllHas<U(!new), V(!new)>(ucmp: Comparator<U>, added: seq<File<U, V>>,
                                                          files: seq<File<U, V>>, g: File<U, V>)
    ensures g in InsertAll(ucmp, added, files) <==> g in added || g in files
  {
    if added != [] {
      InsertAllHas(ucmp, added[1..], Insert(ucmp, added[0], files), g);
      InsertHas(ucmp, added[0], files, g);
      assert added == [added[0]] + added[1..];
    }
  }

  lemma {:induction false} WithoutHas<U(!new), V(!new)>(files: seq<File<U, V>>, gone: set<nat>, g: File<U, V>)
    ensures g in Without(files, gone) <==> g in files && g.number !in gone
  {
    if files != [] {
      WithoutHas(files[1..], gone, g);
      assert files == [files[0]] + files[1..];
    }
  }

  /** Removing by number removes exactly the files meant, since a level has no number twice. */
  lemma WithoutPart<U(!new), V(!new)>(files: seq<File<U, V>>, part: seq<File<U, V>>, g: File<U, V>)
    requires DistinctNumbers(files) && forall f :: f in part ==> f in files
    ensures g in Without(files, Numbers(part)) <==> g in files && g !in part
  {
    WithoutHas(files, Numbers(part), g);
    if g in files && g.number in Numbers(part) {
      var f :| f in part && f.number == g.number;
      var i :| 0 <= i < |files| && files[i] == f;
      var j :| 0 <= j < |files| && files[j] == g;
      assert i == j;
    }
  }

  // -------------------------------------------------------- what a sorted level keeps

  /** The ranges of f and g do not touch. */
  ghost predicate Apart<U(!new), V(!new)>(ucmp: Comparator<U>, f: File<U, V>, g: File<U, V>) {
    FileBefore(ucmp, f, g) || FileBefore(ucmp, g, f)
  }

  lemma BeforeChain<U(!new), V(!new)>(ucmp: Comparator<U>, f: File<U, V>, g: File<U, V>, h: File<U, V>)
    requires TotalOrder(ucmp) && FileOk(ucmp, g) && FileBefore(ucmp, f, g) && FileBefore(ucmp, g, h)
    ensures FileBefore(ucmp, f, h)
  {
    InternalIsTotal(ucmp);
    RangeOk(ucmp, g);
    Transitive(InternalComparator(ucmp), f.largest, g.smallest, g.largest);
    Transitive(InternalComparator(ucmp), f.largest, g.largest, h.smallest);
  }

  lemma ApartBySmallest<U(!new), V(!new)>(ucmp: Comparator<U>, f: File<U, V>, g: File<U, V>)
    requires TotalOrder(ucmp) && FileOk(ucmp, f) && FileOk(ucmp, g) && Apart(ucmp, f, g)
    ensures BySmallestKey(ucmp, f, g) <==> FileBefore(ucmp, f, g)
    ensures !BySmallestKey(ucmp, f, g) <==> FileBefore(ucmp, g, f)
  {
    var cmp := InternalComparator(ucmp);
    InternalIsTotal(ucmp);
    Laws(cmp);
    RangeOk(ucmp, f);
    RangeOk(ucmp, g);
    if FileBefore(ucmp, f, g) {
      Transitive(cmp, f.smallest, f.largest, g.smallest);
      assert cmp(f.smallest, g.smallest) < 0;
      if FileBefore(ucmp, g, f) { BeforeChain(ucmp, f, g, f); }
    } else {
      Transitive(cmp, g.smallest, g.largest, f.smallest);
      assert cmp(g.smallest, f.smallest) < 0;
    }
  }

  lemma {:induction false} InsertKeepsSorted<U(!new), V(!new)>(ucmp: Comparator<U>, f: File<U, V>,
                                                               files: seq<File<U, V>>)
    requires TotalOrder(ucmp) && FileOk(ucmp, f) && FilesOk(ucmp, files) && SortedFiles(ucmp, files)
    requires forall g :: g in files ==> Apart(ucmp, f, g)
    ensures SortedFiles(ucmp, Insert(ucmp, f, files))
  {
    if files == [] {
    } else {
      assert files[0] in files;
      ApartBySmallest(ucmp, f, files[0]);
      if BySmallestKey(ucmp, f, files[0]) {
        forall j | 0 <= j < |files| ensures FileBefore(ucmp, f, files[j]) {
          if j > 0 {
            assert FileBefore(ucmp, files[0], files[j]);
            BeforeChain(ucmp, f, files[0], files[j]);
          }
        }
        SortedCons(ucmp, f, files);
      } else {
        InsertKeepsSorted(ucmp, f, files[1..]);
        var rest := Insert(ucmp, f, files[1..]);
        forall j | 0 <= j < |rest| ensures FileBefore(ucmp, files[0], rest[j]) {
          InsertHas(ucmp, f, files[1..], rest[j]);
          assert rest[j] in rest;
          if rest[j] != f {
            var i :| 0 <= i < |files[1..]| && files[1..][i] == rest[j];
            assert FileBefore(ucmp, files[0], files[i + 1]);
          }
        }
        SortedCons(ucmp, files[0], rest);
      }
    }
  }

  lemma SortedCons<U(!new), V(!new)>(ucmp: Comparator<U>, f: File<U, V>, rest: seq<File<U, V>>)
    requires SortedFiles(ucmp, rest) && forall j :: 0 <= j < |rest| ==> FileBefore(ucmp, f, rest[j])
    ensures SortedFiles(ucmp, [f] + rest)
  {
    var all := [f] + rest;
    forall i, j | 0 <= i < j < |all| ensures FileBefore(ucmp, all[i], all[j]) {
      if i > 0 { assert FileBefore(ucmp, rest[i - 1], rest[j - 1]); }
    }
  }

  lemma {:induction false} WithoutKeepsSorted<U(!new), V(!new)>(ucmp: Comparator<U>, files: seq<File<U, V>>,
                                                                gone: set<nat>)
    requires SortedFiles(ucmp, files)
    ensures SortedFiles(ucmp, Without(files, gone))
  {
    if files != [] {
      var tail := files[1..];
      assert SortedFiles(ucmp, tail) by {
        forall i, j | 0 <= i < j < |tail| ensures FileBefore(ucmp, tail[i], tail[j]) {
          assert FileBefore(ucmp, files[i + 1], files[j + 1]);
        }
      }
      WithoutKeepsSorted(ucmp, tail, gone);
      if files[0].number !in gone {
        var rest := Without(tail, gone);
        forall j | 0 <= j < |rest| ensures FileBefore(ucmp, files[0], rest[j]) {
          assert rest[j] in rest;
          WithoutHas(tail, gone, rest[j]);
          var i :| 0 <= i < |tail| && tail[i] == rest[j];
          assert FileBefore(ucmp, files[0], files[i + 1]);
        }
        SortedCons(ucmp, files[0], rest);
      }
    }
  }

  lemma {:induction false} InsertAllKeepsSorted<U(!new), V(!new)>(ucmp: Comparator<U>, added: seq<File<U, V>>,
                                                                  files: seq<File<U, V>>)
    requires TotalOrder(ucmp) && FilesOk(ucmp, added) && FilesOk(ucmp, files) && SortedFiles(ucmp, files)
        && SortedFiles(ucmp, added)
    requires forall f, g :: f in added && g in files ==> Apart(ucmp, f, g)
    ensures SortedFiles(ucmp, InsertAll(ucmp, added, files))
  {
    if added != [] {
      var f, files' := added[0], Insert(ucmp, added[0], files);
      assert f in added;
      InsertKeepsSorted(ucmp, f, files);
      forall g ensures g in files' <==> g == f || g in files { InsertHas(ucmp, f, files, g); }
      forall i, j | 0 <= i < j < |added[1..]| ensures FileBefore(ucmp, added[1..][i], added[1..][j]) {
        assert FileBefore(ucmp, added[i + 1], added[j + 1]);
      }
      forall h, g | h in added[1..] && g in files' ensures Apart(ucmp, h, g) {
        if g == f {
          var i :| 0 <= i < |added[1..]| && added[1..][i] == h;
          assert FileBefore(ucmp, added[0], added[i + 1]);
        }
      }
      InsertAllKeepsSorted(ucmp, added[1..], files');
    }
  }

  // ------------------------------------------------------------ distinct numbers

  lemma {:induction false} InsertKeepsDistinct<U(!new), V(!new)>(ucmp: Comparator<U>, f: File<U, V>,
                                                                 files: seq<File<U, V>>)
    requires DistinctNumbers(files) && forall g :: g in files ==> g.number != f.number
    ensures DistinctNumbers(Insert(ucmp, f, files))
  {
    if !(files == [] || BySmallestKey(ucmp, f, files[0])) {
      InsertKeepsDistinct(ucmp, f, files[1..]);
      var rest := Insert(ucmp, f, files[1..]);
      forall j | 0 <= j < |rest| ensures files[0].number != rest[j].number {
        InsertHas(ucmp, f, files[1..], rest[j]);
        assert rest[j] in rest;
      }
    }
  }

  lemma {:induction false} WithoutKeepsDistinct<U(!new), V(!new)>(files: seq<File<U, V>>, gone: set<nat>)
    requires DistinctNumbers(files)
    ensures DistinctNumbers(Without(files, gone))
  {
    if files != [] {
      WithoutKeepsDistinct(files[1..], gone);
      var rest := Without(files[1..], gone);
      forall j | 0 <= j < |rest| ensures files[0].number != rest[j].number {
        assert rest[j] in rest;
        WithoutHas(files[1..], gone, rest[j]);
      }
    }
  }

  lemma {:induction false} InsertAllKeepsDistinct<U(!new), V(!new)>(ucmp: Comparator<U>, added: seq<File<U, V>>,
                                                                    files: seq<File<U, V>>)
    requires DistinctNumbers(files) && DistinctNumbers(added) && forall f, g :: f in added && g in files ==>
        g.number != f.number
    ensures DistinctNumbers(InsertAll(ucmp, added, files))
  {
    if added != [] {
      var f, files' := added[0], Insert(ucmp, added[0], files);
      assert f in added;
      InsertKeepsDistinct(ucmp, f, files);
      forall g ensures g in files' <==> g == f || g in files { InsertHas(ucmp, f, files, g); }
      InsertAllKeepsDistinct(ucmp, added[1..], files');
    }
  }

  /** No two files of the version share a number. */
  ghost predicate UniqueNumbers<U(!new), V(!new)>(v: Version<U, V>) {
    forall l, m, f, g :: 0 <= l < |v| && 0 <= m < |v| && f in v[l] && g in v[m] && f.number == g.number ==>
        l == m && f == g
  }

  /** No file of v has a number from first on (NewFileNumber hands out fresh ones). */
  ghost predicate NumbersBelow<U(!new), V(!new)>(v: Version<U, V>, first: nat) {
    forall l, f :: 0 <= l < |v| && f in v[l] ==> f.number < first
  }

  // --------------------------------------------------------------- age of the levels

  /** Good's last clause, level by level. */
  ghost predicate LevelsByAge<U(!new), V(!new)>(v: Version<U, V>) {
    forall i, j {:trigger Contents(v[i]), Contents(v[j])} :: 0 <= i < j < |v| ==> Newer(Contents(v[i]), Contents(v[j]))
  }

  lemma {:induction false} FromHas<U(!new), V(!new)>(v: Version<U, V>, l: nat, j: nat)
    requires l <= j < |v|
    ensures Contents(v[j]) <= From(v, l)
    decreases j - l
  {
    if l < j { FromHas(v, l + 1, j); }
  }

  lemma {:induction false} FromLevel<U(!new), V(!new)>(v: Version<U, V>, l: nat, e: Entry<U, V>) returns (j: nat)
    requires e in From(v, l)
    ensures l <= j < |v| && e in Contents(v[j])
    decreases |v| - l
  {
    if e in Contents(v[l]) { j := l; } else { j := FromLevel(v, l + 1, e); }
  }

  lemma ByAgeFrom<U(!new), V(!new)>(v: Version<U, V>, l: nat)
    requires LevelsByAge(v) && l < |v|
    ensures Newer(Contents(v[l]), From(v, l + 1))
  {
    forall a, b | a in Contents(v[l]) && b in From(v, l + 1) && a.0.user == b.0.user ensures Tag(a.0) > Tag(b.0) {
      var j := FromLevel(v, l + 1, b);
      assert Newer(Contents(v[l]), Contents(v[j]));
    }
  }

  lemma GoodByAge<U(!new), V(!new)>(ucmp: Comparator<U>, v: Version<U, V>)
    requires Good(ucmp, v)
    ensures LevelsByAge(v)
  {
    hide FilesOk;
    hide SortedFiles;
    hide Contents;
    hide From;
    forall i, j | 0 <= i < j < |v| ensures Newer(Contents(v[i]), Contents(v[j])) {
      FromHas(v, i + 1, j);
      assert Newer(Contents(v[i]), From(v, i + 1));
    }
  }

  /** Good, with its last clause given level by level. */
  lemma GoodIf<U(!new), V(!new)>(ucmp: Comparator<U>, v: Version<U, V>)
    requires |v| == NumLevels && LevelsByAge(v) && NumberedByAge(v[0])
    requires forall l :: 0 <= l < NumLevels ==> FilesOk(ucmp, v[l]) && DistinctNumbers(v[l])
    requires forall l :: 1 <= l < NumLevels ==> SortedFiles(ucmp, v[l])
    ensures Good(ucmp, v)
  {
    forall l | 0 <= l < NumLevels ensures Newer(Contents(v[l]), From(v, l + 1)) { ByAgeFrom(v, l); }
  }
}
