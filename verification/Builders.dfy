/** VersionSet::Builder (db/version_set.cc): applying a whole list of edits and saving once gives the
    version that applying them one version at a time would give. */
module Builders {
  import opened Order
  import opened InternalKeys
  import opened Versions
  import opened Levels

  /** What an edit says about files: (level, number) pairs to delete, (level, file) pairs to add. */
  datatype FileEdit<U, V> = FileEdit(deleted: seq<(nat, nat)>, added: seq<(nat, File<U, V>)>)

  ghost predicate LevelsExist<U(!new), V(!new)>(edit: FileEdit<U, V>) {
    (forall d :: d in edit.deleted ==> d.0 < NumLevels) && forall a :: a in edit.added ==> a.0 < NumLevels
  }

  /** The numbers an edit deletes from a level, and the files it adds to it, in order. */
  function DeletedAt(deleted: seq<(nat, nat)>, level: nat): set<nat> {
    if deleted == [] then {}
    else DeletedAt(deleted[..|deleted| - 1], level) + if deleted[|deleted| - 1].0 == level
        then {deleted[|deleted| - 1].1} else {}
  }

  function AddedAt<U, V>(added: seq<(nat, File<U, V>)>, level: nat): seq<File<U, V>> {
    if added == [] then []
    else AddedAt(added[..|added| - 1], level) + if added[|added| - 1].0 == level then [added[|added| - 1].1] else []
  }

  // ------------------------------------------------------------- one edit at a time

  /** Insert in order, last file last. */
  function InsertEach<U, V>(ucmp: Comparator<U>, files: seq<File<U, V>>, added: seq<File<U, V>>): seq<File<U, V>> {
    if added == [] then files else Insert(ucmp, added[|added| - 1], InsertEach(ucmp, files, added[..|added| - 1]))
  }

  /** One level of the version after an edit. */
  function ApplyToLevel<U, V>(ucmp: Comparator<U>, files: seq<File<U, V>>, edit: FileEdit<U, V>,
                              level: nat): seq<File<U, V>>
  {
    InsertEach(ucmp, Without(files, DeletedAt(edit.deleted, level)), AddedAt(edit.added, level))
  }

  function ApplyAll<U, V>(ucmp: Comparator<U>, files: seq<File<U, V>>, edits: seq<FileEdit<U, V>>,
                          level: nat): seq<File<U, V>>
  {
    if edits == [] then files
    else ApplyToLevel(ucmp, ApplyAll(ucmp, files, edits[..|edits| - 1], level), edits[|edits| - 1], level)
  }

  // --------------------------------------------------------------------- file order

  ghost predicate SortedByKey<U(!new), V(!new)>(ucmp: Comparator<U>, files: seq<File<U, V>>) {
    forall i, j {:trigger BySmallestKey(ucmp, files[i], files[j])} :: 0 <= i < j < |files| ==>
        BySmallestKey(ucmp, files[i], files[j])
  }

  lemma ByKeyOrder<U(!new), V(!new)>(ucmp: Comparator<U>, f: File<U, V>, g: File<U, V>, h: File<U, V>)
    requires TotalOrder(ucmp)
    ensures !BySmallestKey(ucmp, f, f)
    ensures BySmallestKey(ucmp, f, g) ==> !BySmallestKey(ucmp, g, f)
    ensures !BySmallestKey(ucmp, f, g) && !BySmallestKey(ucmp, g, f) ==> f.number == g.number
    ensures BySmallestKey(ucmp, f, g) && BySmallestKey(ucmp, g, h) ==> BySmallestKey(ucmp, f, h)
  {
    var cmp := InternalComparator(ucmp);
    InternalIsTotal(ucmp);
    Laws(cmp);
    assert cmp(f.smallest, f.smallest) == 0;
    assert cmp(f.smallest, g.smallest) < 0 <==> cmp(g.smallest, f.smallest) > 0;
    assert cmp(g.smallest, f.smallest) < 0 <==> cmp(f.smallest, g.smallest) > 0;
    if BySmallestKey(ucmp, f, g) && BySmallestKey(ucmp, g, h) { Transitive(cmp, f.smallest, g.smallest, h.smallest); }
  }

  lemma ConsSorted<U(!new), V(!new)>(ucmp: Comparator<U>, f: File<U, V>, rest: seq<File<U, V>>)
    requires SortedByKey(ucmp, rest) && forall g :: g in rest ==> BySmallestKey(ucmp, f, g)
    ensures SortedByKey(ucmp, [f] + rest)
  {
    var all := [f] + rest;
    forall i, j | 0 <= i < j < |all| ensures BySmallestKey(ucmp, all[i], all[j]) {
      if i > 0 { assert BySmallestKey(ucmp, rest[i - 1], rest[j - 1]); } else { assert rest[j - 1] in rest; }
    }
  }

  lemma TailSorted<U(!new), V(!new)>(ucmp: Comparator<U>, files: seq<File<U, V>>)
    requires SortedByKey(ucmp, files) && files != []
    ensures SortedByKey(ucmp, files[1..]) && forall g :: g in files[1..] ==> BySmallestKey(ucmp, files[0], g)
  {
    var rest := files[1..];
    forall i, j | 0 <= i < j < |rest| ensures BySmallestKey(ucmp, rest[i], rest[j]) {
      assert BySmallestKey(ucmp, files[i + 1], files[j + 1]);
    }
    forall g | g in rest ensures BySmallestKey(ucmp, files[0], g) {
      var i :| 0 <= i < |rest| && rest[i] == g;
      assert BySmallestKey(ucmp, files[0], files[i + 1]);
    }
  }

  lemma {:induction false} InsertSorted<U(!new), V(!new)>(ucmp: Comparator<U>, f: File<U, V>, files: seq<File<U, V>>)
    requires TotalOrder(ucmp) && SortedByKey(ucmp, files) && forall g :: g in files ==> g.number != f.number
    ensures SortedByKey(ucmp, Insert(ucmp, f, files))
  {
    if files != [] {
      TailSorted(ucmp, files);
      assert files[0] in files;
      ByKeyOrder(ucmp, f, files[0], f);
      if BySmallestKey(ucmp, f, files[0]) {
        forall g | g in files ensures BySmallestKey(ucmp, f, g) {
          if g != files[0] {
            assert g in files[1..];
            ByKeyOrder(ucmp, f, files[0], g);
          }
        }
        ConsSorted(ucmp, f, files);
      } else {
        InsertSorted(ucmp, f, files[1..]);
        forall g | g in Insert(ucmp, f, files[1..]) ensures BySmallestKey(ucmp, files[0], g) {
          InsertHas(ucmp, f, files[1..], g);
        }
        ConsSorted(ucmp, files[0], Insert(ucmp, f, files[1..]));
      }
    }
  }

  lemma {:induction false} WithoutSorted<U(!new), V(!new)>(ucmp: Comparator<U>, files: seq<File<U, V>>, gone: set<nat>)
    requires SortedByKey(ucmp, files)
    ensures SortedByKey(ucmp, Without(files, gone))
  {
    if files != [] {
      TailSorted(ucmp, files);
      WithoutSorted(ucmp, files[1..], gone);
      if files[0].number !in gone {
        forall g | g in Without(files[1..], gone) ensures BySmallestKey(ucmp, files[0], g) {
          WithoutHas(files[1..], gone, g);
        }
        ConsSorted(ucmp, files[0], Without(files[1..], gone));
      }
    }
  }

  /** Two sorted lists of the same files are the same list. */
  lemma {:induction false} SortedIsUnique<U(!new), V(!new)>(ucmp: Comparator<U>, a: seq<File<U, V>>, b: seq<File<U, V>>)
    requires TotalOrder(ucmp) && SortedByKey(ucmp, a) && SortedByKey(ucmp, b) && forall f :: f in a <==> f in b
    ensures a == b
  {
    assert a != [] ==> a[0] in a;
    assert b != [] ==> b[0] in b;
    if a != [] && b != [] {
      TailSorted(ucmp, a);
      TailSorted(ucmp, b);
      FirstsAgree(ucmp, a, b);
      forall f ensures f in a[1..] <==> f in b[1..] { InTail(ucmp, a, b, f); }
      SortedIsUnique(ucmp, a[1..], b[1..]);
      assert a == [a[0]] + a[1..] && b == [b[0]] + b[1..];
    }
  }

  lemma FirstsAgree<U(!new), V(!new)>(ucmp: Comparator<U>, a: seq<File<U, V>>, b: seq<File<U, V>>)
    requires TotalOrder(ucmp) && SortedByKey(ucmp, a) && SortedByKey(ucmp, b) && a != [] && b != []
        && forall f :: f in a <==> f in b
    ensures a[0] == b[0]
  {
    TailSorted(ucmp, a);
    TailSorted(ucmp, b);
    assert a[0] in b && b[0] in a;
    if a[0] != b[0] {
      assert a[0] in b[1..] && b[0] in a[1..];
      ByKeyOrder(ucmp, a[0], b[0], a[0]);
    }
  }

  lemma InTail<U(!new), V(!new)>(ucmp: Comparator<U>, a: seq<File<U, V>>, b: seq<File<U, V>>, f: File<U, V>)
    requires TotalOrder(ucmp) && SortedByKey(ucmp, a) && SortedByKey(ucmp, b) && a != [] && b != [] && a[0] == b[0]
        && forall f :: f in a <==> f in b
    ensures f in a[1..] <==> f in b[1..]
  {
    TailSorted(ucmp, a);
    TailSorted(ucmp, b);
    ByKeyOrder(ucmp, f, f, f);
    assert a == [a[0]] + a[1..] && b == [b[0]] + b[1..];
    assert f in a <==> f == a[0] || f in a[1..];
    assert f in b <==> f == b[0] || f in b[1..];
  }

  // ------------------------------------------------------------------- the builder

  /** The builder's state for a level: which files of base and added are left. */
  ghost predicate Stands<U(!new), V(!new)>(base: seq<File<U, V>>, deleted: set<nat>, added: seq<File<U, V>>,
                                           f: File<U, V>)
  {
    (f in base || f in added) && f.number !in deleted
  }

  /** What a list of edits needs so that a file number means one file: no number is added to the level that
      is already among base or the files added before. */
  ghost predicate Fresh<U(!new), V(!new)>(base: seq<File<U, V>>, added: seq<File<U, V>>, more: seq<File<U, V>>) {
    && (forall f, g :: f in more && (g in base || g in added) ==> f.number != g.number)
    && DistinctNumbers(more)
  }

  /** The builder agrees with applying the edits so far: the files left are those of the current version. */
  ghost predicate Agrees<U(!new), V(!new)>(ucmp: Comparator<U>, base: seq<File<U, V>>, deleted: set<nat>,
                                           added: seq<File<U, V>>, current: seq<File<U, V>>)
  {
    && SortedByKey(ucmp, base) && SortedByKey(ucmp, added) && SortedByKey(ucmp, current)
    && (forall f, g :: f in base && g in added ==> f.number != g.number)
    && forall f :: f in current <==> Stands(base, deleted, added, f)
  }

  lemma DeleteAgrees<U(!new), V(!new)>(ucmp: Comparator<U>, base: seq<File<U, V>>, deleted: set<nat>,
                                       added: seq<File<U, V>>, current: seq<File<U, V>>, gone: set<nat>)
    requires Agrees(ucmp, base, deleted, added, current)
    ensures Agrees(ucmp, base, deleted + gone, added, Without(current, gone))
  {
    WithoutSorted(ucmp, current, gone);
    forall f ensures f in Without(current, gone) <==> Stands(base, deleted + gone, added, f) {
      WithoutHas(current, gone, f);
    }
  }

  lemma AddAgrees<U(!new), V(!new)>(ucmp: Comparator<U>, base: seq<File<U, V>>, deleted: set<nat>,
                                    added: seq<File<U, V>>, current: seq<File<U, V>>, f: File<U, V>)
    requires TotalOrder(ucmp) && Agrees(ucmp, base, deleted, added, current)
    requires forall g :: g in base || g in added ==> g.number != f.number
    ensures Agrees(ucmp, base, deleted - {f.number}, Insert(ucmp, f, added), Insert(ucmp, f, current))
  {
    InsertSorted(ucmp, f, added);
    forall g | g in current ensures g.number != f.number { assert Stands(base, deleted, added, g); }
    InsertSorted(ucmp, f, current);
    forall g ensures g in Insert(ucmp, f, current) <==> Stands(base, deleted - {f.number}, Insert(ucmp, f, added), g) {
      InsertHas(ucmp, f, current, g);
      InsertHas(ucmp, f, added, g);
    }
    forall g, h | g in base && h in Insert(ucmp, f, added) ensures g.number != h.number {
      InsertHas(ucmp, f, added, h);
    }
  }

  function Erase<U, V>(deleted: set<nat>, added: seq<File<U, V>>): set<nat> {
    if added == [] then deleted else Erase(deleted, added[..|added| - 1]) - {added[|added| - 1].number}
  }

  lemma {:induction false} AddEachAgrees<U(!new), V(!new)>(ucmp: Comparator<U>, base: seq<File<U, V>>,
                                                           deleted: set<nat>, added: seq<File<U, V>>,
                                                           current: seq<File<U, V>>, more: seq<File<U, V>>)
    requires TotalOrder(ucmp) && Agrees(ucmp, base, deleted, added, current) && Fresh(base, added, more)
    ensures Agrees(ucmp, base, Erase(deleted, more), InsertEach(ucmp, added, more), InsertEach(ucmp, current, more))
    ensures forall g :: g in InsertEach(ucmp, added, more) <==> g in added || g in more
  {
    if more != [] {
      var init, last := more[..|more| - 1], more[|more| - 1];
      assert more == init + [last];
      assert Fresh(base, added, init) by { FreshPart(base, added, more); }
      AddEachAgrees(ucmp, base, deleted, added, current, init);
      forall g | g in base || g in InsertEach(ucmp, added, init) ensures g.number != last.number {
        if g in init { LastDiffers(more, g); }
      }
      AddAgrees(ucmp, base, Erase(deleted, init), InsertEach(ucmp, added, init), InsertEach(ucmp, current, init), last);
      forall g ensures g in InsertEach(ucmp, added, more) <==> g in added || g in more {
        InsertHas(ucmp, last, InsertEach(ucmp, added, init), g);
      }
    }
  }

  lemma FreshPart<U(!new), V(!new)>(base: seq<File<U, V>>, added: seq<File<U, V>>, more: seq<File<U, V>>)
    requires more != [] && Fresh(base, added, more)
    ensures Fresh(base, added, more[..|more| - 1])
  {
  }

  lemma LastDiffers<U(!new), V(!new)>(more: seq<File<U, V>>, g: File<U, V>)
    requires more != [] && DistinctNumbers(more) && g in more[..|more| - 1]
    ensures g.number != more[|more| - 1].number
  {
    var i :| 0 <= i < |more| - 1 && more[..|more| - 1][i] == g;
  }

  /** Merge of two sorted file lists; of base files before an added one, all. */
  function MergeFiles<U, V>(ucmp: Comparator<U>, base: seq<File<U, V>>, added: seq<File<U, V>>): seq<File<U, V>> {
    if added == [] then base
    else if base != [] && !BySmallestKey(ucmp, added[0], base[0]) then [base[0]] + MergeFiles(ucmp, base[1..], added)
    else [added[0]] + MergeFiles(ucmp, base, added[1..])
  }

  lemma {:induction false} MergeFilesHas<U(!new), V(!new)>(ucmp: Comparator<U>, base: seq<File<U, V>>,
                                                           added: seq<File<U, V>>, f: File<U, V>)
    ensures f in MergeFiles(ucmp, base, added) <==> f in base || f in added
  {
    if added != [] {
      if base != [] && !BySmallestKey(ucmp, added[0], base[0]) {
        MergeFilesHas(ucmp, base[1..], added, f);
        assert base == [base[0]] + base[1..];
      } else {
        MergeFilesHas(ucmp, base, added[1..], f);
        assert added == [added[0]] + added[1..];
      }
    }
  }

  lemma {:induction false} MergeFilesSorted<U(!new), V(!new)>(ucmp: Comparator<U>, base: seq<File<U, V>>,
                                                              added: seq<File<U, V>>)
    requires TotalOrder(ucmp) && SortedByKey(ucmp, base) && SortedByKey(ucmp, added)
    requires forall f, g :: f in base && g in added ==> f.number != g.number
    ensures SortedByKey(ucmp, MergeFiles(ucmp, base, added))
  {
    if added != [] {
      TailSorted(ucmp, added);
      if base != [] && !BySmallestKey(ucmp, added[0], base[0]) {
        TailSorted(ucmp, base);
        MergeFilesSorted(ucmp, base[1..], added);
        FirstBelow(ucmp, base[0], base[1..], added);
        ConsSorted(ucmp, base[0], MergeFiles(ucmp, base[1..], added));
      } else {
        if base != [] { TailSorted(ucmp, base); }
        MergeFilesSorted(ucmp, base, added[1..]);
        forall g | g in base ensures BySmallestKey(ucmp, added[0], g) {
          ByKeyOrder(ucmp, added[0], base[0], g);
          assert g == base[0] || g in base[1..];
        }
        forall g | g in MergeFiles(ucmp, base, added[1..]) ensures BySmallestKey(ucmp, added[0], g) {
          MergeFilesHas(ucmp, base, added[1..], g);
        }
        ConsSorted(ucmp, added[0], MergeFiles(ucmp, base, added[1..]));
      }
    }
  }

  lemma FirstBelow<U(!new), V(!new)>(ucmp: Comparator<U>, f: File<U, V>, base: seq<File<U, V>>, added: seq<File<U, V>>)
    requires TotalOrder(ucmp) && SortedByKey(ucmp, added) && added != [] && !BySmallestKey(ucmp, added[0], f)
    requires (forall g :: g in base ==> BySmallestKey(ucmp, f, g)) && forall g :: g in added ==> g.number != f.number
    ensures forall g :: g in MergeFiles(ucmp, base, added) ==> BySmallestKey(ucmp, f, g)
  {
    TailSorted(ucmp, added);
    assert added[0] in added;
    forall g | g in MergeFiles(ucmp, base, added) ensures BySmallestKey(ucmp, f, g) {
      MergeFilesHas(ucmp, base, added, g);
      ByKeyOrder(ucmp, f, added[0], g);
      assert g in added ==> g == added[0] || g in added[1..];
    }
  }

  /** What SaveTo writes for a level is the level of the version the edits lead to. */
  lemma SavedIsCurrent<U(!new), V(!new)>(ucmp: Comparator<U>, base: seq<File<U, V>>, deleted: set<nat>,
                                         added: seq<File<U, V>>, current: seq<File<U, V>>)
    requires TotalOrder(ucmp) && Agrees(ucmp, base, deleted, added, current)
    ensures Without(MergeFiles(ucmp, base, added), deleted) == current
  {
    var merged := MergeFiles(ucmp, base, added);
    MergeFilesSorted(ucmp, base, added);
    WithoutSorted(ucmp, merged, deleted);
    forall f ensures f in Without(merged, deleted) <==> f in current {
      WithoutHas(merged, deleted, f);
      MergeFilesHas(ucmp, base, added, f);
    }
    SortedIsUnique(ucmp, Without(merged, deleted), current);
  }

  // -------------------------------------------------------------- the imperative builder

  /** MaybeAddFile over the merge of base files and added files, as SaveTo's loops do it. */
  method SaveLevel<U(!new), V(!new)>(ucmp: Comparator<U>, base: seq<File<U, V>>, deleted: set<nat>,
                                     added: seq<File<U, V>>) returns (files: seq<File<U, V>>)
    ensures files == Without(MergeFiles(ucmp, base, added), deleted)
  {
    hide MergeFiles;
    hide Without;
    hide BySmallestKey;
    hide MaybeAddFile;
    files := [];
    var i, j := 0, 0;
    ghost var whole := Without(MergeFiles(ucmp, base, added), deleted);
    assert base[0..] == base && added[0..] == added;
    while j < |added|
      invariant i <= |base| && j <= |added|
      invariant files + Without(MergeFiles(ucmp, base[i..], added[j..]), deleted) == whole
    {
      // add all smaller files listed in base
      while i < |base| && !BySmallestKey(ucmp, added[j], base[i])
        invariant i <= |base|
        invariant files + Without(MergeFiles(ucmp, base[i..], added[j..]), deleted) == whole
      {
        TakeBase(ucmp, files, base, i, added, j, deleted);
        files := MaybeAddFile(files, base[i], deleted);
        i := i + 1;
      }
      TakeAdded(ucmp, files, base, i, added, j, deleted);
      files := MaybeAddFile(files, added[j], deleted);
      j := j + 1;
    }
    OnlyBase(ucmp, base, i, added, deleted);
    // add remaining base files
    while i < |base|
      invariant i <= |base|
      invariant files + Without(base[i..], deleted) == whole
    {
      OneMore(files, base[i], base[i + 1..], deleted);
      assert base[i..] == [base[i]] + base[i + 1..];
      files := MaybeAddFile(files, base[i], deleted);
      i := i + 1;
    }
  }

  lemma OnlyBase<U(!new), V(!new)>(ucmp: Comparator<U>, base: seq<File<U, V>>, i: nat, added: seq<File<U, V>>,
                                   deleted: set<nat>)
    requires i <= |base|
    ensures MergeFiles(ucmp, base[i..], added[|added|..]) == base[i..]
    ensures Without(base[|base|..], deleted) == []
  {
  }

  function MaybeAddFile<U, V>(files: seq<File<U, V>>, f: File<U, V>, deleted: set<nat>): seq<File<U, V>> {
    if f.number in deleted then files else files + [f]
  }

  lemma OneMore<U(!new), V(!new)>(files: seq<File<U, V>>, f: File<U, V>, rest: seq<File<U, V>>, deleted: set<nat>)
    ensures files + Without([f] + rest, deleted) == MaybeAddFile(files, f, deleted) + Without(rest, deleted)
  {
    assert ([f] + rest)[1..] == rest;
  }

  lemma TakeBase<U(!new), V(!new)>(ucmp: Comparator<U>, files: seq<File<U, V>>, base: seq<File<U, V>>, i: nat,
                                   added: seq<File<U, V>>, j: nat, deleted: set<nat>)
    requires i < |base| && j < |added| && !BySmallestKey(ucmp, added[j], base[i])
    ensures files + Without(MergeFiles(ucmp, base[i..], added[j..]), deleted)
            == MaybeAddFile(files, base[i], deleted) + Without(MergeFiles(ucmp, base[i + 1..], added[j..]), deleted)
  {
    assert base[i..][1..] == base[i + 1..];
    OneMore(files, base[i], MergeFiles(ucmp, base[i + 1..], added[j..]), deleted);
  }

  lemma TakeAdded<U(!new), V(!new)>(ucmp: Comparator<U>, files: seq<File<U, V>>, base: seq<File<U, V>>, i: nat,
                                    added: seq<File<U, V>>, j: nat, deleted: set<nat>)
    requires i <= |base| && j < |added| && (i < |base| ==> BySmallestKey(ucmp, added[j], base[i]))
    ensures files + Without(MergeFiles(ucmp, base[i..], added[j..]), deleted)
            == MaybeAddFile(files, added[j], deleted) + Without(MergeFiles(ucmp, base[i..], added[j + 1..]), deleted)
  {
    assert added[j..][1..] == added[j + 1..];
    OneMore(files, added[j], MergeFiles(ucmp, base[i..], added[j + 1..]), deleted);
  }

  /** An edit may be applied: its levels exist, and each number it adds to a level is new there. */
  ghost predicate Applicable<U(!new), V(!new)>(base: Version<U, V>, added: seq<seq<File<U, V>>>, edit: FileEdit<U, V>)
    requires |base| == NumLevels == |added|
  {
    LevelsExist(edit) && forall l :: 0 <= l < NumLevels ==> Fresh(base[l], added[l], AddedAt(edit.added, l))
  }

  /** The levels' sets after the files have been added. */
  ghost predicate Added<U(!new), V(!new)>(ucmp: Comparator<U>, deleted: seq<set<nat>>, added: seq<seq<File<U, V>>>,
                                          deleted': seq<set<nat>>, added': seq<seq<File<U, V>>>,
                                          files: seq<(nat, File<U, V>)>)
  {
    && |deleted'| == |deleted| == NumLevels == |added| == |added'|
    && forall l :: 0 <= l < NumLevels ==>
         deleted'[l] == Erase(deleted[l], AddedAt(files, l))
             && added'[l] == InsertEach(ucmp, added[l], AddedAt(files, l))
  }

  lemma AddFileStep<U(!new), V(!new)>(ucmp: Comparator<U>, deleted: seq<set<nat>>, added: seq<seq<File<U, V>>>,
                                      deleted': seq<set<nat>>, added': seq<seq<File<U, V>>>,
                                      files: seq<(nat, File<U, V>)>, i: nat)
    requires i < |files| && files[i].0 < NumLevels && Added(ucmp, deleted, added, deleted', added', files[..i])
    ensures var (level, f) := files[i];
            Added(ucmp, deleted, added, deleted'[level := deleted'[level] - {f.number}],
                added'[level := Insert(ucmp, f, added'[level])], files[..i + 1])
  {
    hide AddedAt;
    hide Insert;
    hide Erase;
    hide InsertEach;
    var (level, f) := files[i];
    AddedAtStep(files, i);
    OneMoreAdded(ucmp, deleted[level], added[level], AddedAt(files[..i], level), f);
  }

  lemma OneMoreAdded<U(!new), V(!new)>(ucmp: Comparator<U>, deleted: set<nat>, added: seq<File<U, V>>,
                                       files: seq<File<U, V>>, f: File<U, V>)
    ensures Erase(deleted, files + [f]) == Erase(deleted, files) - {f.number}
    ensures InsertEach(ucmp, added, files + [f]) == Insert(ucmp, f, InsertEach(ucmp, added, files))
  {
    assert (files + [f])[..|files|] == files;
  }

  class Builder<U(!new), V(!new)> {
    const ucmp: Comparator<U>
    const base: Version<U, V>
    var deleted: seq<set<nat>>
    var added: seq<seq<File<U, V>>>  // each an ordered set
    ghost var edits: seq<FileEdit<U, V>>

    ghost predicate Valid()
      reads this
    {
      && TotalOrder(ucmp) && |base| == NumLevels == |deleted| == |added|
      && forall l :: 0 <= l < NumLevels ==> Agrees(ucmp, base[l], deleted[l], added[l],
          ApplyAll(ucmp, base[l], edits, l))
    }

    constructor (ucmp: Comparator<U>, base: Version<U, V>)
      requires TotalOrder(ucmp) && |base| == NumLevels && forall l :: 0 <= l < NumLevels ==> SortedByKey(ucmp, base[l])
      ensures Valid() && edits == [] && this.base == base && this.ucmp == ucmp
      ensures forall l :: 0 <= l < NumLevels ==> added[l] == []
    {
      this.ucmp, this.base := ucmp, base;
      deleted, added := seq(NumLevels, _ => {}), seq(NumLevels, _ => []);
      edits := [];
    }

    method Apply(edit: FileEdit<U, V>)
      requires Valid() && Applicable(base, added, edit)
      modifies this
      ensures Valid() && edits == old(edits) + [edit]
      ensures forall l, f :: 0 <= l < NumLevels ==>
          (f in added[l] <==> f in old(added)[l] || f in AddedAt(edit.added, l))
    {
      DeleteFiles(edit.deleted);
      ghost var gone := deleted;
      AddFiles(edit.added);
      forall l | 0 <= l < NumLevels
        ensures Agrees(ucmp, base[l], deleted[l], added[l], ApplyAll(ucmp, base[l], old(edits) + [edit], l))
        ensures forall f :: f in added[l] <==> f in old(added)[l] || f in AddedAt(edit.added, l)
      {
        EditAgrees(ucmp, base[l], old(deleted)[l], old(added)[l], old(edits), edit, l);
      }
      edits := edits + [edit];
    }

    method DeleteFiles(gone: seq<(nat, nat)>)
      requires |deleted| == NumLevels && forall d :: d in gone ==> d.0 < NumLevels
      modifies this`deleted
      ensures |deleted| == NumLevels && forall l :: 0 <= l < NumLevels ==>
          deleted[l] == old(deleted)[l] + DeletedAt(gone, l)
    {
      for i := 0 to |gone|
        invariant |deleted| == NumLevels && forall l :: 0 <= l < NumLevels ==>
            deleted[l] == old(deleted)[l] + DeletedAt(gone[..i], l)
      {
        var (level, number) := gone[i];
        assert gone[i] in gone && gone[..i + 1][..i] == gone[..i];
        deleted := deleted[level := deleted[level] + {number}];
      }
      assert gone[..|gone|] == gone;
    }

    method AddFiles(files: seq<(nat, File<U, V>)>)
      requires |deleted| == NumLevels == |added| && forall a :: a in files ==> a.0 < NumLevels
      modifies this`deleted, this`added
      ensures |deleted| == NumLevels == |added|
      ensures forall l :: 0 <= l < NumLevels ==>
          deleted[l] == Erase(old(deleted)[l], AddedAt(files, l))
          && added[l] == InsertEach(ucmp, old(added)[l], AddedAt(files, l))
    {
      for i := 0 to |files|
        invariant Added(ucmp, old(deleted), old(added), deleted, added, files[..i])
      {
        var (level, f) := files[i];
        assert files[i] in files;
        AddFileStep(ucmp, old(deleted), old(added), deleted, added, files, i);
        deleted := deleted[level := deleted[level] - {f.number}];
        added := added[level := Insert(ucmp, f, added[level])];
      }
      assert files[..|files|] == files;
    }

    /** SaveTo: the version all the edits lead to, one after the other. */
    method SaveTo() returns (v: Version<U, V>)
      requires Valid()
      ensures |v| == NumLevels && forall l :: 0 <= l < NumLevels ==>
          v[l] == ApplyAll(ucmp, base[l], edits, l) && SortedByKey(ucmp, v[l])
    {
      v := [];
      for level := 0 to NumLevels
        invariant |v| == level && forall l :: 0 <= l < level ==>
            v[l] == ApplyAll(ucmp, base[l], edits, l) && SortedByKey(ucmp, v[l])
      {
        var files := SaveLevel(ucmp, base[level], deleted[level], added[level]);
        SavedIsCurrent(ucmp, base[level], deleted[level], added[level], ApplyAll(ucmp, base[level], edits, level));
        v := v + [files];
      }
    }
  }

  lemma AddedAtStep<U(!new), V(!new)>(files: seq<(nat, File<U, V>)>, i: nat)
    requires i < |files|
    ensures forall l {:trigger AddedAt(files[..i + 1], l)} :: 0 <= l < NumLevels ==>
              AddedAt(files[..i + 1], l) == if files[i].0 == l then AddedAt(files[..i], l) + [files[i].1]
                  else AddedAt(files[..i], l)
  {
    assert files[..i + 1][..i] == files[..i];
    forall l | 0 <= l < NumLevels
      ensures AddedAt(files[..i + 1], l) == if files[i].0 == l then AddedAt(files[..i], l) + [files[i].1]
          else AddedAt(files[..i], l)
    {
      assert AddedAt(files[..i], l) + [] == AddedAt(files[..i], l);
    }
  }

  /** A whole edit on one level. */
  lemma EditAgrees<U(!new), V(!new)>(ucmp: Comparator<U>, base: seq<File<U, V>>, deleted: set<nat>,
                                     added: seq<File<U, V>>, edits: seq<FileEdit<U, V>>, edit: FileEdit<U, V>, l: nat)
    requires TotalOrder(ucmp) && Agrees(ucmp, base, deleted, added, ApplyAll(ucmp, base, edits, l))
        && Fresh(base, added, AddedAt(edit.added, l))
    ensures var more := AddedAt(edit.added, l);
            && Agrees(ucmp, base, Erase(deleted + DeletedAt(edit.deleted, l), more), InsertEach(ucmp, added, more),
                ApplyAll(ucmp, base, edits + [edit], l))
            && forall f :: f in InsertEach(ucmp, added, more) <==> f in added || f in more
  {
    var current := ApplyAll(ucmp, base, edits, l);
    assert (edits + [edit])[..|edits|] == edits;
    DeleteAgrees(ucmp, base, deleted, added, current, DeletedAt(edit.deleted, l));
    AddEachAgrees(ucmp, base, deleted + DeletedAt(edit.deleted, l), added, Without(current, DeletedAt(edit.deleted, l)),
        AddedAt(edit.added, l));
  }
}
