/** Iterating over the whole store (db/db_impl.cc NewInternalIterator and NewIterator, db/version_set.cc
    AddIterators): what an iterator lists is what reads find. */
module StoreIterators {
  import opened Order
  import opened Cursors
  import opened InternalKeys
  import opened Options
  import opened Tables
  import opened Versions
  import opened Drops
  import opened Database
  import T = TwoLevels
  import M = Merger
  import D = DbIter

  // ----------------------------------------------------------------- one level's files

  /** LevelFileNumIterator: a level's files under their largest keys. */
  function LevelIndex<U, V>(files: seq<File<U, V>>): seq<(InternalKey<U>, File<U, V>)> {
    seq(|files|, i requires 0 <= i < |files| => (files[i].largest, files[i]))
  }

  /** GetFileIterator: what a file's table iterator runs over. */
  function TableEntries<U, V>(): File<U, V> -> Entries<U, V> { (f: File<U, V>) => f.entries }

  /** NewConcatenatingIterator runs over the level's entries in a row. */
  function LevelEntries<U, V>(files: seq<File<U, V>>): Entries<U, V> { T.All(LevelIndex(files), TableEntries()) }

  lemma FileKeys<U(!new), V(!new)>(ucmp: Comparator<U>, f: File<U, V>, k: nat)
    requires TotalOrder(ucmp) && FileOk(ucmp, f) && k < |f.entries|
    ensures InternalCompare(ucmp, f.smallest, f.entries[k].0) <= 0
        && InternalCompare(ucmp, f.entries[k].0, f.largest) <= 0
  {
    InternalIsTotal(ucmp);
    SortedAt(InternalComparator(ucmp), f.entries, 0, k);
    SortedAt(InternalComparator(ucmp), f.entries, k, |f.entries| - 1);
  }

  /** So a two-level iterator over the files of a level above 0 is a cursor over all their entries. */
  lemma LevelIndexes<U(!new), V(!new)>(ucmp: Comparator<U>, files: seq<File<U, V>>)
    requires TotalOrder(ucmp) && FilesOk(ucmp, files) && SortedFiles(ucmp, files)
    ensures T.Indexes(InternalComparator(ucmp), LevelIndex(files), TableEntries())
  {
    var cmp, index := InternalComparator(ucmp), LevelIndex(files);
    InternalIsTotal(ucmp);
    forall i, j | 0 <= i < j < |index| ensures Precedes(cmp, index, i, j) {
      assert FileBefore(ucmp, files[i], files[j]) && FileOk(ucmp, files[j]);
      FileKeys(ucmp, files[j], 0);
      Transitive(cmp, files[i].largest, files[j].smallest, files[j].largest);
    }
    forall i, k | 0 <= i < |files| && 0 <= k < |files[i].entries|
      ensures cmp(files[i].entries[k].0, files[i].largest) <= 0
      ensures i > 0 ==> cmp(files[i - 1].largest, files[i].entries[k].0) < 0
    {
      assert FileOk(ucmp, files[i]);
      FileKeys(ucmp, files[i], k);
      if i > 0 {
        assert FileBefore(ucmp, files[i - 1], files[i]);
        Transitive(cmp, files[i - 1].largest, files[i].smallest, files[i].entries[k].0);
      }
    }
    forall i | 0 <= i < |files| ensures Sorted(cmp, files[i].entries) { assert FileOk(ucmp, files[i]); }
  }

  lemma {:induction false} LevelHas<U(!new), V(!new)>(files: seq<File<U, V>>, n: nat, e: Entry<U, V>)
    requires n <= |files|
    ensures e in T.Joined(LevelIndex(files), TableEntries(), n) <==> exists i :: 0 <= i < n && e in files[i].entries
  {
    if n > 0 { LevelHas(files, n - 1, e); }
  }

  lemma LevelSet<U(!new), V(!new)>(files: seq<File<U, V>>)
    ensures SetOf(LevelEntries(files)) == Contents(files)
  {
    forall e ensures e in SetOf(LevelEntries(files)) <==> e in Contents(files) {
      LevelHas(files, |files|, e);
      if i :| 0 <= i < |files| && e in files[i].entries { assert files[i] in files; }
    }
  }

  // ------------------------------------------------------------------- all the iterators

  /** AddIterators, for the levels from l on. */
  function DeeperLists<U, V>(v: Version<U, V>, l: nat): seq<Entries<U, V>>
    decreases |v| - l
  {
    if l >= |v| then []
    else if v[l] == [] then DeeperLists(v, l + 1)
    else [LevelEntries(v[l])] + DeeperLists(v, l + 1)
  }

  /** AddIterators, for the files of level 0, one by one. */
  function FileLists<U, V>(files: seq<File<U, V>>, rest: seq<Entries<U, V>>): seq<Entries<U, V>> {
    if files == [] then rest else [files[0].entries] + FileLists(files[1..], rest)
  }

  /** NewInternalIterator's children. */
  function ChildLists<U, V>(mem: Entries<U, V>, imm: Option<Entries<U, V>>, v: Version<U, V>): seq<Entries<U, V>>
    requires |v| > 0
  {
    [mem] + (if imm.Some? then [imm.value] else []) + FileLists(v[0], DeeperLists(v, 1))
  }

  /** The lists can be merged, and hold just the entries S. */
  ghost predicate Covers<U(!new), V(!new)>(ucmp: Comparator<U>, lists: seq<Entries<U, V>>, S: set<Entry<U, V>>) {
    && M.Mergeable(InternalComparator(ucmp), lists)
    && forall e :: e in S <==> exists c :: 0 <= c < |lists| && e in lists[c]
  }

  ghost predicate KeysApart<U(!new), V(!new)>(A: set<Entry<U, V>>, B: set<Entry<U, V>>) {
    forall a, b :: a in A && b in B ==> a.0 != b.0
  }

  lemma NewerApart<U(!new), V(!new)>(A: set<Entry<U, V>>, B: set<Entry<U, V>>)
    requires Newer(A, B) || Newer(B, A)
    ensures KeysApart(A, B)
  {
  }

  lemma CoversMore<U(!new), V(!new)>(ucmp: Comparator<U>, es: Entries<U, V>, lists: seq<Entries<U, V>>,
                                     S: set<Entry<U, V>>)
    requires Ordered(ucmp, es) && Covers(ucmp, lists, S) && KeysApart(SetOf(es), S)
    ensures Covers(ucmp, [es] + lists, SetOf(es) + S)
  {
    var all := [es] + lists;
    forall c | 0 <= c < |lists| ensures M.Disjoint(es, lists[c]) && M.Disjoint(lists[c], es) {
      forall i, j | 0 <= i < |es| && 0 <= j < |lists[c]| ensures es[i].0 != lists[c][j].0 {
        assert es[i] in SetOf(es) && lists[c][j] in lists[c];
      }
    }
    forall c, d | 0 <= c < |all| && 0 <= d < |all| && c != d ensures M.Disjoint(all[c], all[d]) {
      if c > 0 && d > 0 { assert M.Disjoint(lists[c - 1], lists[d - 1]); }
    }
    forall e | e in SetOf(es) + S ensures exists c :: 0 <= c < |all| && e in all[c] {
      if e in es {
        assert e in all[0];
      } else {
        var c :| 0 <= c < |lists| && e in lists[c];
        assert e in all[c + 1];
      }
    }
    forall c, e | 0 <= c < |all| && e in all[c] ensures e in SetOf(es) + S {
      if c > 0 { assert e in lists[c - 1]; }
    }
  }

  lemma {:induction false} DeeperCovers<U(!new), V(!new)>(ucmp: Comparator<U>, v: Version<U, V>, l: nat)
    requires TotalOrder(ucmp) && Good(ucmp, v) && 1 <= l <= NumLevels
    ensures Covers(ucmp, DeeperLists(v, l), From(v, l))
    decreases NumLevels - l
  {
    if l < NumLevels {
      DeeperCovers(ucmp, v, l + 1);
      if v[l] == [] {
        assert Contents(v[l]) == {};
      } else {
        InternalIsTotal(ucmp);
        LevelIndexes(ucmp, v[l]);
        T.JoinedSorted(InternalComparator(ucmp), LevelIndex(v[l]), TableEntries(), |v[l]|);
        LevelSet(v[l]);
        assert Newer(Contents(v[l]), From(v, l + 1));
        NewerApart(Contents(v[l]), From(v, l + 1));
        CoversMore(ucmp, LevelEntries(v[l]), DeeperLists(v, l + 1), From(v, l + 1));
      }
    }
  }

  lemma {:induction false} FilesCover<U(!new), V(!new)>(ucmp: Comparator<U>, files: seq<File<U, V>>,
                                                        rest: seq<Entries<U, V>>, S: set<Entry<U, V>>)
    requires FilesOk(ucmp, files) && NumberedByAge(files) && DistinctNumbers(files)
    requires Covers(ucmp, rest, S) && Newer(Contents(files), S)
    ensures Covers(ucmp, FileLists(files, rest), Contents(files) + S)
  {
    if files == [] {
      assert Contents(files) + S == S;
    } else {
      var f, others := files[0], files[1..];
      assert files == [f] + others;
      forall i, j | 0 <= i < |others| && 0 <= j < |others| && others[i].number > others[j].number
        ensures FileNewer(others[i], others[j])
      {
        assert FileNewer(files[i + 1], files[j + 1]);
      }
      FilesCover(ucmp, others, rest, S);
      assert Contents(files) == SetOf(f.entries) + Contents(others);
      FirstApart(ucmp, files, S);
      CoversMore(ucmp, f.entries, FileLists(others, rest), Contents(others) + S);
      assert SetOf(f.entries) + (Contents(others) + S) == Contents(files) + S;
    }
  }

  lemma FirstApart<U(!new), V(!new)>(ucmp: Comparator<U>, files: seq<File<U, V>>, S: set<Entry<U, V>>)
    requires files != [] && FilesOk(ucmp, files) && NumberedByAge(files) && DistinctNumbers(files)
        && Newer(Contents(files), S)
    ensures Ordered(ucmp, files[0].entries) && KeysApart(SetOf(files[0].entries), Contents(files[1..]) + S)
  {
    var f := files[0];
    assert FileOk(ucmp, f);
    forall a, b | a in SetOf(f.entries) && b in Contents(files[1..]) + S ensures a.0 != b.0 {
      assert a in Contents(files);
      if b in Contents(files[1..]) {
        var g :| g in files[1..] && b in g.entries;
        var i :| 0 < i < |files| && files[i] == g;
        assert f.number != g.number;
        assert FileNewer(files[0], files[i]) || FileNewer(files[i], files[0]);
      }
    }
  }

  lemma LevelNewer<U(!new), V(!new)>(ucmp: Comparator<U>, v: Version<U, V>, l: nat)
    requires Good(ucmp, v) && l < NumLevels
    ensures Newer(Contents(v[l]), From(v, l + 1)) && From(v, l) == Contents(v[l]) + From(v, l + 1)
  {
  }

  lemma TablesCover<U(!new), V(!new)>(ucmp: Comparator<U>, v: Version<U, V>)
    requires TotalOrder(ucmp) && Good(ucmp, v)
    ensures Covers(ucmp, FileLists(v[0], DeeperLists(v, 1)), From(v, 0))
  {
    hide Covers;
    DeeperCovers(ucmp, v, 1);
    LevelNewer(ucmp, v, 0);
    FilesCover(ucmp, v[0], DeeperLists(v, 1), From(v, 1));
  }

  lemma MemoryCovers<U(!new), V(!new)>(ucmp: Comparator<U>, es: Entries<U, V>, lists: seq<Entries<U, V>>,
                                       S: set<Entry<U, V>>)
    requires Ordered(ucmp, es) && Covers(ucmp, lists, S) && Newer(SetOf(es), S)
    ensures Covers(ucmp, [es] + lists, SetOf(es) + S)
  {
    NewerApart(SetOf(es), S);
    CoversMore(ucmp, es, lists, S);
  }

  /** The internal iterator's children can be merged, and hold everything a read looks at. */
  lemma ChildrenCover<U(!new), V(!new)>(ucmp: Comparator<U>, mem: Entries<U, V>, imm: Option<Entries<U, V>>,
                                        v: Version<U, V>, last: nat, nextFile: nat)
    requires Healthy(ucmp, mem, imm, v, last, nextFile)
    ensures TotalOrder(ucmp) && |v| > 0 && Covers(ucmp, ChildLists(mem, imm, v), Everything(mem, imm, v))
  {
    hide Covers;
    hide FileLists;
    hide DeeperLists;
    hide From;
    hide Distinct;
    hide UpTo;
    hide Newer;
    hide Ordered;
    TablesCover(ucmp, v);
    var files, none: Entries<U, V> := FileLists(v[0], DeeperLists(v, 1)), [];
    if imm.Some? {
      MemoryCovers(ucmp, imm.value, files, From(v, 0));
      MemoryCovers(ucmp, mem, [imm.value] + files, SetOf(imm.value) + From(v, 0));
      assert ChildLists(mem, imm, v) == [mem] + ([imm.value] + files);
    } else {
      assert SetOf(none) + From(v, 0) == From(v, 0);
      MemoryCovers(ucmp, mem, files, From(v, 0));
      assert ChildLists(mem, imm, v) == [mem] + files;
    }
  }

  /** What the user's iterator over lists that cover S runs over: for each key what a read of S finds, in order. */
  lemma ViewIsWhatReadsFind<U(!new), V(!new)>(ucmp: Comparator<U>, lists: seq<Entries<U, V>>, S: set<Entry<U, V>>,
                                              s: nat)
    requires TotalOrder(ucmp) && Covers(ucmp, lists, S)
    ensures var all := M.Union(InternalComparator(ucmp), lists);
            && D.Scannable(ucmp, all) && Sorted(ucmp, D.UserView(all, s))
            && forall k, x :: (k, x) in D.UserView(all, s) <==> Reads(S, k, s, Found(x))
  {
    var cmp := InternalComparator(ucmp);
    var all := M.Union(cmp, lists);
    InternalIsTotal(ucmp);
    M.UnionSorted(cmp, lists);
    D.ViewSorted(ucmp, all, s);
    forall e ensures e in SetOf(all) <==> e in S { M.UnionKeeps(cmp, lists, e); }
    assert SetOf(all) == S;
    forall k, x ensures (k, x) in D.UserView(all, s) <==> Reads(S, k, s, Found(x)) {
      D.ViewIsReads(ucmp, all, s, k, x);
    }
  }

  function AtEnd<U, V>(lists: seq<Entries<U, V>>): seq<Cursor<InternalKey<U>, V>> {
    seq(|lists|, i requires 0 <= i < |lists| => Cursor(lists[i], |lists[i]|))
  }

  lemma ListsBack<U, V>(lists: seq<Entries<U, V>>)
    ensures M.Lists(AtEnd(lists)) == lists
  {
  }

  /** DBImpl::NewInternalIterator, before its first move: the user's view of what it runs over is what reads find. */
  method NewInternalIterator<U(!new), V(!new)>(ucmp: Comparator<U>, mem: Entries<U, V>, imm: Option<Entries<U, V>>,
                                               v: Version<U, V>, ghost last: nat, ghost nextFile: nat)
                                               returns (internal: M.MergingIterator<InternalKey<U>, V>)
    requires Healthy(ucmp, mem, imm, v, last, nextFile)
    ensures fresh(internal) && internal.Valid() && internal.cmp == InternalComparator(ucmp)
        && D.Scannable(ucmp, internal.merged)
    ensures forall s: nat :: Sorted(ucmp, D.UserView(internal.merged, s))
    ensures forall s: nat, k, x :: (k, x) in D.UserView(internal.merged, s) <==>
        Reads(Everything(mem, imm, v), k, s, Found(x))
  {
    hide M.MergingIterator.Valid;
    hide Healthy;
    hide Reads;
    hide D.UserView;
    ChildrenCover(ucmp, mem, imm, v, last, nextFile);
    hide Everything;
    InternalIsTotal(ucmp);
    var lists := ChildLists(mem, imm, v);
    ListsBack(lists);
    internal := new M.MergingIterator(InternalComparator(ucmp), AtEnd(lists));
    ViewIsWhatReadsFind(ucmp, lists, Everything(mem, imm, v), 0);
    forall s: nat
      ensures Sorted(ucmp, D.UserView(internal.merged, s))
      ensures forall k, x :: (k, x) in D.UserView(internal.merged, s) <==>
          Reads(Everything(mem, imm, v), k, s, Found(x))
    {
      ViewIsWhatReadsFind(ucmp, lists, Everything(mem, imm, v), s);
    }
  }

  /** DBImpl::NewIterator, at a live snapshot or the latest sequence number: a cursor over the user's keys with a value
      at it, in order, each with the value that the updates up to it make of it. */
  method NewIterator<U(!new), V(!new)>(db: DBImpl<U, V>, snapshot: Option<nat>) returns (iter: D.DBIter<U, V>)
    requires db.Valid() && (snapshot.Some? ==> snapshot.value in db.snapshots)
    ensures fresh(iter) && fresh(iter.iter) && iter.Valid() && iter.ucmp == db.ucmp
    ensures Sorted(db.ucmp, iter.View().entries)
    ensures var s := if snapshot.Some? then snapshot.value else db.lastSequence;
            forall k, x :: k !in db.disturbed ==>
              ((k, x) in iter.View().entries <==> ReadsValue(db.written, k, s, Some(x)))
    ensures var updates := if snapshot.Some? then db.history[..snapshot.value] else db.history;
            forall k, x :: k !in db.disturbed ==>
              ((k, x) in iter.View().entries <==> ValueAfter(updates, k) == Some(x))
  {
    hide ValueAfter;
    hide M.MergingIterator.Valid;
    hide D.Scannable;
    hide Healthy;
    hide Faithful;
    hide Everything;
    hide Reads;
    hide ReadsValue;
    hide D.UserView;
    var s := if snapshot.Some? then snapshot.value else db.lastSequence;
    var internal := NewInternalIterator(db.ucmp, db.mem, db.imm, db.current, db.lastSequence, db.nextFileNumber);
    iter := new D.DBIter(db.ucmp, internal, s);
    SameFound(db.disturbed, db.written, Everything(db.mem, db.imm, db.current), db.horizon, s);
    RecordedFinds(db.history, db.written, db.lastSequence, s);
  }

  lemma RecordedFinds<U(!new), V(!new)>(history: seq<Update<U, V>>, written: set<Entry<U, V>>, last: nat, s: nat)
    requires Recorded(history, written, last) && s <= last
    ensures history[..last] == history
    ensures forall k, x :: ReadsValue(written, k, s, Some(x)) <==> ValueAfter(history[..s], k) == Some(x)
  {
    forall k, x ensures ReadsValue(written, k, s, Some(x)) <==> ValueAfter(history[..s], k) == Some(x) {
      RecordedReads(history, written, last, k, s, Some(x));
    }
  }

  lemma SameFound<U(!new), V(!new)>(except: iset<U>, written: set<Entry<U, V>>, S: set<Entry<U, V>>, horizon: nat,
                                    s: nat)
    requires Faithful(except, written, S, horizon) && horizon <= s
    ensures forall k, x :: k !in except ==> (Reads(S, k, s, Found(x)) <==> ReadsValue(written, k, s, Some(x)))
  {
    forall k, x | k !in except ensures Reads(S, k, s, Found(x)) <==> ReadsValue(written, k, s, Some(x)) {
      assert SameReads(written, S, k, horizon);
      assert ReadsValue(written, k, s, Some(x)) <==> ReadsValue(S, k, s, Some(x));
    }
  }
}
