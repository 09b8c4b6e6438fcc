/** Versions of the file set (db/version_set.cc): what a point read of the levelled
    files answers, against a read of all their entries at once. */
module Versions {
  import opened Order
  import opened Cursors
  import opened InternalKeys
  import opened Tables

  const NumLevels: nat := 7
  const MaxMemCompactLevel: nat := 2

  /** FileMetaData with the table it names. */
  datatype File<U, V> = File(number: nat, size: nat, smallest: InternalKey<U>, largest: InternalKey<U>,
      entries: Entries<U, V>)

  type Version<U, V> = seq<seq<File<U, V>>>

  ghost predicate FileOk<U(!new), V(!new)>(ucmp: Comparator<U>, f: File<U, V>) {
    && f.entries != []
    && Ordered(ucmp, f.entries)
    && f.smallest == f.entries[0].0
    && f.largest == f.entries[|f.entries| - 1].0
  }

  /** The file a table builder makes of a non-empty run of entries. */
  function TableOf<U, V>(number: nat, size: nat, entries: Entries<U, V>): File<U, V>
    requires entries != []
  {
    File(number, size, entries[0].0, entries[|entries| - 1].0, entries)
  }

  // ------------------------------------------------------- sets of entries

  ghost function Contents<U, V>(files: seq<File<U, V>>): set<Entry<U, V>> {
    set f, e | f in files && e in f.entries :: e
  }

  /** The newest entry of S that a reader of k at s may see. */
  ghost predicate BestOf<U(!new), V(!new)>(S: set<Entry<U, V>>, e: Entry<U, V>, k: U, s: nat) {
    && e in S && Matches(e, k, s)
    && forall x :: x in S && Matches(x, k, s) ==> Tag(x.0) <= Tag(e.0)
  }

  /** The flat read: r is what a reader of k at s gets from the entries S. */
  ghost predicate Reads<U(!new), V(!new)>(S: set<Entry<U, V>>, k: U, s: nat, r: Answer<V>) {
    match r
    case NotFound => forall x :: x in S ==> !Matches(x, k, s)
    case Found(_) => exists e :: e in S && BestOf(S, e, k, s) && AnswerOf(e) == r
    case Deleted => exists e :: e in S && BestOf(S, e, k, s) && AnswerOf(e) == r
  }

  /** For every user key, what A has is newer than what B has. */
  ghost predicate Newer<U(!new), V(!new)>(A: set<Entry<U, V>>, B: set<Entry<U, V>>) {
    forall a, b :: a in A && b in B && a.0.user == b.0.user ==> Tag(a.0) > Tag(b.0)
  }

  lemma ReadsUpperFirst<U(!new), V(!new)>(A: set<Entry<U, V>>, B: set<Entry<U, V>>, k: U, s: nat, r: Answer<V>)
    requires Newer(A, B) && r != NotFound && Reads(A, k, s, r)
    ensures Reads(A + B, k, s, r)
  {
    var e :| e in A && BestOf(A, e, k, s) && AnswerOf(e) == r;
    assert BestOf(A + B, e, k, s);
  }

  lemma ReadsThrough<U(!new), V(!new)>(A: set<Entry<U, V>>, B: set<Entry<U, V>>, k: U, s: nat, r: Answer<V>)
    requires Reads(A, k, s, NotFound) && Reads(B, k, s, r)
    ensures Reads(A + B, k, s, r)
  {
    if r != NotFound {
      var e :| e in B && BestOf(B, e, k, s) && AnswerOf(e) == r;
      assert BestOf(A + B, e, k, s);
    }
  }

  /** The flat read has one answer when no two entries share user key and tag. */
  ghost predicate Distinct<U(!new), V(!new)>(S: set<Entry<U, V>>) {
    forall x, y :: x in S && y in S && x.0.user == y.0.user && Tag(x.0) == Tag(y.0) ==> x == y
  }

  lemma ReadsUnique<U(!new), V(!new)>(S: set<Entry<U, V>>, k: U, s: nat, r: Answer<V>, r': Answer<V>)
    requires Distinct(S) && Reads(S, k, s, r) && Reads(S, k, s, r')
    ensures r == r'
  {
    if r != NotFound && r' != NotFound {
      var e :| e in S && BestOf(S, e, k, s) && AnswerOf(e) == r;
      var e' :| e' in S && BestOf(S, e', k, s) && AnswerOf(e') == r';
      assert Tag(e.0) <= Tag(e'.0) && Tag(e'.0) <= Tag(e.0);
      assert e == e';
    }
  }

  /** A lookup in one table is a flat read of its entries. */
  lemma LookupReads<U(!new), V(!new)>(ucmp: Comparator<U>, es: Entries<U, V>, k: U, s: nat)
    requires TotalOrder(ucmp) && Ordered(ucmp, es)
    ensures Reads((set e | e in es), k, s, Lookup(ucmp, es, k, s))
  {
    var S := set e | e in es;
    if exists x :: x in es && Matches(x, k, s) {
      var e := LookupIsNewest(ucmp, es, k, s);
      assert BestOf(S, e, k, s);
    } else {
      LookupOfNone(ucmp, es, k, s);
    }
  }

  // ------------------------------------------------------------- invariants

  ghost predicate FileBefore<U(!new), V(!new)>(ucmp: Comparator<U>, f: File<U, V>, g: File<U, V>) {
    InternalCompare(ucmp, f.largest, g.smallest) < 0
  }

  /** Levels above 0: sorted by key, ranges disjoint. */
  ghost predicate SortedFiles<U(!new), V(!new)>(ucmp: Comparator<U>, files: seq<File<U, V>>) {
    forall i, j {:trigger FileBefore(ucmp, files[i], files[j])} :: 0 <= i < j < |files| ==>
        FileBefore(ucmp, files[i], files[j])
  }

  ghost predicate FilesOk<U(!new), V(!new)>(ucmp: Comparator<U>, files: seq<File<U, V>>) {
    forall f :: f in files ==> FileOk(ucmp, f)
  }

  ghost predicate FileNewer<U(!new), V(!new)>(f: File<U, V>, g: File<U, V>) {
    Newer((set e | e in f.entries), (set e | e in g.entries))
  }

  /** Level 0: files may overlap, but a higher number means newer data. */
  ghost predicate NumberedByAge<U(!new), V(!new)>(files: seq<File<U, V>>) {
    forall i, j {:trigger FileNewer(files[i], files[j])} ::
      0 <= i < |files| && 0 <= j < |files| && files[i].number > files[j].number ==> FileNewer(files[i], files[j])
  }

  ghost predicate DistinctNumbers<U(!new), V(!new)>(files: seq<File<U, V>>) {
    forall i, j :: 0 <= i < j < |files| ==> files[i].number != files[j].number
  }

  /** Everything in levels l and deeper. */
  ghost function From<U, V>(v: Version<U, V>, l: nat): set<Entry<U, V>>
    decreases |v| - l
  {
    if l >= |v| then {} else Contents(v[l]) + From(v, l + 1)
  }

  ghost predicate Good<U(!new), V(!new)>(ucmp: Comparator<U>, v: Version<U, V>) {
    && |v| == NumLevels
    && (forall l :: 0 <= l < NumLevels ==> FilesOk(ucmp, v[l]))
    && (forall l :: 1 <= l < NumLevels ==> SortedFiles(ucmp, v[l]))
    && NumberedByAge(v[0])
    && (forall l :: 0 <= l < NumLevels ==> DistinctNumbers(v[l]))
    && (forall l {:trigger From(v, l + 1)} :: 0 <= l < NumLevels ==> Newer(Contents(v[l]), From(v, l + 1)))
  }

  // ------------------------------------------------------- reading one level

  lemma LargestAscends<U(!new), V(!new)>(ucmp: Comparator<U>, files: seq<File<U, V>>, i: nat, j: nat)
    requires TotalOrder(ucmp) && FilesOk(ucmp, files) && SortedFiles(ucmp, files) && i <= j < |files|
    ensures InternalCompare(ucmp, files[i].largest, files[j].largest) <= 0
  {
    var cmp := InternalComparator(ucmp);
    InternalIsTotal(ucmp);
    Laws(cmp);
    if i < j {
      assert FileBefore(ucmp, files[i], files[j]);
      assert FileOk(ucmp, files[j]);
      RangeOk(ucmp, files[j]);
      Transitive(cmp, files[i].largest, files[j].smallest, files[j].largest);
    } else {
      assert cmp(files[i].largest, files[i].largest) == 0;
    }
  }

  lemma RangeOk<U(!new), V(!new)>(ucmp: Comparator<U>, f: File<U, V>)
    requires TotalOrder(ucmp) && FileOk(ucmp, f)
    ensures InternalCompare(ucmp, f.smallest, f.largest) <= 0
  {
    InternalIsTotal(ucmp);
    SortedAt(InternalComparator(ucmp), f.entries, 0, |f.entries| - 1);
  }

  /** FindFile: the first file whose largest key is at or after the key. */
  method FindFile<U(!new), V(!new)>(ucmp: Comparator<U>, files: seq<File<U, V>>, key: InternalKey<U>)
      returns (right: nat)
    requires TotalOrder(ucmp) && FilesOk(ucmp, files) && SortedFiles(ucmp, files)
    ensures right <= |files|
    ensures forall i :: 0 <= i < right ==> InternalCompare(ucmp, files[i].largest, key) < 0
    ensures forall i :: right <= i < |files| ==> InternalCompare(ucmp, files[i].largest, key) >= 0
  {
    var left := 0;
    right := |files|;
    while left < right
      invariant left <= right <= |files|
      invariant forall i :: 0 <= i < left ==> InternalCompare(ucmp, files[i].largest, key) < 0
      invariant forall i :: right <= i < |files| ==> InternalCompare(ucmp, files[i].largest, key) >= 0
    {
      var mid := (left + right) / 2;
      MidDecides(ucmp, files, key, mid);
      if InternalCompare(ucmp, files[mid].largest, key) < 0 {
        left := mid + 1;
      } else {
        right := mid;
      }
    }
  }

  lemma MidDecides<U(!new), V(!new)>(ucmp: Comparator<U>, files: seq<File<U, V>>, key: InternalKey<U>, mid: nat)
    requires TotalOrder(ucmp) && FilesOk(ucmp, files) && SortedFiles(ucmp, files) && mid < |files|
    ensures InternalCompare(ucmp, files[mid].largest, key) < 0 ==>
              forall i :: 0 <= i <= mid ==> InternalCompare(ucmp, files[i].largest, key) < 0
    ensures InternalCompare(ucmp, files[mid].largest, key) >= 0 ==>
              forall i :: mid <= i < |files| ==> InternalCompare(ucmp, files[i].largest, key) >= 0
  {
    var cmp := InternalComparator(ucmp);
    InternalIsTotal(ucmp);
    Laws(cmp);
    if cmp(files[mid].largest, key) < 0 {
      forall i | 0 <= i <= mid ensures cmp(files[i].largest, key) < 0 {
        LargestAscends(ucmp, files, i, mid);
        Transitive(cmp, files[i].largest, files[mid].largest, key);
      }
    } else {
      forall i | mid <= i < |files| ensures cmp(files[i].largest, key) >= 0 {
        LargestAscends(ucmp, files, mid, i);
        Transitive(cmp, key, files[mid].largest, files[i].largest);
      }
    }
  }

  /** Every entry of a file lies between its smallest and largest key. */
  lemma EntryInRange<U(!new), V(!new)>(ucmp: Comparator<U>, f: File<U, V>, e: Entry<U, V>)
    requires TotalOrder(ucmp) && FileOk(ucmp, f) && e in f.entries
    ensures InternalCompare(ucmp, f.smallest, e.0) <= 0 && InternalCompare(ucmp, e.0, f.largest) <= 0
    ensures ucmp(f.smallest.user, e.0.user) <= 0 && ucmp(e.0.user, f.largest.user) <= 0
  {
    var cmp := InternalComparator(ucmp);
    var j :| 0 <= j < |f.entries| && f.entries[j] == e;
    InternalIsTotal(ucmp);
    Laws(ucmp);
    SortedAt(cmp, f.entries, 0, j);
    SortedAt(cmp, f.entries, j, |f.entries| - 1);
  }

  /** Files wholly before the lookup key hold nothing the reader may see. */
  lemma NothingBefore<U(!new), V(!new)>(ucmp: Comparator<U>, f: File<U, V>, k: U, s: nat)
    requires TotalOrder(ucmp) && FileOk(ucmp, f) && InternalCompare(ucmp, f.largest, LookupKey(k, s)) < 0
    ensures forall e :: e in f.entries ==> !Matches(e, k, s)
  {
    var cmp := InternalComparator(ucmp);
    InternalIsTotal(ucmp);
    forall e | e in f.entries ensures !Matches(e, k, s) {
      EntryInRange(ucmp, f, e);
      Transitive(cmp, e.0, f.largest, LookupKey(k, s));
      AgainstLookupKey(ucmp, e, k, s);
    }
  }

  /** What a later file of a sorted level holds for the reader, file f already holds newer. */
  lemma LaterIsOlder<U(!new), V(!new)>(ucmp: Comparator<U>, f: File<U, V>, g: File<U, V>, x: Entry<U, V>, k: U, s: nat)
      returns (e: Entry<U, V>)
    requires TotalOrder(ucmp) && FileOk(ucmp, f) && FileOk(ucmp, g) && FileBefore(ucmp, f, g)
    requires InternalCompare(ucmp, f.largest, LookupKey(k, s)) >= 0
    requires x in g.entries && Matches(x, k, s)
    ensures e in f.entries && Matches(e, k, s) && Tag(e.0) > Tag(x.0)
  {
    var cmp := InternalComparator(ucmp);
    InternalIsTotal(ucmp);
    Laws(ucmp);
    Laws(cmp);
    EntryInRange(ucmp, g, x);
    Transitive(cmp, f.largest, g.smallest, x.0);
    e := f.entries[|f.entries| - 1];
    AgainstLookupKey(ucmp, e, k, s);
  }

  lemma SortedLevelReads<U(!new), V(!new)>(ucmp: Comparator<U>, files: seq<File<U, V>>, k: U, s: nat, index: nat)
    requires TotalOrder(ucmp) && FilesOk(ucmp, files) && SortedFiles(ucmp, files) && index <= |files|
    requires forall i :: 0 <= i < index ==> InternalCompare(ucmp, files[i].largest, LookupKey(k, s)) < 0
    requires index < |files| ==> InternalCompare(ucmp, files[index].largest, LookupKey(k, s)) >= 0
    ensures Reads(Contents(files), k, s, if index < |files| then Lookup(ucmp, files[index].entries, k, s) else NotFound)
  {
    var S := Contents(files);
    forall i | 0 <= i < index ensures forall e :: e in files[i].entries ==> !Matches(e, k, s) {
      NothingBefore(ucmp, files[i], k, s);
    }
    if index < |files| {
      var f := files[index];
      assert FileOk(ucmp, f);
      LookupReads(ucmp, f.entries, k, s);
      forall i, x | index < i < |files| && x in files[i].entries && Matches(x, k, s)
        ensures exists e :: e in f.entries && Matches(e, k, s) && Tag(e.0) > Tag(x.0)
      {
        assert FileBefore(ucmp, f, files[i]);
        var e := LaterIsOlder(ucmp, f, files[i], x, k, s);
      }
      FirstFileDecides(files, index, k, s, Lookup(ucmp, f.entries, k, s));
    }
  }

  lemma FirstFileDecides<U(!new), V(!new)>(files: seq<File<U, V>>, index: nat, k: U, s: nat, r: Answer<V>)
    requires index < |files| && Reads((set e | e in files[index].entries), k, s, r)
    requires forall i :: 0 <= i < index ==> forall e :: e in files[i].entries ==> !Matches(e, k, s)
    requires forall i, x :: index < i < |files| && x in files[i].entries && Matches(x, k, s) ==>
                              exists e :: e in files[index].entries && Matches(e, k, s) && Tag(e.0) > Tag(x.0)
    ensures Reads(Contents(files), k, s, r)
  {
    var T, S := (set e | e in files[index].entries), Contents(files);
    forall x | x in S && Matches(x, k, s) ensures exists e :: e in T && Matches(e, k, s) && Tag(e.0) >= Tag(x.0) {
      var f :| f in files && x in f.entries;
      var i :| 0 <= i < |files| && files[i] == f;
      if i > index {
        var e :| e in files[index].entries && Matches(e, k, s) && Tag(e.0) > Tag(x.0);
        assert e in T;
      } else {
        assert i == index && x in T;
      }
    }
    if r != NotFound {
      var e :| e in T && BestOf(T, e, k, s) && AnswerOf(e) == r;
      assert files[index] in files;
      assert BestOf(S, e, k, s);
    }
  }

  method GetFromSortedLevel<U(!new), V(!new)>(ucmp: Comparator<U>, files: seq<File<U, V>>, k: U, s: nat)
      returns (r: Answer<V>)
    requires TotalOrder(ucmp) && FilesOk(ucmp, files) && SortedFiles(ucmp, files)
    ensures Reads(Contents(files), k, s, r)
  {
    var index := FindFile(ucmp, files, LookupKey(k, s));
    SortedLevelReads(ucmp, files, k, s, index);
    if index >= |files| {
      return NotFound;
    }
    if ucmp(k, files[index].smallest.user) < 0 {
      BeyondKey(ucmp, files[index], k, s);
      return NotFound;
    }
    r := Lookup(ucmp, files[index].entries, k, s);
  }

  lemma BeyondKey<U(!new), V(!new)>(ucmp: Comparator<U>, f: File<U, V>, k: U, s: nat)
    requires TotalOrder(ucmp) && FileOk(ucmp, f)
    requires ucmp(k, f.smallest.user) < 0 || ucmp(k, f.largest.user) > 0
    ensures forall e :: e in f.entries ==> !Matches(e, k, s)
    ensures Lookup(ucmp, f.entries, k, s) == NotFound
  {
    Laws(ucmp);
    forall e | e in f.entries ensures !Matches(e, k, s) {
      EntryInRange(ucmp, f, e);
    }
    LookupOfNone(ucmp, f.entries, k, s);
  }

  // ------------------------------------------------------------ reading level 0

  /** std::sort with NewestFirst. */
  function InsertByNumber<U, V>(f: File<U, V>, files: seq<File<U, V>>): seq<File<U, V>> {
    if files == [] || f.number > files[0].number then [f] + files
    else [files[0]] + InsertByNumber(f, files[1..])
  }

  function SortNewestFirst<U, V>(files: seq<File<U, V>>): seq<File<U, V>> {
    if files == [] then [] else InsertByNumber(files[0], SortNewestFirst(files[1..]))
  }

  ghost predicate Descending<U(!new), V(!new)>(files: seq<File<U, V>>) {
    forall i, j :: 0 <= i < j < |files| ==> files[i].number >= files[j].number
  }

  lemma {:induction false} InsertByNumberKeeps<U(!new), V(!new)>(f: File<U, V>, files: seq<File<U, V>>)
    ensures multiset(InsertByNumber(f, files)) == multiset{f} + multiset(files)
    ensures forall x :: x in InsertByNumber(f, files) <==> x == f || x in files
  {
    if !(files == [] || f.number > files[0].number) {
      InsertByNumberKeeps(f, files[1..]);
      assert files == [files[0]] + files[1..];
    }
  }

  lemma {:induction false} InsertByNumberSorts<U(!new), V(!new)>(f: File<U, V>, files: seq<File<U, V>>)
    requires Descending(files)
    ensures Descending(InsertByNumber(f, files))
  {
    if !(files == [] || f.number > files[0].number) {
      InsertByNumberSorts(f, files[1..]);
      InsertByNumberKeeps(f, files[1..]);
      var rest := InsertByNumber(f, files[1..]);
      forall i | 0 <= i < |rest| ensures files[0].number >= rest[i].number {
        assert rest[i] in rest;
        assert rest[i] == f || rest[i] in files[1..];
      }
    }
  }

  lemma {:induction false} SortNewestFirstSorts<U(!new), V(!new)>(files: seq<File<U, V>>)
    ensures multiset(SortNewestFirst(files)) == multiset(files)
    ensures forall x :: x in SortNewestFirst(files) <==> x in files
    ensures Descending(SortNewestFirst(files))
  {
    if files != [] {
      SortNewestFirstSorts(files[1..]);
      InsertByNumberKeeps(files[0], SortNewestFirst(files[1..]));
      InsertByNumberSorts(files[0], SortNewestFirst(files[1..]));
      assert files == [files[0]] + files[1..];
    }
  }

  /** Of the files searched newest first, the first with an answer decides. */
  lemma NewestFileDecides<U(!new), V(!new)>(ucmp: Comparator<U>, files: seq<File<U, V>>, sorted: seq<File<U, V>>,
                                            i: nat, k: U, s: nat)
    requires TotalOrder(ucmp) && FilesOk(ucmp, files) && NumberedByAge(files) && DistinctNumbers(files)
    requires Descending(sorted) && i < |sorted| && forall f :: f in sorted ==> f in files
    requires forall f :: f in files && f !in sorted ==> forall e :: e in f.entries ==> !Matches(e, k, s)
    requires forall j :: 0 <= j < i ==> forall e :: e in sorted[j].entries ==> !Matches(e, k, s)
    requires Lookup(ucmp, sorted[i].entries, k, s) != NotFound
    ensures Reads(Contents(files), k, s, Lookup(ucmp, sorted[i].entries, k, s))
  {
    var f := sorted[i];
    assert f in files && FileOk(ucmp, f);
    LookupReads(ucmp, f.entries, k, s);
    var T, S, r := (set e | e in f.entries), Contents(files), Lookup(ucmp, f.entries, k, s);
    var e :| e in T && BestOf(T, e, k, s) && AnswerOf(e) == r;
    forall x | x in S && Matches(x, k, s) ensures Tag(x.0) <= Tag(e.0) {
      var g :| g in files && x in g.entries;
      OlderElsewhere(ucmp, files, sorted, i, g, x, e, k, s);
    }
    assert BestOf(S, e, k, s);
  }

  lemma OlderElsewhere<U(!new), V(!new)>(ucmp: Comparator<U>, files: seq<File<U, V>>, sorted: seq<File<U, V>>, i: nat,
                                         g: File<U, V>, x: Entry<U, V>, e: Entry<U, V>, k: U, s: nat)
    requires NumberedByAge(files) && DistinctNumbers(files)
    requires Descending(sorted) && i < |sorted| && forall f :: f in sorted ==> f in files
    requires forall f :: f in files && f !in sorted ==> forall e :: e in f.entries ==> !Matches(e, k, s)
    requires forall j :: 0 <= j < i ==> forall e :: e in sorted[j].entries ==> !Matches(e, k, s)
    requires g in files && x in g.entries && Matches(x, k, s)
    requires BestOf((set y | y in sorted[i].entries), e, k, s)
    ensures Tag(x.0) <= Tag(e.0)
  {
    var f := sorted[i];
    var j :| 0 <= j < |sorted| && sorted[j] == g;
    assert i <= j && f.number >= g.number;
    var a :| 0 <= a < |files| && files[a] == f;
    var b :| 0 <= b < |files| && files[b] == g;
    if f.number > g.number {
      assert FileNewer(files[a], files[b]);
      assert x in (set y | y in g.entries);
    } else {
      assert a == b;
      assert x in (set y | y in f.entries);
    }
  }

  method GetFromLevel0<U(!new), V(!new)>(ucmp: Comparator<U>, files: seq<File<U, V>>, k: U, s: nat)
      returns (r: Answer<V>)
    requires TotalOrder(ucmp) && FilesOk(ucmp, files) && NumberedByAge(files) && DistinctNumbers(files)
    ensures Reads(Contents(files), k, s, r)
  {
    hide NumberedByAge;
    hide DistinctNumbers;
    hide SortNewestFirst;
    var tmp: seq<File<U, V>> := [];
    for i := 0 to |files|
      invariant forall f :: f in tmp ==> f in files
      invariant forall j :: 0 <= j < i && files[j] !in tmp ==> forall e :: e in files[j].entries ==> !Matches(e, k, s)
    {
      var f := files[i];
      if ucmp(k, f.smallest.user) >= 0 && ucmp(k, f.largest.user) <= 0 {
        tmp := tmp + [f];
      } else {
        assert FileOk(ucmp, f);
        BeyondKey(ucmp, f, k, s);
      }
    }
    var sorted := SortNewestFirst(tmp);
    SortNewestFirstSorts(tmp);
    assert forall f :: f in sorted ==> f in files;
    for i := 0 to |sorted|
      invariant forall j :: 0 <= j < i ==> forall e :: e in sorted[j].entries ==> !Matches(e, k, s)
    {
      r := Lookup(ucmp, sorted[i].entries, k, s);
      assert sorted[i] in sorted;
      if r != NotFound {
        NewestFileDecides(ucmp, files, sorted, i, k, s);
        return;
      }
      assert FileOk(ucmp, sorted[i]);
      NoAnswerNoMatch(ucmp, sorted[i].entries, k, s);
    }
    r := NotFound;
  }

  lemma NoAnswerNoMatch<U(!new), V(!new)>(ucmp: Comparator<U>, es: Entries<U, V>, k: U, s: nat)
    requires TotalOrder(ucmp) && Ordered(ucmp, es) && Lookup(ucmp, es, k, s) == NotFound
    ensures forall e :: e in es ==> !Matches(e, k, s)
  {
    LookupReads(ucmp, es, k, s);
    forall e | e in es ensures !Matches(e, k, s) {
      assert e in (set x | x in es);
    }
  }

  // --------------------------------------------------------- reading a version

  lemma LevelDecides<U(!new), V(!new)>(ucmp: Comparator<U>, v: Version<U, V>, l: nat, k: U, s: nat, r: Answer<V>)
    requires l < |v| && Newer(Contents(v[l]), From(v, l + 1)) && Reads(Contents(v[l]), k, s, r)
    ensures r != NotFound ==> Reads(From(v, l), k, s, r)
    ensures r == NotFound ==> forall r' :: Reads(From(v, l + 1), k, s, r') ==> Reads(From(v, l), k, s, r')
  {
    if r != NotFound {
      ReadsUpperFirst(Contents(v[l]), From(v, l + 1), k, s, r);
    } else {
      forall r' | Reads(From(v, l + 1), k, s, r') ensures Reads(From(v, l), k, s, r') {
        ReadsThrough(Contents(v[l]), From(v, l + 1), k, s, r');
      }
    }
  }

  /** Version::Get: level by level, it answers what a flat read of all entries would. */
  method Get<U(!new), V(!new)>(ucmp: Comparator<U>, v: Version<U, V>, k: U, s: nat) returns (r: Answer<V>)
    requires TotalOrder(ucmp) && Good(ucmp, v)
    ensures Reads(From(v, 0), k, s, r)
  {
    var level := 0;
    while level < NumLevels
      invariant 0 <= level <= NumLevels
      invariant forall r' :: Reads(From(v, level), k, s, r') ==> Reads(From(v, 0), k, s, r')
    {
      if level == 0 {
        r := GetFromLevel0(ucmp, v[level], k, s);
      } else {
        r := GetFromSortedLevel(ucmp, v[level], k, s);
      }
      LevelDecides(ucmp, v, level, k, s, r);
      if r != NotFound {
        return;
      }
      forall r' | Reads(From(v, level + 1), k, s, r') ensures Reads(From(v, 0), k, s, r') {
        assert Reads(From(v, level), k, s, r');
      }
      level := level + 1;
    }
    r := NotFound;
  }
}