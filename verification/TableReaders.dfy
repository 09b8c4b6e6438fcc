/** Reading a table file (table/table.cc Open, ReadMeta, ReadFilter, BlockReader, InternalGet): a point lookup
    finds what a search in all the entries would. */
module TableReaders {
  import opened Varints
  import opened Options
  import opened Order
  import opened Cursors
  import opened Separators
  import opened Blocks
  import opened BlockIters
  import opened TableBuilders
  import F = FilterBlocks
  import T = TwoLevels

  /** Widths: a block's bytes fit 32 bits, offsets 64. */
  ghost predicate Fits(file: Bytes, t: Layout) {
    && |file| < Max64 && |BlockBytes(t.index, 1)| < Max32
    && (t.interval > 0 ==> |BlockBytes(MetaEntries(t.filterName, t.filter), t.interval)| < Max32)
    && forall i :: 0 <= i < |t.blocks| ==> |BlockBytes(t.blocks[i], t.interval)| < Max32
  }

  // -------------------------------------------------------------------- blocks by handle

  /** Block::NewIterator over contents; None where the source makes an error or empty iterator. */
  method NewIterator(cmp: Comparator<Bytes>, data: Bytes, ghost es: Entries, ghost interval: nat)
      returns (it: Option<Iter>)
    ensures it.Some? ==> fresh(it.value) && it.value.Readable() && it.value.cmp == cmp && it.value.es == es
    ensures interval > 0 && data == BlockBytes(es, interval) && |data| < Max32 ==> it.Some? && it.value.WellFormed()
  {
    hide Encodes;
    hide BlockBytes;
    if interval > 0 && data == BlockBytes(es, interval) && |data| < Max32 {
      BlockEncodes(es, interval);
      SomeRestarts(data, es, interval);
    }
    var restarts := RestartOffset(data);
    if restarts.None? || NumRestarts(data) == 0 { return None; }
    var iter := new Iter(cmp, data, restarts.value, NumRestarts(data), es, Offsets(es, interval),
        Points(|es|, interval));
    it := Some(iter);
  }

  lemma SomeRestarts(data: Bytes, es: Entries, interval: nat)
    requires |data| >= 4 && Encodes(data, Offset(es, interval, |es|), NumRestarts(data), es, Offsets(es, interval),
        Points(|es|, interval))
    ensures NumRestarts(data) > 0
  {
  }

  /** The first entry of a block at or after a key. */
  method SeekInBlock(cmp: Comparator<Bytes>, data: Bytes, k: Bytes, ghost es: Entries, ghost interval: nat)
      returns (r: Option<(Bytes, Bytes)>)
    requires TotalOrder(cmp)
    ensures interval > 0 && data == BlockBytes(es, interval) && |data| < Max32 && Sorted(cmp, es) ==>
              r == if FirstAtOrAfter(cmp, es, k) < |es| then Some(es[FirstAtOrAfter(cmp, es, k)]) else None
  {
    hide Encodes;
    hide BlockBytes;
    ghost var good := interval > 0 && data == BlockBytes(es, interval) && |data| < Max32 && Sorted(cmp, es);
    var it := NewIterator(cmp, data, es, interval);
    if it.None? { return None; }
    var iter := it.value;
    iter.Seek(k);
    var valid := iter.IsValid();
    if !valid { return None; }
    var key := iter.Key();
    var value := iter.Value();
    r := Some((key, value));
  }

  /** BlockReader and a seek in the block. */
  method SeekAtHandle(cmp: Comparator<Bytes>, file: Bytes, handleValue: Bytes, verify: bool, k: Bytes, ghost h: Handle,
                      ghost es: Entries, ghost interval: nat)
    returns (r: Option<(Bytes, Bytes)>)
    requires TotalOrder(cmp)
    ensures
        interval > 0 && handleValue == HandleBytes(h) && Representable(h)
        && Stored(file, h, BlockBytes(es, interval)) && |BlockBytes(es, interval)| < Max32 && Sorted(cmp, es) ==>
              r == if FirstAtOrAfter(cmp, es, k) < |es| then Some(es[FirstAtOrAfter(cmp, es, k)]) else None
  {
    hide Stored;
    hide BlockBytes;
    hide DecodeHandle;
    if handleValue == HandleBytes(h) && Representable(h) { WholeHandle(h); }
    var handle := DecodeHandle(handleValue);
    if handle.None? { return None; }
    var contents := ReadBlock(file, handle.value.0, verify);
    if contents.None? { return None; }
    r := SeekInBlock(cmp, contents.value, k, es, interval);
  }

  lemma WholeHandle(h: Handle)
    requires Representable(h)
    ensures DecodeHandle(HandleBytes(h)) == Some((h, []))
  {
    HandleRoundTrip(h, []);
    assert HandleBytes(h) + [] == HandleBytes(h);
  }

  // ------------------------------------------------------------------- the index of a table

  lemma BlockKeys(cmp: Comparator<Bytes>, b: Entries, k: nat)
    requires TotalOrder(cmp) && b != [] && Sorted(cmp, b) && k < |b|
    ensures cmp(FirstKey(b), b[k].0) <= 0 && cmp(b[k].0, LastKey(b)) <= 0
  {
    SortedAt(cmp, b, 0, k);
    SortedAt(cmp, b, k, |b| - 1);
  }

  /** Index keys lie between the blocks. */
  ghost predicate Between(cmp: Comparator<Bytes>, blocks: seq<Entries>, index: Entries) {
    && |index| == |blocks|
    && forall i :: 0 <= i < |blocks| ==>
         && blocks[i] != [] && cmp(LastKey(blocks[i]), index[i].0) <= 0
         && (i + 1 < |blocks| ==> blocks[i + 1] != [] && cmp(index[i].0, FirstKey(blocks[i + 1])) < 0)
  }

  lemma IndexBetween(cmp: Comparator<Bytes>, separator: (Bytes, Bytes) -> Bytes, successor: Bytes -> Bytes,
                     blocks: seq<Entries>, handles: seq<Handle>, index: Entries)
    requires TotalOrder(cmp) && Documented(cmp, separator, successor)
    requires Ascending(cmp, blocks) && FullIndex(separator, successor, blocks, handles, index)
    ensures Between(cmp, blocks, index)
  {
    hide FullIndex;
    hide Ascending;
    FullIndexParts(separator, successor, blocks, handles, index);
    forall i | 0 <= i < |blocks|
      ensures blocks[i] != [] && cmp(LastKey(blocks[i]), index[i].0) <= 0
      ensures i + 1 < |blocks| ==> blocks[i + 1] != [] && cmp(index[i].0, FirstKey(blocks[i + 1])) < 0
    {
      IndexAt(cmp, separator, successor, blocks, handles, index, i);
    }
  }

  lemma IndexAt(cmp: Comparator<Bytes>, separator: (Bytes, Bytes) -> Bytes, successor: Bytes -> Bytes,
                blocks: seq<Entries>, handles: seq<Handle>, index: Entries, i: nat)
    requires Ascending(cmp, blocks) && FullIndex(separator, successor, blocks, handles, index) && i < |blocks|
    ensures |index| == |blocks| && blocks[i] != []
    ensures i + 1 < |blocks| ==>
              && blocks[i + 1] != [] && cmp(LastKey(blocks[i]), FirstKey(blocks[i + 1])) < 0
              && index[i].0 == separator(LastKey(blocks[i]), FirstKey(blocks[i + 1]))
    ensures i + 1 >= |blocks| ==> index[i].0 == successor(LastKey(blocks[i]))
  {
    var _ := index[i].0;
    if i + 1 < |blocks| { assert cmp(LastKey(blocks[i]), FirstKey(blocks[i + 1])) < 0; }
  }

  lemma {:induction false} BetweenOrder(cmp: Comparator<Bytes>, blocks: seq<Entries>, index: Entries, i: nat, j: nat)
    requires TotalOrder(cmp) && Ascending(cmp, blocks) && Between(cmp, blocks, index) && i < j < |blocks|
    ensures cmp(index[i].0, FirstKey(blocks[j])) < 0 && cmp(index[i].0, index[j].0) < 0
  {
    if i < j - 1 {
      BetweenOrder(cmp, blocks, index, i, j - 1);
      Transitive(cmp, index[i].0, index[j - 1].0, FirstKey(blocks[j]));
    }
    BlockKeys(cmp, blocks[j], |blocks[j]| - 1);
    Transitive(cmp, index[i].0, FirstKey(blocks[j]), LastKey(blocks[j]));
    Transitive(cmp, index[i].0, LastKey(blocks[j]), index[j].0);
  }

  lemma IndexSorted(cmp: Comparator<Bytes>, blocks: seq<Entries>, index: Entries)
    requires TotalOrder(cmp) && Ascending(cmp, blocks) && Between(cmp, blocks, index)
    ensures Sorted(cmp, index)
  {
    forall i, j | 0 <= i < j < |index| ensures Precedes(cmp, index, i, j) { BetweenOrder(cmp, blocks, index, i, j); }
  }

  /** The index with block numbers for handles. */
  function Numbered(index: Entries): seq<(Bytes, nat)> {
    seq(|index|, i requires 0 <= i < |index| => (index[i].0, i))
  }

  function BlockOf(blocks: seq<Entries>): nat -> Entries {
    (n: nat) => if n < |blocks| then blocks[n] else []
  }

  /** So a table's iterator is a two-level cursor over all its entries. */
  lemma TableIndexes(cmp: Comparator<Bytes>, blocks: seq<Entries>, index: Entries)
    requires TotalOrder(cmp) && Ascending(cmp, blocks) && Between(cmp, blocks, index)
    ensures T.Indexes(cmp, Numbered(index), BlockOf(blocks))
    ensures T.All(Numbered(index), BlockOf(blocks)) == Concat(blocks)
  {
    var ix, contents := Numbered(index), BlockOf(blocks);
    hide Ascending;
    hide Between;
    hide Sorted;
    SameLength(cmp, blocks, index);
    assert Sorted(cmp, ix) by { NumberedSorted(cmp, blocks, index); }
    forall i | 0 <= i < |ix| ensures Sorted(cmp, contents(ix[i].1)) { BlockSorted(cmp, blocks, i); }
    forall i, k | 0 <= i < |ix| && 0 <= k < |contents(ix[i].1)|
      ensures cmp(contents(ix[i].1)[k].0, ix[i].0) <= 0 && (i > 0 ==> cmp(ix[i - 1].0, contents(ix[i].1)[k].0) < 0)
    {
      KeyBetween(cmp, blocks, index, i, k);
    }
    AllIsConcat(blocks, index, |index|);
    assert blocks[..|blocks|] == blocks;
  }

  lemma SameLength(cmp: Comparator<Bytes>, blocks: seq<Entries>, index: Entries)
    requires Between(cmp, blocks, index)
    ensures |index| == |blocks|
  {
  }

  lemma BlockSorted(cmp: Comparator<Bytes>, blocks: seq<Entries>, i: nat)
    requires Ascending(cmp, blocks) && i < |blocks|
    ensures Sorted(cmp, blocks[i])
  {
  }

  lemma NumberedSorted(cmp: Comparator<Bytes>, blocks: seq<Entries>, index: Entries)
    requires TotalOrder(cmp) && Ascending(cmp, blocks) && Between(cmp, blocks, index)
    ensures Sorted(cmp, Numbered(index))
  {
    var ix := Numbered(index);
    forall i, j | 0 <= i < j < |ix| ensures Precedes(cmp, ix, i, j) { BetweenOrder(cmp, blocks, index, i, j); }
  }

  lemma KeyBetween(cmp: Comparator<Bytes>, blocks: seq<Entries>, index: Entries, i: nat, k: nat)
    requires TotalOrder(cmp) && Ascending(cmp, blocks) && Between(cmp, blocks, index) && i < |blocks| && k < |blocks[i]|
    ensures cmp(blocks[i][k].0, index[i].0) <= 0 && (i > 0 ==> cmp(index[i - 1].0, blocks[i][k].0) < 0)
  {
    BlockKeys(cmp, blocks[i], k);
    Transitive(cmp, blocks[i][k].0, LastKey(blocks[i]), index[i].0);
    if i > 0 { Transitive(cmp, index[i - 1].0, FirstKey(blocks[i]), blocks[i][k].0); }
  }

  lemma {:induction false} AllIsConcat(blocks: seq<Entries>, index: Entries, n: nat)
    requires n <= |index| == |blocks|
    ensures T.Joined(Numbered(index), BlockOf(blocks), n) == Concat(blocks[..n])
  {
    if n > 0 {
      AllIsConcat(blocks, index, n - 1);
      assert blocks[..n][..n - 1] == blocks[..n - 1];
    }
  }

  // ------------------------------------------------------------------------ point lookup

  function FirstFound(cmp: Comparator<Bytes>, es: Entries, k: Bytes): Option<(Bytes, Bytes)> {
    var n := FirstAtOrAfter(cmp, es, k);
    if n < |es| then Some(es[n]) else None
  }

  /** What InternalGet finds: the block the index points at, unless its filter says no, and the first entry there. */
  function Lookup(cmp: Comparator<Bytes>, t: Layout, policy: Option<F.Policy>, filter: Option<Bytes>,
                  k: Bytes): Option<(Bytes, Bytes)>
    requires |t.index| == |t.blocks| == |t.handles|
  {
    var i := FirstAtOrAfter(cmp, t.index, k);
    if i == |t.index| then None
    else if filter.Some? && policy.Some? && !F.KeyMayMatch(policy.value, filter.value, t.handles[i].offset, k) then None
    else FirstFound(cmp, t.blocks[i], k)
  }

  ghost predicate ReadableTable(cmp: Comparator<Bytes>, separator: (Bytes, Bytes) -> Bytes, successor: Bytes -> Bytes,
                                file: Bytes, t: Layout)
  {
    && TotalOrder(cmp) && Documented(cmp, separator, successor)
    && IsTable(cmp, separator, successor, file, t) && Fits(file, t)
  }

  lemma ReadableParts(cmp: Comparator<Bytes>, separator: (Bytes, Bytes) -> Bytes, successor: Bytes -> Bytes,
                      file: Bytes, t: Layout)
    requires ReadableTable(cmp, separator, successor, file, t)
    ensures |t.index| == |t.blocks| == |t.handles| && t.interval > 0 && Sorted(cmp, t.index)
    ensures |BlockBytes(t.index, 1)| < Max32
    ensures forall i :: 0 <= i < |t.index| ==> t.index[i].1 == HandleBytes(t.handles[i])
    ensures Ascending(cmp, t.blocks) && Between(cmp, t.blocks, t.index)
  {
    hide Stored;
    hide Laid;
    hide Ascending;
    hide FullIndex;
    hide Between;
    hide Documented;
    hide Sorted;
    FullIndexParts(separator, successor, t.blocks, t.handles, t.index);
    IndexBetween(cmp, separator, successor, t.blocks, t.handles, t.index);
    IndexSorted(cmp, t.blocks, t.index);
  }

  lemma FullIndexParts(separator: (Bytes, Bytes) -> Bytes, successor: Bytes -> Bytes, blocks: seq<Entries>,
                       handles: seq<Handle>, index: Entries)
    requires FullIndex(separator, successor, blocks, handles, index)
    ensures |index| == |blocks| == |handles|
    ensures forall i :: 0 <= i < |index| ==> index[i].1 == HandleBytes(handles[i])
  {
  }

  lemma ReadableBlock(cmp: Comparator<Bytes>, separator: (Bytes, Bytes) -> Bytes, successor: Bytes -> Bytes,
                      file: Bytes, t: Layout, i: nat)
    requires ReadableTable(cmp, separator, successor, file, t) && i < |t.blocks|
    ensures |t.handles| == |t.blocks| && Representable(t.handles[i]) && |BlockBytes(t.blocks[i], t.interval)| < Max32
        && Sorted(cmp, t.blocks[i])
    ensures Stored(file, t.handles[i], BlockBytes(t.blocks[i], t.interval))
  {
    hide FullIndex;
    hide Stored;
    InFile(file, t.handles[i], BlockBytes(t.blocks[i], t.interval), file);
  }

  method InternalGet(cmp: Comparator<Bytes>, file: Bytes, index: Bytes, filter: Option<Bytes>, policy: Option<F.Policy>,
                     verify: bool, k: Bytes, ghost separator: (Bytes, Bytes) -> Bytes, ghost successor: Bytes -> Bytes,
                     ghost t: Layout)
    returns (r: Option<(Bytes, Bytes)>)
    requires TotalOrder(cmp)
    ensures ReadableTable(cmp, separator, successor, file, t) && index == BlockBytes(t.index, 1) ==>
              |t.index| == |t.blocks| == |t.handles| && r == Lookup(cmp, t, policy, filter, k)
  {
    hide ReadableTable;
    hide BlockBytes;
    hide F.KeyMayMatch;
    hide DecodeHandle;
    ghost var good := ReadableTable(cmp, separator, successor, file, t) && index == BlockBytes(t.index, 1);
    if good { ReadableParts(cmp, separator, successor, file, t); }
    ghost var i := if good then FirstAtOrAfter(cmp, t.index, k) else 0;
    if good && i < |t.index| {
      ReadableBlock(cmp, separator, successor, file, t, i);
      WholeHandle(t.handles[i]);
    }
    var found := SeekInBlock(cmp, index, k, t.index, 1);
    if found.None? { return None; }
    var handleValue := found.value.1;
    if filter.Some? && policy.Some? {
      var handle := DecodeHandle(handleValue);
      if handle.Some? && !F.KeyMayMatch(policy.value, filter.value, handle.value.0.offset, k) {
        return None;
      }
    }
    r := SeekAtHandle(cmp, file, handleValue, verify, k, if good && i < |t.index| then t.handles[i] else Handle(0, 0),
        if good && i < |t.index| then t.blocks[i] else [], t.interval);
  }

  /** Open: footer, index block, and the filter if the policy's name is in the metaindex. */
  method Open(cmp: Comparator<Bytes>, file: Bytes, filterName: Option<Bytes>, verify: bool,
              ghost separator: (Bytes, Bytes) -> Bytes, ghost successor: Bytes -> Bytes, ghost t: Layout)
    returns (r: Option<(Bytes, Option<Bytes>)>)
    ensures ReadableTable(cmp, separator, successor, file, t) ==>
              r == Some((BlockBytes(t.index, 1),
                  if t.filter.Some? && filterName == Some(t.filterName) then Some(t.filter.value.1) else None))
  {
    hide ReadableTable;
    hide BlockBytes;
    hide DecodeFooter;
    hide Stored;
    ghost var good := ReadableTable(cmp, separator, successor, file, t);
    if good { ReadableEnds(cmp, separator, successor, file, t); }
    if |file| < FooterLength { return None; }
    var footer := DecodeFooter(file[|file| - FooterLength..]);
    if footer.None? { return None; }
    var index := ReadBlock(file, footer.value.1, verify);
    if index.None? { return None; }
    var filter: Option<Bytes> := None;
    if filterName.Some? {
      filter := ReadMeta(file, footer.value.0, filterName.value, verify, t, good);
    }
    r := Some((index.value, filter));
  }

  lemma ReadableEnds(cmp: Comparator<Bytes>, separator: (Bytes, Bytes) -> Bytes, successor: Bytes -> Bytes, file: Bytes,
                     t: Layout)
    requires ReadableTable(cmp, separator, successor, file, t)
    ensures |file| >= FooterLength && DecodeFooter(file[|file| - FooterLength..]) ==
        Some((t.metaindexHandle, t.indexHandle))
    ensures Stored(file, t.indexHandle, BlockBytes(t.index, 1)) && MetaReadable(file, t)
  {
    hide Stored;
    hide DecodeFooter;
    if t.filter.Some? { InFile(file, t.filter.value.0, t.filter.value.1, file); }
  }

  ghost predicate MetaReadable(file: Bytes, t: Layout) {
    && t.interval > 0
    && Stored(file, t.metaindexHandle, BlockBytes(MetaEntries(t.filterName, t.filter), t.interval))
    && |BlockBytes(MetaEntries(t.filterName, t.filter), t.interval)| < Max32
    && (t.filter.Some? ==> Stored(file, t.filter.value.0, t.filter.value.1) && Representable(t.filter.value.0))
  }

  /** ReadMeta and ReadFilter: errors mean no filter. */
  method ReadMeta(file: Bytes, metaindexHandle: Handle, filterName: Bytes, verify: bool, ghost t: Layout,
                  ghost good: bool) returns (filter: Option<Bytes>)
    requires good ==> MetaReadable(file, t) && metaindexHandle == t.metaindexHandle
    ensures good ==> filter == if t.filter.Some? && filterName == t.filterName then Some(t.filter.value.1) else None
  {
    hide BlockBytes;
    hide DecodeHandle;
    hide Stored;
    ghost var meta := MetaEntries(t.filterName, t.filter);
    BytewiseIsTotal();
    OneEntry(meta, filterName);
    if good && t.filter.Some? { WholeHandle(t.filter.value.0); }
    var contents := ReadBlock(file, metaindexHandle, verify);
    if contents.None? { return None; }
    var found := SeekInBlock(Bytewise, contents.value, filterName, meta, t.interval);
    if found.None? || found.value.0 != filterName { return None; }
    var handle := DecodeHandle(found.value.1);
    if handle.None? { return None; }
    filter := ReadBlock(file, handle.value.0, verify);
  }

  lemma OneEntry(es: Entries, k: Bytes)
    requires |es| <= 1
    ensures Sorted(Bytewise, es)
    ensures FirstFound(Bytewise, es, k) == if es != [] && Bytewise(es[0].0, k) >= 0 then Some(es[0]) else None
    ensures es != [] && es[0].0 == k ==> Bytewise(es[0].0, k) >= 0
  {
    if es != [] {
      assert es[1..] == [];
      BytewiseLaws(es[0].0, k);
    }
  }

  // --------------------------------------------------------------- lookups of internal keys

  function UserPart(k: Bytes): Bytes { if |k| >= 8 then UserKey(k) else k }

  function UserParts(keys: seq<Bytes>): seq<Bytes> { seq(|keys|, i requires 0 <= i < |keys| => UserPart(keys[i])) }

  /** InternalFilterPolicy: the user's policy, on user keys. */
  function InternalPolicy(p: F.Policy): F.Policy {
    F.Policy((keys: seq<Bytes>) => p.create(UserParts(keys)),
        (key: Bytes, filter: Bytes) => p.keyMayMatch(UserPart(key), filter))
  }

  lemma InternalNeverRejects(p: F.Policy)
    requires F.NeverRejects(p)
    ensures F.NeverRejects(InternalPolicy(p))
  {
    var q := InternalPolicy(p);
    forall keys: seq<Bytes>, i: nat | i < |keys| ensures q.keyMayMatch(keys[i], q.create(keys)) {
      var users := UserParts(keys);
      assert p.keyMayMatch(users[i], p.create(users));
    }
  }

  /** Only the user key matters to it. */
  lemma SameAnswer(p: F.Policy, filter: Bytes, offset: nat, a: Bytes, b: Bytes)
    requires UserPart(a) == UserPart(b)
    ensures F.KeyMayMatch(InternalPolicy(p), filter, offset, a) == F.KeyMayMatch(InternalPolicy(p), filter, offset, b)
  {
    hide F.WordAt;
    hide F.Shifted;
  }

  lemma InternalDocumented(ucmp: Comparator<Bytes>, separator: (Bytes, Bytes) -> Bytes, successor: Bytes -> Bytes)
    requires TotalOrder(ucmp) && Shortens(ucmp, separator)
    ensures TotalOrder(InternalComparator(ucmp))
    ensures Documented(InternalComparator(ucmp), ISeparator(ucmp, separator), ISuccessor(ucmp, successor))
  {
    InternalIsTotal(ucmp);
    var cmp := InternalComparator(ucmp);
    forall a: Bytes, b: Bytes | cmp(a, b) < 0
      ensures cmp(a, InternalSeparator(ucmp, separator, a, b)) <= 0
          && cmp(InternalSeparator(ucmp, separator, a, b), b) < 0
    {
      InternalLaws(ucmp, a, a);
      if |a| >= 8 && |b| >= 8 { InternalSeparatorIs(ucmp, separator, a, b); }
    }
    forall a: Bytes ensures cmp(a, InternalSuccessor(ucmp, successor, a)) <= 0 {
      InternalLaws(ucmp, a, a);
      if |a| >= 8 { InternalSuccessorIs(ucmp, successor, a); }
    }
  }

  function ISeparator(ucmp: Comparator<Bytes>, separator: (Bytes, Bytes) -> Bytes): (Bytes, Bytes) -> Bytes {
    (a: Bytes, b: Bytes) => InternalSeparator(ucmp, separator, a, b)
  }

  function ISuccessor(ucmp: Comparator<Bytes>, successor: Bytes -> Bytes): Bytes -> Bytes {
    (a: Bytes) => InternalSuccessor(ucmp, successor, a)
  }

  /** Keys a separator can hide, those behind its block but not behind it, have other user keys than the next block's
      first. */
  lemma GapHasOtherUser(ucmp: Comparator<Bytes>, separator: (Bytes, Bytes) -> Bytes, last: Bytes, first: Bytes,
                        k: Bytes)
    requires TotalOrder(ucmp) && Shortens(ucmp, separator)
    requires |last| >= 8 && |first| >= 8 && |k| >= 8 && InternalCompare(ucmp, last, first) < 0
    requires InternalCompare(ucmp, last, k) < 0 && InternalCompare(ucmp,
        InternalSeparator(ucmp, separator, last, first), k) >= 0
    ensures UserKey(k) != UserKey(first)
  {
    InternalSeparatorIs(ucmp, separator, last, first);
    InternalLaws(ucmp, last, k);
    Laws(ucmp);
  }

  ghost predicate InternalTable(ucmp: Comparator<Bytes>, separator: (Bytes, Bytes) -> Bytes, successor: Bytes -> Bytes,
                                file: Bytes, t: Layout)
  {
    && TotalOrder(ucmp) && Shortens(ucmp, separator)
    && ReadableTable(InternalComparator(ucmp), ISeparator(ucmp, separator), ISuccessor(ucmp, successor), file, t)
    && forall i, k :: 0 <= i < |t.blocks| && 0 <= k < |t.blocks[i]| ==> |t.blocks[i][k].0| >= 8
  }

  lemma NumberedSearch(cmp: Comparator<Bytes>, index: Entries, k: Bytes)
    requires TotalOrder(cmp) && Sorted(cmp, Numbered(index))
    ensures FirstAtOrAfter(cmp, Numbered(index), k) == FirstAtOrAfter(cmp, index, k)
  {
    FirstAtOrAfterSplits(cmp, index, k);
    FirstAtOrAfterIs(cmp, Numbered(index), k, FirstAtOrAfter(cmp, index, k));
  }

  lemma NumberedAt(blocks: seq<Entries>, index: Entries, i: nat)
    requires |index| == |blocks|
    ensures |Numbered(index)| == |index|
    ensures i < |index| ==> BlockOf(blocks)(Numbered(index)[i].1) == blocks[i]
  {
  }

  lemma Landing(cmp: Comparator<Bytes>, blocks: seq<Entries>, index: Entries, k: Bytes, i: nat, j: nat)
    requires TotalOrder(cmp) && Ascending(cmp, blocks) && Between(cmp, blocks, index) && |index| == |blocks|
    requires i == FirstAtOrAfter(cmp, index, k) && j == if i < |index| then FirstAtOrAfter(cmp, blocks[i], k) else 0
    ensures |Numbered(index)| == |index|
    ensures FirstAtOrAfter(cmp, Concat(blocks), k) == T.Start(Numbered(index), BlockOf(blocks), i) + j
    ensures T.All(Numbered(index), BlockOf(blocks)) == Concat(blocks)
  {
    hide Ascending;
    hide Between;
    hide Sorted;
    hide T.Indexes;
    hide Concat;
    hide T.Joined;
    hide Numbered;
    hide BlockOf;
    hide FirstAtOrAfter;
    TableIndexes(cmp, blocks, index);
    NumberedSorted(cmp, blocks, index);
    NumberedSearch(cmp, index, k);
    NumberedAt(blocks, index, i);
    T.SeekLands(cmp, Numbered(index), BlockOf(blocks), k, i, j);
  }

  /** Where the first entry at or after k lies: in the block the index points at, or first in the one behind it. */
  lemma FirstLies(cmp: Comparator<Bytes>, blocks: seq<Entries>, index: Entries, k: Bytes)
    requires TotalOrder(cmp) && Ascending(cmp, blocks) && Between(cmp, blocks, index) && |index| == |blocks|
    ensures var i := FirstAtOrAfter(cmp, index, k);
            FirstFound(cmp, Concat(blocks), k) ==
              if i == |index| then None
              else if FirstFound(cmp, blocks[i], k).Some? then FirstFound(cmp, blocks[i], k)
              else if i + 1 < |blocks| && blocks[i + 1] != [] then Some(blocks[i + 1][0]) else None
  {
    hide Ascending;
    hide Between;
    hide Concat;
    hide T.Joined;
    hide Numbered;
    hide BlockOf;
    hide FirstAtOrAfter;
    var ix, contents := Numbered(index), BlockOf(blocks);
    var i := FirstAtOrAfter(cmp, index, k);
    var j := if i < |index| then FirstAtOrAfter(cmp, blocks[i], k) else 0;
    Landing(cmp, blocks, index, k, i, j);
    NumberedAt(blocks, index, i);
    if i < |index| {
      if j < |blocks[i]| {
        T.BlockLies(ix, contents, i, j);
      } else {
        T.NextStart(ix, contents, i);
        if i + 1 < |blocks| {
          NotEmpty(cmp, blocks, i + 1);
          NumberedAt(blocks, index, i + 1);
          T.BlockLies(ix, contents, i + 1, 0);
        }
      }
    }
  }

  lemma NotEmpty(cmp: Comparator<Bytes>, blocks: seq<Entries>, i: nat)
    requires Ascending(cmp, blocks) && i < |blocks|
    ensures blocks[i] != []
  {
  }

  /** InternalGet is exact for the user key it is asked about: if the first entry at or after k has k's user key, that
      entry is found, whatever the separators and the filter; otherwise at most an entry of another user key is. */
  lemma LookupIsExact(ucmp: Comparator<Bytes>, separator: (Bytes, Bytes) -> Bytes, successor: Bytes -> Bytes,
                      file: Bytes, t: Layout, policy: F.Policy, filter: Option<Bytes>, k: Bytes)
    requires InternalTable(ucmp, separator, successor, file, t) && |k| >= 8
    requires filter.Some? ==> Passes(InternalPolicy(policy), filter.value, t.blocks, t.handles)
    ensures |t.index| == |t.blocks| == |t.handles|
    ensures var cmp := InternalComparator(ucmp);
            var found, first := Lookup(cmp, t, Some(InternalPolicy(policy)), filter, k),
                FirstFound(cmp, Concat(t.blocks), k);
            && (first.Some? && UserPart(first.value.0) == UserKey(k) ==> found == first)
            && (found.Some? ==> found == first)
  {
    hide ReadableTable;
    hide Ascending;
    hide Between;
    hide Sorted;
    hide Passes;
    hide F.KeyMayMatch;
    hide InternalCompare;
    hide Concat;
    hide FirstFound;
    hide FirstAtOrAfter;
    var cmp := InternalComparator(ucmp);
    InternalIsTotal(ucmp);
    ReadableParts(cmp, ISeparator(ucmp, separator), ISuccessor(ucmp, successor), file, t);
    FirstLies(cmp, t.blocks, t.index, k);
    var i := FirstAtOrAfter(cmp, t.index, k);
    if i < |t.index| {
      var inBlock := FirstFound(cmp, t.blocks[i], k);
      if inBlock.Some? {
        if filter.Some? && UserPart(inBlock.value.0) == UserKey(k) {
          MatchedPasses(cmp, policy, filter.value, t, i, k);
        }
      } else if i + 1 < |t.blocks| && t.blocks[i + 1] != [] {
        GapIsOtherUser(ucmp, separator, successor, file, t, i, k);
      }
    }
  }

  /** The filter lets a key through whose user key the block holds. */
  lemma MatchedPasses(cmp: Comparator<Bytes>, policy: F.Policy, filter: Bytes, t: Layout, i: nat, k: Bytes)
    requires Passes(InternalPolicy(policy), filter, t.blocks, t.handles) && i < |t.blocks|
    requires FirstFound(cmp, t.blocks[i], k).Some? && UserPart(FirstFound(cmp, t.blocks[i], k).value.0) == UserPart(k)
    ensures i < |t.handles| && F.KeyMayMatch(InternalPolicy(policy), filter, t.handles[i].offset, k)
  {
    hide F.KeyMayMatch;
    var j := FirstAtOrAfter(cmp, t.blocks[i], k);
    SameAnswer(policy, filter, t.handles[i].offset, t.blocks[i][j].0, k);
  }

  /** A key the whole block i lies before, though its index entry does not, is not of the next block's first user. */
  lemma GapIsOtherUser(ucmp: Comparator<Bytes>, separator: (Bytes, Bytes) -> Bytes, successor: Bytes -> Bytes,
                       file: Bytes, t: Layout, i: nat, k: Bytes)
    requires InternalTable(ucmp, separator, successor, file, t) && |k| >= 8 && |t.index| == |t.blocks|
    requires i == FirstAtOrAfter(InternalComparator(ucmp), t.index, k) && i + 1 < |t.blocks| && t.blocks[i + 1] != []
    requires FirstFound(InternalComparator(ucmp), t.blocks[i], k).None?
    ensures UserPart(t.blocks[i + 1][0].0) != UserKey(k)
  {
    hide InternalCompare;
    hide FirstAtOrAfter;
    hide BlockBytes;
    hide Stored;
    hide Sorted;
    var cmp := InternalComparator(ucmp);
    var b, next := t.blocks[i], t.blocks[i + 1];
    assert b != [] && cmp(LastKey(b), FirstKey(next)) < 0;
    assert t.index[i].0 == InternalSeparator(ucmp, separator, LastKey(b), FirstKey(next));
    FirstAtOrAfterSplits(cmp, t.index, k);
    FirstAtOrAfterSplits(cmp, b, k);
    GapHasOtherUser(ucmp, separator, LastKey(b), FirstKey(next), k);
  }
}
