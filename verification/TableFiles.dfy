/** A table from end to end: built from any increasing entries, opened, and looked into. */
module TableFiles {
  import opened Varints
  import opened Options
  import opened Order
  import opened Cursors
  import opened Separators
  import opened Blocks
  import opened TableBuilders
  import opened TableReaders
  import F = FilterBlocks

  lemma Ascends(cmp: Comparator<Bytes>, entries: Entries, i: nat)
    requires TotalOrder(cmp) && Sorted(cmp, entries) && 0 < i < |entries|
    ensures cmp(entries[i].0, entries[i - 1].0) > 0
  {
    SortedAt(cmp, entries, i - 1, i);
    Laws(cmp);
  }

  lemma NothingInNone()
    ensures Concat([]) == []
  {
  }

  lemma EmptyNotFull(interval: nat, blockSize: nat)
    ensures NotFull([], interval, blockSize)
  {
  }

  /** Adding all entries, and Finish.  Every block but the last ends with the entry that brings it to the block size. */
  method BuildTable(cmp: Comparator<Bytes>, separator: (Bytes, Bytes) -> Bytes, successor: Bytes -> Bytes,
                    blockSize: nat, interval: nat, policy: Option<F.Policy>, filterName: Bytes, entries: Entries)
                    returns (file: Bytes, ghost t: Layout)
    requires interval >= 1 && TotalOrder(cmp) && Sorted(cmp, entries)
    ensures Concat(t.blocks) == entries && t.filterName == filterName && (t.filter.Some? <==> policy.Some?)
    ensures t.interval == interval && forall i :: 0 <= i < |t.blocks| ==>
        JustFull(t.blocks[i], interval, blockSize)
        || (i == |t.blocks| - 1 && NotFull(t.blocks[i], interval, blockSize))
    ensures |file| < Max64 ==> IsTable(cmp, separator, successor, file, t)
    ensures policy.Some? && |t.filter.value.1| < Max32 && F.NeverRejects(policy.value) ==>
        Passes(policy.value, t.filter.value.1, t.blocks, t.handles)
  {
    hide TableBuilder.Valid;
    hide Sorted;
    hide TotalOrder;
    hide IsTable;
    hide Passes;
    hide Concat;
    hide F.NeverRejects;
    hide JustFull;
    hide NotFull;
    hide BlockBytes;
    EmptyNotFull(interval, blockSize);
    var builder := new TableBuilder(cmp, separator, successor, blockSize, interval, policy);
    NothingInNone();
    for i := 0 to |entries|
      invariant builder.Valid() && builder.Added() == entries[..i] && builder.numEntries == i
      invariant i > 0 ==> builder.lastKey == entries[i - 1].0
      invariant forall b :: b in builder.blocks ==> JustFull(b, interval, blockSize)
      invariant NotFull(builder.dataBlock.entries, interval, blockSize)
    {
      GrowsToFull(builder.dataBlock.entries, entries[i], interval, blockSize);
      if i > 0 {
        Ascends(cmp, entries, i);
      }
      builder.Add(entries[i].0, entries[i].1);
      assert entries[..i] + [entries[i]] == entries[..i + 1];
    }
    assert entries[..|entries|] == entries;
    t := builder.Finish(filterName);
    file := builder.file;
  }

  lemma StoredFits(file: Bytes, h: Handle, contents: Bytes)
    requires Stored(file, h, contents)
    ensures |contents| <= |file|
  {
  }

  /** In a file of less than 32 bits' length everything is as small as the reader wants it. */
  lemma SmallFits(cmp: Comparator<Bytes>, separator: (Bytes, Bytes) -> Bytes, successor: Bytes -> Bytes, file: Bytes,
                  t: Layout)
    requires IsTable(cmp, separator, successor, file, t) && |file| < Max32
    ensures Fits(file, t) && (t.filter.Some? ==> |t.filter.value.1| < Max32)
  {
    hide Stored;
    hide BlockBytes;
    hide DecodeFooter;
    hide Ascending;
    hide FullIndex;
    StoredFits(file, t.indexHandle, BlockBytes(t.index, 1));
    StoredFits(file, t.metaindexHandle, BlockBytes(MetaEntries(t.filterName, t.filter), t.interval));
    if t.filter.Some? { StoredFits(file, t.filter.value.0, t.filter.value.1); }
    forall i | 0 <= i < |t.blocks| ensures |BlockBytes(t.blocks[i], t.interval)| < Max32 {
      StoredFits(file, t.handles[i], BlockBytes(t.blocks[i], t.interval));
    }
  }

  lemma {:induction false} InConcat(blocks: seq<Entries>, i: nat, k: nat)
    requires i < |blocks| && k < |blocks[i]|
    ensures blocks[i][k] in Concat(blocks)
  {
    if i < |blocks| - 1 { InConcat(blocks[..|blocks| - 1], i, k); }
  }

  /** The lookup meets the promise made for the entry it should find. */
  ghost predicate Exact(cmp: Comparator<Bytes>, entries: Entries, k: Bytes, found: Option<(Bytes, Bytes)>)
    requires |k| >= 8
  {
    var first := FirstFound(cmp, entries, k);
    && (first.Some? && UserPart(first.value.0) == UserKey(k) ==> found == first)
    && (found.Some? ==> found == first)
  }

  /** Table::Open and InternalGet on a table of internal keys. */
  method TableGet(ucmp: Comparator<Bytes>, file: Bytes, policy: Option<F.Policy>, filterName: Bytes, verify: bool,
                  k: Bytes, ghost separator: (Bytes, Bytes) -> Bytes, ghost successor: Bytes -> Bytes, ghost t: Layout)
                  returns (found: Option<(Bytes, Bytes)>)
    requires InternalTable(ucmp, separator, successor, file, t) && |k| >= 8
    requires t.filterName == filterName && (t.filter.Some? <==> policy.Some?)
    requires policy.Some? ==> Passes(InternalPolicy(policy.value), t.filter.value.1, t.blocks, t.handles)
    ensures Exact(InternalComparator(ucmp), Concat(t.blocks), k, found)
  {
    hide ReadableTable;
    hide Passes;
    hide BlockBytes;
    hide Concat;
    hide FirstFound;
    hide InternalCompare;
    ghost var iseparator, isuccessor := ISeparator(ucmp, separator), ISuccessor(ucmp, successor);
    var cmp := InternalComparator(ucmp);
    InternalIsTotal(ucmp);
    var table := Open(cmp, file, if policy.Some? then Some(filterName) else None, verify, iseparator, isuccessor, t);
    var ipolicy := if policy.Some? then Some(InternalPolicy(policy.value)) else None;
    found := InternalGet(cmp, file, table.value.0, table.value.1, ipolicy, verify, k, iseparator, isuccessor, t);
    if policy.Some? {
      LookupIsExact(ucmp, separator, successor, file, t, policy.value, table.value.1, k);
    } else {
      LookupIsExact(ucmp, separator, successor, file, t, NoPolicy(), None, k);
      WithoutFilter(cmp, t, k);
    }
  }

  function NoPolicy(): F.Policy { F.Policy((keys: seq<Bytes>) => [], (key: Bytes, filter: Bytes) => true) }

  lemma WithoutFilter(cmp: Comparator<Bytes>, t: Layout, k: Bytes)
    requires |t.index| == |t.blocks| == |t.handles|
    ensures Lookup(cmp, t, Some(InternalPolicy(NoPolicy())), None, k) == Lookup(cmp, t, None, None, k)
  {
  }

  /** Whatever increasing internal keys a table is built from: if the first entry at or after k has k's user key,
      looking k up in the finished file finds just that entry, with or without a filter; no other is ever found. */
  method BuildThenGet(ucmp: Comparator<Bytes>, separator: (Bytes, Bytes) -> Bytes, successor: Bytes -> Bytes,
                      blockSize: nat, interval: nat, policy: Option<F.Policy>, filterName: Bytes, verify: bool,
                      entries: Entries, k: Bytes) returns (file: Bytes, found: Option<(Bytes, Bytes)>)
    requires interval >= 1 && TotalOrder(ucmp) && Shortens(ucmp, separator)
    requires Sorted(InternalComparator(ucmp), entries) && (forall i :: 0 <= i < |entries| ==> |entries[i].0| >= 8)
        && |k| >= 8
    requires policy.Some? ==> F.NeverRejects(policy.value)
    ensures |file| < Max32 ==> Exact(InternalComparator(ucmp), entries, k, found)
  {
    hide IsTable;
    hide Fits;
    hide Passes;
    hide Concat;
    hide F.NeverRejects;
    hide Exact;
    hide Sorted;
    hide InternalCompare;
    hide Shortens;
    var cmp := InternalComparator(ucmp);
    var iseparator, isuccessor := ISeparator(ucmp, separator), ISuccessor(ucmp, successor);
    InternalIsTotal(ucmp);
    var ipolicy := if policy.Some? then Some(InternalPolicy(policy.value)) else None;
    if policy.Some? { InternalNeverRejects(policy.value); }
    ghost var t;
    file, t := BuildTable(cmp, iseparator, isuccessor, blockSize, interval, ipolicy, filterName, entries);
    if |file| >= Max32 { return file, None; }
    SmallFits(cmp, iseparator, isuccessor, file, t);
    InternalDocumented(ucmp, separator, successor);
    forall i, j | 0 <= i < |t.blocks| && 0 <= j < |t.blocks[i]| ensures |t.blocks[i][j].0| >= 8 {
      InConcat(t.blocks, i, j);
    }
    found := TableGet(ucmp, file, policy, filterName, verify, k, separator, successor, t);
  }
}
