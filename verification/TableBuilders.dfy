/** Table files (table/table_builder.cc, and BlockHandle, Footer and ReadBlock of table/format.cc): where the
    blocks of a table lie, and the index keys between them. */
module TableBuilders {
  import opened Coding
  import opened Varints
  import opened Options
  import opened Order
  import opened Cursors
  import opened Separators
  import opened Blocks
  import Crc32c
  import F = FilterBlocks

  // ------------------------------------------------------------------- stored blocks

  datatype Handle = Handle(offset: nat, size: nat)

  function HandleBytes(h: Handle): Bytes { Varint(h.offset) + Varint(h.size) }

  /** BlockHandle::DecodeFrom. */
  function DecodeHandle(input: Bytes): Option<(Handle, Bytes)> {
    match Varint64(input)
    case None => None
    case Some((offset, rest)) =>
      match Varint64(rest)
      case None => None
      case Some((size, rest)) => Some((Handle(offset, size), rest))
  }

  lemma HandleRoundTrip(h: Handle, rest: Bytes)
    requires h.offset < Max64 && h.size < Max64
    ensures DecodeHandle(HandleBytes(h) + rest) == Some((h, rest))
  {
    hide Varint64;
    hide Varint;
    assert HandleBytes(h) + rest == Varint(h.offset) + (Varint(h.size) + rest);
    Varint64Back(h.offset, Varint(h.size) + rest);
    Varint64Back(h.size, rest);
  }

  const BlockTrailerSize: nat := 5

  /** The type, no compression, and the checksum of contents and type. */
  function Trailer(contents: Bytes): (r: Bytes)
    ensures |r| == BlockTrailerSize
  {
    [0] + EncodeFixed32(Crc32c.Mask(Crc32c.Value(contents + [0])))
  }

  ghost predicate Stored(file: Bytes, h: Handle, contents: Bytes) {
    && h.size == |contents| && h.offset + h.size + BlockTrailerSize <= |file|
    && file[h.offset..h.offset + h.size + BlockTrailerSize] == contents + Trailer(contents)
  }

  lemma StoredGrows(file: Bytes, more: Bytes, h: Handle, contents: Bytes)
    requires Stored(file, h, contents)
    ensures Stored(file + more, h, contents)
  {
    hide Trailer;
    assert (file + more)[h.offset..h.offset + h.size + BlockTrailerSize] ==
        file[h.offset..h.offset + h.size + BlockTrailerSize];
  }

  /** What a handle points at may be a block: it is in the file, its type is that of no compression, and its checksum is
      right, if that is asked for. */
  ghost predicate BlockPasses(file: Bytes, h: Handle, verifyChecksums: bool) {
    && h.offset + h.size + BlockTrailerSize <= |file|
    && var data := file[h.offset..h.offset + h.size + BlockTrailerSize];
       && data[h.size] == 0
       && (verifyChecksums ==>
           Crc32c.Unmask(DecodeFixed32(data[h.size + 1..])) == Crc32c.Crc(0, data[..h.size + 1]))
  }

  lemma StoredInFile(file: Bytes, h: Handle, contents: Bytes)
    requires Stored(file, h, contents)
    ensures h.offset + h.size + BlockTrailerSize <= |file| && |contents| == h.size
    ensures file[h.offset..h.offset + h.size + BlockTrailerSize][..h.size + 1] == contents + [0]
  {
    hide Crc32c.Mask;
    hide Crc32c.Crc;
    hide EncodeFixed32;
  }

  /** ReadBlock: the bytes at a handle, if they are there, are not compressed, and pass the checksum when it is asked
      for. */
  method ReadBlock(file: Bytes, h: Handle, verifyChecksums: bool) returns (contents: Option<Bytes>)
    ensures forall c: Bytes :: Stored(file, h, c) ==> contents == Some(c)
    ensures contents.Some? <==> BlockPasses(file, h, verifyChecksums)
    ensures contents.Some? ==> contents.value == file[h.offset..h.offset + h.size]
  {
    hide Crc32c.Crc;
    hide Crc32c.Mask;
    hide Crc32c.Unmask;
    hide EncodeFixed32;
    hide DecodeFixed32;
    var n := h.size;
    if h.offset + n + BlockTrailerSize > |file| { return None; }
    var data := file[h.offset..h.offset + n + BlockTrailerSize];
    forall c: Bytes | Stored(file, h, c) ensures StoredIs(data, n, c) { StoredParts(file, h, c); }
    if verifyChecksums {
      var address: nat := *;
      var crc := Crc32c.Unmask(DecodeFixed32(data[n + 1..]));
      var actual := Crc32c.Extend(0, data[..n + 1], address);
      if actual != crc { return None; }
    }
    if data[n] != 0 { return None; }
    contents := Some(data[..n]);
    assert data[..n] == file[h.offset..h.offset + n];
  }

  /** What a stored block's bytes are: contents, type and checksum. */
  ghost predicate StoredIs(data: Bytes, n: nat, c: Bytes)
    requires |data| == n + BlockTrailerSize
  {
    && data[..n] == c && data[n] == 0
    && Crc32c.Unmask(DecodeFixed32(data[n + 1..])) == Crc32c.Crc(0, data[..n + 1])
  }

  lemma StoredParts(file: Bytes, h: Handle, c: Bytes)
    requires Stored(file, h, c)
    ensures StoredIs(file[h.offset..h.offset + h.size + BlockTrailerSize], h.size, c)
  {
    hide Crc32c.Crc;
    hide Crc32c.Mask;
    hide Crc32c.Unmask;
    hide EncodeFixed32;
    hide DecodeFixed32;
    var data, n := c + Trailer(c), h.size;
    var masked := Crc32c.Mask(Crc32c.Value(c + [0]));
    assert data[..n + 1] == c + [0];
    assert data[n + 1..] == EncodeFixed32(masked);
    Fixed32RoundTrip(masked);
    Crc32c.MaskRoundTrip(Crc32c.Value(c + [0]));
  }

  // ----------------------------------------------------------------- what a table holds

  function FirstKey(b: Entries): Bytes
    requires b != []
  {
    b[0].0
  }

  function LastKey(b: Entries): Bytes
    requires b != []
  {
    b[|b| - 1].0
  }

  /** The blocks written so far lie at their handles. */
  ghost predicate Laid(file: Bytes, interval: nat, blocks: seq<Entries>, handles: seq<Handle>) {
    && |handles| == |blocks|
    && forall i :: 0 <= i < |blocks| ==> blocks[i] != [] && Stored(file, handles[i], BlockBytes(blocks[i], interval))
  }

  /** Keys ascend within each block and from block to block. */
  ghost predicate Ascending(cmp: Comparator<Bytes>, blocks: seq<Entries>) {
    && (forall i :: 0 <= i < |blocks| ==> blocks[i] != [] && Sorted(cmp, blocks[i]))
    && forall i :: 0 <= i < |blocks| - 1 ==> cmp(LastKey(blocks[i]), FirstKey(blocks[i + 1])) < 0
  }

  /** The index entries of the first blocks: the separator to the next block's first key, and the handle. */
  ghost predicate Separated(separator: (Bytes, Bytes) -> Bytes, blocks: seq<Entries>, handles: seq<Handle>,
                            index: Entries)
  {
    && |handles| >= |index| && |blocks| > |index|
    && (forall i :: 0 <= i < |blocks| ==> blocks[i] != [])
    && forall i :: 0 <= i < |index| ==>
        index[i] ==
        (separator(LastKey(blocks[i]), FirstKey(blocks[i + 1])), HandleBytes(handles[i]))
  }

  /** All blocks, the one being built included. */
  function WithData(blocks: seq<Entries>, data: Entries): seq<Entries> {
    if data == [] then blocks else blocks + [data]
  }

  /** The filter knows every key at the offset of its block. */
  ghost predicate Filtered(added: set<(nat, Bytes)>, blocks: seq<Entries>, handles: seq<Handle>, data: Entries,
                           offset: nat)
  {
    && |handles| == |blocks|
    && (forall i, k :: 0 <= i < |blocks| && 0 <= k < |blocks[i]| ==> (handles[i].offset, blocks[i][k].0) in added)
    && forall k :: 0 <= k < |data| ==> (offset, data[k].0) in added
  }

  /** Everything added so far. */
  function Concat(blocks: seq<Entries>): Entries {
    if blocks == [] then [] else Concat(blocks[..|blocks| - 1]) + blocks[|blocks| - 1]
  }

  ghost predicate Building(cmp: Comparator<Bytes>, separator: (Bytes, Bytes) -> Bytes, interval: nat, file: Bytes,
                           blocks: seq<Entries>, handles: seq<Handle>, data: Entries, index: Entries, numEntries: nat,
                           lastKey: Bytes, pending: bool, pendingHandle: Handle)
  {
    var all := WithData(blocks, data);
    && Laid(file, interval, blocks, handles)
    && Ascending(cmp, all)
    && (numEntries == 0 <==> all == [])
    && (all == [] ==> index == [])
    && (all != [] ==>
        Separated(separator, all, handles, index) && |index| == |all| - 1
        && lastKey == LastKey(all[|all| - 1]))
    && (pending <==> all != [] && data == [])
    && (pending ==> pendingHandle == handles[|handles| - 1])
  }

  lemma ConcatLast(blocks: seq<Entries>, b: Entries)
    ensures Concat(blocks + [b]) == Concat(blocks) + b
  {
    assert (blocks + [b])[..|blocks|] == blocks;
  }

  /** One more entry in a block that has some. */
  lemma AddMore(cmp: Comparator<Bytes>, separator: (Bytes, Bytes) -> Bytes, interval: nat, file: Bytes,
                blocks: seq<Entries>, handles: seq<Handle>, data: Entries, index: Entries, n: nat, lastKey: Bytes,
                h: Handle, e: (Bytes, Bytes))
    requires TotalOrder(cmp) && Building(cmp, separator, interval, file, blocks, handles, data, index, n, lastKey,
        false, h) && data != []
    requires cmp(lastKey, e.0) < 0
    ensures Building(cmp, separator, interval, file, blocks, handles, data + [e], index, n + 1, e.0, false, h)
    ensures Concat(WithData(blocks, data + [e])) == Concat(WithData(blocks, data)) + [e]
  {
    hide Laid;
    var all, all' := WithData(blocks, data), WithData(blocks, data + [e]);
    SortedOneMore(cmp, data, e);
    assert all'[..|blocks|] == blocks && all[..|blocks|] == blocks;
    forall i | 0 <= i < |all'| ensures all'[i] != [] && FirstKey(all'[i]) == FirstKey(all[i]) && Sorted(cmp, all'[i]) {
    }
    forall i | 0 <= i < |index|
      ensures index[i] == (separator(LastKey(all'[i]), FirstKey(all'[i + 1])), HandleBytes(handles[i]))
    {
      assert index[i] == (separator(LastKey(all[i]), FirstKey(all[i + 1])), HandleBytes(handles[i]));
    }
    ConcatLast(blocks, data);
    ConcatLast(blocks, data + [e]);
    assert Concat(blocks) + (data + [e]) == Concat(blocks) + data + [e];
  }

  lemma SortedOneMore(cmp: Comparator<Bytes>, data: Entries, e: (Bytes, Bytes))
    requires TotalOrder(cmp) && Sorted(cmp, data) && (data != [] ==> cmp(LastKey(data), e.0) < 0)
    ensures Sorted(cmp, data + [e])
  {
    var data' := data + [e];
    forall i, j | 0 <= i < j < |data'| ensures Precedes(cmp, data', i, j) {
      if j < |data| {
        assert Precedes(cmp, data, i, j);
      } else {
        SortedAt(cmp, data, i, |data| - 1);
        Transitive(cmp, data[i].0, LastKey(data), e.0);
      }
    }
  }

  /** The first entry of a block, with the index entry of the block before, if there is one. */
  lemma AddFirst(cmp: Comparator<Bytes>, separator: (Bytes, Bytes) -> Bytes, interval: nat, file: Bytes,
                 blocks: seq<Entries>, handles: seq<Handle>, index: Entries, n: nat, lastKey: Bytes, pending: bool,
                 h: Handle, e: (Bytes, Bytes), index': Entries)
    requires TotalOrder(cmp) && Building(cmp, separator, interval, file, blocks, handles, [], index, n, lastKey,
        pending, h)
    requires n > 0 ==> cmp(lastKey, e.0) < 0
    requires index' == if pending then index + [(separator(lastKey, e.0), HandleBytes(h))] else index
    ensures Building(cmp, separator, interval, file, blocks, handles, [e], index', n + 1, e.0, false, h)
    ensures Concat(WithData(blocks, [e])) == Concat(WithData(blocks, [])) + [e]
  {
    hide Laid;
    hide Ascending;
    hide Separated;
    ConcatLast(blocks, [e]);
    SameCount(file, interval, blocks, handles);
    AscendingOn(cmp, blocks, e);
    if n > 0 { SeparatedOn(separator, blocks, handles, index, index', e); } else {
      FirstSeparated(separator, handles, e);
    }
  }

  lemma AscendingOn(cmp: Comparator<Bytes>, blocks: seq<Entries>, e: (Bytes, Bytes))
    requires Ascending(cmp, blocks) && (blocks != [] ==> cmp(LastKey(blocks[|blocks| - 1]), e.0) < 0)
    ensures Ascending(cmp, blocks + [[e]])
  {
    var all := blocks + [[e]];
    forall i | 0 <= i < |all| - 1 ensures cmp(LastKey(all[i]), FirstKey(all[i + 1])) < 0 {
      if i < |blocks| - 1 { assert cmp(LastKey(blocks[i]), FirstKey(blocks[i + 1])) < 0; }
    }
  }

  lemma SeparatedOn(separator: (Bytes, Bytes) -> Bytes, blocks: seq<Entries>, handles: seq<Handle>, index: Entries,
                    index': Entries, e: (Bytes, Bytes))
    requires blocks != [] && |handles| == |blocks| && Separated(separator, blocks, handles, index)
        && |index| == |blocks| - 1
    requires index' == index + [(separator(LastKey(blocks[|blocks| - 1]), e.0), HandleBytes(handles[|handles| - 1]))]
    ensures Separated(separator, blocks + [[e]], handles, index')
  {
    var all := blocks + [[e]];
    forall i | 0 <= i < |index'|
      ensures index'[i] == (separator(LastKey(all[i]), FirstKey(all[i + 1])), HandleBytes(handles[i]))
    {
      if i < |index| {
        assert index[i] == (separator(LastKey(blocks[i]), FirstKey(blocks[i + 1])), HandleBytes(handles[i]));
      }
    }
  }

  lemma FirstSeparated(separator: (Bytes, Bytes) -> Bytes, handles: seq<Handle>, e: (Bytes, Bytes))
    ensures Separated(separator, [[e]], handles, [])
  {
  }

  lemma SameCount(file: Bytes, interval: nat, blocks: seq<Entries>, handles: seq<Handle>)
    requires Laid(file, interval, blocks, handles)
    ensures |handles| == |blocks|
  {
  }

  /** Writing the block out changes nothing but where its entries are. */
  lemma FlushKeeps(cmp: Comparator<Bytes>, separator: (Bytes, Bytes) -> Bytes, interval: nat, file: Bytes,
                   blocks: seq<Entries>, handles: seq<Handle>, data: Entries, index: Entries, n: nat, lastKey: Bytes,
                   h0: Handle, file': Bytes, h: Handle)
    requires Building(cmp, separator, interval, file, blocks, handles, data, index, n, lastKey, false, h0) && data != []
    requires file <= file' && Stored(file', h, BlockBytes(data, interval))
    ensures Building(cmp, separator, interval, file', blocks + [data], handles + [h], [], index, n, lastKey, true, h)
    ensures WithData(blocks + [data], []) == WithData(blocks, data)
  {
    hide BlockBytes;
    hide Stored;
    assert file' == file + file'[|file|..];
    forall i | 0 <= i < |blocks| + 1
      ensures (blocks + [data])[i] != [] && Stored(file', (handles + [h])[i],
          BlockBytes((blocks + [data])[i], interval))
    {
      if i < |blocks| { StoredGrows(file, file'[|file|..], handles[i], BlockBytes(blocks[i], interval)); }
    }
  }

  lemma BuildingFacts(cmp: Comparator<Bytes>, separator: (Bytes, Bytes) -> Bytes, interval: nat, file: Bytes,
                      blocks: seq<Entries>, handles: seq<Handle>, data: Entries, index: Entries, n: nat, lastKey: Bytes,
                      pending: bool, h: Handle)
    requires Building(cmp, separator, interval, file, blocks, handles, data, index, n, lastKey, pending, h)
    ensures (pending <==> n > 0 && data == []) && (data != [] ==> n > 0) && |handles| == |blocks|
  {
  }

  lemma FilteredKey(added: set<(nat, Bytes)>, blocks: seq<Entries>, handles: seq<Handle>, data: Entries, offset: nat,
                    key: Bytes, value: Bytes)
    requires Filtered(added, blocks, handles, data, offset)
    ensures Filtered(added + {(offset, key)}, blocks, handles, data + [(key, value)], offset)
  {
  }

  lemma FilteredFlush(added: set<(nat, Bytes)>, blocks: seq<Entries>, handles: seq<Handle>, data: Entries, offset: nat,
                      h: Handle, offset': nat)
    requires Filtered(added, blocks, handles, data, offset) && h.offset == offset
    ensures Filtered(added, blocks + [data], handles + [h], [], offset')
  {
  }

  lemma BufferHolds(data: Entries, interval: nat)
    requires data != []
    ensures Buffer(data, interval, |data|) != []
  {
    var n := |data| - 1;
    assert |EntryBytes(Shared(data, interval, n), data[n].0, data[n].1)| > 0;
  }

  lemma Flip(cmp: Comparator<Bytes>, a: Bytes, b: Bytes)
    requires TotalOrder(cmp)
    ensures cmp(a, b) > 0 ==> cmp(b, a) < 0
  {
    Laws(cmp);
  }

  lemma IntervalPositive(block: BlockBuilder)
    requires block.Valid()
    ensures block.interval >= 1
  {
  }

  lemma EmptyIff(block: BlockBuilder)
    requires block.Valid()
    ensures block.buffer == [] <==> block.entries == []
  {
    if block.entries != [] { BufferHolds(block.entries, block.interval); }
  }

  // -------------------------------------------------------------------------- the footer

  const FooterLength: nat := 48
  const MagicLow: nat := 0x8b80fb57
  const MagicHigh: nat := 0xdb477524

  function Padding(n: nat): (r: Bytes)
    ensures |r| == n
  {
    seq(n, _ => 0)
  }

  /** Both handles, padded to forty bytes, and the magic number. */
  function FooterBytes(metaindex: Handle, index: Handle): (r: Bytes)
    ensures |r| == FooterLength
  {
    (HandleBytes(metaindex) + HandleBytes(index) + Padding(40))[..40] + (Fixed(MagicLow, 4) + Fixed(MagicHigh, 4))
  }

  /** Footer::DecodeFrom: the two handles. */
  function DecodeFooter(footer: Bytes): Option<(Handle, Handle)>
    requires |footer| == FooterLength
  {
    if FixedValue(footer[40..44]) != MagicLow || FixedValue(footer[44..48]) != MagicHigh then None
    else
      match DecodeHandle(footer)
      case None => None
      case Some((metaindex, rest)) =>
        match DecodeHandle(rest)
        case None => None
        case Some((index, _)) => Some((metaindex, index))
  }

  ghost predicate Representable(h: Handle) { h.offset < Max64 && h.size < Max64 }

  lemma FooterRoundTrip(m: Handle, i: Handle)
    requires Representable(m) && Representable(i)
    ensures DecodeFooter(FooterBytes(m, i)) == Some((m, i))
  {
    hide Varint;
    hide DecodeHandle;
    hide Fixed;
    hide FixedValue;
    Lengths(m.offset);
    Lengths(m.size);
    Lengths(i.offset);
    Lengths(i.size);
    var hs := HandleBytes(m) + HandleBytes(i);
    var rest := Padding(40)[..40 - |hs|] + (Fixed(MagicLow, 4) + Fixed(MagicHigh, 4));
    var footer := FooterBytes(m, i);
    FourBytes();
    FixedRoundTrip(MagicLow, 4);
    FixedRoundTrip(MagicHigh, 4);
    assert footer[40..44] == Fixed(MagicLow, 4) && footer[44..48] == Fixed(MagicHigh, 4);
    assert footer == HandleBytes(m) + (HandleBytes(i) + rest);
    HandleRoundTrip(m, HandleBytes(i) + rest);
    HandleRoundTrip(i, rest);
  }

  // ------------------------------------------------------------------ a finished table

  /** One index entry a block: a key between it and the next block, or behind the last one, and the handle. */
  ghost predicate FullIndex(separator: (Bytes, Bytes) -> Bytes, successor: Bytes -> Bytes, blocks: seq<Entries>,
                            handles: seq<Handle>, index: Entries)
  {
    && |index| == |blocks| == |handles|
    && (forall i :: 0 <= i < |blocks| ==> blocks[i] != [])
    && forall i :: 0 <= i < |index| ==>
         && (i + 1 < |blocks| ==> index[i].0 == separator(LastKey(blocks[i]), FirstKey(blocks[i + 1])))
         && (i + 1 == |blocks| ==> index[i].0 == successor(LastKey(blocks[i])))
         && index[i].1 == HandleBytes(handles[i])
  }

  function MetaEntries(filterName: Bytes, filter: Option<(Handle, Bytes)>): Entries {
    if filter.Some? then [(filterName, HandleBytes(filter.value.0))] else []
  }

  /** Where everything lies in the file. */
  datatype Layout = Layout(interval: nat, blocks: seq<Entries>, handles: seq<Handle>, index: Entries,
      indexHandle: Handle, metaindexHandle: Handle,
                           filterName: Bytes, filter: Option<(Handle, Bytes)>)

  ghost predicate IsTable(cmp: Comparator<Bytes>, separator: (Bytes, Bytes) -> Bytes, successor: Bytes -> Bytes,
                          file: Bytes, t: Layout)
  {
    && t.interval > 0
    && Laid(file, t.interval, t.blocks, t.handles) && Ascending(cmp, t.blocks)
        && FullIndex(separator, successor, t.blocks, t.handles, t.index)
    && Stored(file, t.indexHandle, BlockBytes(t.index, 1))
    && Stored(file, t.metaindexHandle, BlockBytes(MetaEntries(t.filterName, t.filter), t.interval))
    && (t.filter.Some? ==> Stored(file, t.filter.value.0, t.filter.value.1))
    && |file| >= FooterLength && DecodeFooter(file[|file| - FooterLength..]) == Some((t.metaindexHandle, t.indexHandle))
  }

  /** The filter lets every key pass at its block. */
  ghost predicate Passes(p: F.Policy, filter: Bytes, blocks: seq<Entries>, handles: seq<Handle>) {
    && |handles| == |blocks|
    && forall i, k :: 0 <= i < |blocks| && 0 <= k < |blocks[i]| ==>
        F.KeyMayMatch(p, filter, handles[i].offset, blocks[i][k].0)
  }

  lemma IndexFull(separator: (Bytes, Bytes) -> Bytes, successor: Bytes -> Bytes, blocks: seq<Entries>,
                  handles: seq<Handle>, index: Entries)
    requires blocks != [] && |handles| == |blocks| && Separated(separator, blocks, handles, index)
        && |index| == |blocks| - 1
    ensures FullIndex(separator, successor, blocks, handles,
        index + [(successor(LastKey(blocks[|blocks| - 1])), HandleBytes(handles[|handles| - 1]))])
  {
    var index' := index + [(successor(LastKey(blocks[|blocks| - 1])), HandleBytes(handles[|handles| - 1]))];
    forall i | 0 <= i < |index'|
      ensures i + 1 < |blocks| ==> index'[i].0 == separator(LastKey(blocks[i]), FirstKey(blocks[i + 1]))
      ensures i + 1 == |blocks| ==> index'[i].0 == successor(LastKey(blocks[i]))
      ensures index'[i].1 == HandleBytes(handles[i])
    {
      if i < |index| {
        assert index[i] == (separator(LastKey(blocks[i]), FirstKey(blocks[i + 1])), HandleBytes(handles[i]));
      }
    }
  }

  /** With nothing left in the block being built, the index lacks at most its last entry. */
  lemma FinishIndex(cmp: Comparator<Bytes>, separator: (Bytes, Bytes) -> Bytes, successor: Bytes -> Bytes,
                    interval: nat, file: Bytes, blocks: seq<Entries>, handles: seq<Handle>, index: Entries, n: nat,
                    lastKey: Bytes, pending: bool, h: Handle, index': Entries)
    requires Building(cmp, separator, interval, file, blocks, handles, [], index, n, lastKey, pending, h)
    requires index' == if pending then index + [(successor(lastKey), HandleBytes(h))] else index
    ensures FullIndex(separator, successor, blocks, handles, index') && Ascending(cmp, blocks)
        && Laid(file, interval, blocks, handles)
  {
    hide Ascending;
    hide Stored;
    if blocks != [] { IndexFull(separator, successor, blocks, handles, index); }
  }

  lemma FilteredPasses(p: F.Policy, added: set<(nat, Bytes)>, blocks: seq<Entries>, handles: seq<Handle>, offset: nat,
                       filter: Bytes)
    requires Filtered(added, blocks, handles, [], offset) && forall a :: a in added ==>
        F.KeyMayMatch(p, filter, a.0, a.1)
    ensures Passes(p, filter, blocks, handles)
  {
    hide F.KeyMayMatch;
  }

  /** What is stored stays stored as the file grows. */
  lemma StillStored(file: Bytes, file': Bytes, h: Handle, contents: Bytes)
    requires Stored(file, h, contents) && file <= file'
    ensures Stored(file', h, contents)
  {
    assert file' == file + file'[|file|..];
    StoredGrows(file, file'[|file|..], h, contents);
  }

  lemma StillLaid(file: Bytes, file': Bytes, interval: nat, blocks: seq<Entries>, handles: seq<Handle>)
    requires Laid(file, interval, blocks, handles) && file <= file'
    ensures Laid(file', interval, blocks, handles)
  {
    hide Stored;
    forall i | 0 <= i < |blocks| ensures Stored(file', handles[i], BlockBytes(blocks[i], interval)) {
      StillStored(file, file', handles[i], BlockBytes(blocks[i], interval));
    }
  }

  /** The block got its last entry when that brought it to the block size, and not before. */
  ghost predicate JustFull(b: Entries, interval: nat, blockSize: nat) {
    && b != [] && |BlockBytes(b, interval)| >= blockSize
    && NotFull(b[..|b| - 1], interval, blockSize)
  }

  ghost predicate NotFull(b: Entries, interval: nat, blockSize: nat) {
    forall n :: 0 < n <= |b| ==> |BlockBytes(b[..n], interval)| < blockSize
  }

  lemma GrowsToFull(b: Entries, e: (Bytes, Bytes), interval: nat, blockSize: nat)
    requires NotFull(b, interval, blockSize)
    ensures if |BlockBytes(b + [e], interval)| >= blockSize then JustFull(b + [e], interval, blockSize)
            else NotFull(b + [e], interval, blockSize)
  {
    hide BlockBytes;
    var b' := b + [e];
    assert b'[..|b|] == b && b'[..|b'|] == b';
    forall n | 0 < n <= |b| ensures b'[..n] == b[..n] { }
  }

  class TableBuilder {
    const cmp: Comparator<Bytes>
    const separator: (Bytes, Bytes) -> Bytes
    const successor: Bytes -> Bytes
    const blockSize: nat
    const dataBlock: BlockBuilder
    const indexBlock: BlockBuilder
    const filterBlock: F.FilterBlockBuilder?
    var file: Bytes                     // its length is offset
    var lastKey: Bytes
    var numEntries: nat
    var pendingIndexEntry: bool
    var pendingHandle: Handle
    ghost var blocks: seq<Entries>
    ghost var handles: seq<Handle>

    ghost predicate Valid()
      reads this, dataBlock, indexBlock, filterBlock
    {
      && dataBlock != indexBlock
      && dataBlock.Valid() && indexBlock.Valid() && indexBlock.interval == 1
      && (filterBlock != null ==> filterBlock.Valid() && filterBlock.current == |file|
                                  && Filtered(filterBlock.added, blocks, handles, dataBlock.entries, |file|))
      && Building(cmp, separator, dataBlock.interval, file, blocks, handles, dataBlock.entries, indexBlock.entries,
          numEntries, lastKey,
                  pendingIndexEntry, pendingHandle)
    }

    constructor (cmp: Comparator<Bytes>, separator: (Bytes, Bytes) -> Bytes, successor: Bytes -> Bytes, blockSize: nat,
                 interval: nat, policy: Option<F.Policy>)
      requires interval >= 1
      ensures Valid() && numEntries == 0 && blocks == [] && dataBlock.entries == []
      ensures fresh(dataBlock) && fresh(indexBlock) && (filterBlock != null ==> fresh(filterBlock))
      ensures this.cmp == cmp && this.separator == separator && this.successor == successor
          && dataBlock.interval == interval && this.blockSize == blockSize
      ensures policy.Some? <==> filterBlock != null
      ensures policy.Some? ==> filterBlock.policy == policy.value
    {
      this.cmp, this.separator, this.successor, this.blockSize := cmp, separator, successor, blockSize;
      dataBlock := new BlockBuilder(interval);
      indexBlock := new BlockBuilder(1);
      if policy.Some? {
        filterBlock := new F.FilterBlockBuilder(policy.value);
      } else {
        filterBlock := null;
      }
      file, lastKey, numEntries, pendingIndexEntry, pendingHandle := [], [], 0, false, Handle(0, 0);
      blocks, handles := [], [];
    }

    /** The contents go behind what is there, with their trailer. */
    method WriteRawBlock(contents: Bytes) returns (h: Handle)
      modifies this`file
      ensures Stored(file, h, contents) && old(file) <= file && h.offset == |old(file)|
      ensures |file| == |old(file)| + |contents| + BlockTrailerSize
    {
      hide Crc32c.Crc;
      hide Crc32c.Mask;
      hide EncodeFixed32;
      h := Handle(|file|, |contents|);
      var address: nat := *;
      var crc := Crc32c.Extend(0, contents, address);
      crc := Crc32c.Extend(crc, [0], address);
      Crc32c.CrcAppend(0, contents, [0]);
      file := file + contents;
      file := file + ([0] + EncodeFixed32(Crc32c.Mask(crc)));
    }

    /** All entries added so far. */
    ghost function Added(): Entries
      reads this`blocks, dataBlock
    {
      Concat(WithData(blocks, dataBlock.entries))
    }

    method Add(key: Bytes, value: Bytes)
      requires Valid() && TotalOrder(cmp) && (numEntries > 0 ==> cmp(key, lastKey) > 0)
      modifies this, dataBlock, indexBlock, filterBlock
      ensures Valid() && Added() == old(Added()) + [(key, value)]
      ensures numEntries == old(numEntries) + 1 && lastKey == key
      ensures var data := old(dataBlock.entries) + [(key, value)];
              if |BlockBytes(data, dataBlock.interval)| >= blockSize
              then blocks == old(blocks) + [data] && dataBlock.entries == []
              else blocks == old(blocks) && dataBlock.entries == data
    {
      hide Building;
      hide Filtered;
      hide Concat;
      hide BlockBytes;
      hide F.FilterBlockBuilder.Valid;
      AddToBlock(key, value);
      var estimatedBlockSize := dataBlock.CurrentSizeEstimate();
      if estimatedBlockSize >= blockSize {
        Flush();
      }
    }

    /** Add, up to the check whether the block is full. */
    method AddToBlock(key: Bytes, value: Bytes)
      requires Valid() && TotalOrder(cmp) && (numEntries > 0 ==> cmp(key, lastKey) > 0)
      modifies this, dataBlock, indexBlock, filterBlock
      ensures Valid() && Added() == old(Added()) + [(key, value)]
      ensures dataBlock.entries == old(dataBlock.entries) + [(key, value)] && blocks == old(blocks)
      ensures numEntries == old(numEntries) + 1 && lastKey == key
    {
      hide Building;
      hide Filtered;
      hide Concat;
      hide BlockBuilder.Valid;
      hide F.FilterBlockBuilder.Valid;
      Flip(cmp, key, lastKey);
      ghost var data, index, n, last, pending := dataBlock.entries, indexBlock.entries, numEntries, lastKey,
          pendingIndexEntry;
      BuildingFacts(cmp, separator, dataBlock.interval, file, blocks, handles, data, index, n, last, pending,
          pendingHandle);
      AddIndexEntry(key);
      FilterKey(key, value);
      lastKey := key;
      numEntries := numEntries + 1;
      dataBlock.Add(key, value);
      if data == [] {
        assert [] + [(key, value)] == [(key, value)];
        AddFirst(cmp, separator, dataBlock.interval, file, blocks, handles, index, n, last, pending, pendingHandle,
            (key, value), indexBlock.entries);
      } else {
        AddMore(cmp, separator, dataBlock.interval, file, blocks, handles, data, index, n, last, pendingHandle,
            (key, value));
      }
    }

    /** The index entry of the block before is added once the first key of the next one is known. */
    method AddIndexEntry(key: Bytes)
      requires indexBlock.Valid()
      modifies this`lastKey, this`pendingIndexEntry, indexBlock
      ensures indexBlock.Valid() && !pendingIndexEntry
      ensures indexBlock.entries == if old(pendingIndexEntry)
          then old(indexBlock.entries) + [(separator(old(lastKey), key), HandleBytes(pendingHandle))]
          else old(indexBlock.entries)
    {
      if pendingIndexEntry {
        lastKey := separator(lastKey, key);
        indexBlock.Add(lastKey, HandleBytes(pendingHandle));
        pendingIndexEntry := false;
      }
    }

    method FilterKey(key: Bytes, ghost value: Bytes)
      requires filterBlock != null ==> filterBlock.Valid() && filterBlock.current == |file|
                                       && Filtered(filterBlock.added, blocks, handles, dataBlock.entries, |file|)
      modifies filterBlock
      ensures filterBlock != null ==> filterBlock.Valid() && filterBlock.current == |file|
                                      && Filtered(filterBlock.added, blocks, handles,
                                          dataBlock.entries + [(key, value)], |file|)
    {
      hide Filtered;
      if filterBlock != null {
        FilteredKey(filterBlock.added, blocks, handles, dataBlock.entries, |file|, key, value);
        filterBlock.AddKey(key);
      }
    }

    /** The block's contents go to the file, and it is empty again. */
    method WriteBlock(block: BlockBuilder) returns (h: Handle)
      requires block.Valid()
      modifies this`file, block
      ensures Stored(file, h, BlockBytes(old(block.entries), block.interval)) && old(file) <= file
          && h.offset == |old(file)|
      ensures block.Valid() && block.entries == []
    {
      hide Stored;
      var raw := block.Finish();
      h := WriteRawBlock(raw);
      block.Reset();
    }

    method Flush()
      requires Valid()
      modifies this, dataBlock, filterBlock
      ensures Valid() && Added() == old(Added()) && dataBlock.entries == [] && numEntries == old(numEntries)
          && lastKey == old(lastKey)
      ensures blocks == WithData(old(blocks), old(dataBlock.entries))
    {
      hide Building;
      hide Filtered;
      hide Concat;
      hide Stored;
      hide BlockBuilder.Valid;
      hide F.FilterBlockBuilder.Valid;
      EmptyIff(dataBlock);
      if dataBlock.buffer == [] { return; }
      ghost var data, was := dataBlock.entries, file;
      BuildingFacts(cmp, separator, dataBlock.interval, file, blocks, handles, data, indexBlock.entries, numEntries,
          lastKey, pendingIndexEntry, pendingHandle);
      assert data != [];
      ghost var h0 := pendingHandle;
      pendingHandle := WriteBlock(dataBlock);
      pendingIndexEntry := true;
      FlushKeeps(cmp, separator, dataBlock.interval, was, blocks, handles, data, indexBlock.entries, numEntries,
          lastKey, h0, file, pendingHandle);
      if filterBlock != null {
        FilteredFlush(filterBlock.added, blocks, handles, data, |was|, pendingHandle, |file|);
        filterBlock.StartBlock(|file|);
      }
      blocks, handles := blocks + [data], handles + [pendingHandle];
    }

    /** The filter block, if there is one. */
    method WriteFilter() returns (filter: Option<(Handle, Bytes)>)
      requires filterBlock != null ==> filterBlock.Valid() && Filtered(filterBlock.added, blocks, handles, [], |file|)
      modifies this`file, filterBlock
      ensures old(file) <= file && (filter.Some? <==> filterBlock != null)
      ensures filter.Some? ==> Stored(file, filter.value.0, filter.value.1)
      ensures filter.Some? && |filter.value.1| < Max32 && F.NeverRejects(filterBlock.policy) ==>
          Passes(filterBlock.policy, filter.value.1, blocks, handles)
    {
      hide Filtered;
      hide Passes;
      hide F.NeverRejects;
      hide F.KeyMayMatch;
      filter := None;
      if filterBlock != null {
        ghost var added, offset := filterBlock.added, |file|;
        var contents := filterBlock.Finish();
        var h := WriteRawBlock(contents);
        filter := Some((h, contents));
        if |contents| < Max32 && F.NeverRejects(filterBlock.policy) {
          FilteredPasses(filterBlock.policy, added, blocks, handles, offset, contents);
        }
      }
    }

    /** The last index entry, now that no next block will come. */
    method LastIndexEntry()
      requires indexBlock.Valid()
      modifies this`lastKey, this`pendingIndexEntry, indexBlock
      ensures indexBlock.Valid()
      ensures indexBlock.entries == if old(pendingIndexEntry)
          then old(indexBlock.entries) + [(successor(old(lastKey)), HandleBytes(pendingHandle))]
          else old(indexBlock.entries)
    {
      if pendingIndexEntry {
        lastKey := successor(lastKey);
        indexBlock.Add(lastKey, HandleBytes(pendingHandle));
        pendingIndexEntry := false;
      }
    }

    /** Finish: the last block, filter, metaindex, index and footer.  The file is then a table of the blocks written. */
    method Finish(filterName: Bytes) returns (ghost t: Layout)
      requires Valid()
      modifies this, dataBlock, indexBlock, filterBlock
      ensures Concat(t.blocks) == old(Added()) && t.interval == dataBlock.interval
          && (t.filter.Some? <==> filterBlock != null)
      ensures t.filterName == filterName && t.blocks == WithData(old(blocks), old(dataBlock.entries))
      ensures |file| < Max64 ==> IsTable(cmp, separator, successor, file, t)
      ensures t.filter.Some? && |t.filter.value.1| < Max32 && F.NeverRejects(filterBlock.policy) ==>
          Passes(filterBlock.policy, t.filter.value.1, t.blocks, t.handles)
    {
      hide Building;
      hide Filtered;
      hide Concat;
      hide Stored;
      hide Laid;
      hide Ascending;
      hide FullIndex;
      hide Passes;
      hide F.NeverRejects;
      hide BlockBuilder.Valid;
      hide F.FilterBlockBuilder.Valid;
      hide IsTable;
      IntervalPositive(dataBlock);
      Flush();
      ghost var index, n, last, pending := indexBlock.entries, numEntries, lastKey, pendingIndexEntry;
      ghost var file0 := file;
      var filter := WriteFilter();
      ghost var file1 := file;
      var metaindexHandle := WriteMetaindex(filterName, filter);
      ghost var file2 := file;
      LastIndexEntry();
      ghost var full := indexBlock.entries;
      FinishIndex(cmp, separator, successor, dataBlock.interval, file0, blocks, handles, index, n, last, pending,
          pendingHandle, full);
      var indexHandle := WriteBlock(indexBlock);
      ghost var file3 := file;
      t := Layout(dataBlock.interval, blocks, handles, full, indexHandle, metaindexHandle, filterName, filter);
      file := file + FooterBytes(metaindexHandle, indexHandle);
      if |file| < Max64 {
        TableDone(cmp, separator, successor, t, file0, file1, file2, file3, file);
      }
    }

    method WriteMetaindex(filterName: Bytes, filter: Option<(Handle, Bytes)>) returns (h: Handle)
      requires dataBlock.interval >= 1
      modifies this`file
      ensures old(file) <= file && Stored(file, h, BlockBytes(MetaEntries(filterName, filter), dataBlock.interval))
    {
      hide Stored;
      var metaIndexBlock := new BlockBuilder(dataBlock.interval);
      if filter.Some? {
        metaIndexBlock.Add(filterName, HandleBytes(filter.value.0));
        assert [] + [(filterName, HandleBytes(filter.value.0))] == MetaEntries(filterName, filter);
      }
      h := WriteBlock(metaIndexBlock);
    }
  }

  lemma TableDone(cmp: Comparator<Bytes>, separator: (Bytes, Bytes) -> Bytes, successor: Bytes -> Bytes, t: Layout,
                  file0: Bytes, file1: Bytes, file2: Bytes, file3: Bytes, file: Bytes)
    requires t.interval > 0
    requires file0 <= file1 <= file2 <= file3 && file == file3 + FooterBytes(t.metaindexHandle, t.indexHandle)
        && |file| < Max64
    requires Laid(file0, t.interval, t.blocks, t.handles) && Ascending(cmp, t.blocks)
        && FullIndex(separator, successor, t.blocks, t.handles, t.index)
    requires t.filter.Some? ==> Stored(file1, t.filter.value.0, t.filter.value.1)
    requires Stored(file2, t.metaindexHandle, BlockBytes(MetaEntries(t.filterName, t.filter), t.interval))
    requires Stored(file3, t.indexHandle, BlockBytes(t.index, 1))
    ensures IsTable(cmp, separator, successor, file, t)
  {
    hide Stored;
    hide Laid;
    hide Ascending;
    hide FullIndex;
    hide FooterBytes;
    hide DecodeFooter;
    assert file3 <= file && file2 <= file && file1 <= file && file0 <= file;
    StillLaid(file0, file, t.interval, t.blocks, t.handles);
    if t.filter.Some? { StillStored(file1, file, t.filter.value.0, t.filter.value.1); }
    StillStored(file2, file, t.metaindexHandle, BlockBytes(MetaEntries(t.filterName, t.filter), t.interval));
    StillStored(file3, file, t.indexHandle, BlockBytes(t.index, 1));
    InFile(file2, t.metaindexHandle, BlockBytes(MetaEntries(t.filterName, t.filter), t.interval), file);
    InFile(file3, t.indexHandle, BlockBytes(t.index, 1), file);
    FooterRoundTrip(t.metaindexHandle, t.indexHandle);
    assert file[|file| - FooterLength..] == FooterBytes(t.metaindexHandle, t.indexHandle);
  }

  /** A handle of what lies in a file not too long is representable. */
  lemma InFile(file: Bytes, h: Handle, contents: Bytes, file': Bytes)
    requires Stored(file, h, contents) && file <= file' && |file'| < Max64
    ensures Representable(h)
  {
  }
}
