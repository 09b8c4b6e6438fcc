/** Blocks of prefix-compressed entries as bytes (table/block_builder.cc, and DecodeEntry of table/block.cc). */
module Blocks {
  import opened Varints
  import opened Options
  import opened Separators

  type Entries = seq<(Bytes, Bytes)>

  // ------------------------------------------------------------------------ writing

  /** shared, non_shared, value_length, then the rest of the key and the value. */
  function EntryBytes(shared: nat, key: Bytes, value: Bytes): Bytes
    requires shared <= |key|
  {
    Varint(shared) + (Varint(|key| - shared) + (Varint(|value|) + (key[shared..] + value)))
  }

  /** How many entries since the last restart point, after n entries. */
  function Counter(n: nat, interval: nat): nat {
    if n == 0 then 0
    else if Counter(n - 1, interval) < interval then Counter(n - 1, interval) + 1
    else 1
  }

  /** Entry n starts anew: its key is stored whole. */
  predicate StartsAnew(n: nat, interval: nat) { Counter(n, interval) >= interval }

  function Previous(es: Entries, i: nat): Bytes
    requires i <= |es|
  {
    if i == 0 then [] else es[i - 1].0
  }

  function Shared(es: Entries, interval: nat, i: nat): (n: nat)
    requires i < |es|
    ensures n <= |es[i].0| && n <= |Previous(es, i)|
  {
    if StartsAnew(i, interval) then 0 else Common(Previous(es, i), es[i].0)
  }

  /** The bytes of the first n entries. */
  function Buffer(es: Entries, interval: nat, n: nat): Bytes
    requires n <= |es|
  {
    if n == 0 then [] else
        Buffer(es, interval, n - 1)
        + EntryBytes(Shared(es, interval, n - 1), es[n - 1].0, es[n - 1].1)
  }

  function Offset(es: Entries, interval: nat, n: nat): nat
    requires n <= |es|
  {
    |Buffer(es, interval, n)|
  }

  /** The entries at restart points among the first n, and always 0. */
  function Points(n: nat, interval: nat): (r: seq<nat>)
    ensures r != []
  {
    if n == 0 then [0] else Points(n - 1, interval) + if StartsAnew(n - 1, interval) then [(n - 1) as nat] else []
  }

  /** Their offsets. */
  function Restarts(es: Entries, interval: nat, n: nat): (r: seq<nat>)
    requires n <= |es|
    ensures r != []
  {
    if n == 0 then [0] else Restarts(es, interval, n - 1) + if StartsAnew(n - 1, interval)
        then [Offset(es, interval, n - 1)] else []
  }

  /** The finished block. */
  function BlockBytes(es: Entries, interval: nat): Bytes {
    var restarts := Restarts(es, interval, |es|);
    Buffer(es, interval, |es|) + FixedAll(restarts) + Fixed(|restarts|, 4)
  }

  lemma {:induction false} BufferOfPrefix(es: Entries, more: Entries, interval: nat, n: nat)
    requires n <= |es|
    ensures Buffer(es + more, interval, n) == Buffer(es, interval, n)
  {
    if n > 0 { BufferOfPrefix(es, more, interval, n - 1); }
  }

  lemma {:induction false} RestartsOfPrefix(es: Entries, more: Entries, interval: nat, n: nat)
    requires n <= |es|
    ensures Restarts(es + more, interval, n) == Restarts(es, interval, n)
  {
    hide EntryBytes;
    hide Shared;
    if n > 0 {
      RestartsOfPrefix(es, more, interval, n - 1);
      BufferOfPrefix(es, more, interval, n - 1);
    }
  }

  lemma {:induction false} CounterBounded(n: nat, interval: nat)
    requires interval > 0
    ensures Counter(n, interval) <= interval
  {
    if n > 0 { CounterBounded(n - 1, interval); }
  }

  /** What one entry more adds. */
  lemma OneMoreEntry(es: Entries, e: (Bytes, Bytes), interval: nat)
    requires interval > 0
    ensures var n, all := |es|, es + [e];
            var anew := Counter(n, interval) >= interval;
            var shared := if anew then 0 else Common(Previous(es, n), e.0);
            && Buffer(all, interval, n + 1) == Buffer(es, interval, n) + EntryBytes(shared, e.0, e.1)
            && Restarts(all, interval, n + 1) ==
                Restarts(es, interval, n) + (if anew then [|Buffer(es, interval, n)|] else [])
            && Counter(n + 1, interval) == (if anew then 1 else Counter(n, interval) + 1)
            && Previous(all, n + 1) == e.0
  {
    hide EntryBytes;
    var n, all := |es|, es + [e];
    CounterBounded(n, interval);
    BufferOfPrefix(es, [e], interval, n);
    RestartsOfPrefix(es, [e], interval, n);
    assert all[n] == e && Previous(all, n) == Previous(es, n);
  }

  class BlockBuilder {
    const interval: nat      // block_restart_interval
    var buffer: Bytes
    var restarts: seq<nat>
    var counter: nat
    var lastKey: Bytes
    ghost var entries: Entries

    ghost predicate Valid()
      reads this
    {
      && interval > 0
      && buffer == Buffer(entries, interval, |entries|)
      && restarts == Restarts(entries, interval, |entries|)
      && counter == Counter(|entries|, interval)
      && lastKey == Previous(entries, |entries|)
    }

    constructor (interval: nat)
      requires interval >= 1
      ensures Valid() && entries == [] && this.interval == interval
    {
      this.interval := interval;
      buffer, restarts, counter, lastKey, entries := [], [0], 0, [], [];
    }

    method Reset()
      requires interval >= 1
      modifies this
      ensures Valid() && entries == []
    {
      buffer, restarts, counter, lastKey, entries := [], [0], 0, [], [];
    }

    method Add(key: Bytes, value: Bytes)
      requires Valid()
      modifies this
      ensures Valid() && entries == old(entries) + [(key, value)]
    {
      hide EntryBytes;
      hide Buffer;
      hide Restarts;
      hide Counter;
      hide Previous;
      hide Common;
      var shared := 0;
      OneMoreEntry(entries, (key, value), interval);
      if counter < interval {
        // see how much sharing to do with previous string
        shared := SharedWithLast(key);
      } else {
        // restart compression
        restarts := restarts + [|buffer|];
        counter := 0;
      }
      assert lastKey[..shared] == key[..shared];
      AppendEntry(shared, key, value);
      lastKey := lastKey[..shared] + key[shared..];
      counter := counter + 1;
      entries := entries + [(key, value)];
    }

    method SharedWithLast(key: Bytes) returns (shared: nat)
      ensures shared == Common(lastKey, key)
      ensures shared <= |key| && shared <= |lastKey| && lastKey[..shared] == key[..shared]
    {
      var minLength := if |lastKey| < |key| then |lastKey| else |key|;
      shared := 0;
      while shared < minLength && lastKey[shared] == key[shared]
        invariant shared <= minLength && lastKey[..shared] == key[..shared]
      {
        shared := shared + 1;
      }
      CommonIs(lastKey, key, shared);
    }

    method AppendEntry(shared: nat, key: Bytes, value: Bytes)
      requires shared <= |key|
      modifies this`buffer
      ensures buffer == old(buffer) + EntryBytes(shared, key, value)
    {
      hide Varint;
      ghost var was := buffer;
      buffer := PutVarint64(buffer, shared);
      buffer := PutVarint64(buffer, |key| - shared);
      buffer := PutVarint64(buffer, |value|);
      buffer := buffer + key[shared..];
      buffer := buffer + value;
      assert buffer == was + EntryBytes(shared, key, value);
    }

    /** The block's bytes; only Reset may follow. */
    method Finish() returns (contents: Bytes)
      requires Valid()
      modifies this`buffer
      ensures contents == BlockBytes(entries, interval)
    {
      hide Fixed;
      var i := 0;
      ghost var was := buffer;
      while i < |restarts|
        invariant i <= |restarts| && buffer == was + FixedAll(restarts[..i])
      {
        assert restarts[..i + 1][..i] == restarts[..i];
        assert was + (FixedAll(restarts[..i]) + Fixed(restarts[i], 4)) ==
            was + FixedAll(restarts[..i]) + Fixed(restarts[i], 4);
        buffer := buffer + Fixed(restarts[i], 4);
        i := i + 1;
      }
      assert restarts[..i] == restarts;
      buffer := buffer + Fixed(|restarts|, 4);
      contents := buffer;
    }

    /** The size of the block if it ended here. */
    function CurrentSizeEstimate(): (r: nat)
      requires Valid()
      reads this
      ensures r == |BlockBytes(entries, interval)|
    {
      FixedAllAt(restarts, 0);
      |buffer| + 4 * |restarts| + 4
    }
  }

  // ------------------------------------------------------------------------ reading

  /** What DecodeEntry finds at the head of an entry: keyAt is where the key's rest starts. */
  datatype Header = Header(shared: nat, nonShared: nat, valueLength: nat, keyAt: nat)

  /** Three numbers, and what follows them. */
  function ThreeVarints(input: Bytes): (r: Option<(nat, nat, nat, Bytes)>)
    ensures r.Some? ==> |r.value.3| < |input|
  {
    match Varint32(input)
    case None => None
    case Some((a, rest)) =>
      match Varint32(rest)
      case None => None
      case Some((b, rest)) =>
        match Varint32(rest)
        case None => None
        case Some((c, rest)) => Some((a, b, c, rest))
  }

  /** DecodeEntry.  The source adds the two lengths in 32 bits before comparing them with what is left;
      lengths that only fit because the sum wrapped are rejected here. */
  function DecodeEntry(data: Bytes, p: nat, limit: nat): (r: Option<Header>)
    requires limit <= |data|
    ensures r.Some? ==> p < r.value.keyAt && r.value.keyAt + r.value.nonShared + r.value.valueLength <= limit
  {
    if p + 3 > limit then None
    else
      match ThreeVarints(data[p..limit])
      case None => None
      case Some((shared, nonShared, valueLength, rest)) =>
        if |rest| < nonShared + valueLength then None
        else Some(Header(shared, nonShared, valueLength, limit - |rest|))
  }

  /** With its fast path: three bytes below 128 are three varints. */
  method DecodeEntryFast(data: Bytes, p: nat, limit: nat) returns (r: Option<Header>)
    requires limit <= |data|
    ensures r == DecodeEntry(data, p, limit)
  {
    if p + 3 > limit { return None; }
    hide ThreeVarints;
    var input := data[p..limit];
    var shared, nonShared, valueLength, rest;
    if input[0] < 128 && input[1] < 128 && input[2] < 128 {
      OneByteEach(input);
      shared, nonShared, valueLength, rest := input[0] as nat, input[1] as nat, input[2] as nat, input[3..];
    } else {
      var ok;
      ok, shared, nonShared, valueLength, rest := ReadThree(input);
      if !ok { return None; }
    }
    if |rest| < nonShared + valueLength { return None; }
    r := Some(Header(shared, nonShared, valueLength, limit - |rest|));
  }

  method ReadThree(input: Bytes) returns (ok: bool, a: nat, b: nat, c: nat, rest: Bytes)
    ensures ok <==> ThreeVarints(input).Some?
    ensures ok ==> ThreeVarints(input) == Some((a, b, c, rest))
  {
    hide ParseVarint;
    b, c := 0, 0;
    ok, a, rest := GetVarint(input, 5, Max32);
    if !ok { return; }
    ok, b, rest := GetVarint(rest, 5, Max32);
    if !ok { return; }
    ok, c, rest := GetVarint(rest, 5, Max32);
  }

  lemma OneByteEach(input: Bytes)
    requires |input| >= 3 && input[0] < 128 && input[1] < 128 && input[2] < 128
    ensures ThreeVarints(input) == Some((input[0] as nat, input[1] as nat, input[2] as nat, input[3..]))
  {
    assert input[1..][1..] == input[2..] && input[2..][1..] == input[3..];
  }

  // ------------------------------------------------------------------- what a block says

  /** The entry at offset at, after a key prev, is e, and the next one is at next. */
  ghost predicate EntryAt(data: Bytes, limit: nat, at: nat, next: nat, prev: Bytes, e: (Bytes, Bytes))
    requires limit <= |data|
  {
    match DecodeEntry(data, at, limit)
    case None => false
    case Some(h) =>
      && h.shared <= |prev|
      && e.0 == prev[..h.shared] + data[h.keyAt..h.keyAt + h.nonShared]
      && e.1 == data[h.keyAt + h.nonShared..h.keyAt + h.nonShared + h.valueLength]
      && next == h.keyAt + h.nonShared + h.valueLength
  }

  /** Its key is stored whole. */
  ghost predicate WholeAt(data: Bytes, limit: nat, at: nat)
    requires limit <= |data|
  {
    DecodeEntry(data, at, limit).Some? && DecodeEntry(data, at, limit).value.shared == 0
  }

  function RestartPoint(data: Bytes, limit: nat, r: nat): nat
    requires limit + 4 * r + 4 <= |data|
  {
    FixedValue(data[limit + 4 * r..limit + 4 * r + 4])
  }

  function NumRestarts(data: Bytes): nat
    requires |data| >= 4
  {
    FixedValue(data[|data| - 4..])
  }

  /** Where the restart array starts, unless the block is malformed (Block's constructor). */
  function RestartOffset(data: Bytes): (r: Option<nat>)
    ensures r.Some? ==> |data| >= 4 && r.value + 4 * NumRestarts(data) + 4 == |data|
  {
    if |data| < 4 || NumRestarts(data) > (|data| - 4) / 4 then None
    else Some(|data| - (1 + NumRestarts(data)) * 4)
  }

  /** Entry i lies between offsets[i] and offsets[i + 1], and restart r is at entry points[r]. */
  ghost predicate Encodes(data: Bytes, limit: nat, num: nat, es: Entries, offsets: seq<nat>, points: seq<nat>) {
    && limit + 4 * num <= |data| && num == |points| > 0
    && |offsets| == |es| + 1 && offsets[0] == 0 && offsets[|es|] == limit
    && (forall i :: 0 <= i < |es| ==> EntryAt(data, limit, offsets[i], offsets[i + 1], Previous(es, i), es[i]))
    && (forall i, j :: 0 <= i < j < |points| ==> points[i] < points[j])
    && points[0] == 0
    && (forall r :: 0 <= r < num ==> points[r] <= |es| && RestartPoint(data, limit, r) == offsets[points[r]])
    && (forall r :: 0 <= r < num && es != [] ==> points[r] < |es| && WholeAt(data, limit, offsets[points[r]]))
  }

  // ---------------------------------------------------------------- the round trip

  lemma HeaderRoundTrip(shared: nat, nonShared: nat, valueLength: nat, rest: Bytes)
    requires shared < Max32 && nonShared < Max32 && valueLength < Max32
    ensures var input := Varint(shared) + (Varint(nonShared) + (Varint(valueLength) + rest));
            ThreeVarints(input) == Some((shared, nonShared, valueLength, rest)) && |input| >= |rest| + 3
  {
    hide Varint32;
    hide Varint;
    Varint32Back(shared, Varint(nonShared) + (Varint(valueLength) + rest));
    Varint32Back(nonShared, Varint(valueLength) + rest);
    Varint32Back(valueLength, rest);
  }

  /** The header of an entry that starts at offset at, and where its key's rest and its value lie. */
  lemma EntryHeader(data: Bytes, limit: nat, at: nat, shared: nat, key: Bytes, value: Bytes)
    requires shared <= |key| < Max32 && at + |EntryBytes(shared, key, value)| <= limit <= |data| < Max32
    requires data[at..at + |EntryBytes(shared, key, value)|] == EntryBytes(shared, key, value)
    ensures var next := at + |EntryBytes(shared, key, value)|;
            var keyAt := next - |value| - (|key| - shared);
            keyAt > at && DecodeEntry(data, at, limit) == Some(Header(shared, |key| - shared, |value|, keyAt))
  {
    hide Varint;
    hide ThreeVarints;
    var bytes := EntryBytes(shared, key, value);
    var next := at + |bytes|;
    var rest := key[shared..] + value;
    var tail := data[next..limit];
    assert data[at..limit] == bytes + tail;
    assert bytes + tail == Varint(shared) + (Varint(|key| - shared) + (Varint(|value|) + (rest + tail)));
    HeaderRoundTrip(shared, |key| - shared, |value|, rest + tail);
  }

  lemma EntryParts(data: Bytes, at: nat, shared: nat, key: Bytes, value: Bytes)
    requires shared <= |key| && at + |EntryBytes(shared, key, value)| <= |data|
    requires data[at..at + |EntryBytes(shared, key, value)|] == EntryBytes(shared, key, value)
    ensures var next := at + |EntryBytes(shared, key, value)|;
            var keyAt := next - |value| - (|key| - shared);
            keyAt >= at && data[keyAt..keyAt + |key| - shared] == key[shared..]
                && data[keyAt + |key| - shared..next] == value
  {
    hide Varint;
    var bytes := EntryBytes(shared, key, value);
    var rest := key[shared..] + value;
    var head := Varint(shared) + (Varint(|key| - shared) + Varint(|value|));
    assert bytes == head + rest;
    var next, n := at + |bytes|, |head|;
    assert data[at + n..next] == bytes[n..] == rest;
    assert data[at + n..at + n + |key| - shared] == rest[..|key| - shared];
    assert data[at + n + |key| - shared..next] == rest[|key| - shared..];
  }

  lemma EntryRoundTrip(data: Bytes, limit: nat, at: nat, shared: nat, key: Bytes, value: Bytes, prev: Bytes)
    requires shared <= |key| && shared <= |prev| && prev[..shared] == key[..shared]
    requires |key| < Max32 && at + |EntryBytes(shared, key, value)| <= limit <= |data| < Max32
    requires data[at..at + |EntryBytes(shared, key, value)|] == EntryBytes(shared, key, value)
    ensures EntryAt(data, limit, at, at + |EntryBytes(shared, key, value)|, prev, (key, value))
    ensures shared == 0 ==> WholeAt(data, limit, at)
  {
    hide EntryBytes;
    hide DecodeEntry;
    EntryHeader(data, limit, at, shared, key, value);
    EntryParts(data, at, shared, key, value);
    assert key == key[..shared] + key[shared..];
  }

  lemma {:induction false} BufferSlice(es: Entries, interval: nat, n: nat, i: nat)
    requires i < n <= |es|
    ensures Offset(es, interval, i + 1) <= |Buffer(es, interval, n)|
    ensures Offset(es, interval, i + 1) == Offset(es, interval, i)
        + |EntryBytes(Shared(es, interval, i), es[i].0, es[i].1)|
    ensures Buffer(es, interval, n)[Offset(es, interval, i)..Offset(es, interval, i + 1)] ==
        EntryBytes(Shared(es, interval, i), es[i].0, es[i].1)
  {
    hide EntryBytes;
    hide Buffer;
    hide Shared;
    BufferStep(es, interval, i);
    if i < n - 1 {
      BufferSlice(es, interval, n - 1, i);
      BufferStep(es, interval, n - 1);
      var a, b := Buffer(es, interval, n - 1), EntryBytes(Shared(es, interval, n - 1), es[n - 1].0, es[n - 1].1);
      SliceOfFirst(a, b, Offset(es, interval, i), Offset(es, interval, i + 1));
    }
  }

  lemma BufferStep(es: Entries, interval: nat, i: nat)
    requires i < |es|
    ensures Buffer(es, interval, i + 1) == Buffer(es, interval, i)
        + EntryBytes(Shared(es, interval, i), es[i].0, es[i].1)
  {
  }

  lemma SliceOfFirst(a: Bytes, b: Bytes, i: nat, j: nat)
    requires i <= j <= |a|
    ensures (a + b)[i..j] == a[i..j]
  {
  }

  ghost function Offsets(es: Entries, interval: nat): seq<nat> {
    seq(|es| + 1, i requires 0 <= i <= |es| => Offset(es, interval, i))
  }

  lemma {:induction false} PointsAre(es: Entries, interval: nat, n: nat)
    requires n <= |es| && interval > 0
    ensures |Points(n, interval)| == |Restarts(es, interval, n)| <= n + 1
    ensures Points(n, interval)[0] == 0
    ensures forall i, j :: 0 <= i < j < |Points(n, interval)| ==> Points(n, interval)[i] < Points(n, interval)[j]
    ensures forall r :: 0 <= r < |Points(n, interval)| ==>
        Points(n, interval)[r] <= n && (n > 0 ==> Points(n, interval)[r] < n)
    ensures forall r :: 0 <= r < |Points(n, interval)| ==>
        Restarts(es, interval, n)[r] == Offset(es, interval, Points(n, interval)[r])
    ensures forall r :: 0 < r < |Points(n, interval)| ==> StartsAnew(Points(n, interval)[r], interval)
    ensures n == 1 ==> |Points(n, interval)| == 1
  {
    hide StartsAnew;
    hide Offset;
    NoBytesYet(es, interval);
    FirstIsThere(interval);
    if n > 0 { PointsAre(es, interval, n - 1); }
  }

  /** The first entry does not start anew: its restart point is there from the beginning. */
  lemma FirstIsThere(interval: nat)
    requires interval > 0
    ensures !StartsAnew(0, interval)
  {
  }

  /** A key is no longer than the bytes up to the end of its entry. */
  lemma {:induction false} KeyFits(es: Entries, interval: nat, i: nat)
    requires i < |es|
    ensures |es[i].0| <= Offset(es, interval, i + 1)
  {
    hide Buffer;
    hide EntryBytes;
    hide Shared;
    if i > 0 { KeyFits(es, interval, i - 1); }
    BufferStep(es, interval, i);
    EntryHasSuffix(Shared(es, interval, i), es[i].0, es[i].1);
  }

  lemma EntryHasSuffix(shared: nat, key: Bytes, value: Bytes)
    requires shared <= |key|
    ensures |EntryBytes(shared, key, value)| >= |key| - shared
  {
    hide Varint;
  }

  lemma BlockParts(es: Entries, interval: nat)
    requires |BlockBytes(es, interval)| < Max32 && interval > 0
    ensures var data, limit, restarts := BlockBytes(es, interval), Offset(es, interval, |es|),
        Restarts(es, interval, |es|);
            && RestartOffset(data) == Some(limit) && NumRestarts(data) == |restarts|
                && limit + 4 * |restarts| + 4 == |data|
            && data[..limit] == Buffer(es, interval, |es|)
            && forall r :: 0 <= r < |restarts| && restarts[r] < Max32 ==> RestartPoint(data, limit, r) == restarts[r]
  {
    hide Fixed;
    hide Buffer;
    hide Restarts;
    hide FixedValue;
    var restarts, buffer := Restarts(es, interval, |es|), Buffer(es, interval, |es|);
    var tail, data := FixedAll(restarts), BlockBytes(es, interval);
    FixedAllAt(restarts, 0);
    FourBytes();
    FixedRoundTrip(|restarts|, 4);
    assert data[|data| - 4..] == Fixed(|restarts|, 4);
    forall r | 0 <= r < |restarts| && restarts[r] < Max32 ensures RestartPoint(data, |buffer|, r) == restarts[r] {
      FixedAllAt(restarts, r);
      FixedRoundTrip(restarts[r], 4);
      assert data[|buffer| + 4 * r..|buffer| + 4 * r + 4] == tail[4 * r..4 * r + 4];
    }
  }

  /** Reading back a finished block finds exactly the entries that were added. */
  lemma BlockEncodes(es: Entries, interval: nat)
    requires interval > 0 && |BlockBytes(es, interval)| < Max32
    ensures RestartOffset(BlockBytes(es, interval)) == Some(Offset(es, interval, |es|))
    ensures Encodes(BlockBytes(es, interval), Offset(es, interval, |es|), NumRestarts(BlockBytes(es, interval)), es,
                    Offsets(es, interval), Points(|es|, interval))
  {
    hide Buffer;
    hide Restarts;
    hide EntryAt;
    hide Points;
    hide BlockBytes;
    hide RestartPoint;
    hide WholeAt;
    var data, limit, offsets, points := BlockBytes(es, interval), Offset(es, interval, |es|), Offsets(es, interval),
        Points(|es|, interval);
    BlockParts(es, interval);
    PointsAre(es, interval, |es|);
    NoBytesYet(es, interval);
    forall i | 0 <= i < |es|
      ensures EntryAt(data, limit, offsets[i], offsets[i + 1], Previous(es, i), es[i])
      ensures StartsAnew(i, interval) || i == 0 ==> WholeAt(data, limit, offsets[i])
    {
      EntryInBlock(es, interval, i);
    }
    forall r | 0 <= r < |points| ensures RestartPoint(data, limit, r) == offsets[points[r]] {
      OffsetsGrow(es, interval, points[r], |es|);
    }
  }

  lemma NoBytesYet(es: Entries, interval: nat)
    ensures Offset(es, interval, 0) == 0
  {
  }

  lemma {:induction false} OffsetsGrow(es: Entries, interval: nat, i: nat, n: nat)
    requires i <= n <= |es|
    ensures Offset(es, interval, i) <= Offset(es, interval, n)
  {
    if i < n { OffsetsGrow(es, interval, i, n - 1); }
  }

  lemma SliceOfPrefix(data: Bytes, limit: nat, i: nat, j: nat)
    requires i <= j <= limit <= |data|
    ensures data[..limit][i..j] == data[i..j]
  {
  }

  lemma EntryInBlock(es: Entries, interval: nat, i: nat)
    requires interval > 0 && |BlockBytes(es, interval)| < Max32 && i < |es|
    ensures var data, limit := BlockBytes(es, interval), Offset(es, interval, |es|);
            && limit <= |data|
            && EntryAt(data, limit, Offset(es, interval, i), Offset(es, interval, i + 1), Previous(es, i), es[i])
            && (StartsAnew(i, interval) || i == 0 ==> WholeAt(data, limit, Offset(es, interval, i)))
  {
    hide Buffer;
    hide EntryBytes;
    hide EntryAt;
    hide WholeAt;
    hide BlockBytes;
    var data, limit := BlockBytes(es, interval), Offset(es, interval, |es|);
    var shared, prev := Shared(es, interval, i), Previous(es, i);
    BlockParts(es, interval);
    BufferSlice(es, interval, |es|, i);
    KeyFits(es, interval, i);
    OffsetsGrow(es, interval, i, i + 1);
    OffsetsGrow(es, interval, i + 1, |es|);
    CommonPrefix(prev, es[i].0);
    var at, next := Offset(es, interval, i), Offset(es, interval, i + 1);
    SliceOfPrefix(data, limit, at, next);
    EntryRoundTrip(data, limit, at, shared, es[i].0, es[i].1, prev);
  }
}
