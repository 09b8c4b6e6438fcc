/** Block::Iter (table/block.cc): a cursor over the entries of a block, read from its bytes.  Every method also
    runs on malformed contents; what it then finds is left open, but not that it ends. */
module BlockIters {
  import opened Varints
  import opened Order
  import opened Cursors
  import opened Separators
  import opened Blocks

  // ------------------------------------------------------------------------ offsets

  lemma NextIsLater(data: Bytes, limit: nat, at: nat, next: nat, prev: Bytes, e: (Bytes, Bytes))
    requires limit <= |data| && EntryAt(data, limit, at, next, prev, e)
    ensures at < next <= limit
  {
  }

  lemma OffsetsStep(data: Bytes, limit: nat, num: nat, es: Entries, offsets: seq<nat>, points: seq<nat>, i: nat)
    requires Encodes(data, limit, num, es, offsets, points) && i < |es|
    ensures |offsets| == |es| + 1 && offsets[i] < offsets[i + 1] <= limit
  {
    hide EntryAt;
    NextIsLater(data, limit, offsets[i], offsets[i + 1], Previous(es, i), es[i]);
  }

  lemma {:induction false} OffsetsAscend(data: Bytes, limit: nat, num: nat, es: Entries, offsets: seq<nat>,
                                         points: seq<nat>, i: nat, j: nat)
    requires Encodes(data, limit, num, es, offsets, points) && i < j <= |es|
    ensures |offsets| == |es| + 1 && offsets[i] < offsets[j] <= limit
  {
    hide Encodes;
    OffsetsStep(data, limit, num, es, offsets, points, j - 1);
    if i < j - 1 { OffsetsAscend(data, limit, num, es, offsets, points, i, j - 1); }
  }

  lemma OffsetsOrder(data: Bytes, limit: nat, num: nat, es: Entries, offsets: seq<nat>, points: seq<nat>, i: nat,
                     j: nat)
    requires Encodes(data, limit, num, es, offsets, points) && i <= |es| && j <= |es|
    ensures |offsets| == |es| + 1 && (offsets[i] < offsets[j] <==> i < j)
  {
    hide EntryAt;
    if i < j { OffsetsAscend(data, limit, num, es, offsets, points, i, j); }
    if j < i { OffsetsAscend(data, limit, num, es, offsets, points, j, i); }
  }

  // -------------------------------------------------------------------- the iterator

  /** Parsing at offset at, with this key so far, will give entry i. */
  ghost predicate Parses(data: Bytes, limit: nat, es: Entries, offsets: seq<nat>, i: nat, at: nat, key: Bytes)
    requires limit <= |data| && |offsets| == |es| + 1
  {
    && i <= |es| && at == offsets[i]
    && (i < |es| ==>
          match DecodeEntry(data, at, limit)
          case None => false
          case Some(h) =>
              h.shared <= |key| && h.shared <= |Previous(es, i)|
              && key[..h.shared] == Previous(es, i)[..h.shared])
  }

  /** The key and value just parsed are those of entry i. */
  ghost predicate Parsed(data: Bytes, limit: nat, es: Entries, offsets: seq<nat>, i: nat, current: nat, key: Bytes,
                         valueAt: nat, valueLength: nat)
    requires limit <= |data| && |offsets| == |es| + 1 && i < |es|
  {
    && current == offsets[i] && current < limit && key == es[i].0
    && valueAt + valueLength == offsets[i + 1] <= limit && data[valueAt..valueAt + valueLength] == es[i].1
  }

  lemma ParsingParses(data: Bytes, limit: nat, num: nat, es: Entries, offsets: seq<nat>, points: seq<nat>, i: nat,
                      key: Bytes)
    requires Encodes(data, limit, num, es, offsets, points) && i < |es|
        && Parses(data, limit, es, offsets, i, offsets[i], key)
    ensures offsets[i] < limit && DecodeEntry(data, offsets[i], limit).Some?
    ensures var h := DecodeEntry(data, offsets[i], limit).value;
            && h.shared <= |key|
            && Parsed(data, limit, es, offsets, i, offsets[i], key[..h.shared] + data[h.keyAt..h.keyAt + h.nonShared],
                h.keyAt + h.nonShared, h.valueLength)
  {
    assert EntryAt(data, limit, offsets[i], offsets[i + 1], Previous(es, i), es[i]);
  }

  /** After entry i the next parse gives entry i + 1. */
  lemma ParsedParses(data: Bytes, limit: nat, num: nat, es: Entries, offsets: seq<nat>, points: seq<nat>, i: nat)
    requires Encodes(data, limit, num, es, offsets, points) && i < |es|
    ensures Parses(data, limit, es, offsets, i + 1, offsets[i + 1], es[i].0)
  {
    if i + 1 < |es| { assert EntryAt(data, limit, offsets[i + 1], offsets[i + 2], Previous(es, i + 1), es[i + 1]); }
  }

  /** At a restart point no key is needed. */
  lemma RestartParses(data: Bytes, limit: nat, num: nat, es: Entries, offsets: seq<nat>, points: seq<nat>, r: nat)
    requires Encodes(data, limit, num, es, offsets, points) && r < num
    ensures Parses(data, limit, es, offsets, points[r], RestartPoint(data, limit, r), [])
  {
    if es != [] {
      assert WholeAt(data, limit, offsets[points[r]]);
      assert EntryAt(data, limit, offsets[points[r]], offsets[points[r] + 1], Previous(es, points[r]), es[points[r]]);
    }
  }

  /** restartIndex is the restart block entry i falls in, or the one before if i is a restart point itself. */
  ghost predicate Falls(points: seq<nat>, restartIndex: nat, i: nat) {
    restartIndex < |points| && points[restartIndex] <= i
        && (restartIndex + 1 < |points| ==> i <= points[restartIndex + 1])
  }

  class Iter {
    const cmp: Comparator<Bytes>
    const data: Bytes
    const restarts: nat          // offset of the restart array
    const numRestarts: nat
    var current: nat             // offset of the current entry; restarts or more if there is none
    var restartIndex: nat
    var key: Bytes
    var valueAt: nat
    var valueLength: nat
    var corrupted: bool
    ghost const es: Entries      // what the block holds, if it is well-formed
    ghost const offsets: seq<nat>
    ghost const points: seq<nat>
    ghost var pos: nat

    /** What any contents give. */
    ghost predicate Shape()
      reads this
    {
      restarts + 4 * numRestarts <= |data| && numRestarts > 0 && (current < restarts ==> restartIndex < numRestarts)
    }

    /** Shape, and what the iterator hands out lies in the block. */
    ghost predicate Readable()
      reads this
    {
      Shape() && (current < restarts ==> NextEntryOffset() <= restarts)
    }

    ghost predicate WellFormed() { Encodes(data, restarts, numRestarts, es, offsets, points) }

    /** The next parse gives entry i. */
    ghost predicate Ready(i: nat)
      reads this
    {
      && WellFormed() && i <= |es| && Parses(data, restarts, es, offsets, i, valueAt + valueLength, key)
      && restartIndex < numRestarts && points[restartIndex] <= i
    }

    /** The iterator stands at entry i, or at the end. */
    ghost predicate StandsAt(i: nat)
      reads this
    {
      && WellFormed() && i <= |es|
      && if i == |es| then current == restarts
         else
           Parsed(data, restarts, es, offsets, i, current, key, valueAt, valueLength)
           && Falls(points, restartIndex, i)
    }

    ghost predicate Valid()
      reads this
    {
      Shape() && StandsAt(pos)
    }

    ghost function View(): Cursor<Bytes, Bytes>
      reads this
    {
      Cursor(es, pos)
    }

    constructor (cmp: Comparator<Bytes>, data: Bytes, restarts: nat, numRestarts: nat, ghost es: Entries,
                 ghost offsets: seq<nat>, ghost points: seq<nat>)
      requires restarts + 4 * numRestarts <= |data| && numRestarts > 0
      ensures Readable() && this.es == es && this.cmp == cmp && this.data == data && this.restarts == restarts
          && this.numRestarts == numRestarts
      ensures Encodes(data, restarts, numRestarts, es, offsets, points) ==> Valid() && View() == Cursor(es, |es|)
    {
      this.cmp, this.data, this.restarts, this.numRestarts := cmp, data, restarts, numRestarts;
      this.es, this.offsets, this.points := es, offsets, points;
      current, restartIndex, key, valueAt, valueLength, corrupted := restarts, numRestarts, [], 0, 0, false;
      pos := |es|;
    }

    function NextEntryOffset(): nat
      reads this
    {
      valueAt + valueLength
    }

    method Key() returns (k: Bytes)
      requires Readable() && current < restarts
      ensures k == key
      ensures Valid() && pos < |es| ==> k == View().Key()
    {
      k := key;
    }

    method Value() returns (v: Bytes)
      requires Readable() && current < restarts
      ensures NextEntryOffset() <= |data| && v == data[valueAt..valueAt + valueLength]
      ensures Valid() && pos < |es| ==> v == View().Value()
    {
      v := data[valueAt..valueAt + valueLength];
    }

    /** Valid() of the interface. */
    method IsValid() returns (b: bool)
      ensures b <==> current < restarts
      ensures Valid() ==> (b <==> View().Valid())
    {
      if Valid() && pos < |es| { assert Parsed(data, restarts, es, offsets, pos, current, key, valueAt, valueLength); }
      b := current < restarts;
    }

    method GetRestartPoint(index: nat) returns (offset: nat)
      requires Shape() && index < numRestarts
      ensures offset == RestartPoint(data, restarts, index)
    {
      offset := FixedValue(data[restarts + 4 * index..restarts + 4 * index + 4]);
    }

    method SeekToRestartPoint(index: nat)
      requires Shape() && index < numRestarts
      modifies this
      ensures Shape() && current == old(current) && restartIndex == index
          && NextEntryOffset() == RestartPoint(data, restarts, index)
      ensures WellFormed() ==> Ready(points[index])
    {
      hide Encodes;
      hide Parses;
      key, restartIndex := [], index;
      valueAt := GetRestartPoint(index);
      valueLength := 0;
      if WellFormed() { RestartParses(data, restarts, numRestarts, es, offsets, points, index); }
    }

    method CorruptionError()
      requires Shape()
      modifies this
      ensures Shape() && current == restarts && corrupted
    {
      current, restartIndex, corrupted := restarts, numRestarts, true;
      key, valueAt, valueLength := [], 0, 0;
    }

    lemma PointFacts(r: nat)
      requires WellFormed() && r < numRestarts
      ensures restarts <= |data| && |points| == numRestarts && |offsets| == |es| + 1 && offsets[0] == 0
          && offsets[|es|] == restarts
      ensures points[0] == 0 && points[r] <= |es| && (es != [] ==> points[r] < |es|)
          && (r > 0 ==> points[r - 1] < points[r])
    {
    }

    lemma ReadyFacts(i: nat)
      requires Ready(i)
      ensures restarts <= |data| && |offsets| == |es| + 1 && |points| == numRestarts
          && (NextEntryOffset() < restarts <==> i < |es|)
      ensures i < |es| ==>
                && DecodeEntry(data, NextEntryOffset(), restarts).Some?
                && var h := DecodeEntry(data, NextEntryOffset(), restarts).value;
                   && h.shared <= |key| && NextEntryOffset() == offsets[i]
                   && Parsed(data, restarts, es, offsets, i, offsets[i],
                       key[..h.shared] + data[h.keyAt..h.keyAt + h.nonShared], h.keyAt + h.nonShared, h.valueLength)
    {
      hide Encodes;
      hide Parsed;
      hide DecodeEntry;
      PointFacts(0);
      OffsetsOrder(data, restarts, numRestarts, es, offsets, points, i, |es|);
      if i < |es| { ParsingParses(data, restarts, numRestarts, es, offsets, points, i, key); }
    }

    /** Restart point r lies before entry i exactly when its entry does. */
    lemma PointBefore(r: nat, i: nat)
      requires WellFormed() && r < numRestarts && i <= |es|
      ensures |points| == numRestarts && |offsets| == |es| + 1 && restarts + 4 * r + 4 <= |data|
      ensures RestartPoint(data, restarts, r) < offsets[i] <==> points[r] < i
    {
      OffsetsOrder(data, restarts, numRestarts, es, offsets, points, points[r], i);
    }

    /** The entry after the current value, if there is one. */
    method ParseNextKey(ghost i: nat) returns (ok: bool)
      requires Shape() && restartIndex < numRestarts
      modifies this
      ensures Readable() && (ok <==> current < restarts)
          && (ok ==> restartIndex < numRestarts && old(NextEntryOffset()) < NextEntryOffset())
      ensures old(Ready(i)) ==> pos == i && (ok <==> i < |es|) && Valid()
    {
      hide Encodes;
      hide Parses;
      hide Parsed;
      hide DecodeEntry;
      ghost var ready := Ready(i);
      if ready { ReadyFacts(i); }
      pos := i;
      current := NextEntryOffset();
      if current >= restarts {
        // no more entries
        current, restartIndex := restarts, numRestarts;
        return false;
      }
      var h := DecodeEntryFast(data, current, restarts);
      if h.None? || |key| < h.value.shared {
        CorruptionError();
        pos := i;
        return false;
      }
      HeaderIsLater(data, current, restarts);
      key := key[..h.value.shared] + data[h.value.keyAt..h.value.keyAt + h.value.nonShared];
      valueAt, valueLength := h.value.keyAt + h.value.nonShared, h.value.valueLength;
      FindRestart(i, ready);
      ok := true;
    }

    /** The restart block of the entry just parsed. */
    method FindRestart(ghost i: nat, ghost ready: bool)
      requires Shape() && restartIndex < numRestarts
      requires ready ==>
          WellFormed() && i < |es| == |offsets| - 1 && |points| == numRestarts && current == offsets[i]
          && points[restartIndex] <= i
      modifies this`restartIndex
      ensures Shape() && restartIndex < numRestarts
      ensures ready ==> Falls(points, restartIndex, i)
    {
      hide Encodes;
      while restartIndex + 1 < numRestarts
        invariant restartIndex < numRestarts && (ready ==> points[restartIndex] <= i)
      {
        var next := GetRestartPoint(restartIndex + 1);
        if ready { PointBefore(restartIndex + 1, i); }
        if next >= current { break; }
        restartIndex := restartIndex + 1;
      }
    }

    lemma AfterParsed()
      requires Valid() && pos < |es|
      ensures Ready(pos + 1)
    {
      hide Encodes;
      hide Parses;
      PointFacts(0);
      ParsedParses(data, restarts, numRestarts, es, offsets, points, pos);
    }

    method Next()
      requires Shape() && current < restarts
      modifies this
      ensures Readable()
      ensures old(Valid()) && old(pos) < |es| ==> Valid() && View() == old(View()).Next()
    {
      hide Encodes;
      hide Parses;
      hide Parsed;
      ghost var i := pos + 1;
      if Valid() && pos < |es| { AfterParsed(); }
      var ok := ParseNextKey(i);
    }

    method SeekToFirst()
      requires Shape()
      modifies this
      ensures Readable()
      ensures WellFormed() ==> Valid() && View() == old(View()).SeekToFirst()
    {
      SeekToRestartPoint(0);
      var ok := ParseNextKey(0);
    }

    /** Where a scan from restart point index stands after parsing entry i. */
    lemma EndOfEntry(i: nat)
      requires Valid() && pos < |es| && i <= |es|
      ensures |offsets| == |es| + 1 && (NextEntryOffset() < offsets[i] <==> pos + 1 < i)
      ensures offsets[|es|] == restarts && current == offsets[pos]
    {
      OffsetsOrder(data, restarts, numRestarts, es, offsets, points, pos + 1, i);
    }

    method SeekToLast()
      requires Shape()
      modifies this
      ensures Readable()
      ensures WellFormed() ==> Valid() && View() == old(View()).SeekToLast()
    {
      hide Encodes;
      if WellFormed() { PointFacts(numRestarts - 1); }
      SeekToRestartPoint(numRestarts - 1);
      var ok := ScanTo(restarts, |es|, if WellFormed() then points[numRestarts - 1] else 0);
    }

    /** Keep skipping while entries end before the given offset, which is where entry j starts. */
    method ScanTo(end: nat, ghost j: nat, ghost first: nat) returns (ok: bool)
      requires Shape() && restartIndex < numRestarts
      modifies this
      ensures Readable()
      ensures
          old(Ready(first)) && first <= j <= |es| == |offsets| - 1 && end == offsets[j]
          && (first < j || j == |es| == 0) ==>
                Valid() && pos == if j == 0 then 0 else j - 1
    {
      hide Encodes;
      hide Parses;
      hide Parsed;
      ghost var good := Ready(first) && first <= j <= |es| == |offsets| - 1 && end == offsets[j]
          && (first < j || j == |es| == 0);
      ghost var i: nat := first;
      ok := true;
      while true
        invariant Shape() && restartIndex < numRestarts
        invariant good ==> Ready(i) && i <= j && (i < j || j == |es| == 0)
        decreases restarts - NextEntryOffset()
      {
        ok := ParseNextKey(i);
        if !ok { break; }
        if good { EndOfEntry(j); }
        if NextEntryOffset() >= end { break; }
        if good { AfterParsed(); }
        i := i + 1;
      }
    }

    method Prev()
      requires Shape() && current < restarts
      modifies this
      ensures Readable()
      ensures old(Valid()) && old(pos) < |es| ==> Valid() && View() == old(View()).Prev()
    {
      hide Encodes;
      hide Parses;
      hide Parsed;
      ghost var good, i := Valid() && pos < |es|, pos;
      var original := current;
      if good { EndOfEntry(pos); PointFacts(0); }
      // scan backwards to a restart point before current
      while true
        invariant Shape() && restartIndex < numRestarts && pos == i && current == original
        invariant good ==>
            WellFormed() && i < |es| == |offsets| - 1 && original == offsets[i]
            && |points| == numRestarts && points[restartIndex] <= i
        decreases restartIndex
      {
        var point := GetRestartPoint(restartIndex);
        if good { PointBefore(restartIndex, i); PointFacts(restartIndex); }
        if point < original { break; }
        if restartIndex == 0 {
          // no more entries
          current, restartIndex := restarts, numRestarts;
          pos := |es|;
          return;
        }
        restartIndex := restartIndex - 1;
      }
      SeekToRestartPoint(restartIndex);
      var ok := ScanTo(original, i, if good then points[restartIndex] else 0);
    }

    lemma KeyIs()
      requires Valid() && pos < |es|
      ensures key == es[pos].0
    {
    }

    /** The key at a restart point can be read without the keys before it. */
    lemma RestartKey(r: nat)
      requires WellFormed() && r < numRestarts && numRestarts > 1
      ensures |points| == numRestarts && points[r] < |es| && restarts + 4 * numRestarts <= |data|
      ensures var h := DecodeEntry(data, RestartPoint(data, restarts, r), restarts);
              h.Some? && h.value.shared == 0 && data[h.value.keyAt..h.value.keyAt + h.value.nonShared] ==
                  es[points[r]].0
    {
      hide EntryAt;
      hide WholeAt;
      PointFacts(0);
      PointFacts(1);
      PointFacts(r);
      var i := points[r];
      WholeKey(data, restarts, offsets[i], offsets[i + 1], Previous(es, i), es[i]);
    }

    /** The last restart point whose key is before the target, or the first one. */
    method FindBlock(target: Bytes) returns (ok: bool, left: nat)
      requires Shape() && TotalOrder(cmp)
      modifies this
      ensures Shape() && (ok ==> left < numRestarts) && (!ok ==> current == restarts)
      ensures WellFormed() ==>
                && ok && |points| == numRestarts
                && (left > 0 ==> points[left] < |es| && cmp(es[points[left]].0, target) < 0)
                && (left + 1 < numRestarts ==> points[left + 1] < |es| && cmp(es[points[left + 1]].0, target) >= 0)
    {
      hide Encodes;
      hide DecodeEntry;
      ghost var good := WellFormed();
      left := 0;
      var right := numRestarts - 1;
      if good { PointFacts(0); }
      while left < right
        invariant Shape() && left <= right < numRestarts
        invariant good && left > 0 ==> points[left] < |es| && cmp(es[points[left]].0, target) < 0
        invariant good && right + 1 < numRestarts ==>
            points[right + 1] < |es| && cmp(es[points[right + 1]].0, target) >= 0
      {
        var mid := (left + right + 1) / 2;
        var regionOffset := GetRestartPoint(mid);
        if good { RestartKey(mid); }
        var h := DecodeEntryFast(data, regionOffset, restarts);
        if h.None? || h.value.shared != 0 {
          CorruptionError();
          return false, 0;
        }
        HeaderIsLater(data, regionOffset, restarts);
        var midKey := data[h.value.keyAt..h.value.keyAt + h.value.nonShared];
        if cmp(midKey, target) < 0 {
          left := mid;
        } else {
          right := mid - 1;
        }
      }
      ok := true;
    }

    lemma BeforePoint(r: nat, target: Bytes)
      requires WellFormed() && Sorted(cmp, es) && TotalOrder(cmp) && r < numRestarts && |points| == numRestarts
      requires r > 0 ==> points[r] < |es| && cmp(es[points[r]].0, target) < 0
      ensures points[r] <= |es| && (points[r] > 0 ==> cmp(es[points[r] - 1].0, target) < 0)
    {
      hide Encodes;
      hide Sorted;
      PointFacts(r);
      if points[r] > 0 {
        SortedAt(cmp, es, points[r] - 1, points[r]);
        Transitive(cmp, es[points[r] - 1].0, es[points[r]].0, target);
      }
    }

    method Seek(target: Bytes)
      requires Shape() && TotalOrder(cmp)
      modifies this
      ensures Readable()
      ensures WellFormed() && Sorted(cmp, es) ==> Valid() && View() == old(View()).Seek(cmp, target)
    {
      hide Encodes;
      hide Parses;
      hide Parsed;
      ghost var good := WellFormed() && Sorted(cmp, es);
      var ok, left := FindBlock(target);
      if !ok { return; }
      SeekToRestartPoint(left);
      if good { PointFacts(left); BeforePoint(left, target); }
      ghost var i: nat := if good then points[left] else 0;
      while true
        invariant Shape() && restartIndex < numRestarts
        invariant good ==> Ready(i) && (i > 0 ==> cmp(es[i - 1].0, target) < 0)
        decreases restarts - NextEntryOffset()
      {
        ok := ParseNextKey(i);
        if !ok { break; }
        if good { KeyIs(); }
        if cmp(key, target) >= 0 { break; }
        if good { AfterParsed(); }
        i := i + 1;
      }
      if good { FirstAtOrAfterIs(cmp, es, target, pos); }
    }
  }

  lemma WholeKey(data: Bytes, limit: nat, at: nat, next: nat, prev: Bytes, e: (Bytes, Bytes))
    requires limit <= |data| && WholeAt(data, limit, at) && EntryAt(data, limit, at, next, prev, e)
    ensures var h := DecodeEntry(data, at, limit);
            h.Some? && h.value.shared == 0 && data[h.value.keyAt..h.value.keyAt + h.value.nonShared] == e.0
  {
    var h := DecodeEntry(data, at, limit).value;
    assert prev[..0] + data[h.keyAt..h.keyAt + h.nonShared] == data[h.keyAt..h.keyAt + h.nonShared];
  }

  lemma HeaderIsLater(data: Bytes, p: nat, limit: nat)
    requires limit <= |data|
    ensures var h := DecodeEntry(data, p, limit);
            h.Some? ==> p < h.value.keyAt && h.value.keyAt + h.value.nonShared + h.value.valueLength <= limit
  {
  }
}
