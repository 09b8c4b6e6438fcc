/** TwoLevelIterator (table/two_level_iterator.cc): an index of blocks and the iterator of one of them, as a
    cursor over all the blocks' entries in a row. */
module TwoLevels {
  import opened Order
  import opened Cursors
  import opened Options

  // ------------------------------------------------------------------------ all blocks

  /** The entries of the first n blocks. */
  function Joined<K, V, H>(index: seq<(K, H)>, contents: H -> seq<(K, V)>, n: nat): seq<(K, V)>
    requires n <= |index|
  {
    if n == 0 then [] else Joined(index, contents, n - 1) + contents(index[n - 1].1)
  }

  function All<K, V, H>(index: seq<(K, H)>, contents: H -> seq<(K, V)>): seq<(K, V)> {
    Joined(index, contents, |index|)
  }

  function Start<K, V, H>(index: seq<(K, H)>, contents: H -> seq<(K, V)>, i: nat): nat
    requires i <= |index|
  {
    |Joined(index, contents, i)|
  }

  /** Every index key is at or after its block's keys, and before those of the later blocks. */
  ghost predicate Indexes<K(!new), V(!new), H>(cmp: Comparator<K>, index: seq<(K, H)>, contents: H -> seq<(K, V)>) {
    && TotalOrder(cmp) && Sorted(cmp, index)
    && (forall i :: 0 <= i < |index| ==> Sorted(cmp, contents(index[i].1)))
    && (forall i, k {:trigger contents(index[i].1)[k]} :: 0 <= i < |index| && 0 <= k < |contents(index[i].1)| ==>
        cmp(contents(index[i].1)[k].0, index[i].0) <= 0)
    && (forall i, k {:trigger contents(index[i].1)[k]} :: 0 < i < |index| && 0 <= k < |contents(index[i].1)| ==>
        cmp(index[i - 1].0, contents(index[i].1)[k].0) < 0)
  }

  lemma {:induction false} StartsAscend<K, V, H>(index: seq<(K, H)>, contents: H -> seq<(K, V)>, i: nat, n: nat)
    requires i <= n <= |index|
    ensures Start(index, contents, i) <= Start(index, contents, n)
    ensures Joined(index, contents, n)[..Start(index, contents, i)] == Joined(index, contents, i)
  {
    if i < n { StartsAscend(index, contents, i, n - 1); }
  }

  /** Block i's entries lie from Start(i) on. */
  lemma BlockLies<K, V, H>(index: seq<(K, H)>, contents: H -> seq<(K, V)>, i: nat, k: nat)
    requires i < |index| && k < |contents(index[i].1)|
    ensures Start(index, contents, i + 1) == Start(index, contents, i)
        + |contents(index[i].1)| <= |All(index, contents)|
    ensures All(index, contents)[Start(index, contents, i) + k] == contents(index[i].1)[k]
  {
    StartsAscend(index, contents, i + 1, |index|);
    var upTo, g := Joined(index, contents, i + 1), Start(index, contents, i) + k;
    assert upTo[g] == contents(index[i].1)[k];
    assert All(index, contents)[..|upTo|][g] == upTo[g];
  }

  /** The keys of the first n blocks are at or before the last of their index keys, and sorted. */
  lemma {:induction false} JoinedSorted<K(!new), V(!new), H>(cmp: Comparator<K>, index: seq<(K, H)>,
                                                             contents: H -> seq<(K, V)>, n: nat)
    requires Indexes(cmp, index, contents) && n <= |index|
    ensures Sorted(cmp, Joined(index, contents, n))
    ensures n > 0 ==> forall k :: 0 <= k < Start(index, contents, n) ==>
        cmp(Joined(index, contents, n)[k].0, index[n - 1].0) <= 0
  {
    if n > 0 {
      JoinedSorted(cmp, index, contents, n - 1);
      var before, block := Joined(index, contents, n - 1), contents(index[n - 1].1);
      if n > 1 { SortedAt(cmp, index, n - 2, n - 1); }
      forall a, b | 0 <= a < |before| && 0 <= b < |block| ensures cmp(before[a].0, block[b].0) < 0 {
        Transitive(cmp, before[a].0, index[n - 2].0, block[b].0);
      }
      forall a | 0 <= a < |before| ensures cmp(before[a].0, index[n - 1].0) <= 0 {
        Transitive(cmp, before[a].0, index[n - 2].0, index[n - 1].0);
      }
      SortedAppend(cmp, before, block);
    }
  }

  lemma SortedAppend<K(!new), V(!new)>(cmp: Comparator<K>, a: seq<(K, V)>, b: seq<(K, V)>)
    requires Sorted(cmp, a) && Sorted(cmp, b) && forall i, j :: 0 <= i < |a| && 0 <= j < |b| ==> cmp(a[i].0, b[j].0) < 0
    ensures Sorted(cmp, a + b)
  {
    forall i, j | 0 <= i < j < |a + b| ensures Precedes(cmp, a + b, i, j) {
      if j < |a| { assert Precedes(cmp, a, i, j); }
      if i >= |a| { assert Precedes(cmp, b, i - |a|, j - |a|); }
    }
  }

  // -------------------------------------------------------------------- the iterator

  class TwoLevelIterator<K(!new), V(!new), H(==)> {
    const cmp: Comparator<K>
    const contents: H -> seq<(K, V)>       // block_function_: the entries behind a handle
    var index: Cursor<K, H>
    var data: Option<Cursor<K, V>>         // data_iter_
    var dataBlockHandle: Option<H>         // the handle data was made from

    /** data iterates the block the index stands at. */
    ghost predicate Linked()
      reads this
    {
      && index.InRange()
      && (data.Some? ==>
            && index.Valid() && dataBlockHandle == Some(index.Value())
            && data.value.entries == contents(index.Value()) && data.value.InRange())
    }

    ghost predicate Valid()
      reads this
    {
      && Indexes(cmp, index.entries, contents)
      && Linked()
      && (data.Some? ==> data.value.Valid())
    }

    /** Where data stands among all entries. */
    ghost function Position(): nat
      requires Linked()
      reads this
    {
      if data.Some? then Start(index.entries, contents, index.pos) + data.value.pos else |All(index.entries, contents)|
    }

    ghost function View(): Cursor<K, V>
      requires Linked()
      reads this
    {
      Cursor(All(index.entries, contents), Position())
    }

    constructor (cmp: Comparator<K>, contents: H -> seq<(K, V)>, index: Cursor<K, H>)
      requires Indexes(cmp, index.entries, contents) && index.InRange()
      ensures Valid() && View() == Cursor(All(index.entries, contents), |All(index.entries, contents)|)
      ensures this.cmp == cmp && this.contents == contents && this.index == index
    {
      this.cmp, this.contents, this.index := cmp, contents, index;
      data, dataBlockHandle := None, None;
    }

    lemma DataLies()
      requires Linked() && data.Some? && data.value.Valid()
      ensures View().Valid() && View().Key() == data.value.Key() && View().Value() == data.value.Value()
    {
      BlockLies(index.entries, contents, index.pos, data.value.pos);
    }

    method IsValid() returns (b: bool)
      requires Valid()
      ensures b <==> View().Valid()
    {
      if data.Some? { DataLies(); }
      b := data.Some? && data.value.Valid();
    }

    method Key() returns (k: K)
      requires Valid() && View().Valid()
      ensures k == View().Key()
    {
      DataLies();
      k := data.value.Key();
    }

    method Value() returns (v: V)
      requires Valid() && View().Valid()
      ensures v == View().Value()
    {
      DataLies();
      v := data.value.Value();
    }

    /** The iterator of the block the index stands at; an iterator already made for it is kept. */
    method InitDataBlock()
      requires index.InRange()
      requires data.Some? ==>
          dataBlockHandle.Some? && data.value.entries == contents(dataBlockHandle.value)
          && data.value.InRange()
      modifies this`data, this`dataBlockHandle
      ensures Linked() && (data.Some? <==> index.Valid())
    {
      if !index.Valid() {
        data := None;
      } else {
        var handle := index.Value();
        if data.Some? && Some(handle) == dataBlockHandle {
          // already constructed with this handle
        } else {
          var entries := contents(handle);
          dataBlockHandle, data := Some(handle), Some(Cursor(entries, |entries|));
        }
      }
    }

    /** Move on to the next entry there is. */
    method SkipEmptyDataBlocksForward()
      requires Indexes(cmp, index.entries, contents) && Linked() && (data.None? ==> !index.Valid())
      modifies this
      ensures index.entries == old(index.entries) && Valid() && View() == old(View())
    {
      hide Indexes;
      ghost var es, g := index.entries, Position();
      while data.None? || !data.value.Valid()
        invariant index.entries == es && Indexes(cmp, es, contents) && Linked() && (data.None? ==> !index.Valid())
            && Position() == g
        decreases |index.entries| - index.pos, data.Some?
      {
        if !index.Valid() {
          data := None;
          return;
        }
        NextStart(es, contents, index.pos);
        index := index.Next();
        InitDataBlock();
        if data.Some? { data := Some(data.value.SeekToFirst()); }
      }
    }

    /** Move back to the last entry before the block the index stands at, if data is off its block. */
    method SkipEmptyDataBlocksBackward()
      requires Indexes(cmp, index.entries, contents) && Linked() && (data.None? ==> !index.Valid())
      modifies this
      ensures index.entries == old(index.entries) && Valid()
      ensures View() == if old(data.None? || !data.value.Valid()) then old(JustBefore()) else old(View())
    {
      hide Indexes;
      ghost var es, before, g := index.entries, JustBefore(), Position();
      ghost var off := data.None? || !data.value.Valid();
      while data.None? || !data.value.Valid()
        invariant index.entries == es && Indexes(cmp, es, contents) && Linked() && (data.None? ==> !index.Valid())
        invariant off && (data.None? || !data.value.Valid()) ==> JustBefore() == before
        invariant off && data.Some? && data.value.Valid() ==> View() == before
        invariant !off ==> data.Some? && data.value.Valid() && Position() == g
        decreases if index.Valid() then index.pos + 1 else 0, data.Some?
      {
        if !index.Valid() {
          data := None;
          return;
        }
        if index.pos > 0 { NextStart(es, contents, index.pos - 1); }
        index := index.Prev();
        InitDataBlock();
        if data.Some? { data := Some(data.value.SeekToLast()); }
      }
    }

    /** The view one entry before the block the index stands at. */
    ghost function JustBefore(): Cursor<K, V>
      requires index.InRange()
      reads this
    {
      var all, start := All(index.entries, contents), Start(index.entries, contents, index.pos);
      Cursor(all, if !index.Valid() || start == 0 then |all| else start - 1)
    }

    method Seek(target: K)
      requires Valid()
      modifies this
      ensures Valid() && View() == old(View()).Seek(cmp, target)
    {
      index := index.Seek(cmp, target);
      InitDataBlock();
      if data.Some? { data := Some(data.value.Seek(cmp, target)); }
      SeekLands(cmp, index.entries, contents, target, index.pos, if data.Some? then data.value.pos else 0);
      SkipEmptyDataBlocksForward();
    }

    method SeekToFirst()
      requires Valid()
      modifies this
      ensures Valid() && View() == old(View()).SeekToFirst()
    {
      index := index.SeekToFirst();
      InitDataBlock();
      if data.Some? { data := Some(data.value.SeekToFirst()); }
      SkipEmptyDataBlocksForward();
    }

    method SeekToLast()
      requires Valid()
      modifies this
      ensures Valid() && View() == old(View()).SeekToLast()
    {
      index := index.SeekToLast();
      InitDataBlock();
      if data.Some? { data := Some(data.value.SeekToLast()); }
      SkipEmptyDataBlocksBackward();
    }

    method Next()
      requires Valid() && View().Valid()
      modifies this
      ensures Valid() && View() == old(View()).Next()
    {
      data := Some(data.value.Next());
      SkipEmptyDataBlocksForward();
    }

    method Prev()
      requires Valid() && View().Valid()
      modifies this
      ensures Valid() && View() == old(View()).Prev()
    {
      data := Some(data.value.Prev());
      SkipEmptyDataBlocksBackward();
    }
  }

  lemma NextStart<K, V, H>(index: seq<(K, H)>, contents: H -> seq<(K, V)>, i: nat)
    requires i < |index|
    ensures Start(index, contents, i + 1) == Start(index, contents, i) + |contents(index[i].1)|
  {
  }

  /** Entries behind block i have keys behind its index key. */
  lemma {:induction false} LaterKeys<K(!new), V(!new), H>(cmp: Comparator<K>, index: seq<(K, H)>,
                                                          contents: H -> seq<(K, V)>, i: nat, n: nat, g: nat)
    requires Indexes(cmp, index, contents) && i < n <= |index|
        && Start(index, contents, i + 1) <= g < Start(index, contents, n)
    ensures cmp(index[i].0, Joined(index, contents, n)[g].0) < 0
  {
    var before := Start(index, contents, n - 1);
    if g < before {
      LaterKeys(cmp, index, contents, i, n - 1, g);
    } else {
      var block := contents(index[n - 1].1);
      assert Joined(index, contents, n)[g] == block[g - before];
      assert i < n - 1;
      SortedAt(cmp, index, i, n - 2);
      Transitive(cmp, index[i].0, index[n - 2].0, block[g - before].0);
    }
  }

  lemma BeforeLanding<K(!new), V(!new), H>(cmp: Comparator<K>, index: seq<(K, H)>, contents: H -> seq<(K, V)>,
                                           target: K, i: nat)
    requires Indexes(cmp, index, contents) && i == FirstAtOrAfter(cmp, index, target) && Start(index, contents, i) > 0
    ensures Start(index, contents, i) <= |All(index, contents)|
        && cmp(All(index, contents)[Start(index, contents, i) - 1].0, target) < 0
  {
    var g := Start(index, contents, i) - 1;
    FirstAtOrAfterSplits(cmp, index, target);
    JoinedSorted(cmp, index, contents, i);
    StartsAscend(index, contents, i, |index|);
    assert All(index, contents)[g] == Joined(index, contents, i)[g];
    Transitive(cmp, All(index, contents)[g].0, index[i - 1].0, target);
  }

  lemma AfterLanding<K(!new), V(!new), H>(cmp: Comparator<K>, index: seq<(K, H)>, contents: H -> seq<(K, V)>, target: K,
                                          i: nat, g: nat)
    requires Indexes(cmp, index, contents) && i == FirstAtOrAfter(cmp, index, target) && i < |index|
    requires Start(index, contents, i + 1) <= g < |All(index, contents)|
    ensures cmp(All(index, contents)[g].0, target) >= 0
  {
    Laws(cmp);
    FirstAtOrAfterSplits(cmp, index, target);
    LaterKeys(cmp, index, contents, i, |index|, g);
    Transitive(cmp, target, index[i].0, All(index, contents)[g].0);
  }

  /** Seeking in the index and then in the block it leads to is seeking in all the entries. */
  lemma SeekLands<K(!new), V(!new), H>(cmp: Comparator<K>, index: seq<(K, H)>, contents: H -> seq<(K, V)>, target: K,
                                       i: nat, k: nat)
    requires Indexes(cmp, index, contents) && i == FirstAtOrAfter(cmp, index, target)
    requires i < |index| ==> k == FirstAtOrAfter(cmp, contents(index[i].1), target)
    requires i == |index| ==> k == 0
    ensures FirstAtOrAfter(cmp, All(index, contents), target) == Start(index, contents, i) + k
  {
    hide Indexes;
    hide Joined;
    var all, g := All(index, contents), Start(index, contents, i) + k;
    JoinedSorted(cmp, index, contents, |index|);
    StartsAscend(index, contents, i, |index|);
    if k == 0 && g > 0 { BeforeLanding(cmp, index, contents, target, i); }
    if i < |index| {
      var block := contents(index[i].1);
      NextStart(index, contents, i);
      FirstAtOrAfterSplits(cmp, block, target);
      if k > 0 { BlockLies(index, contents, i, k - 1); }
      if k < |block| {
        BlockLies(index, contents, i, k);
      } else if g < |all| {
        AfterLanding(cmp, index, contents, target, i, g);
      }
    }
    Ordered(cmp, index, contents);
    FirstAtOrAfterIs(cmp, all, target, g);
  }

  lemma Ordered<K(!new), V(!new), H>(cmp: Comparator<K>, index: seq<(K, H)>, contents: H -> seq<(K, V)>)
    requires Indexes(cmp, index, contents)
    ensures TotalOrder(cmp)
  {
  }
}
