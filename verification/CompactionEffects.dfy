/** The whole compaction: picked files, merged inputs, the loop's outputs and the new version,
    and exactly when a reader can tell that it happened. */
module CompactionEffects {
  import opened Order
  import opened Cursors
  import opened InternalKeys
  import opened Options
  import opened Tables
  import opened Versions
  import opened Inputs
  import opened Picking
  import opened Levels
  import opened Flush
  import opened Drops
  import opened Compactions
  import opened CompactionSteps

  // ------------------------------------------------------------------ the outputs

  lemma AppendSorted<U(!new), V(!new)>(ucmp: Comparator<U>, es: Entries<U, V>, e: Entry<U, V>)
    requires Ordered(ucmp, es) && forall x :: x in es ==> InternalCompare(ucmp, x.0, e.0) < 0
    ensures Ordered(ucmp, es + [e])
  {
    var cmp, all := InternalComparator(ucmp), es + [e];
    forall i, j | 0 <= i < j < |all| ensures Precedes(cmp, all, i, j) {
      if j < |es| { assert Precedes(cmp, es, i, j); } else { assert es[i] in es; }
    }
  }

  lemma PrefixSorted<U(!new), V(!new)>(ucmp: Comparator<U>, es: Entries<U, V>, lo: nat, hi: nat)
    requires Ordered(ucmp, es) && lo <= hi <= |es|
    ensures Ordered(ucmp, es[lo..hi])
  {
    var cmp, part := InternalComparator(ucmp), es[lo..hi];
    forall i, j | 0 <= i < j < |part| ensures Precedes(cmp, part, i, j) {
      assert Precedes(cmp, es, lo + i, lo + j);
    }
  }

  lemma {:induction false} KeptOrdered<U(!new), V(!new)>(ucmp: Comparator<U>, base: iset<U>, merged: Entries<U, V>,
                                                         snapshot: nat)
    requires TotalOrder(ucmp) && Ordered(ucmp, merged)
    ensures Ordered(ucmp, Kept(base, merged, snapshot))
  {
    if merged != [] {
      var n := |merged| - 1;
      PrefixSorted(ucmp, merged, 0, n);
      KeptOrdered(ucmp, base, merged[..n], snapshot);
      if !DropAt(base, merged, n, snapshot) {
        var kept := Kept(base, merged[..n], snapshot);
        forall x | x in kept ensures InternalCompare(ucmp, x.0, merged[n].0) < 0 {
          KeptHas(base, merged[..n], snapshot, x);
          var i :| 0 <= i < n && merged[..n][i] == x;
          assert Precedes(InternalComparator(ucmp), merged, i, n);
        }
        AppendSorted(ucmp, kept, merged[n]);
        assert Kept(base, merged, snapshot) == kept + [merged[n]];
      } else {
        assert Kept(base, merged, snapshot) == Kept(base, merged[..n], snapshot);
      }
    }
  }

  lemma {:induction false} ConcatHas<U(!new), V(!new)>(files: seq<File<U, V>>, e: Entry<U, V>)
    ensures e in Concat(files) <==> e in Contents(files)
  {
    if files != [] {
      var n := |files| - 1;
      ConcatHas(files[..n], e);
      assert files == files[..n] + [files[n]];
      if e in files[n].entries { assert files[n] in files; }
    }
  }

  /** Files cut one after the other from an ordered run are sorted and disjoint. */
  lemma {:induction false} PiecesSorted<U(!new), V(!new)>(ucmp: Comparator<U>, outputs: seq<File<U, V>>, first: nat)
    requires TotalOrder(ucmp) && Formed(outputs, first) && Ordered(ucmp, Concat(outputs))
    ensures FilesOk(ucmp, outputs) && SortedFiles(ucmp, outputs)
  {
    if outputs != [] {
      var n := |outputs| - 1;
      var init, last, all := outputs[..n], outputs[n], Concat(outputs);
      var m := |Concat(init)|;
      assert all == Concat(init) + last.entries;
      PrefixSorted(ucmp, all, 0, m);
      assert all[0..m] == Concat(init);
      PrefixSorted(ucmp, all, m, |all|);
      assert all[m..|all|] == last.entries;
      PiecesSorted(ucmp, init, first);
      forall i | 0 <= i < n ensures FileBefore(ucmp, outputs[i], last) {
        var f := init[i];
        assert f in init && f.entries[|f.entries| - 1] in f.entries;
        ConcatHas(init, f.entries[|f.entries| - 1]);
        var j :| 0 <= j < m && Concat(init)[j] == f.entries[|f.entries| - 1];
        assert all[j].0 == f.largest && all[m].0 == last.smallest;
        assert Precedes(InternalComparator(ucmp), all, j, m);
      }
      AppendFile(ucmp, init, last);
      assert outputs == init + [last];
    }
  }

  lemma AppendFile<U(!new), V(!new)>(ucmp: Comparator<U>, init: seq<File<U, V>>, last: File<U, V>)
    requires SortedFiles(ucmp, init) && forall i :: 0 <= i < |init| ==> FileBefore(ucmp, init[i], last)
    ensures SortedFiles(ucmp, init + [last])
  {
    var all := init + [last];
    forall i, j | 0 <= i < j < |all| ensures FileBefore(ucmp, all[i], all[j]) {
      if j < |init| { assert FileBefore(ucmp, init[i], init[j]); }
    }
  }

  /** merged is the sorted union of the inputs' entries. */
  ghost predicate Merges<U(!new), V(!new)>(ucmp: Comparator<U>, merged: Entries<U, V>, inputs: seq<File<U, V>>) {
    Ordered(ucmp, merged) && (set e | e in merged) == Contents(inputs)
  }

  /** What DoCompactionWork returns may be installed. */
  lemma LoopOutputsOk<U(!new), V(!new)>(ucmp: Comparator<U>, v: Version<U, V>, l: nat, inputs: seq<File<U, V>>,
                                        outputs: seq<File<U, V>>, base: iset<U>, merged: Entries<U, V>, snapshot: nat,
                                        first: nat)
    requires TotalOrder(ucmp) && Merges(ucmp, merged, inputs) && NumbersBelow(v, first) && l < |v|
    requires Formed(outputs, first) && Concat(outputs) == Kept(base, merged, snapshot)
    ensures OutputsOk(ucmp, v[l], inputs, outputs)
    ensures Contents(outputs) == set e | e in Kept(base, merged, snapshot)
  {
    KeptOrdered(ucmp, base, merged, snapshot);
    PiecesSorted(ucmp, outputs, first);
    forall e ensures e in Contents(outputs) <==> e in Concat(outputs) { ConcatHas(outputs, e); }
    forall e | e in Contents(outputs) ensures e in Contents(inputs) {
      KeptHas(base, merged, snapshot, e);
      assert e in set x | x in merged;
    }
    forall f, g | f in v[l] && g in outputs ensures f.number != g.number {
      var i :| 0 <= i < |outputs| && outputs[i] == g;
    }
  }

  // --------------------------------------------------------------- the main theorem

  /** A base-level key has no entry below the output level. */
  lemma BaseHasNoneBelow<U(!new), V(!new)>(ucmp: Comparator<U>, v: Version<U, V>, level: nat, l: nat, g: File<U, V>,
                                           x: Entry<U, V>)
    requires TotalOrder(ucmp) && Good(ucmp, v) && level + 2 <= l < NumLevels && g in v[l] && x in g.entries
    ensures x.0.user !in BaseKeys(ucmp, v, level)
  {
    Laws(ucmp);
    assert FileOk(ucmp, g);
    EntryInRange(ucmp, g, x);
    assert InUserRange(ucmp, g, x.0.user);
    assert !ClearOf(ucmp, v[l], x.0.user);
  }

  /** The files of the next level that were not picked: where an old entry may be left behind. */
  ghost function LeftBehind<U(!new), V(!new)>(v: Version<U, V>, level: nat, in1: seq<File<U, V>>): set<Entry<U, V>>
    requires level + 1 < |v|
  {
    set f, e | f in v[level + 1] && f !in in1 && e in f.entries :: e
  }

  /** What stays at the level, or is above it, is newer than the inputs. */
  lemma StaysAboveNewer<U(!new), V(!new)>(ucmp: Comparator<U>, v: Version<U, V>, level: nat, in0: seq<File<U, V>>,
                                          in1: seq<File<U, V>>, l: nat, g: File<U, V>, x: Entry<U, V>, f: File<U, V>,
                                          e: Entry<U, V>)
    requires level + 1 < |v| && LevelsByAge(v) && Leaving(v, level, in0, in1)
    requires l <= level && g in v[l] && (l == level ==> g !in in0) && x in g.entries
    requires f in in0 + in1 && e in f.entries && x.0.user == e.0.user
    ensures Tag(x.0) > Tag(e.0)
  {
    InLevel(v[l], g);
    if f in in0 && l == level {
      assert FileNewer(g, f) && x in EntriesOf(g) && e in EntriesOf(f);
    } else {
      var m := if f in in0 then level else level + 1;
      InLevel(v[m], f);
      assert Newer(Contents(v[l]), Contents(v[m]));
    }
  }

  lemma OlderIsLeftBehind<U(!new), V(!new)>(ucmp: Comparator<U>, v: Version<U, V>, level: nat, in0: seq<File<U, V>>,
                                            in1: seq<File<U, V>>, e: Entry<U, V>, x: Entry<U, V>)
    requires TotalOrder(ucmp) && level + 1 < NumLevels && Good(ucmp, v) && LevelsByAge(v)
        && Leaving(v, level, in0, in1)
    requires e in Contents(in0 + in1) && x in From(v, 0) && x !in Contents(in0 + in1)
    requires x.0.user == e.0.user && e.0.user in BaseKeys(ucmp, v, level) && Tag(x.0) < Tag(e.0)
    ensures x in LeftBehind(v, level, in1)
  {
    var f :| f in in0 + in1 && e in f.entries;
    var l, g := FromFile(v, x);
    if l >= level + 2 {
      BaseHasNoneBelow(ucmp, v, level, l, g, x);
    } else if l <= level {
      StaysAboveNewer(ucmp, v, level, in0, in1, l, g, x, f, e);
    }
  }

  lemma OlderOnlyLeftBehind<U(!new), V(!new)>(ucmp: Comparator<U>, v: Version<U, V>, level: nat, in0: seq<File<U, V>>,
                                              in1: seq<File<U, V>>)
    requires TotalOrder(ucmp) && level + 1 < NumLevels && Good(ucmp, v) && Leaving(v, level, in0, in1)
    ensures OlderOnlyIn(From(v, 0), Contents(in0 + in1), LeftBehind(v, level, in1), BaseKeys(ucmp, v, level))
  {
    var S, I, O, base := From(v, 0), Contents(in0 + in1), LeftBehind(v, level, in1), BaseKeys(ucmp, v, level);
    GoodByAge(ucmp, v);
    forall e | e in I ensures e in S {
      var f :| f in in0 + in1 && e in f.entries;
      FileInFrom(v, if f in in0 then level else level + 1, f, e);
    }
    forall e | e in O ensures e in S && e !in I {
      var g :| g in v[level + 1] && g !in in1 && e in g.entries;
      FileInFrom(v, level + 1, g, e);
      InputsNotElsewhere(ucmp, v, level, in0, in1, level + 1, g, e);
    }
    forall e, x | e in I && x in S && x !in I && x.0.user == e.0.user && e.0.user in base && Tag(x.0) < Tag(e.0)
      ensures x in O
    {
      OlderIsLeftBehind(ucmp, v, level, in0, in1, e, x);
    }
  }

  /** A run of the compaction: what was picked, what the merged inputs held, what came out. */
  ghost predicate Ran<U(!new), V(!new)>(ucmp: Comparator<U>, v: Version<U, V>, level: nat, in0: seq<File<U, V>>,
                                        in1: seq<File<U, V>>, merged: Entries<U, V>, snapshot: nat, first: nat,
                                        outputs: seq<File<U, V>>)
    requires level + 1 < |v|
  {
    && Picked(ucmp, v, level, in0, in1)
    && Merges(ucmp, merged, in0 + in1)
    && NumbersBelow(v, first) && Formed(outputs, first)
    && Concat(outputs) == Kept(BaseKeys(ucmp, v, level), merged, snapshot)
  }

  /** A compaction leaves a good version, and changes a read of k at or above the smallest snapshot
      if and only if a value that an obsolete deletion marker covered was left behind in level + 1. */
  lemma CompactionKeepsReadsIff<U(!new), V(!new)>(ucmp: Comparator<U>, v: Version<U, V>, level: nat,
                                                  in0: seq<File<U, V>>, in1: seq<File<U, V>>, merged: Entries<U, V>,
                                                  snapshot: nat, first: nat, outputs: seq<File<U, V>>, k: U)
    requires TotalOrder(ucmp) && level + 1 < NumLevels && Good(ucmp, v) && Distinct(From(v, 0))
    requires Ran(ucmp, v, level, in0, in1, merged, snapshot, first, outputs)
    ensures Good(ucmp, Compacted(ucmp, v, level, in0, in1, outputs))
    ensures SameReads(From(v, 0), From(Compacted(ucmp, v, level, in0, in1, outputs), 0), k, snapshot)
            <==> !Resurfaces(From(v, 0), Contents(in0 + in1), LeftBehind(v, level, in1), BaseKeys(ucmp, v, level), k,
                snapshot)
  {
    var base := BaseKeys(ucmp, v, level);
    LoopOutputsOk(ucmp, v, level + 1, in0 + in1, outputs, base, merged, snapshot, first);
    PickedIsReady(ucmp, v, level, in0, in1, outputs);
    CompactedIsGood(ucmp, v, level, in0, in1, outputs);
    CompactedReplaces(ucmp, v, level, in0, in1, outputs);
    StoreAfter(ucmp, v, Compacted(ucmp, v, level, in0, in1, outputs), level, in0, in1, outputs);
    OlderOnlyLeftBehind(ucmp, v, level, in0, in1);
    KeptSurvives(ucmp, base, merged, snapshot);
    DropsInvisibleIff(From(v, 0), Contents(in0 + in1), Contents(outputs), LeftBehind(v, level, in1), base, k, snapshot);
  }

  // ----------------------------------------------------- where an old value can resurface

  lemma ResurfacingFiles<U(!new), V(!new)>(v: Version<U, V>, level: nat, in0: seq<File<U, V>>, in1: seq<File<U, V>>,
                                           base: iset<U>, k: U, snapshot: nat)
    returns (f: File<U, V>, g: File<U, V>, z: Entry<U, V>, w: Entry<U, V>)
    requires level + 1 < |v| && Resurfaces(From(v, 0), Contents(in0 + in1), LeftBehind(v, level, in1), base, k,
        snapshot)
    ensures f in in0 + in1 && z in f.entries && z.0.user == k
    ensures g in v[level + 1] && g !in in1 && w in g.entries && w.0.user == k && Tag(w.0) < Tag(z.0)
  {
    var S, I, O := From(v, 0), Contents(in0 + in1), LeftBehind(v, level, in1);
    z, w :| && z in I && BestOf(S, z, k, snapshot) && Obsolete(base, z, snapshot)
            && w in O && BestOf(O, w, k, snapshot) && w.0.kind == Value;
    f :| f in in0 + in1 && z in f.entries;
    g :| g in v[level + 1] && g !in in1 && w in g.entries;
    FileInFrom(v, level + 1, g, w);
  }

  /** It takes a file of level + 1 that continues the largest key of that level's picked files.
      AddBoundaryInputs would pick it, but is only applied to the files of level. */
  lemma ResurfacesOnlyAtBoundary<U(!new), V(!new)>(ucmp: Comparator<U>, v: Version<U, V>, level: nat,
                                                   in0: seq<File<U, V>>, in1: seq<File<U, V>>, smallest: InternalKey<U>,
                                                   largest: InternalKey<U>, k: U, snapshot: nat)
                                                   returns (key: InternalKey<U>)
    requires TotalOrder(ucmp) && level + 1 < NumLevels && Good(ucmp, v)
        && Chosen(ucmp, v, level, in0, in1, smallest, largest)
    requires Resurfaces(From(v, 0), Contents(in0 + in1), LeftBehind(v, level, in1), BaseKeys(ucmp, v, level), k,
        snapshot)
    ensures IsLargestKey(ucmp, in1, key) && key.user == k && !NothingContinues(ucmp, v[level + 1], key)
  {
    var f, g, z, w := ResurfacingFiles(v, level, in0, in1, BaseKeys(ucmp, v, level), k, snapshot);
    if f in in0 {
      NotUnderInputs(ucmp, v, level, in0, in1, smallest, largest, f, g, z, w);
    }
    assert f in in1;
    key := LargestExists(ucmp, in1);
    LeftBehindContinues(ucmp, v, level, in1, Some(smallest.user), Some(largest.user), f, g, z, w, key);
  }

  /** A file of level + 1 that was not picked shares no user key with the files of level. */
  lemma NotUnderInputs<U(!new), V(!new)>(ucmp: Comparator<U>, v: Version<U, V>, level: nat, in0: seq<File<U, V>>,
                                         in1: seq<File<U, V>>, smallest: InternalKey<U>, largest: InternalKey<U>,
                                         f: File<U, V>, g: File<U, V>, z: Entry<U, V>, w: Entry<U, V>)
    requires TotalOrder(ucmp) && level + 1 < NumLevels && Good(ucmp, v)
        && Chosen(ucmp, v, level, in0, in1, smallest, largest)
    requires f in in0 && g in v[level + 1] && g !in in1 && z in f.entries && w in g.entries
    ensures z.0.user != w.0.user
  {
    var lo, hi, k := smallest.user, largest.user, z.0.user;
    OverlappingHas(ucmp, v[level + 1], Some(lo), Some(hi), g);
    PartOf(ucmp, v, level, in0, f);
    assert FileOk(ucmp, f) && FileOk(ucmp, g);
    RangeBounds(ucmp, in0, smallest, largest, f);
    EntryInRange(ucmp, f, z);
    EntryInRange(ucmp, g, w);
    Laws(ucmp);
    Transitive(ucmp, lo, f.smallest.user, k);
    Transitive(ucmp, k, f.largest.user, hi);
    if k == w.0.user {
      Transitive(ucmp, lo, k, g.largest.user);
      Transitive(ucmp, g.smallest.user, k, hi);
    }
  }

  lemma LeftBehindContinues<U(!new), V(!new)>(ucmp: Comparator<U>, v: Version<U, V>, level: nat, in1: seq<File<U, V>>,
                                              b: Option<U>, e: Option<U>, f: File<U, V>, g: File<U, V>, z: Entry<U, V>,
                                              w: Entry<U, V>, key: InternalKey<U>)
    requires TotalOrder(ucmp) && level + 1 < NumLevels && Good(ucmp, v) && in1 == Overlapping(ucmp, v[level + 1], b, e)
    requires IsLargestKey(ucmp, in1, key) && f in in1 && g in v[level + 1] && g !in in1
    requires z in f.entries && w in g.entries && z.0.user == w.0.user && Tag(w.0) < Tag(z.0)
    ensures Continues(ucmp, g, key) && key.user == z.0.user
  {
    hide Overlapping;
    hide IsLargestKey;
    hide FileOk;
    var next := v[level + 1];
    var a, n := OverlappingIsStretch(ucmp, next, b, e);
    assert SliceAt(next, in1, a);
    var j, i := StandsOutside(next, in1, a, f, g);
    KeyIsLast(ucmp, next, in1, a, key);
    if i < j { BeforeIsNewer(ucmp, next, i, j, w, z); }
    if !Continues(ucmp, g, key) { NothingSharedAfter(ucmp, next, j, a + |in1| - 1, i, z, w); }
    Laws(ucmp);
    assert FileOk(ucmp, f) && FileOk(ucmp, g);
    EntryInRange(ucmp, f, z);
    EntryInRange(ucmp, g, w);
    LargestAscends(ucmp, next, j, a + |in1| - 1);
    Transitive(ucmp, z.0.user, f.largest.user, key.user);
    assert ucmp(z.0.user, key.user) <= 0 && ucmp(key.user, z.0.user) <= 0;
  }

  /** So a compaction after which nothing in level + 1 continues its picked files is safe for every reader. */
  lemma SafeWithoutBoundary<U(!new), V(!new)>(ucmp: Comparator<U>, v: Version<U, V>, level: nat, in0: seq<File<U, V>>,
                                              in1: seq<File<U, V>>, smallest: InternalKey<U>, largest: InternalKey<U>,
                                              merged: Entries<U, V>, snapshot: nat, first: nat,
                                              outputs: seq<File<U, V>>, k: U)
    requires TotalOrder(ucmp) && level + 1 < NumLevels && Good(ucmp, v) && Distinct(From(v, 0))
    requires Chosen(ucmp, v, level, in0, in1, smallest, largest)
    requires forall key :: IsLargestKey(ucmp, in1, key) ==> NothingContinues(ucmp, v[level + 1], key)
    requires Ran(ucmp, v, level, in0, in1, merged, snapshot, first, outputs)
    ensures SameReads(From(v, 0), From(Compacted(ucmp, v, level, in0, in1, outputs), 0), k, snapshot)
  {
    CompactionKeepsReadsIff(ucmp, v, level, in0, in1, merged, snapshot, first, outputs, k);
    if Resurfaces(From(v, 0), Contents(in0 + in1), LeftBehind(v, level, in1), BaseKeys(ucmp, v, level), k, snapshot) {
      var key := ResurfacesOnlyAtBoundary(ucmp, v, level, in0, in1, smallest, largest, k, snapshot);
    }
  }
}
