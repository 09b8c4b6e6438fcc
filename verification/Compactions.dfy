/** Compaction (db/db_impl.cc DoCompactionWork, db/version_set.cc Compaction): the loop over
    the merged inputs, with its forward-only level pointers, against the drop rules on sets. */
module Compactions {
  import opened Order
  import opened Cursors
  import opened InternalKeys
  import opened Options
  import opened Tables
  import opened Versions
  import opened Drops
  import Merger

  // ------------------------------------------------------------- base levels

  predicate InUserRange<U, V>(ucmp: Comparator<U>, f: File<U, V>, k: U) {
    ucmp(k, f.smallest.user) >= 0 && ucmp(k, f.largest.user) <= 0
  }

  ghost predicate ClearOf<U(!new), V(!new)>(ucmp: Comparator<U>, files: seq<File<U, V>>, k: U) {
    forall f :: f in files ==> !InUserRange(ucmp, f, k)
  }

  /** By a full scan: no file below the output level has k in its range. */
  ghost predicate BaseLevel<U(!new), V(!new)>(ucmp: Comparator<U>, v: Version<U, V>, level: nat, k: U) {
    forall l :: level + 2 <= l < |v| ==> ClearOf(ucmp, v[l], k)
  }

  ghost function BaseKeys<U(!new), V(!new)>(ucmp: Comparator<U>, v: Version<U, V>, level: nat): iset<U> {
    iset k: U | BaseLevel(ucmp, v, level, k)
  }

  /** The first n files end before k. */
  ghost predicate EndBefore<U(!new), V(!new)>(ucmp: Comparator<U>, files: seq<File<U, V>>, n: nat, k: U) {
    n <= |files| && forall i :: 0 <= i < n ==> ucmp(files[i].largest.user, k) < 0
  }

  lemma EndBeforeLater<U(!new), V(!new)>(ucmp: Comparator<U>, files: seq<File<U, V>>, n: nat, k: U, k': U)
    requires TotalOrder(ucmp) && EndBefore(ucmp, files, n, k) && ucmp(k, k') <= 0
    ensures EndBefore(ucmp, files, n, k')
  {
    forall i | 0 <= i < n ensures ucmp(files[i].largest.user, k') < 0 {
      Laws(ucmp);
      Transitive(ucmp, files[i].largest.user, k, k');
    }
  }

  /** The file the pointer stops at decides for its level. */
  lemma PointerDecides<U(!new), V(!new)>(ucmp: Comparator<U>, files: seq<File<U, V>>, n: nat, k: U)
    requires TotalOrder(ucmp) && FilesOk(ucmp, files) && SortedFiles(ucmp, files) && EndBefore(ucmp, files, n, k)
    requires n < |files| ==> ucmp(k, files[n].largest.user) <= 0 && ucmp(k, files[n].smallest.user) < 0
    ensures ClearOf(ucmp, files, k)
  {
    Laws(ucmp);
    forall f | f in files ensures !InUserRange(ucmp, f, k) {
      var i :| 0 <= i < |files| && files[i] == f;
      if i > n {
        assert FileOk(ucmp, files[n]);
        RangeOk(ucmp, files[n]);
        assert FileBefore(ucmp, files[n], f);
        Transitive(ucmp, files[n].smallest.user, files[n].largest.user, f.smallest.user);
        Transitive(ucmp, k, files[n].smallest.user, f.smallest.user);
      }
    }
  }

  /** The state a compaction keeps while it runs: one pointer per level, never moved back. */
  class Compaction<U(!new), V(!new)> {
    const ucmp: Comparator<U>
    const inputVersion: Version<U, V>
    const level: nat
    const levelPtrs: array<nat>

    constructor (ucmp: Comparator<U>, inputVersion: Version<U, V>, level: nat)
      requires |inputVersion| == NumLevels
      ensures this.ucmp == ucmp && this.inputVersion == inputVersion && this.level == level
      ensures fresh(levelPtrs) && forall k :: Behind(k)
    {
      this.ucmp, this.inputVersion, this.level := ucmp, inputVersion, level;
      levelPtrs := new nat[NumLevels](_ => 0);
    }

    /** Every pointer has passed only files that end before k. */
    ghost predicate Behind(k: U)
      reads levelPtrs
    {
      && levelPtrs.Length == NumLevels && |inputVersion| == NumLevels
      && forall l :: 0 <= l < NumLevels ==> EndBefore(ucmp, inputVersion[l], levelPtrs[l], k)
    }

    lemma BehindLater(k: U, k': U)
      requires TotalOrder(ucmp) && Behind(k) && ucmp(k, k') <= 0
      ensures Behind(k')
    {
      forall l | 0 <= l < NumLevels ensures EndBefore(ucmp, inputVersion[l], levelPtrs[l], k') {
        EndBeforeLater(ucmp, inputVersion[l], levelPtrs[l], k, k');
      }
    }

    /** IsBaseLevelForKey agrees with a full scan as long as it is asked in ascending key order. */
    method IsBaseLevelForKey(k: U) returns (r: bool)
      requires TotalOrder(ucmp) && Good(ucmp, inputVersion) && Behind(k)
      modifies levelPtrs
      ensures Behind(k)
      ensures r <==> BaseLevel(ucmp, inputVersion, level, k)
    {
      var lvl := level + 2;
      while lvl < NumLevels
        invariant lvl <= NumLevels || lvl == level + 2
        invariant Behind(k)
        invariant forall l :: level + 2 <= l < lvl && l < NumLevels ==> ClearOf(ucmp, inputVersion[l], k)
      {
        var files := inputVersion[lvl];
        while levelPtrs[lvl] < |files|
          invariant Behind(k)
          decreases |files| - levelPtrs[lvl]
        {
          var f := files[levelPtrs[lvl]];
          if ucmp(k, f.largest.user) <= 0 {
            if ucmp(k, f.smallest.user) >= 0 {
              assert f in inputVersion[lvl] && InUserRange(ucmp, f, k);
              return false;
            }
            break;
          }
          PassOne(k, lvl);
          levelPtrs[lvl] := levelPtrs[lvl] + 1;
        }
        Laws(ucmp);
        PointerDecides(ucmp, files, levelPtrs[lvl], k);
        lvl := lvl + 1;
      }
      r := true;
    }

    lemma PassOne(k: U, lvl: nat)
      requires TotalOrder(ucmp) && Behind(k) && lvl < NumLevels && levelPtrs[lvl] < |inputVersion[lvl]|
      requires ucmp(k, inputVersion[lvl][levelPtrs[lvl]].largest.user) > 0
      ensures EndBefore(ucmp, inputVersion[lvl], levelPtrs[lvl] + 1, k)
    {
      Laws(ucmp);
      assert EndBefore(ucmp, inputVersion[lvl], levelPtrs[lvl], k);
    }
  }

  // ------------------------------------------------------------- the drop rules

  /** Rule (A), as the loop applies it: look only at the entry just before. */
  ghost predicate HiddenAt<U(!new), V(!new)>(merged: Entries<U, V>, i: nat, snapshot: nat)
    requires i < |merged|
  {
    i > 0 && merged[i - 1].0.user == merged[i].0.user && merged[i - 1].0.sequence <= snapshot
  }

  ghost predicate DropAt<U(!new), V(!new)>(base: iset<U>, merged: Entries<U, V>, i: nat, snapshot: nat)
    requires i < |merged|
  {
    HiddenAt(merged, i, snapshot) || Obsolete(base, merged[i], snapshot)
  }

  ghost function Kept<U(!new), V(!new)>(base: iset<U>, merged: Entries<U, V>, snapshot: nat): Entries<U, V> {
    if merged == [] then []
    else
      var n := |merged| - 1;
      Kept(base, merged[..n], snapshot) + (if DropAt(base, merged, n, snapshot) then [] else [merged[n]])
  }

  /** Dropping looks only at an entry and the one before. */
  lemma DropAtPrefix<U(!new), V(!new)>(base: iset<U>, merged: Entries<U, V>, i: nat, snapshot: nat)
    requires i < |merged| - 1
    ensures DropAt(base, merged[..|merged| - 1], i, snapshot) <==> DropAt(base, merged, i, snapshot)
  {
  }

  lemma {:induction false} KeptHas<U(!new), V(!new)>(base: iset<U>, merged: Entries<U, V>, snapshot: nat,
                                                     e: Entry<U, V>)
    ensures e in Kept(base, merged, snapshot) <==>
        exists i :: 0 <= i < |merged| && merged[i] == e && !DropAt(base, merged, i, snapshot)
  {
    hide DropAt;
    if merged != [] {
      var n := |merged| - 1;
      var init := merged[..n];
      KeptHas(base, init, snapshot, e);
      if e in Kept(base, init, snapshot) {
        var i :| 0 <= i < |init| && init[i] == e && !DropAt(base, init, i, snapshot);
        DropAtPrefix(base, merged, i, snapshot);
        assert merged[i] == e;
      }
      if i :| 0 <= i < |merged| && merged[i] == e && !DropAt(base, merged, i, snapshot) {
        if i < n {
          DropAtPrefix(base, merged, i, snapshot);
          assert init[i] == e;
        }
      }
    }
  }

  /** In key order the entry just before is enough to know whether anything newer and visible exists. */
  lemma HiddenIffBefore<U(!new), V(!new)>(ucmp: Comparator<U>, merged: Entries<U, V>, i: nat, snapshot: nat)
    requires TotalOrder(ucmp) && Ordered(ucmp, merged) && i < |merged|
    ensures HiddenAt(merged, i, snapshot) <==> Hidden((set e | e in merged), merged[i], snapshot)
  {
    var I := set e | e in merged;
    Laws(ucmp);
    if HiddenAt(merged, i, snapshot) {
      NewestComesFirst(ucmp, merged, i - 1, i);
      assert merged[i - 1] in I;
    }
    if Hidden(I, merged[i], snapshot) {
      var x :| x in I && x.0.user == merged[i].0.user && x.0.sequence <= snapshot && Tag(x.0) > Tag(merged[i].0);
      var j :| 0 <= j < |merged| && merged[j] == x;
      if i < j { NewestComesFirst(ucmp, merged, i, j); }
      assert j < i;
      UsersAscend(ucmp, merged, j, i - 1);
      UsersAscend(ucmp, merged, i - 1, i);
      if j < i - 1 { NewestComesFirst(ucmp, merged, j, i - 1); }
    }
  }

  /** The loop's result is what the two rules leave of the merged entries, whatever order they are seen in. */
  lemma KeptSurvives<U(!new), V(!new)>(ucmp: Comparator<U>, base: iset<U>, merged: Entries<U, V>, snapshot: nat)
    requires TotalOrder(ucmp) && Ordered(ucmp, merged)
    ensures Survives((set e | e in merged), (set e | e in Kept(base, merged, snapshot)), base, snapshot)
  {
    var I, K := (set e | e in merged), set e | e in Kept(base, merged, snapshot);
    forall e ensures e in K ==> e in I { KeptHas(base, merged, snapshot, e); }
    forall e | e in I ensures e in K <==> !Hidden(I, e, snapshot) && !Obsolete(base, e, snapshot) {
      KeptHas(base, merged, snapshot, e);
      var i :| 0 <= i < |merged| && merged[i] == e;
      HiddenIffBefore(ucmp, merged, i, snapshot);
      forall j | 0 <= j < |merged| && merged[j] == e ensures j == i { OccursOnce(ucmp, merged, i, j); }
    }
  }

  lemma OccursOnce<U(!new), V(!new)>(ucmp: Comparator<U>, es: Entries<U, V>, i: nat, j: nat)
    requires TotalOrder(ucmp) && Ordered(ucmp, es) && i < |es| && j < |es| && es[i] == es[j]
    ensures i == j
  {
    InternalIsTotal(ucmp);
    SortedAt(InternalComparator(ucmp), es, if i < j then i else j, if i < j then j else i);
  }

  // ------------------------------------------------------- what a compaction keeps

  /** No two updates of a key share a sequence number, as each update of the store has its own. */
  ghost predicate OneEach<U(!new), V(!new)>(I: set<Entry<U, V>>) {
    forall x, y :: x in I && y in I && x.0.user == y.0.user && x.0.sequence == y.0.sequence ==> x == y
  }

  /** Some reader, at the smallest snapshot or later, gets e from the inputs. */
  ghost predicate ReadBySome<U(!new), V(!new)>(I: set<Entry<U, V>>, e: Entry<U, V>, snapshot: nat) {
    exists s: nat :: s >= snapshot && BestOf(I, e, e.0.user, s)
  }

  /** A file below the output level may have the key. */
  ghost predicate MayBeBelow<U(!new), V(!new)>(ucmp: Comparator<U>, v: Version<U, V>, level: nat, k: U) {
    exists l, f :: level + 2 <= l < |v| && f in v[l] && ucmp(f.smallest.user, k) <= 0 && ucmp(k, f.largest.user) <= 0
  }

  /** What readers need: the entries some reader gets, but for a deletion that all of them get and that has nothing to
      hide below. */
  ghost predicate NeededOf<U(!new), V(!new)>(ucmp: Comparator<U>, v: Version<U, V>, level: nat, I: set<Entry<U, V>>,
                                             e: Entry<U, V>, snapshot: nat)
  {
    && e in I && ReadBySome(I, e, snapshot)
    && (e.0.kind == Deletion && BestOf(I, e, e.0.user, snapshot) ==> MayBeBelow(ucmp, v, level, e.0.user))
  }

  lemma ReadUnlessHidden<U(!new), V(!new)>(I: set<Entry<U, V>>, e: Entry<U, V>, snapshot: nat)
    requires OneEach(I) && e in I
    ensures ReadBySome(I, e, snapshot) <==> !Hidden(I, e, snapshot)
    ensures !Hidden(I, e, snapshot) ==> (BestOf(I, e, e.0.user, snapshot) <==> e.0.sequence <= snapshot)
  {
    if !Hidden(I, e, snapshot) {
      var s := if e.0.sequence <= snapshot then snapshot else e.0.sequence;
      forall x | x in I && Matches(x, e.0.user, s) ensures Tag(x.0) <= Tag(e.0) {
        if Tag(x.0) > Tag(e.0) { TagInjective(e.0, x.0); }
      }
      assert BestOf(I, e, e.0.user, s);
    }
  }

  lemma BelowUnlessBase<U(!new), V(!new)>(ucmp: Comparator<U>, v: Version<U, V>, level: nat, k: U)
    requires TotalOrder(ucmp)
    ensures MayBeBelow(ucmp, v, level, k) <==> k !in BaseKeys(ucmp, v, level)
  {
    Laws(ucmp);
    if k !in BaseKeys(ucmp, v, level) {
      var l :| level + 2 <= l < |v| && !ClearOf(ucmp, v[l], k);
      var f :| f in v[l] && InUserRange(ucmp, f, k);
    }
    if MayBeBelow(ucmp, v, level, k) {
      var l, f :| level + 2 <= l < |v| && f in v[l] && ucmp(f.smallest.user, k) <= 0 && ucmp(k, f.largest.user) <= 0;
      assert !ClearOf(ucmp, v[l], k);
    }
  }

  /** The loop keeps just what is needed. */
  lemma KeptIsNeeded<U(!new), V(!new)>(ucmp: Comparator<U>, v: Version<U, V>, level: nat, merged: Entries<U, V>,
                                       snapshot: nat, e: Entry<U, V>)
    requires TotalOrder(ucmp) && Ordered(ucmp, merged) && OneEach(set x | x in merged)
    ensures e in Kept(BaseKeys(ucmp, v, level), merged, snapshot) <==>
        NeededOf(ucmp, v, level, (set x | x in merged), e, snapshot)
  {
    var I, base := (set x | x in merged), BaseKeys(ucmp, v, level);
    hide Ordered;
    hide BaseKeys;
    hide Hidden;
    hide ReadBySome;
    hide MayBeBelow;
    hide BestOf;
    KeptSurvives(ucmp, base, merged, snapshot);
    KeptHas(base, merged, snapshot, e);
    if e in I {
      ReadUnlessHidden(I, e, snapshot);
      BelowUnlessBase(ucmp, v, level, e.0.user);
    }
  }

  // -------------------------------------------------------------------- the loop

  function Concat<U, V>(outputs: seq<File<U, V>>): Entries<U, V> {
    if outputs == [] then [] else Concat(outputs[..|outputs| - 1]) + outputs[|outputs| - 1].entries
  }

  /** Output files carry the numbers first, first + 1, ... */
  ghost predicate Formed<U(!new), V(!new)>(outputs: seq<File<U, V>>, first: nat) {
    forall i :: 0 <= i < |outputs| ==>
      && outputs[i].number == first + i && outputs[i].entries != []
      && outputs[i] == TableOf(outputs[i].number, outputs[i].size, outputs[i].entries)
  }

  /** Finished files and the one being built hold these entries, in this order. */
  ghost predicate Holds<U(!new), V(!new)>(outputs: seq<File<U, V>>, builder: Entries<U, V>, first: nat,
                                          entries: Entries<U, V>)
  {
    Formed(outputs, first) && Concat(outputs) + builder == entries
  }

  /** FinishCompactionOutputFile, if there is a file being built and the moment has come. */
  method FinishIf<U(!new), V(!new)>(now: bool, outputs: seq<File<U, V>>, builder: Entries<U, V>, first: nat,
                                    ghost entries: Entries<U, V>)
    returns (outputs': seq<File<U, V>>, builder': Entries<U, V>)
    requires Holds(outputs, builder, first, entries)
    ensures Holds(outputs', builder', first, entries)
    ensures now ==> builder' == []
  {
    outputs', builder' := outputs, builder;
    if now && builder != [] {
      var size: nat := *;
      outputs', builder' := outputs + [TableOf(first + |outputs|, size, builder)], [];
      assert outputs'[..|outputs|] == outputs;
    }
  }

  /** TableBuilder::Add on the output file being built. */
  method AddEntry<U(!new), V(!new)>(outputs: seq<File<U, V>>, builder: Entries<U, V>, first: nat, e: Entry<U, V>,
                                    ghost entries: Entries<U, V>)
    returns (outputs': seq<File<U, V>>, builder': Entries<U, V>)
    requires Holds(outputs, builder, first, entries)
    ensures Holds(outputs', builder', first, entries + [e])
  {
    assert Concat(outputs) + (builder + [e]) == entries + [e];
    var bigEnough: bool := *;
    outputs', builder' := FinishIf(bigEnough, outputs, builder + [e], first, entries + [e]);
  }

  /** The loop's current_user_key and last_sequence_for_key after i entries. */
  ghost predicate Tracks<U(!new), V(!new)>(merged: Entries<U, V>, i: nat, current: Option<U>, lastSequence: nat) {
    i <= |merged| && if i == 0 then current == None else
        current == Some(merged[i - 1].0.user)
        && lastSequence == merged[i - 1].0.sequence
  }

  lemma KeptStep<U(!new), V(!new)>(base: iset<U>, merged: Entries<U, V>, i: nat, snapshot: nat)
    requires i < |merged|
    ensures Kept(base, merged[..i + 1], snapshot) ==
        Kept(base, merged[..i], snapshot) + (if DropAt(base, merged, i, snapshot) then [] else [merged[i]])
  {
    assert merged[..i + 1][..i] == merged[..i];
  }

  lemma LastDecides<U(!new), V(!new)>(ucmp: Comparator<U>, merged: Entries<U, V>, i: nat, current: Option<U>,
                                      lastSequence: nat, snapshot: nat)
    requires TotalOrder(ucmp) && snapshot < MaxSequence && i < |merged| && Tracks(merged, i, current, lastSequence)
    ensures var first := current.None? || ucmp(merged[i].0.user, current.value) != 0;
            && ((if first then MaxSequence else lastSequence) <= snapshot <==> HiddenAt(merged, i, snapshot))
            && (!first ==> current == Some(merged[i].0.user))
  {
    Laws(ucmp);
  }

  /** Whether the loop drops its next entry: last_sequence_for_key and the marker test decide as DropAt does. */
  method HandleKey<U(!new), V(!new)>(c: Compaction<U, V>, ghost merged: Entries<U, V>, ghost i: nat,
                                     key: InternalKey<U>, current: Option<U>, last: nat, snapshot: nat)
    returns (drop: bool, currentUserKey: Option<U>, lastSequence: nat)
    requires TotalOrder(c.ucmp) && Good(c.ucmp, c.inputVersion) && c.Behind(key.user)
    requires i < |merged| && key == merged[i].0 && Tracks(merged, i, current, last) && snapshot < MaxSequence
    modifies c.levelPtrs
    ensures c.Behind(key.user)
    ensures drop <==> DropAt(BaseKeys(c.ucmp, c.inputVersion, c.level), merged, i, snapshot)
    ensures Tracks(merged, i + 1, currentUserKey, lastSequence)
  {
    drop, currentUserKey, lastSequence := false, current, last;
    LastDecides(c.ucmp, merged, i, current, last, snapshot);
    if currentUserKey.None? || c.ucmp(key.user, currentUserKey.value) != 0 {
      // first occurrence of this user key
      currentUserKey, lastSequence := Some(key.user), MaxSequence;
    }
    if lastSequence <= snapshot {
      drop := true;
    } else if key.kind == Deletion && key.sequence <= snapshot {
      drop := c.IsBaseLevelForKey(key.user);
    }
    lastSequence := key.sequence;
  }

  lemma BehindNext<U(!new), V(!new)>(c: Compaction<U, V>, merged: Entries<U, V>, i: nat)
    requires TotalOrder(c.ucmp) && Ordered(c.ucmp, merged) && 0 < i <= |merged| && c.Behind(merged[i - 1].0.user)
    ensures i < |merged| ==> c.Behind(merged[i].0.user)
  {
    if i < |merged| {
      UsersAscend(c.ucmp, merged, i - 1, i);
      c.BehindLater(merged[i - 1].0.user, merged[i].0.user);
    }
  }

  /** The loop after i entries: what it remembers, and what it has written. */
  ghost predicate AfterEntries<U(!new), V(!new)>(base: iset<U>, merged: Entries<U, V>, i: nat, snapshot: nat,
                                                 current: Option<U>, last: nat, outputs: seq<File<U, V>>,
                                                 builder: Entries<U, V>, first: nat)
  {
    && i <= |merged|
    && Tracks(merged, i, current, last)
    && Holds(outputs, builder, first, Kept(base, merged[..i], snapshot))
  }

  /** One turn of the loop. */
  method HandleEntry<U(!new), V(!new)>(c: Compaction<U, V>, ghost merged: Entries<U, V>, ghost i: nat,
                                       key: InternalKey<U>, value: V, snapshot: nat, current: Option<U>, last: nat,
                                       outputs: seq<File<U, V>>, builder: Entries<U, V>, first: nat)
    returns (currentUserKey: Option<U>, lastSequence: nat, outputs': seq<File<U, V>>, builder': Entries<U, V>)
    requires TotalOrder(c.ucmp) && Good(c.ucmp, c.inputVersion) && c.Behind(key.user) && snapshot < MaxSequence
    requires i < |merged| && merged[i] == (key, value)
    requires AfterEntries(BaseKeys(c.ucmp, c.inputVersion, c.level), merged, i, snapshot, current, last, outputs,
        builder, first)
    modifies c.levelPtrs
    ensures c.Behind(key.user)
    ensures AfterEntries(BaseKeys(c.ucmp, c.inputVersion, c.level), merged, i + 1, snapshot, currentUserKey,
        lastSequence, outputs', builder', first)
  {
    ghost var kept := Kept(BaseKeys(c.ucmp, c.inputVersion, c.level), merged[..i], snapshot);
    KeptStep(BaseKeys(c.ucmp, c.inputVersion, c.level), merged, i, snapshot);
    var stopBefore: bool := *;
    outputs', builder' := FinishIf(stopBefore, outputs, builder, first, kept);
    var drop;
    drop, currentUserKey, lastSequence := HandleKey(c, merged, i, key, current, last, snapshot);
    if !drop {
      outputs', builder' := AddEntry(outputs', builder', first, (key, value), kept);
    }
  }

  lemma LoopStarts<U(!new), V(!new)>(base: iset<U>, merged: Entries<U, V>, snapshot: nat, first: nat)
    ensures AfterEntries(base, merged, 0, snapshot, None, MaxSequence, [], [], first)
  {
  }

  lemma LoopEnds<U(!new), V(!new)>(base: iset<U>, merged: Entries<U, V>, snapshot: nat, current: Option<U>, last: nat,
                                   outputs: seq<File<U, V>>, builder: Entries<U, V>, first: nat)
    requires AfterEntries(base, merged, |merged|, snapshot, current, last, outputs, builder, first)
    ensures Holds(outputs, builder, first, Kept(base, merged, snapshot))
  {
    assert merged[..|merged|] == merged;
  }

  lemma AfterNone<U(!new), V(!new)>(outputs: seq<File<U, V>>, first: nat, entries: Entries<U, V>)
    requires Holds(outputs, [], first, entries)
    ensures Formed(outputs, first) && Concat(outputs) == entries
  {
    assert Concat(outputs) + [] == Concat(outputs);
  }

  /** DoCompactionWork: walk the merged inputs once, drop what the rules say, cut the rest into files
      wherever the size limits say (any cut is allowed here). */
  method DoCompactionWork<U(!new), V(!new)>(c: Compaction<U, V>, input: Merger.MergingIterator<InternalKey<U>, V>,
                                            snapshot: nat, nextFileNumber: nat)
    returns (outputs: seq<File<U, V>>)
    requires TotalOrder(c.ucmp) && Good(c.ucmp, c.inputVersion) && (forall k :: c.Behind(k))
    requires input.Valid() && Ordered(c.ucmp, input.merged) && snapshot < MaxSequence
    modifies c.levelPtrs, input
    ensures Formed(outputs, nextFileNumber)
    ensures Concat(outputs) == Kept(BaseKeys(c.ucmp, c.inputVersion, c.level), input.merged, snapshot)
    ensures OneEach(set x | x in input.merged) ==> forall e ::
        e in Concat(outputs) <==> NeededOf(c.ucmp, c.inputVersion, c.level, (set x | x in input.merged), e, snapshot)
  {
    hide AfterEntries;
    hide Holds;
    hide Formed;
    hide Good;
    hide Ordered;
    hide TotalOrder;
    hide Compaction.Behind;
    hide Merger.MergingIterator.Valid;
    ghost var merged := input.merged;
    ghost var base := BaseKeys(c.ucmp, c.inputVersion, c.level);
    outputs := [];
    var builder: Entries<U, V> := [];
    var currentUserKey, lastSequence := None, MaxSequence;
    input.SeekToFirst();
    LoopStarts(base, merged, snapshot, nextFileNumber);
    var more := input.IsValid();
    ghost var i := 0;
    while more
      invariant i <= |merged| && input.Valid() && input.View() == Cursor(merged, i) && (more <==> i < |merged|)
      invariant more ==> c.Behind(merged[i].0.user)
      invariant AfterEntries(base, merged, i, snapshot, currentUserKey, lastSequence, outputs, builder, nextFileNumber)
      decreases |merged| - i
    {
      var key := input.Key();
      var value := input.Value();
      currentUserKey, lastSequence, outputs, builder :=
        HandleEntry(c, merged, i, key, value, snapshot, currentUserKey, lastSequence, outputs, builder, nextFileNumber);
      i := i + 1;
      BehindNext(c, merged, i);
      input.Next();
      more := input.IsValid();
    }
    LoopEnds(base, merged, snapshot, currentUserKey, lastSequence, outputs, builder, nextFileNumber);
    outputs, builder := FinishIf(true, outputs, builder, nextFileNumber, Kept(base, merged, snapshot));
    AfterNone(outputs, nextFileNumber, Kept(base, merged, snapshot));
    if OneEach(set x | x in merged) {
      forall e { KeptIsNeeded(c.ucmp, c.inputVersion, c.level, merged, snapshot, e); }
    }
  }
}
