/** One background compaction from picking to the new version (db/db_impl.cc
    BackgroundCompaction): either the whole loop, or just moving one file down a level. */
module Background {
  import opened Order
  import opened InternalKeys
  import opened Options
  import opened Inputs
  import opened Tables
  import opened Versions
  import opened Picking
  import opened Levels
  import opened Drops
  import opened Compactions
  import opened CompactionSteps
  import opened CompactionEffects
  import opened CompactionInputs
  import opened Linking
  import opened Interleaving

  // --------------------------------------------------------------- trivial moves

  /** Moving a file that overlaps nothing in the next level is a compaction with that file as output. */
  lemma MoveOutputsOk<U(!new), V(!new)>(ucmp: Comparator<U>, v: Version<U, V>, level: nat, f: File<U, V>)
    requires TotalOrder(ucmp) && level + 1 < NumLevels && Good(ucmp, v) && UniqueNumbers(v) && f in v[level]
    ensures OutputsOk(ucmp, v[level + 1], [f] + [], [f])
  {
    assert [f] + [] == [f];
  }

  lemma MoveKeepsEntries<U(!new), V(!new)>(ucmp: Comparator<U>, v: Version<U, V>, v': Version<U, V>, level: nat,
                                           f: File<U, V>)
    requires TotalOrder(ucmp) && level + 1 < NumLevels == |v'| && Good(ucmp, v) && Picked(ucmp, v, level, [f], [])
    requires Replaces(v, v', level, [f], [], [f])
    ensures From(v', 0) == From(v, 0)
  {
    var in1: seq<File<U, V>> := [];
    StoreAfter(ucmp, v, v', level, [f], in1, [f]);
    assert [f] + in1 == [f];
    assert f in v[level];
    forall e | e in Contents([f]) ensures e in From(v, 0) { FileInFrom(v, level, f, e); }
  }

  /** Moving a file is a job that can be installed: none of its keys is left behind. */
  lemma MoveUnderway<U(!new), V(!new)>(ucmp: Comparator<U>, v: Version<U, V>, level: nat, f: File<U, V>,
                                       smallest: InternalKey<U>, largest: InternalKey<U>, snapshot: nat)
    requires TotalOrder(ucmp) && level + 1 < NumLevels && Good(ucmp, v) && UniqueNumbers(v)
    requires Chosen(ucmp, v, level, [f], [], smallest, largest)
    ensures Underway(ucmp, v, Job(v, level, [f], [], [f], snapshot)) && Picked(ucmp, v, level, [f], [])
  {
    hide Chosen;
    hide SortedFiles;
    hide Linked;
    hide From;
    hide BaseKeys;
    var in1: seq<File<U, V>> := [];
    var I, O := Contents([f] + in1), LeftBehind(v, level, in1);
    ChosenIsPicked(ucmp, v, level, [f], in1, smallest, largest);
    assert f in v[level] && [f] + in1 == [f];
    MoveOutputsOk(ucmp, v, level, f);
    PickedIsReady(ucmp, v, level, [f], in1, [f]);
    OlderOnlyLeftBehind(ucmp, v, level, [f], in1);
    LinkedOne(ucmp, f);
    forall e, w | e in I && w in O ensures e.0.user != w.0.user {
      var g: File<U, V> :| g in v[level + 1] && g !in in1 && w in g.entries;
      NotUnderInputs(ucmp, v, level, [f], in1, smallest, largest, f, g, e, w);
    }
  }

  /** A trivial move keeps the invariants and the entries. */
  lemma MoveKeepsStore<U(!new), V(!new)>(ucmp: Comparator<U>, v: Version<U, V>, level: nat, f: File<U, V>,
                                         smallest: InternalKey<U>, largest: InternalKey<U>)
    requires TotalOrder(ucmp) && level + 1 < NumLevels && Good(ucmp, v) && UniqueNumbers(v) && Distinct(From(v, 0))
    requires Chosen(ucmp, v, level, [f], [], smallest, largest)
    ensures Good(ucmp, Compacted(ucmp, v, level, [f], [], [f]))
    ensures From(Compacted(ucmp, v, level, [f], [], [f]), 0) == From(v, 0)
    ensures UniqueNumbers(Compacted(ucmp, v, level, [f], [], [f]))
  {
    hide Underway;
    hide From;
    MoveUnderway(ucmp, v, level, f, smallest, largest, 0);
    UnderwayInstalls(ucmp, v, Job(v, level, [f], [], [f], 0));
    MoveKeepsEntries(ucmp, v, Compacted(ucmp, v, level, [f], [], [f]), level, f);
  }

  // ------------------------------------------------------------------ the step

  /** The inputs leave their levels, every other file stays at its own, and what is new is at level + 1. */
  ghost predicate Moved<U(!new), V(!new)>(v: Version<U, V>, v': Version<U, V>, level: nat, in0: seq<File<U, V>>,
                                          in1: seq<File<U, V>>)
    requires level + 1 < |v|
  {
    && |v'| == |v|
    && (forall g :: g in in0 ==> g in v[level]) && (forall g :: g in in1 ==> g in v[level + 1])
    && (forall l :: 0 <= l < |v| && l != level && l != level + 1 ==> v'[l] == v[l])
    && (forall g :: g in v'[level] <==> g in v[level] && g !in in0)
    && (forall g :: g in in1 ==> g !in v'[level + 1])
    && (forall g :: g in v[level + 1] && g !in in1 ==> g in v'[level + 1])
  }

  /** The entries of the files that level + 1 has new. */
  ghost function NewEntries<U(!new), V(!new)>(v: Version<U, V>, v': Version<U, V>, level: nat): set<Entry<U, V>>
    requires level + 1 < |v| && level + 1 < |v'|
  {
    set f, e | f in v'[level + 1] && f !in v[level + 1] && e in f.entries :: e
  }

  /** They are all of one file's, moved as it is, or just those of the inputs' that readers need. */
  ghost predicate Rewritten<U(!new), V(!new)>(ucmp: Comparator<U>, v: Version<U, V>, v': Version<U, V>, level: nat,
                                              in0: seq<File<U, V>>, in1: seq<File<U, V>>, snapshot: nat)
    requires level + 1 < |v| && level + 1 < |v'|
  {
    && NewEntries(v, v', level) <= Contents(in0 + in1)
    && ((|in0| == 1 && in1 == [] && in0[0] in v'[level + 1])
        || (OneEach(Contents(in0 + in1)) ==> forall e ::
              e in NewEntries(v, v', level) <==> NeededOf(ucmp, v, level, Contents(in0 + in1), e, snapshot)))
  }

  /** A key's reads from the smallest snapshot on stay the same unless an old value of it resurfaces. */
  ghost predicate ReadsUnlessResurfacing<U(!new), V(!new)>(ucmp: Comparator<U>, v: Version<U, V>, v': Version<U, V>,
                                                           level: nat, in0: seq<File<U, V>>, in1: seq<File<U, V>>,
                                                           snapshot: nat)
    requires level + 1 < |v|
  {
    forall k :: SameReads(From(v, 0), From(v', 0), k, snapshot)
                <==> !Resurfaces(From(v, 0), Contents(in0 + in1), LeftBehind(v, level, in1),
                    BaseKeys(ucmp, v, level), k, snapshot)
  }

  /** What a background compaction with these inputs does to a version. */
  ghost predicate CompactsTo<U(!new), V(!new)>(ucmp: Comparator<U>, v: Version<U, V>, v': Version<U, V>, level: nat,
                                               in0: seq<File<U, V>>, in1: seq<File<U, V>>, snapshot: nat)
    requires level + 1 < |v|
  {
    && Good(ucmp, v') && UniqueNumbers(v')
    && Moved(v, v', level, in0, in1) && Rewritten(ucmp, v, v', level, in0, in1, snapshot)
    && From(v', 0) <= From(v, 0) && ReadsUnlessResurfacing(ucmp, v, v', level, in0, in1, snapshot)
  }

  lemma PickedMoves<U(!new), V(!new)>(ucmp: Comparator<U>, v: Version<U, V>, v': Version<U, V>, level: nat,
                                      in0: seq<File<U, V>>, in1: seq<File<U, V>>, outputs: seq<File<U, V>>)
    requires level + 1 < |v| == |v'| && Picked(ucmp, v, level, in0, in1) && Replaces(v, v', level, in0, in1, outputs)
    requires forall g :: g in outputs ==> g !in v[level + 1]
    ensures Moved(v, v', level, in0, in1) && NewEntries(v, v', level) == Contents(outputs)
  {
    forall g ensures g in v'[level + 1] && g !in v[level + 1] <==> g in outputs { }
  }

  lemma LoopRewrites<U(!new), V(!new)>(ucmp: Comparator<U>, v: Version<U, V>, v': Version<U, V>, level: nat,
                                       in0: seq<File<U, V>>, in1: seq<File<U, V>>, merged: Entries<U, V>,
                                       snapshot: nat, first: nat, outputs: seq<File<U, V>>)
    requires TotalOrder(ucmp) && level + 1 < NumLevels == |v| == |v'| && Replaces(v, v', level, in0, in1, outputs)
    requires Ran(ucmp, v, level, in0, in1, merged, snapshot, first, outputs)
    ensures Moved(v, v', level, in0, in1) && Rewritten(ucmp, v, v', level, in0, in1, snapshot)
  {
    hide Replaces;
    hide Moved;
    hide NewEntries;
    hide NeededOf;
    hide Kept;
    forall g | g in outputs ensures g !in v[level + 1] {
      var i :| 0 <= i < |outputs| && outputs[i] == g;
    }
    PickedMoves(ucmp, v, v', level, in0, in1, outputs);
    var I := Contents(in0 + in1);
    forall e ensures e in Contents(outputs) <==> e in Concat(outputs) { ConcatHas(outputs, e); }
    forall e | e in Concat(outputs) ensures e in I { KeptHas(BaseKeys(ucmp, v, level), merged, snapshot, e); }
    if OneEach(I) {
      forall e ensures e in Concat(outputs) <==> NeededOf(ucmp, v, level, I, e, snapshot) {
        KeptIsNeeded(ucmp, v, level, merged, snapshot, e);
      }
    }
  }

  lemma MoveRewrites<U(!new), V(!new)>(ucmp: Comparator<U>, v: Version<U, V>, v': Version<U, V>, level: nat,
                                       f: File<U, V>, snapshot: nat)
    requires level + 1 < |v| == |v'| && UniqueNumbers(v) && Picked(ucmp, v, level, [f], [])
    requires Replaces(v, v', level, [f], [], [f])
    ensures Moved(v, v', level, [f], []) && Rewritten(ucmp, v, v', level, [f], [], snapshot)
  {
    hide NeededOf;
    assert f in v[level];
    PickedMoves(ucmp, v, v', level, [f], [], [f]);
    assert [f] + [] == [f];
  }

  /** Installed in the version it was picked in, a job does what a compaction may do. */
  lemma JobCompacts<U(!new), V(!new)>(ucmp: Comparator<U>, v: Version<U, V>, level: nat, in0: seq<File<U, V>>,
                                      in1: seq<File<U, V>>, outputs: seq<File<U, V>>, snapshot: nat)
    requires TotalOrder(ucmp) && Good(ucmp, v) && UniqueNumbers(v) && Distinct(From(v, 0))
    requires Underway(ucmp, v, Job(v, level, in0, in1, outputs, snapshot))
    ensures var v' := Compacted(ucmp, v, level, in0, in1, outputs);
            && Good(ucmp, v') && UniqueNumbers(v') && From(v', 0) <= From(v, 0)
            && Replaces(v, v', level, in0, in1, outputs)
            && ReadsUnlessResurfacing(ucmp, v, v', level, in0, in1, snapshot)
  {
    hide From;
    hide SameReads;
    hide Resurfaces;
    hide Good;
    hide Ready;
    hide Replaces;
    var job := Job(v, level, in0, in1, outputs, snapshot);
    var v' := Compacted(ucmp, v, level, in0, in1, outputs);
    UnderwayInstalls(ucmp, v, job);
    forall k
      ensures SameReads(From(v, 0), From(v', 0), k, snapshot)
              <==> !Resurfaces(From(v, 0), Contents(in0 + in1), LeftBehind(v, level, in1),
                  BaseKeys(ucmp, v, level), k, snapshot)
    {
      assert k in Disturbed(From(v, 0), From(v', 0), snapshot) <==> ResurfacesBy(ucmp, From(v, 0), job, k);
    }
  }

  lemma MoveCompactsTo<U(!new), V(!new)>(ucmp: Comparator<U>, v: Version<U, V>, level: nat, f: File<U, V>,
                                         smallest: InternalKey<U>, largest: InternalKey<U>, snapshot: nat)
    requires TotalOrder(ucmp) && level + 1 < NumLevels && Good(ucmp, v) && UniqueNumbers(v) && Distinct(From(v, 0))
    requires Chosen(ucmp, v, level, [f], [], smallest, largest)
    ensures CompactsTo(ucmp, v, Compacted(ucmp, v, level, [f], [], [f]), level, [f], [], snapshot)
  {
    hide Moved;
    hide Rewritten;
    hide ReadsUnlessResurfacing;
    hide From;
    hide Replaces;
    hide Chosen;
    hide Picked;
    hide Underway;
    var in1: seq<File<U, V>> := [];
    MoveUnderway(ucmp, v, level, f, smallest, largest, snapshot);
    JobCompacts(ucmp, v, level, [f], in1, [f], snapshot);
    MoveRewrites(ucmp, v, Compacted(ucmp, v, level, [f], in1, [f]), level, f, snapshot);
  }

  /** The loop's outputs are a job that can be installed. */
  lemma LoopUnderway<U(!new), V(!new)>(ucmp: Comparator<U>, v: Version<U, V>, level: nat, in0: seq<File<U, V>>,
                                       in1: seq<File<U, V>>, merged: Entries<U, V>, snapshot: nat, first: nat,
                                       outputs: seq<File<U, V>>)
    requires TotalOrder(ucmp) && level + 1 < NumLevels && Good(ucmp, v) && Linked(ucmp, in0 + in1)
    requires Ran(ucmp, v, level, in0, in1, merged, snapshot, first, outputs)
    ensures Underway(ucmp, v, Job(v, level, in0, in1, outputs, snapshot))
    ensures forall g :: g in outputs ==> first <= g.number < first + |outputs|
  {
    hide Kept;
    hide Linked;
    hide From;
    hide BaseKeys;
    var base := BaseKeys(ucmp, v, level);
    LoopOutputsOk(ucmp, v, level + 1, in0 + in1, outputs, base, merged, snapshot, first);
    PickedIsReady(ucmp, v, level, in0, in1, outputs);
    OlderOnlyLeftBehind(ucmp, v, level, in0, in1);
    KeptSurvives(ucmp, base, merged, snapshot);
    forall g | g in outputs ensures first <= g.number < first + |outputs| {
      var i :| 0 <= i < |outputs| && outputs[i] == g;
    }
  }

  lemma LoopCompactsTo<U(!new), V(!new)>(ucmp: Comparator<U>, v: Version<U, V>, level: nat, in0: seq<File<U, V>>,
                                         in1: seq<File<U, V>>, merged: Entries<U, V>, snapshot: nat, first: nat,
                                         outputs: seq<File<U, V>>)
    requires TotalOrder(ucmp) && level + 1 < NumLevels && Good(ucmp, v) && UniqueNumbers(v) && Distinct(From(v, 0))
    requires Ran(ucmp, v, level, in0, in1, merged, snapshot, first, outputs)
    requires Underway(ucmp, v, Job(v, level, in0, in1, outputs, snapshot))
    ensures CompactsTo(ucmp, v, Compacted(ucmp, v, level, in0, in1, outputs), level, in0, in1, snapshot)
  {
    hide Moved;
    hide Rewritten;
    hide ReadsUnlessResurfacing;
    hide From;
    hide Good;
    hide Replaces;
    hide Kept;
    hide UniqueNumbers;
    hide Underway;
    RanHas(ucmp, v, level, in0, in1, merged, snapshot, first, outputs);
    JobCompacts(ucmp, v, level, in0, in1, outputs, snapshot);
    LoopRewrites(ucmp, v, Compacted(ucmp, v, level, in0, in1, outputs), level, in0, in1, merged, snapshot, first,
        outputs);
  }

  lemma RanHas<U(!new), V(!new)>(ucmp: Comparator<U>, v: Version<U, V>, level: nat, in0: seq<File<U, V>>,
                                 in1: seq<File<U, V>>, merged: Entries<U, V>, snapshot: nat, first: nat,
                                 outputs: seq<File<U, V>>)
    requires level + 1 < NumLevels && Good(ucmp, v)
    requires Ran(ucmp, v, level, in0, in1, merged, snapshot, first, outputs)
    ensures |v| == NumLevels && Picked(ucmp, v, level, in0, in1)
  {
  }

  /** The job's outputs have numbers from first up to next, or are a file that is just moved. */
  ghost predicate Numbered<U(!new), V(!new)>(job: Job<U, V>, first: nat, next: nat) {
    first <= next && forall g :: g in job.outputs ==>
        first <= g.number < next || (job.outputs == job.in0 && job.in1 == [])
  }

  /** What picking and merging give, before anything is installed. */
  ghost predicate Prepared<U(!new), V(!new)>(ucmp: Comparator<U>, v: Version<U, V>, job: Job<U, V>, first: nat,
                                             next: nat)
  {
    && Underway(ucmp, v, job) && Numbered(job, first, next)
    && job.level + 1 < |v| && job.input == v
    && CompactsTo(ucmp, v, Compacted(ucmp, v, job.level, job.in0, job.in1, job.outputs), job.level, job.in0, job.in1,
        job.snapshot)
  }

  /** A compaction of the file at an index of a level, as far as its finished outputs, with what it was given. */
  ghost predicate Begun<U(!new), V(!new)>(ucmp: Comparator<U>, v: Version<U, V>, job: Job<U, V>, level: nat, index: nat,
                                          limit: nat, snapshot: nat, first: nat, next: nat)
    requires level + 1 < |v| && index < |v[level]|
  {
    && job.level == level && job.snapshot == snapshot && Prepared(ucmp, v, job, first, next)
    && PicksFor(ucmp, v, level, v[level][index], limit, job.in0, job.in1)
    && OneEach(Contents(job.in0 + job.in1))
  }

  /** The compaction loop on the picked files. */
  method CompactFiles<U(!new), V(!new)>(ucmp: Comparator<U>, v: Version<U, V>, level: nat, in0: seq<File<U, V>>,
                                        in1: seq<File<U, V>>, smallest: InternalKey<U>, largest: InternalKey<U>,
                                        snapshot: nat, first: nat)
    returns (job: Job<U, V>, next: nat)
    requires TotalOrder(ucmp) && Good(ucmp, v) && UniqueNumbers(v) && NumbersBelow(v, first) && Distinct(From(v, 0))
    requires level + 1 < NumLevels && Chosen(ucmp, v, level, in0, in1, smallest, largest) && snapshot < MaxSequence
    requires Linked(ucmp, in0 + in1)
    ensures Prepared(ucmp, v, job, first, next)
    ensures job == Job(v, level, in0, in1, job.outputs, snapshot) && forall g :: g in job.outputs ==> first <= g.number
  {
    hide Linked;
    hide Underway;
    hide CompactsTo;
    var c := new Compaction(ucmp, v, level);
    var input := MakeInputIterator(ucmp, v, level, in0, in1, smallest, largest);
    ghost var merged := input.merged;
    var outputs := DoCompactionWork(c, input, snapshot, first);
    ChosenIsPicked(ucmp, v, level, in0, in1, smallest, largest);
    LoopUnderway(ucmp, v, level, in0, in1, merged, snapshot, first, outputs);
    LoopCompactsTo(ucmp, v, level, in0, in1, merged, snapshot, first, outputs);
    job, next := Job(v, level, in0, in1, outputs, snapshot), first + |outputs|;
  }

  function FileNumbers<U, V>(files: seq<File<U, V>>): (r: set<nat>)
    ensures r == Numbers(files)
  {
    if files == [] then {} else
      assert files == [files[0]] + files[1..];
      {files[0].number} + FileNumbers(files[1..])
  }

  /** InstallCompactionResults, in the version that is then the current one. */
  method Install<U(!new), V(!new)>(ucmp: Comparator<U>, v: Version<U, V>, job: Job<U, V>) returns (v': Version<U, V>)
    requires job.level + 1 < |v|
    ensures v' == Compacted(ucmp, v, job.level, job.in0, job.in1, job.outputs)
  {
    v' := v[job.level := Without(v[job.level], FileNumbers(job.in0))];
    v' := v'[job.level + 1 := InsertAll(ucmp, job.outputs, Without(v[job.level + 1], FileNumbers(job.in1)))];
  }

  /** One file that overlaps nothing in the next level, and no more than maxOverlap bytes in the one after that. */
  ghost predicate Trivial<U(!new), V(!new)>(ucmp: Comparator<U>, v: Version<U, V>, level: nat, in0: seq<File<U, V>>,
                                            in1: seq<File<U, V>>, maxOverlap: nat)
    requires level < NumLevels <= |v|
  {
    && |in0| == 1 && in1 == []
    && (level + 2 < NumLevels ==> TotalFileSize(
          Overlapping(ucmp, v[level + 2], Some(in0[0].smallest.user), Some(in0[0].largest.user))) <= maxOverlap)
  }

  /** Compaction::IsTrivialMove. */
  method IsTrivialMove<U(!new), V(!new)>(ucmp: Comparator<U>, v: Version<U, V>, level: nat, in0: seq<File<U, V>>,
                                         in1: seq<File<U, V>>, maxOverlap: nat) returns (r: bool)
    requires TotalOrder(ucmp) && level < NumLevels <= |v|
    ensures r <==> Trivial(ucmp, v, level, in0, in1, maxOverlap)
  {
    if |in0| != 1 || in1 != [] {
      return false;
    }
    r := true;
    if level + 2 < NumLevels {
      var smallest, largest := GetRange(ucmp, in0);
      var grandparents, b, e := GetOverlappingInputs(ucmp, v[level + 2], level + 2, Some(smallest.user),
          Some(largest.user));
      r := TotalFileSize(grandparents) <= maxOverlap;
    }
  }

  lemma OneFile<U(!new), V(!new)>(ucmp: Comparator<U>, v: Version<U, V>, level: nat, in0: seq<File<U, V>>,
                                  in1: seq<File<U, V>>, maxOverlap: nat)
    requires level < NumLevels <= |v| && Trivial(ucmp, v, level, in0, in1, maxOverlap)
    ensures |in0| == 1 && in0 == [in0[0]] && in1 == []
  {
  }

  /** New numbers are not those of the inputs. */
  lemma MergedIsNew<U(!new), V(!new)>(ucmp: Comparator<U>, v: Version<U, V>, job: Job<U, V>, first: nat)
    requires NumbersBelow(v, first) && Underway(ucmp, v, job) && job.in0 != []
    requires forall g :: g in job.outputs ==> first <= g.number
    ensures job.outputs != job.in0
  {
    hide Linked;
    hide Effect;
    assert job.in0[0] in job.in0 && job.in0[0] in v[job.level];
  }

  /** BackgroundCompaction, once the level and the file have been picked, up to installing its results: a file that may
      just be moved is, everything else is merged. */
  method BackgroundCompaction<U(!new), V(!new)>(ucmp: Comparator<U>, v: Version<U, V>, level: nat, index: nat,
                                                limit: nat, maxOverlap: nat, snapshot: nat, first: nat)
    returns (job: Job<U, V>, next: nat)
    requires TotalOrder(ucmp) && Good(ucmp, v) && UniqueNumbers(v) && NumbersBelow(v, first) && Distinct(From(v, 0))
    requires level + 1 < NumLevels && index < |v[level]| && snapshot < MaxSequence
    ensures Prepared(ucmp, v, job, first, next) && job.level == level && job.snapshot == snapshot
    ensures v[level][index] in job.in0 && PicksFor(ucmp, v, level, v[level][index], limit, job.in0, job.in1)
    ensures job.outputs == job.in0 <==> Trivial(ucmp, v, level, job.in0, job.in1, maxOverlap)
  {
    hide UniqueNumbers;
    hide Distinct;
    hide From;
    hide Chain;
    hide FilesOk;
    hide SortedFiles;
    hide Trivial;
    hide Linked;
    hide Underway;
    hide CompactsTo;
    hide PicksFor;
    var in0, in1, smallest, largest := PickCompaction(ucmp, v, level, index, limit);
    var trivial := IsTrivialMove(ucmp, v, level, in0, in1, maxOverlap);
    if trivial {
      OneFile(ucmp, v, level, in0, in1, maxOverlap);
      MoveUnderway(ucmp, v, level, in0[0], smallest, largest, snapshot);
      MoveCompactsTo(ucmp, v, level, in0[0], smallest, largest, snapshot);
      job, next := Job(v, level, in0, [], in0, snapshot), first;
    } else {
      job, next := CompactFiles(ucmp, v, level, in0, in1, smallest, largest, snapshot, first);
      MergedIsNew(ucmp, v, job, first);
    }
  }

  // ------------------------------------------------------------------------ file numbers

  lemma InstalledNumbers<U(!new), V(!new)>(ucmp: Comparator<U>, v: Version<U, V>, v': Version<U, V>, job: Job<U, V>,
                                           next: nat)
    requires job.level + 1 < |v| == |v'| && Replaces(v, v', job.level, job.in0, job.in1, job.outputs)
    requires NumbersBelow(v, next) && forall g :: g in job.outputs ==> g.number < next
    ensures NumbersBelow(v', next)
  {
    forall l, f | 0 <= l < |v'| && f in v'[l] ensures f.number < next {
      if !(l == job.level + 1 && f in job.outputs) { assert f in v[l]; }
    }
  }
}
