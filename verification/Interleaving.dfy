/** A memtable written out while a compaction runs (db/db_impl.cc DoCompactionWork and CompactMemTable): the compaction
    was picked in one version and is installed in another. */
module Interleaving {
  import opened Order
  import opened InternalKeys
  import opened Options
  import opened Tables
  import opened Versions
  import opened Inputs
  import opened Linking
  import opened Levels
  import opened Flush
  import opened Drops
  import opened Compactions
  import opened CompactionSteps
  import opened CompactionEffects

  // -------------------------------------------------------------- one table in between

  /** The version with the memtable's table at a level. */
  function WithTable<U, V>(ucmp: Comparator<U>, v: Version<U, V>, f: File<U, V>, l: nat): (v': Version<U, V>)
    requires l < |v|
    ensures |v'| == |v|
  {
    v[l := Insert(ucmp, f, v[l])]
  }

  lemma WithTableHas<U(!new), V(!new)>(ucmp: Comparator<U>, v: Version<U, V>, f: File<U, V>, l: nat, m: nat,
                                       g: File<U, V>)
    requires l < |v| && m < |v|
    ensures g in WithTable(ucmp, v, f, l)[m] <==> g in v[m] || (m == l && g == f)
  {
    InsertHas(ucmp, f, v[l], g);
  }

  /** The outputs may still enter, if they keep clear of the new table. */
  lemma FlushKeepsReady<U(!new), V(!new)>(ucmp: Comparator<U>, v: Version<U, V>, f: File<U, V>, l: nat, level: nat,
                                          in0: seq<File<U, V>>, in1: seq<File<U, V>>, outputs: seq<File<U, V>>)
    requires level + 1 < |v| && l < |v| && Flushable(ucmp, v, f) && Ready(ucmp, v, level, in0, in1, outputs)
    requires forall h :: h in outputs ==> h.number != f.number
    requires l == level + 1 ==> forall h :: h in outputs ==> Apart(ucmp, h, f)
    ensures Ready(ucmp, WithTable(ucmp, v, f, l), level, in0, in1, outputs)
  {
    var v' := WithTable(ucmp, v, f, l);
    forall m: nat, g | m < |v| ensures g in v'[m] <==> g in v[m] || (m == l && g == f) {
      WithTableHas(ucmp, v, f, l, m, g);
    }
    forall h, g | h in in0 && g in v'[level] && g !in in0 ensures FileNewer(g, h) {
      if g !in v[level] { NewerThanFile(ucmp, v, f, level, h); }
    }
  }

  lemma NewerThanFile<U(!new), V(!new)>(ucmp: Comparator<U>, v: Version<U, V>, f: File<U, V>, l: nat, h: File<U, V>)
    requires Flushable(ucmp, v, f) && l < |v| && h in v[l]
    ensures FileNewer(f, h)
  {
    forall e | e in h.entries ensures e in From(v, 0) { FileInFrom(v, l, h, e); }
    assert forall e :: e in f.entries <==> e in EntriesOf(f);
  }

  /** A compaction installed after a flush leaves the levels in order if and only if the table did not go to the
      output level between two keys of one output. */
  lemma InterleavedIff<U(!new), V(!new)>(ucmp: Comparator<U>, v: Version<U, V>, f: File<U, V>, l: nat, level: nat,
                                         in0: seq<File<U, V>>, in1: seq<File<U, V>>, outputs: seq<File<U, V>>)
    requires TotalOrder(ucmp) && Good(ucmp, v) && level + 1 < NumLevels && l < NumLevels
    requires Ready(ucmp, v, level, in0, in1, outputs) && Flushable(ucmp, v, f)
    requires l > 0 ==> ClearDownTo(ucmp, v, f.smallest.user, f.largest.user, l)
    requires forall h :: h in outputs ==> h.number != f.number
    ensures Good(ucmp, Compacted(ucmp, WithTable(ucmp, v, f, l), level, in0, in1, outputs)) <==>
        (l == level + 1 ==> forall h :: h in outputs ==> Apart(ucmp, h, f))
  {
    hide Good;
    hide From;
    hide Ready;
    hide Flushable;
    hide ClearDownTo;
    hide Insert;
    GoodLength(ucmp, v);
    if l == level + 1 ==> forall h :: h in outputs ==> Apart(ucmp, h, f) {
      FlushKeepsGood(ucmp, v, f, l);
      FlushKeepsReady(ucmp, v, f, l, level, in0, in1, outputs);
      CompactedIsGood(ucmp, WithTable(ucmp, v, f, l), level, in0, in1, outputs);
    } else {
      var h :| h in outputs && !Apart(ucmp, h, f);
      NotApartNotGood(ucmp, v, f, level, in0, in1, outputs, h);
    }
  }

  lemma NotApartNotGood<U(!new), V(!new)>(ucmp: Comparator<U>, v: Version<U, V>, f: File<U, V>, level: nat,
                                          in0: seq<File<U, V>>, in1: seq<File<U, V>>, outputs: seq<File<U, V>>,
                                          h: File<U, V>)
    requires level + 1 < NumLevels <= |v| && Flushable(ucmp, v, f) && Ready(ucmp, v, level, in0, in1, outputs)
    requires h in outputs && !Apart(ucmp, h, f) && h.number != f.number
    ensures !Good(ucmp, Compacted(ucmp, WithTable(ucmp, v, f, level + 1), level, in0, in1, outputs))
  {
    var v' := Compacted(ucmp, WithTable(ucmp, v, f, level + 1), level, in0, in1, outputs);
    BothInLevel(ucmp, v, f, level, in1, outputs, h);
    if SortedFiles(ucmp, v'[level + 1]) { SortedApart(ucmp, v'[level + 1], h, f); }
  }

  lemma BothInLevel<U(!new), V(!new)>(ucmp: Comparator<U>, v: Version<U, V>, f: File<U, V>, level: nat,
                                      in1: seq<File<U, V>>, outputs: seq<File<U, V>>, h: File<U, V>)
    requires level + 1 < |v| && Flushable(ucmp, v, f) && h in outputs && forall g :: g in in1 ==> g in v[level + 1]
    ensures var next := InsertAll(ucmp, outputs, Levels.Without(Insert(ucmp, f, v[level + 1]), Numbers(in1)));
            h in next && f in next
  {
    var rest := Levels.Without(Insert(ucmp, f, v[level + 1]), Numbers(in1));
    InsertHas(ucmp, f, v[level + 1], f);
    Levels.WithoutHas(Insert(ucmp, f, v[level + 1]), Numbers(in1), f);
    InsertAllHas(ucmp, outputs, rest, h);
    InsertAllHas(ucmp, outputs, rest, f);
  }

  /** Inputs without a gap leave no room for that: a table that overlaps none of them keeps clear of every output. */
  lemma LinkedKeepsClear<U(!new), V(!new)>(ucmp: Comparator<U>, inputs: seq<File<U, V>>, f: File<U, V>, h: File<U, V>)
    requires TotalOrder(ucmp) && FilesOk(ucmp, inputs) && FileOk(ucmp, f) && FileOk(ucmp, h) && Linked(ucmp, inputs)
    requires forall g :: g in inputs ==> !Overlaps(ucmp, g, Some(f.smallest.user), Some(f.largest.user))
    requires forall e :: e in h.entries ==> e in Contents(inputs)
    ensures Apart(ucmp, h, f)
  {
    Laws(ucmp);
    RangeOk(ucmp, f);
    assert h.entries[0] in h.entries && h.entries[|h.entries| - 1] in h.entries;
    var x :| x in inputs && h.entries[0] in x.entries;
    var y :| y in inputs && h.entries[|h.entries| - 1] in y.entries;
    EntryInRange(ucmp, x, h.entries[0]);
    EntryInRange(ucmp, y, h.entries[|h.entries| - 1]);
    var p := f.smallest.user;
    if ucmp(y.largest.user, p) < 0 {
      Transitive(ucmp, h.largest.user, y.largest.user, p);
    } else if ucmp(x.smallest.user, f.largest.user) > 0 {
      Transitive(ucmp, f.largest.user, x.smallest.user, h.smallest.user);
    } else {
      Transitive(ucmp, p, f.largest.user, y.smallest.user);
      assert Between(ucmp, x, p, y);
      var z :| z in inputs && Contains(ucmp, z, p);
      Transitive(ucmp, z.smallest.user, p, f.largest.user);
      assert Overlaps(ucmp, z, Some(p), Some(f.largest.user));
      assert false;
    }
  }

  // ------------------------------------------------------------------- a running compaction

  /** What a compaction carries from picking to installing: the version it was picked in (input_version_), the smallest
      snapshot then, the inputs and the outputs. */
  datatype Job<U, V> = Job(input: Version<U, V>, level: nat, in0: seq<File<U, V>>, in1: seq<File<U, V>>,
                           outputs: seq<File<U, V>>, snapshot: nat)

  ghost function InputsOf<U, V>(job: Job<U, V>): set<Entry<U, V>> { Contents(job.in0 + job.in1) }

  /** The job lets an old value of k resurface in a store that holds S. */
  ghost predicate ResurfacesBy<U(!new), V(!new)>(ucmp: Comparator<U>, S: set<Entry<U, V>>, job: Job<U, V>, k: U)
    requires job.level + 1 < |job.input|
  {
    Resurfaces(S, InputsOf(job), LeftBehind(job.input, job.level, job.in1), BaseKeys(ucmp, job.input, job.level), k,
        job.snapshot)
  }

  ghost predicate NoUserShared<U(!new), V(!new)>(I: set<Entry<U, V>>, O: set<Entry<U, V>>) {
    forall e, w :: e in I && w in O ==> e.0.user != w.0.user
  }

  /** What readers of a store that holds S will notice of the job, is what the drop rules make of the inputs, or nothing
      if a file is just moved. */
  ghost predicate Effect<U(!new), V(!new)>(ucmp: Comparator<U>, S: set<Entry<U, V>>, job: Job<U, V>)
    requires job.level + 1 < |job.input|
  {
    var I, K, O := InputsOf(job), Contents(job.outputs), LeftBehind(job.input, job.level, job.in1);
    var base := BaseKeys(ucmp, job.input, job.level);
    OlderOnlyIn(S, I, O, base) && (Survives(I, K, base, job.snapshot) || (K == I && NoUserShared(I, O)))
  }

  /** No file has the number of an output, except a file that is just moved. */
  ghost predicate OutputsNew<U(!new), V(!new)>(v: Version<U, V>, job: Job<U, V>) {
    forall l, g, h :: 0 <= l < |v| && g in v[l] && h in job.outputs && g.number == h.number ==>
        l == job.level && g == h && g in job.in0
  }

  /** The job can be installed in v. */
  ghost predicate Underway<U(!new), V(!new)>(ucmp: Comparator<U>, v: Version<U, V>, job: Job<U, V>) {
    match job
    case Job(input, level, in0, in1, outputs, snapshot) =>
      && level + 1 < NumLevels == |v| == |input|
      && Ready(ucmp, v, level, in0, in1, outputs) && Linked(ucmp, in0 + in1)
      && OutputsNew(v, job) && Effect(ucmp, From(v, 0), job)
  }

  lemma FlushKeepsEffect<U(!new), V(!new)>(ucmp: Comparator<U>, S: set<Entry<U, V>>, F: set<Entry<U, V>>,
                                           job: Job<U, V>)
    requires job.level + 1 < |job.input| && Effect(ucmp, S, job) && Newer(F, S)
    ensures Effect(ucmp, S + F, job)
  {
  }

  lemma TableKeepsClear<U(!new), V(!new)>(ucmp: Comparator<U>, v: Version<U, V>, f: File<U, V>, job: Job<U, V>,
                                          h: File<U, V>)
    requires TotalOrder(ucmp) && Good(ucmp, v) && Flushable(ucmp, v, f) && Underway(ucmp, v, job)
    requires ClearDownTo(ucmp, v, f.smallest.user, f.largest.user, job.level + 1) && h in job.outputs
    ensures Apart(ucmp, h, f)
  {
    var inputs := job.in0 + job.in1;
    forall g | g in inputs
      ensures FileOk(ucmp, g) && !Overlaps(ucmp, g, Some(f.smallest.user), Some(f.largest.user))
    {
      var l := if g in job.in0 then job.level else job.level + 1;
      assert !SomeOverlap(ucmp, v[l], Some(f.smallest.user), Some(f.largest.user));
    }
    InLevel(job.outputs, h);
    LinkedKeepsClear(ucmp, inputs, f, h);
  }

  /** A flush in between leaves a job installable: its inputs have no gap for the table to go to. */
  lemma FlushKeepsUnderway<U(!new), V(!new)>(ucmp: Comparator<U>, v: Version<U, V>, f: File<U, V>, l: nat,
                                             job: Job<U, V>)
    requires TotalOrder(ucmp) && Good(ucmp, v) && Flushable(ucmp, v, f) && l < NumLevels && Underway(ucmp, v, job)
    requires l > 0 ==> ClearDownTo(ucmp, v, f.smallest.user, f.largest.user, l)
    requires forall h :: h in job.outputs ==> h.number != f.number
    ensures Underway(ucmp, WithTable(ucmp, v, f, l), job)
  {
    hide Linked;
    hide Good;
    hide From;
    hide Ready;
    hide Effect;
    hide OutputsNew;
    hide Insert;
    hide ClearDownTo;
    if l == job.level + 1 {
      forall h | h in job.outputs ensures Apart(ucmp, h, f) { TableKeepsClear(ucmp, v, f, job, h); }
    }
    FlushKeepsReady(ucmp, v, f, l, job.level, job.in0, job.in1, job.outputs);
    FlushContents(ucmp, v, f, l);
    FlushKeepsEffect(ucmp, From(v, 0), EntriesOf(f), job);
    FlushKeepsNew(ucmp, v, f, l, job);
  }

  lemma GoesToClear<U(!new), V(!new)>(ucmp: Comparator<U>, v: Version<U, V>, lo: U, hi: U, maxOverlap: nat, l: nat)
    requires |v| == NumLevels && GoesTo(ucmp, v, lo, hi, maxOverlap, l)
    ensures l > 0 ==> ClearDownTo(ucmp, v, lo, hi, l)
  {
    forall m | l > 0 && 0 <= m <= l ensures !SomeOverlap(ucmp, v[m], Some(lo), Some(hi)) {
      if m > 0 { assert MayPass(ucmp, v, lo, hi, maxOverlap, m - 1); }
    }
  }

  /** Seen from the flush: whatever it adds, where it puts it, the job stays installable. */
  lemma AddedKeepsUnderway<U(!new), V(!new)>(ucmp: Comparator<U>, v: Version<U, V>, v': Version<U, V>, f: File<U, V>,
                                             maxOverlap: nat, job: Job<U, V>)
    requires TotalOrder(ucmp) && Good(ucmp, v) && |v| == NumLevels && Underway(ucmp, v, job)
    requires Flushable(ucmp, v, f) && Added(ucmp, v, v', f, maxOverlap)
    requires forall h :: h in job.outputs ==> h.number != f.number
    ensures Underway(ucmp, v', job)
  {
    hide Good;
    hide Flushable;
    hide Underway;
    hide ClearDownTo;
    hide MayPass;
    hide SomeOverlap;
    var l: nat :| GoesTo(ucmp, v, f.smallest.user, f.largest.user, maxOverlap, l)
        && v' == v[l := Insert(ucmp, f, v[l])];
    GoesToClear(ucmp, v, f.smallest.user, f.largest.user, maxOverlap, l);
    FlushKeepsUnderway(ucmp, v, f, l, job);
  }

  lemma FlushKeepsNew<U(!new), V(!new)>(ucmp: Comparator<U>, v: Version<U, V>, f: File<U, V>, l: nat, job: Job<U, V>)
    requires l < |v| && OutputsNew(v, job) && forall h :: h in job.outputs ==> h.number != f.number
    ensures OutputsNew(WithTable(ucmp, v, f, l), job)
  {
    var v' := WithTable(ucmp, v, f, l);
    forall m: nat, g: File<U, V>, h | m < |v'| && g in v'[m] && h in job.outputs && g.number == h.number
      ensures m == job.level && g == h && g in job.in0
    {
      WithTableHas(ucmp, v, f, l, m, g);
    }
  }

  // ----------------------------------------------------------------------- installing it

  lemma InstalledUnique<U(!new), V(!new)>(v: Version<U, V>, v': Version<U, V>, job: Job<U, V>)
    requires job.level + 1 < |v| == |v'| && UniqueNumbers(v) && OutputsNew(v, job) && DistinctNumbers(job.outputs)
    requires Replaces(v, v', job.level, job.in0, job.in1, job.outputs)
    ensures UniqueNumbers(v')
  {
    forall l, m, f, g | 0 <= l < |v'| && 0 <= m < |v'| && f in v'[l] && g in v'[m] && f.number == g.number
      ensures l == m && f == g
    {
      InstalledFrom(v, v', job, l, f);
      InstalledFrom(v, v', job, m, g);
      if f in job.outputs && g in job.outputs && l == m == job.level + 1 {
        var i :| 0 <= i < |job.outputs| && job.outputs[i] == f;
        var j :| 0 <= j < |job.outputs| && job.outputs[j] == g;
        assert i == j;
      }
    }
  }

  lemma InstalledFrom<U(!new), V(!new)>(v: Version<U, V>, v': Version<U, V>, job: Job<U, V>, l: nat, f: File<U, V>)
    requires job.level + 1 < |v| == |v'| && Replaces(v, v', job.level, job.in0, job.in1, job.outputs)
    requires l < |v'| && f in v'[l]
    ensures (l == job.level + 1 && f in job.outputs)
        || (f in v[l] && !(l == job.level && f in job.in0) && !(l == job.level + 1 && f in job.outputs))
  {
  }

  lemma EffectReads<U(!new), V(!new)>(ucmp: Comparator<U>, S: set<Entry<U, V>>, job: Job<U, V>, k: U)
    requires job.level + 1 < |job.input| && Effect(ucmp, S, job) && Distinct(S)
    ensures SameReads(S, S - InputsOf(job) + Contents(job.outputs), k, job.snapshot) <==> !ResurfacesBy(ucmp, S, job, k)
  {
    var I, K, O := InputsOf(job), Contents(job.outputs), LeftBehind(job.input, job.level, job.in1);
    var base := BaseKeys(ucmp, job.input, job.level);
    if Survives(I, K, base, job.snapshot) {
      DropsInvisibleIff(S, I, K, O, base, k, job.snapshot);
    } else {
      assert S - I + K == S;
    }
  }

  /** Installed, the job leaves a good version, with nothing new, and changes the reads of a key just when an old value
      of it resurfaces. */
  lemma UnderwayInstalls<U(!new), V(!new)>(ucmp: Comparator<U>, v: Version<U, V>, job: Job<U, V>)
    requires TotalOrder(ucmp) && Good(ucmp, v) && UniqueNumbers(v) && Distinct(From(v, 0)) && Underway(ucmp, v, job)
    ensures var v' := Compacted(ucmp, v, job.level, job.in0, job.in1, job.outputs);
            && Good(ucmp, v') && UniqueNumbers(v') && From(v', 0) <= From(v, 0)
            && Replaces(v, v', job.level, job.in0, job.in1, job.outputs)
    ensures var v' := Compacted(ucmp, v, job.level, job.in0, job.in1, job.outputs);
            forall k :: k in Disturbed(From(v, 0), From(v', 0), job.snapshot) <==>
              ResurfacesBy(ucmp, From(v, 0), job, k)
  {
    hide From;
    hide Good;
    hide SameReads;
    hide ResurfacesBy;
    hide Linked;
    hide Effect;
    var v' := Compacted(ucmp, v, job.level, job.in0, job.in1, job.outputs);
    CompactedIsGood(ucmp, v, job.level, job.in0, job.in1, job.outputs);
    CompactedReplaces(ucmp, v, job.level, job.in0, job.in1, job.outputs);
    InstalledUnique(v, v', job);
    StoreAfter(ucmp, v, v', job.level, job.in0, job.in1, job.outputs);
    NothingNew(ucmp, From(v, 0), job);
    forall k
      ensures SameReads(From(v, 0), From(v', 0), k, job.snapshot) <==> !ResurfacesBy(ucmp, From(v, 0), job, k)
    {
      EffectReads(ucmp, From(v, 0), job, k);
    }
  }

  lemma NothingNew<U(!new), V(!new)>(ucmp: Comparator<U>, S: set<Entry<U, V>>, job: Job<U, V>)
    requires job.level + 1 < |job.input| && Effect(ucmp, S, job)
    ensures Contents(job.outputs) <= S
  {
  }

  /** The keys that the two sets do not answer alike. */
  ghost function Disturbed<U(!new), V(!new)>(S: set<Entry<U, V>>, S': set<Entry<U, V>>, snapshot: nat): iset<U> {
    iset k | !SameReads(S, S', k, snapshot)
  }
}
