/** A manual compaction picks two files of level 1 with a gap between them; the memtable written out while it runs goes
    into that gap, at the level of the output, which then spans it. */
module Gaps {
  import opened InternalKeys
  import opened Options
  import opened Tables
  import opened Versions
  import opened Inputs
  import opened Linking
  import opened Picking
  import opened Levels
  import opened Flush
  import opened Compactions
  import opened CompactionSteps
  import opened CompactionEffects
  import opened Interleaving
  import opened Resurfacing

  function Low(): File<int, int> { TableOf(1, 1, [(InternalKey(1, 10, Value), 100)]) }

  function High(): File<int, int> { TableOf(2, 1, [(InternalKey(5, 11, Value), 500)]) }

  function Start(): Version<int, int> { [[], [Low(), High()], [], [], [], [], []] }

  function Both(): Entries<int, int> { [(InternalKey(1, 10, Value), 100), (InternalKey(5, 11, Value), 500)] }

  /** The compaction's output. */
  function Spanning(): File<int, int> { TableOf(3, 1, Both()) }

  /** The memtable's table. */
  function Middle(): File<int, int> { TableOf(4, 1, [(InternalKey(3, 21, Value), 300)]) }

  lemma TablesAreOk()
    ensures FileOk(ByValue, Low()) && FileOk(ByValue, High()) && FileOk(ByValue, Spanning())
        && FileOk(ByValue, Middle())
    ensures FileBefore(ByValue, Low(), High()) && Ordered(ByValue, Both())
  {
  }

  lemma Holds(e: Entry<int, int>)
    ensures e in From(Start(), 0) <==> e in Both()
    ensures e in Contents([Low(), High()] + []) <==> e in Both()
  {
    var v := Start();
    if e in From(v, 0) { var l, g := FromFile(v, e); }
    assert Low() in v[1] && High() in v[1];
    if e in Low().entries { FileInFrom(v, 1, Low(), e); }
    if e in High().entries { FileInFrom(v, 1, High(), e); }
    assert [Low(), High()] + [] == [Low(), High()];
    assert Low() in [Low(), High()] && High() in [Low(), High()];
    assert Low().entries[0] == Both()[0] && High().entries[0] == Both()[1];
    assert Both()[0] in Low().entries && Both()[1] in High().entries;
  }

  lemma IsGood()
    ensures Good(ByValue, Start())
  {
    var v := Start();
    TablesAreOk();
    assert LevelsByAge(v) by {
      forall i, j | 0 <= i < j < |v| ensures Newer(Contents(v[i]), Contents(v[j])) { }
    }
    GoodIf(ByValue, v);
  }

  /** Both files are what a manual compaction of everything takes at level 1. */
  lemma BothArePicked(maxSize: nat)
    requires maxSize > 2
    ensures ManualRange(ByValue, Start(), 1, None, None, maxSize, [Low(), High()])
    ensures Chosen(ByValue, Start(), 1, [Low(), High()], [], Low().smallest, High().largest)
  {
    BothInRange(maxSize);
    BothChosen();
  }

  lemma BothInRange(maxSize: nat)
    requires maxSize > 2
    ensures ManualRange(ByValue, Start(), 1, None, None, maxSize, [Low(), High()])
  {
    var files := Start()[1];
    assert files == [Low(), High()];
    AllOverlap();
    assert InRange(ByValue, files, 1, None, None, files);
    assert files[1..] == [High()] && files[1..][1..] == [];
    assert TotalFileSize(files[1..]) == 1;
    assert CutTo(files, maxSize, files);
  }

  lemma BothChosen()
    ensures Chosen(ByValue, Start(), 1, [Low(), High()], [], Low().smallest, High().largest)
  {
    var files := Start()[1];
    assert files == [Low(), High()];
    assert SliceAt(files, files, 0);
    assert Low() in files && High() in files;
  }

  lemma AllOverlap()
    ensures Overlapping(ByValue, [Low(), High()], None, None) == [Low(), High()]
  {
    var files := [Low(), High()];
    assert files[..1] == [Low()] && files[..1][..0] == [];
    assert Overlapping(ByValue, files[..1], None, None) == [Low()];
  }

  lemma ArePicked()
    ensures Picked(ByValue, Start(), 1, [Low(), High()], [])
  {
    hide Good;
    hide Chosen;
    hide Picked;
    hide Start;
    hide ByValue;
    var in1: seq<File<int, int>> := [];
    ByValueIsTotal();
    IsGood();
    BothArePicked(3);
    ChosenIsPicked(ByValue, Start(), 1, [Low(), High()], in1, Low().smallest, High().largest);
  }

  lemma OutputFits()
    ensures OutputsOk(ByValue, Start()[2], [Low(), High()] + [], [Spanning()])
  {
    hide FileOk;
    var in1: seq<File<int, int>> := [];
    TablesAreOk();
    forall e | e in Contents([Spanning()]) ensures e in Contents([Low(), High()] + in1) { Holds(e); }
  }

  lemma OutputIsReady()
    ensures Ready(ByValue, Start(), 1, [Low(), High()], [], [Spanning()])
  {
    hide Good;
    hide Picked;
    hide OutputsOk;
    hide Ready;
    var in1: seq<File<int, int>> := [];
    ByValueIsTotal();
    IsGood();
    ArePicked();
    OutputFits();
    PickedIsReady(ByValue, Start(), 1, [Low(), High()], in1, [Spanning()]);
  }

  /** The compaction keeps both entries, in one output. */
  lemma RunsToOutput()
    ensures Ran(ByValue, Start(), 1, [Low(), High()], [], Both(), 20, 3, [Spanning()])
  {
    hide Picked;
    hide BaseKeys;
    hide Kept;
    var in1: seq<File<int, int>> := [];
    ArePicked();
    TablesAreOk();
    forall e ensures e in (set x | x in Both()) <==> e in Contents([Low(), High()] + in1) { Holds(e); }
    KeepsBoth();
    assert [Spanning()][..0] == [];
    NumbersAre();
  }

  lemma NumbersAre()
    ensures NumbersBelow(Start(), 3) && Formed([Spanning()], 3)
  {
  }

  lemma KeepsBoth()
    ensures Kept(BaseKeys(ByValue, Start(), 1), Both(), 20) == Both()
  {
    hide BaseKeys;
    var base := BaseKeys(ByValue, Start(), 1);
    assert Both()[..1] == [Both()[0]] && Both()[..1][..0] == [];
    assert Kept(base, Both()[..1], 20) == [Both()[0]];
  }

  /** The memtable goes to level 2: nothing in levels 0 to 2 overlaps key 3. */
  lemma GoesBetween(maxOverlap: nat)
    ensures GoesTo(ByValue, Start(), 3, 3, maxOverlap, 2) && ClearDownTo(ByValue, Start(), 3, 3, 2)
    ensures Flushable(ByValue, Start(), Middle())
  {
    hide From;
    var v := Start();
    TablesAreOk();
    forall l | 0 <= l <= 2 ensures !SomeOverlap(ByValue, v[l], Some(3), Some(3)) { NoneOverlap(l); }
    forall l: nat | l < 2 ensures MayPass(ByValue, v, 3, 3, maxOverlap, l) { NoneOverlap(l + 1); }
    forall a, b | a in EntriesOf(Middle()) && b in From(v, 0) ensures a.0.user != b.0.user { Holds(b); }
  }

  lemma NoneOverlap(l: nat)
    requires l <= 3
    ensures !SomeOverlap(ByValue, Start()[l], Some(3), Some(3))
    ensures l > 1 ==> Overlapping(ByValue, Start()[l], Some(3), Some(3)) == []
  {
  }

  /** Installed after that, the output overlaps the memtable's table in level 2: a search of the level looks for key 3
      in
      the output, and does not find the value that was written last. */
  lemma FlushLostInGap(maxOverlap: nat)
    ensures ManualRange(ByValue, Start(), 1, None, None, 3, [Low(), High()])
    ensures Chosen(ByValue, Start(), 1, [Low(), High()], [], Low().smallest, High().largest)
    ensures Ran(ByValue, Start(), 1, [Low(), High()], [], Both(), 20, 3, [Spanning()])
    ensures Added(ByValue, Start(), WithTable(ByValue, Start(), Middle(), 2), Middle(), maxOverlap)
    ensures var v := Compacted(ByValue, WithTable(ByValue, Start(), Middle(), 2), 1, [Low(), High()], [],
                [Spanning()]);
            && !Good(ByValue, v) && v[2] == [Spanning(), Middle()] && Middle().entries[0] in From(v, 0)
            && InternalCompare(ByValue, Spanning().largest, LookupKey(3, 21)) >= 0
            && Lookup(ByValue, Spanning().entries, 3, 21) == NotFound
            && Lookup(ByValue, Middle().entries, 3, 21) == Found(300)
    ensures !Linked(ByValue, [Low(), High()])
  {
    hide Good;
    hide Ready;
    hide Ran;
    hide Chosen;
    hide ManualRange;
    hide ClearDownTo;
    hide Flushable;
    hide Compacted;
    hide From;
    hide Start;
    var in1: seq<File<int, int>> := [];
    ByValueIsTotal();
    IsGood();
    BothArePicked(3);
    RunsToOutput();
    OutputIsReady();
    GoesBetween(maxOverlap);
    assert GoesTo(ByValue, Start(), Middle().smallest.user, Middle().largest.user, maxOverlap, 2);
    InterleavedIff(ByValue, Start(), Middle(), 2, 1, [Low(), High()], in1, [Spanning()]);
    assert !Apart(ByValue, Spanning(), Middle());
    LevelTwo();
    assert Between(ByValue, Low(), 3, High());
  }

  lemma LevelTwo()
    ensures var v := Compacted(ByValue, WithTable(ByValue, Start(), Middle(), 2), 1, [Low(), High()], [],
                [Spanning()]);
            v[2] == [Spanning(), Middle()] && Middle().entries[0] in From(v, 0)
            && Lookup(ByValue, Spanning().entries, 3, 21) == NotFound
            && Lookup(ByValue, Middle().entries, 3, 21) == Found(300)
  {
    hide From;
    var v := Compacted(ByValue, WithTable(ByValue, Start(), Middle(), 2), 1, [Low(), High()], [], [Spanning()]);
    var level := WithTable(ByValue, Start(), Middle(), 2)[2];
    assert level == [Middle()] && level[1..] == [];
    var gone := Numbers<int, int>([]);
    assert Middle().number !in gone;
    assert Levels.Without(level[1..], gone) == [];
    assert Levels.Without(level, gone) == [Middle()];
    assert [Spanning()][1..] == [];
    assert v[2] == Insert(ByValue, Spanning(), [Middle()]);
    assert Middle() in v[2] && Middle().entries[0] in Middle().entries;
    FileInFrom(v, 2, Middle(), Middle().entries[0]);
  }
}
