/** A version and a compaction of it, picked as SetupOtherInputs picks, after which a deleted
    key reads as an old value.  Level 1 holds key 1; level 2 holds one file that ends in the
    deletion marker of key 2 and a second that goes on with key 2's old value. */
module Resurfacing {
  import opened Order
  import opened InternalKeys
  import opened Options
  import opened Tables
  import opened Versions
  import opened Inputs
  import opened Picking
  import opened Levels
  import opened Drops
  import opened Compactions
  import opened CompactionSteps
  import opened CompactionEffects

  function ByValue(a: int, b: int): int { a - b }

  function Upper(): File<int, int> {
    TableOf(3, 1, [(InternalKey(1, 20, Value), 100)])
  }

  function Marker(): File<int, int> {
    TableOf(1, 1, [(InternalKey(1, 5, Value), 50), (InternalKey(2, 10, Deletion), 0)])
  }

  function Old(): File<int, int> {
    TableOf(2, 1, [(InternalKey(2, 3, Value), 30)])
  }

  function Before(): Version<int, int> {
    [[], [Upper()], [Marker(), Old()], [], [], [], []]
  }

  function Merged(): Entries<int, int> {
    [(InternalKey(1, 20, Value), 100), (InternalKey(1, 5, Value), 50), (InternalKey(2, 10, Deletion), 0)]
  }

  lemma ByValueIsTotal()
    ensures TotalOrder(ByValue)
  {
  }

  lemma FilesAreOk()
    ensures FileOk(ByValue, Upper()) && FileOk(ByValue, Marker()) && FileOk(ByValue, Old())
    ensures FileBefore(ByValue, Marker(), Old())
    ensures Ordered(ByValue, Merged())
  {
  }

  lemma StoreIs(e: Entry<int, int>)
    ensures e in From(Before(), 0) <==> e in Upper().entries || e in Marker().entries || e in Old().entries
    ensures e in Contents([Upper()] + [Marker()]) <==> e in Upper().entries || e in Marker().entries
  {
    var v := Before();
    if e in From(v, 0) {
      var l, g := FromFile(v, e);
    }
    assert Upper() in v[1] && Marker() in v[2] && Old() in v[2];
    if e in Upper().entries { FileInFrom(v, 1, Upper(), e); }
    if e in Marker().entries { FileInFrom(v, 2, Marker(), e); }
    if e in Old().entries { FileInFrom(v, 2, Old(), e); }
    assert Upper() in [Upper()] + [Marker()] && Marker() in [Upper()] + [Marker()];
  }

  lemma LevelsAreByAge()
    ensures LevelsByAge(Before())
  {
    var v := Before();
    forall i, j | 0 <= i < j < |v| ensures Newer(Contents(v[i]), Contents(v[j])) {
      forall a, b | a in Contents(v[i]) && b in Contents(v[j]) && a.0.user == b.0.user ensures Tag(a.0) > Tag(b.0) {
        var g: File<int, int> :| g in v[i] && a in g.entries;
        var f: File<int, int> :| f in v[j] && b in f.entries;
      }
    }
  }

  lemma BeforeIsGood()
    ensures Good(ByValue, Before())
  {
    FilesAreOk();
    LevelsAreByAge();
    GoodIf(ByValue, Before());
  }

  lemma BeforeIsDistinct()
    ensures Distinct(From(Before(), 0))
  {
    forall x, y | x in From(Before(), 0) && y in From(Before(), 0) && x.0.user == y.0.user && Tag(x.0) == Tag(y.0)
      ensures x == y
    {
      StoreIs(x);
      StoreIs(y);
    }
  }

  lemma InputsAreChosen()
    ensures Chosen(ByValue, Before(), 1, [Upper()], [Marker()], Upper().smallest, Upper().largest)
  {
    var v := Before();
    assert SliceAt(v[1], [Upper()], 0);
    assert Upper() in [Upper()];
    assert v[2][..1] == [Marker()] && v[2][..1][..0] == [];
    assert Overlapping(ByValue, [Marker()], Some(1), Some(1)) == [Marker()] by {
      assert [Marker()][..0] == [];
    }
  }

  lemma MergedIsInputs()
    ensures Merges(ByValue, Merged(), [Upper()] + [Marker()])
  {
    FilesAreOk();
    forall e ensures e in (set x | x in Merged()) <==> e in Contents([Upper()] + [Marker()]) { StoreIs(e); }
  }

  lemma MarkerIsObsolete()
    ensures Obsolete(BaseKeys(ByValue, Before(), 1), Marker().entries[1], 20)
  {
    assert BaseLevel(ByValue, Before(), 1, 2);
  }

  lemma IsLeftBehind(v: Version<int, int>, level: nat, in1: seq<File<int, int>>, g: File<int, int>, e: Entry<int, int>)
    requires level + 1 < |v| && g in v[level + 1] && g !in in1 && e in g.entries
    ensures e in LeftBehind(v, level, in1)
  {
  }

  lemma OldIsLeftBehind()
    ensures var w := Old().entries[0];
        w in LeftBehind(Before(), 1, [Marker()])
        && BestOf(LeftBehind(Before(), 1, [Marker()]), w, 2, 20)
  {
    var v := Before();
    assert Old() in v[1 + 1];
    IsLeftBehind(v, 1, [Marker()], Old(), Old().entries[0]);
  }

  lemma OldValueResurfaces()
    ensures Resurfaces(From(Before(), 0), Contents([Upper()] + [Marker()]), LeftBehind(Before(), 1, [Marker()]),
        BaseKeys(ByValue, Before(), 1), 2, 20)
  {
    hide From;
    hide Contents;
    hide BaseKeys;
    hide Obsolete;
    var S := From(Before(), 0);
    var z, w := Marker().entries[1], Old().entries[0];
    forall x ensures x in S <==> x in Upper().entries || x in Marker().entries || x in Old().entries { StoreIs(x); }
    StoreIs(z);
    assert BestOf(S, z, 2, 20);
    MarkerIsObsolete();
    OldIsLeftBehind();
  }

  /** The loop's one output: all that is left of the inputs is the newer entry of key 1. */
  function Output(): File<int, int> { TableOf(4, 1, [Merged()[0]]) }

  lemma SecondIsHidden()
    ensures Kept(BaseKeys(ByValue, Before(), 1), Merged()[..2], 20) == [Merged()[0]]
  {
    hide BaseKeys;
    hide Before;
    var base := BaseKeys(ByValue, Before(), 1);
    assert Merged()[..2][..1] == Merged()[..1] && Merged()[..1][..0] == [];
    assert Kept(base, Merged()[..1], 20) == [Merged()[0]];
    assert DropAt(base, Merged()[..2], 1, 20);
  }

  lemma LoopKeeps()
    ensures Kept(BaseKeys(ByValue, Before(), 1), Merged(), 20) == [Merged()[0]]
  {
    SecondIsHidden();
    MarkerIsObsolete();
    assert DropAt(BaseKeys(ByValue, Before(), 1), Merged(), 2, 20);
  }

  lemma OutputHoldsKept()
    ensures Formed([Output()], 4) && Concat([Output()]) == Kept(BaseKeys(ByValue, Before(), 1), Merged(), 20)
  {
    LoopKeeps();
    assert [Output()][..0] == [];
    assert Concat([Output()]) == [Merged()[0]];
  }

  lemma NumbersAreBelow()
    ensures NumbersBelow(Before(), 4)
  {
  }

  lemma RanToOutput()
    ensures Ran(ByValue, Before(), 1, [Upper()], [Marker()], Merged(), 20, 4, [Output()])
  {
    ByValueIsTotal();
    BeforeIsGood();
    InputsAreChosen();
    ChosenIsPicked(ByValue, Before(), 1, [Upper()], [Marker()], Upper().smallest, Upper().largest);
    MergedIsInputs();
    OutputHoldsKept();
    NumbersAreBelow();
  }

  /** The code picks these inputs, the loop drops the marker, and what a reader of key 2 gets changes. */
  lemma CompactionCanUndelete()
    ensures Good(ByValue, Before()) && Chosen(ByValue, Before(), 1, [Upper()], [Marker()], Upper().smallest,
        Upper().largest)
    ensures Ran(ByValue, Before(), 1, [Upper()], [Marker()], Merged(), 20, 4, [Output()])
    ensures !SameReads(From(Before(), 0), From(Compacted(ByValue, Before(), 1, [Upper()], [Marker()], [Output()]), 0),
        2, 20)
  {
    ByValueIsTotal();
    BeforeIsGood();
    BeforeIsDistinct();
    InputsAreChosen();
    RanToOutput();
    OldValueResurfaces();
    CompactionKeepsReadsIff(ByValue, Before(), 1, [Upper()], [Marker()], Merged(), 20, 4, [Output()], 2);
  }
}
