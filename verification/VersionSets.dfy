/** VersionSet::LogAndApply and Recover (db/version_set.cc): the manifest a run of edits leaves on disk,
    cut anywhere, rebuilds the version as it was after one of them. */
module VersionSets {
  import opened Coding
  import opened Options
  import opened Order
  import opened Versions
  import opened Levels
  import opened VersionEdits
  import opened Builders
  import opened LogFormat
  import opened LogRoundTrip
  import opened Manifests
  import LogWriter

  type Files = FileEdit<seq<Byte>, ()>

  // ------------------------------------------------------------- numbers are used once

  /** Every file ever added to a level. */
  function History(edits: seq<Files>, l: nat): seq<Meta> {
    if edits == [] then [] else History(edits[..|edits| - 1], l) + AddedAt(edits[|edits| - 1].added, l)
  }

  /** No number is added to a level twice. */
  ghost predicate NumbersOnce(edits: seq<Files>) {
    && (forall e :: e in edits ==> LevelsExist(e))
    && forall l :: 0 <= l < NumLevels ==> DistinctNumbers(History(edits, l))
  }

  lemma NumbersOncePrefix(edits: seq<Files>)
    requires edits != [] && NumbersOnce(edits)
    ensures NumbersOnce(edits[..|edits| - 1])
  {
    var init := edits[..|edits| - 1];
    forall l | 0 <= l < NumLevels ensures DistinctNumbers(History(init, l)) {
      var h, g := History(edits, l), History(init, l);
      forall i, j | 0 <= i < j < |g| ensures g[i].number != g[j].number { assert h[i] == g[i] && h[j] == g[j]; }
    }
  }

  lemma LastIsFresh(edits: seq<Files>, l: nat, added: seq<Meta>)
    requires edits != [] && NumbersOnce(edits) && l < NumLevels
    requires forall f :: f in added ==> f in History(edits[..|edits| - 1], l)
    ensures Fresh([], added, AddedAt(edits[|edits| - 1].added, l))
        && Fresh(added, [], AddedAt(edits[|edits| - 1].added, l))
  {
    var g, more := History(edits[..|edits| - 1], l), AddedAt(edits[|edits| - 1].added, l);
    var h := History(edits, l);
    assert h == g + more && DistinctNumbers(h);
    forall f, a | f in more && a in added ensures f.number != a.number {
      var i :| 0 <= i < |g| && g[i] == a;
      var j :| 0 <= j < |more| && more[j] == f;
      assert h[i] == a && h[|g| + j] == f;
    }
    forall i, j | 0 <= i < j < |more| ensures more[i].number != more[j].number {
      assert h[|g| + i] == more[i] && h[|g| + j] == more[j];
    }
  }

  /** A version holds only files that were once added. */
  lemma {:induction false} OnlyAdded(ucmp: Comparator<seq<Byte>>, edits: seq<Files>, l: nat, f: Meta)
    requires f in ApplyAll(ucmp, [], edits, l)
    ensures f in History(edits, l)
  {
    if edits != [] {
      var init, last := edits[..|edits| - 1], edits[|edits| - 1];
      var kept := Without(ApplyAll(ucmp, [], init, l), DeletedAt(last.deleted, l));
      InsertedHas(ucmp, kept, AddedAt(last.added, l), f);
      if f in kept {
        WithoutHas(ApplyAll(ucmp, [], init, l), DeletedAt(last.deleted, l), f);
        OnlyAdded(ucmp, init, l, f);
      }
    }
  }

  lemma {:induction false} InsertedHas(ucmp: Comparator<seq<Byte>>, files: seq<Meta>, added: seq<Meta>, f: Meta)
    ensures f in InsertEach(ucmp, files, added) <==> f in files || f in added
  {
    if added != [] {
      InsertedHas(ucmp, files, added[..|added| - 1], f);
      InsertHas(ucmp, added[|added| - 1], InsertEach(ucmp, files, added[..|added| - 1]), f);
      assert added == added[..|added| - 1] + [added[|added| - 1]];
    }
  }

  // ---------------------------------------------------------------------- rebuilding

  /** The versions a manifest goes through: the snapshot's, then one per edit. */
  function VersionAfter(ucmp: Comparator<seq<Byte>>, base: seq<Meta>, edits: seq<Edit>, l: nat): seq<Meta> {
    ApplyAll(ucmp, base, AllFilesOf(edits), l)
  }

  lemma FromSnapshot(ucmp: Comparator<seq<Byte>>, name: seq<Byte>, pointers: seq<(nat, seq<Byte>)>,
                     base: Version<seq<Byte>, ()>, edits: seq<Edit>, l: nat)
    requires TotalOrder(ucmp) && AllPlain(base) && l < |base| && SortedByKey(ucmp, base[l])
    ensures VersionAfter(ucmp, [], [Snapshot(name, pointers, base)] + edits, l) == VersionAfter(ucmp, base[l], edits, l)
  {
    hide ApplyToLevel;
    hide FilesOf;
    hide Snapshot;
    var snapshot := Snapshot(name, pointers, base);
    assert AllFilesOf([snapshot] + edits) == [FilesOf(snapshot)] + AllFilesOf(edits);
    ApplyAppend(ucmp, [], [FilesOf(snapshot)], AllFilesOf(edits), l);
    SnapshotRebuilds(ucmp, name, pointers, base, l);
    ApplyOne(ucmp, FilesOf(snapshot), l);
  }

  lemma ApplyOne(ucmp: Comparator<seq<Byte>>, e: Files, l: nat)
    ensures ApplyAll(ucmp, [], [e], l) == ApplyToLevel(ucmp, [], e, l)
  {
    assert [e][..0] == [];
  }

  /** Recover's builder: one builder for all the edits read. */
  method Rebuild(ucmp: Comparator<seq<Byte>>, edits: seq<Edit>) returns (v: Version<seq<Byte>, ()>)
    requires TotalOrder(ucmp) && NumbersOnce(AllFilesOf(edits))
    ensures |v| == NumLevels && forall l :: 0 <= l < NumLevels ==> v[l] == VersionAfter(ucmp, [], edits, l)
  {
    ghost var all := AllFilesOf(edits);
    var builder := new Builder<seq<Byte>, ()>(ucmp, seq(NumLevels, _ => []));
    var i := 0;
    while i < |edits|
      invariant i <= |edits| && builder.Valid() && builder.ucmp == ucmp && builder.edits == all[..i]
      invariant forall l :: 0 <= l < NumLevels ==> builder.base[l] == []
      invariant forall l, f :: 0 <= l < NumLevels && f in builder.added[l] ==> f in History(all[..i], l)
    {
      NextApplies(all, i, builder.base, builder.added);
      builder.Apply(FilesOf(edits[i]));
      assert all[..i + 1][..i] == all[..i];
      i := i + 1;
    }
    assert all[..|edits|] == all;
    v := builder.SaveTo();
  }

  lemma {:induction false} NumbersOnceUpTo(edits: seq<Files>, i: nat)
    requires NumbersOnce(edits) && i <= |edits|
    ensures NumbersOnce(edits[..i])
    decreases |edits|
  {
    if i < |edits| {
      NumbersOncePrefix(edits);
      NumbersOnceUpTo(edits[..|edits| - 1], i);
      assert edits[..|edits| - 1][..i] == edits[..i];
    } else {
      assert edits[..i] == edits;
    }
  }

  lemma NextApplies(edits: seq<Files>, i: nat, base: Version<seq<Byte>, ()>, added: seq<seq<Meta>>)
    requires NumbersOnce(edits) && i < |edits| && |base| == NumLevels == |added|
    requires forall l :: 0 <= l < NumLevels ==> base[l] == []
    requires forall l, f :: 0 <= l < NumLevels && f in added[l] ==> f in History(edits[..i], l)
    ensures Applicable(base, added, edits[i])
  {
    NumbersOnceUpTo(edits, i + 1);
    assert edits[..i + 1][..i] == edits[..i];
    assert edits[i] in edits;
    forall l | 0 <= l < NumLevels ensures Fresh(base[l], added[l], AddedAt(edits[i].added, l)) {
      LastIsFresh(edits[..i + 1], l, added[l]);
    }
  }

  /** What LogAndApply leaves in a manifest: a snapshot of base, then edits that set all numbers. */
  ghost predicate Manifested(ucmp: Comparator<seq<Byte>>, name: seq<Byte>, base: Version<seq<Byte>, ()>, snapshot: Edit,
                             edits: seq<Edit>)
  {
    && TotalOrder(ucmp) && AllPlain(base) && |base| == NumLevels
    && (forall l :: 0 <= l < NumLevels ==> SortedByKey(ucmp, base[l]))
    && snapshot == Snapshot(name, snapshot.compactPointers, base)
    && Writable([snapshot] + edits, name)
    && forall e :: e in edits ==> SetsNumbers(e)
  }

  function Manifest(snapshot: Edit, edits: seq<Edit>): seq<Byte> { Written(Encodings([snapshot] + edits)) }

  function WholeRecords(snapshot: Edit, edits: seq<Edit>, n: nat): (k: nat)
    ensures k <= 1 + |edits|
  {
    Complete(Encodings([snapshot] + edits), n)
  }

  /** With k whole records, r restores what the store was after its edit k - 2, if there was one. */
  ghost predicate Restores(ucmp: Comparator<seq<Byte>>, r: Recovery, base: Version<seq<Byte>, ()>, snapshot: Edit,
                           edits: seq<Edit>, k: nat)
    requires |base| == NumLevels && k <= 1 + |edits| && forall e :: e in edits ==> SetsNumbers(e)
  {
    if k < 2 then r.Failed?
    else
      && r == RecoveredAt(([snapshot] + edits)[..k], edits[k - 2])
      && forall l :: 0 <= l < NumLevels ==>
          VersionAfter(ucmp, [], r.edits, l) ==
          VersionAfter(ucmp, base[l], edits[..k - 1], l)
  }

  function RecoveredAt(edits: seq<Edit>, last: Edit): Recovery
    requires SetsNumbers(last)
  {
    Recovered(edits, last.logNumber.value, last.prevLogNumber.value, last.nextFileNumber.value,
        last.nextFileNumber.value + 1, last.lastSequence.value)
  }

  /** A manifest written by LogAndApply and cut anywhere: with less than the snapshot and one edit there is
      nothing to recover; otherwise the version and the numbers are those after the last whole edit. */
  lemma CutRecoversVersion(ucmp: Comparator<seq<Byte>>, name: seq<Byte>, base: Version<seq<Byte>, ()>, snapshot: Edit,
                           edits: seq<Edit>, n: nat)
    requires Manifested(ucmp, name, base, snapshot, edits) && n <= |Manifest(snapshot, edits)|
    ensures Restores(ucmp, RecoveryOf(Manifest(snapshot, edits)[..n], name), base, snapshot, edits,
        WholeRecords(snapshot, edits, n))
  {
    hide Written;
    hide Complete;
    hide Encodings;
    hide RecoveryOf;
    hide VersionAfter;
    hide Writable;
    hide Snapshot;
    hide Finish;
    hide NoteAll;
    var all := [snapshot] + edits;
    var k := WholeRecords(snapshot, edits, n);
    CutManifest(all, name, n);
    if k < 2 {
      TooShort(name, base, snapshot, edits, k);
    } else {
      assert all[..k][k - 1] == edits[k - 2] && edits[k - 2] in edits;
      LastNumbersCount(all[..k]);
      assert all[..k] == [snapshot] + edits[..k - 1];
      forall l | 0 <= l < NumLevels
        ensures VersionAfter(ucmp, [], all[..k], l) == VersionAfter(ucmp, base[l], edits[..k - 1], l)
      {
        FromSnapshot(ucmp, name, snapshot.compactPointers, base, edits[..k - 1], l);
      }
    }
  }

  lemma TooShort(name: seq<Byte>, base: Version<seq<Byte>, ()>, snapshot: Edit, edits: seq<Edit>, k: nat)
    requires k < 2 && k <= 1 + |edits| && snapshot == Snapshot(name, snapshot.compactPointers, base)
    ensures Finish(NoteAll(NothingYet, ([snapshot] + edits)[..k])).Failed?
  {
    var cut := ([snapshot] + edits)[..k];
    if k == 1 { assert cut == [snapshot] && cut[1..] == []; }
  }

  // ------------------------------------------------------------------------ the class

  /** The pointers WriteSnapshot saves: those that are set, level by level. */
  function SetPointers(ps: seq<seq<Byte>>): seq<(nat, seq<Byte>)> {
    if ps == [] then []
    else SetPointers(ps[..|ps| - 1]) + if ps[|ps| - 1] == [] then [] else [(|ps| - 1, ps[|ps| - 1])]
  }

  /** An edit's compaction pointers replace the ones of their levels. */
  function WithPointers(ps: seq<seq<Byte>>, news: seq<(nat, seq<Byte>)>): (r: seq<seq<Byte>>)
    ensures |r| == |ps|
    decreases |news|
  {
    if news == [] then ps
    else WithPointers(if news[0].0 < |ps| then ps[news[0].0 := news[0].1] else ps, news[1..])
  }

  /** LogAndApply fills in what the caller left open. */
  function Completed(e: Edit, logNumber: nat, prevLogNumber: nat, nextFileNumber: nat, lastSequence: nat): Edit {
    e.(logNumber := OrElse(e.logNumber, Some(logNumber)), prevLogNumber := OrElse(e.prevLogNumber, Some(prevLogNumber)),
       nextFileNumber := Some(nextFileNumber), lastSequence := Some(lastSequence))
  }

  /** An edit's files may be applied to the current version: the numbers it adds are new. */
  lemma EditApplies(ucmp: Comparator<seq<Byte>>, name: seq<Byte>, base: Version<seq<Byte>, ()>, snapshot: Edit,
                    edits: seq<Edit>, current: Version<seq<Byte>, ()>, e: Edit, none: seq<seq<Meta>>)
    requires Manifested(ucmp, name, base, snapshot, edits) && |current| == NumLevels == |none|
    requires forall l :: 0 <= l < NumLevels ==> current[l] == VersionAfter(ucmp, base[l], edits, l) && none[l] == []
    requires NumbersOnce(AllFilesOf([snapshot] + edits + [e]))
    ensures Applicable(current, none, FilesOf(e))
  {
    hide VersionAfter;
    hide FilesOf;
    hide Snapshot;
    hide Writable;
    var all := AllFilesOf([snapshot] + edits + [e]);
    var n := |all| - 1;
    assert all[..n] == AllFilesOf([snapshot] + edits) && all[n] == FilesOf(e) && all[n] in all;
    forall l | 0 <= l < NumLevels ensures Fresh(current[l], none[l], AddedAt(FilesOf(e).added, l)) {
      forall f | f in current[l] ensures f in History(all[..n], l) {
        CurrentWasAdded(ucmp, name, base, snapshot, edits, l, f);
      }
      LastIsFresh(all, l, current[l]);
    }
  }

  lemma CurrentWasAdded(ucmp: Comparator<seq<Byte>>, name: seq<Byte>, base: Version<seq<Byte>, ()>, snapshot: Edit,
                        edits: seq<Edit>, l: nat, f: Meta)
    requires Manifested(ucmp, name, base, snapshot, edits) && l < NumLevels
        && f in VersionAfter(ucmp, base[l], edits, l)
    ensures f in History(AllFilesOf([snapshot] + edits), l)
  {
    FromSnapshot(ucmp, name, snapshot.compactPointers, base, edits, l);
    OnlyAdded(ucmp, AllFilesOf([snapshot] + edits), l, f);
  }

  lemma OneVersionOn(ucmp: Comparator<seq<Byte>>, base: seq<Meta>, edits: seq<Edit>, e: Edit, l: nat)
    ensures VersionAfter(ucmp, base, edits + [e], l) ==
        ApplyToLevel(ucmp, VersionAfter(ucmp, base, edits, l), FilesOf(e), l)
    ensures forall files :: ApplyAll(ucmp, files, [FilesOf(e)], l) == ApplyToLevel(ucmp, files, FilesOf(e), l)
  {
    hide ApplyToLevel;
    hide FilesOf;
    assert AllFilesOf(edits + [e])[..|edits|] == AllFilesOf(edits);
    assert [FilesOf(e)][..0] == [];
  }

  lemma OneEditOn(ucmp: Comparator<seq<Byte>>, name: seq<Byte>, base: Version<seq<Byte>, ()>, snapshot: Edit,
                  edits: seq<Edit>, e: Edit)
    requires Manifested(ucmp, name, base, snapshot, edits)
    requires Encodable(e) && (e.comparator.Some? ==> e.comparator.value == name) && SetsNumbers(e)
    ensures Manifested(ucmp, name, base, snapshot, edits + [e])
    ensures Encodings([snapshot] + edits) + [Encoded(e)] == Encodings([snapshot] + (edits + [e]))
    ensures [snapshot] + edits + [e] == [snapshot] + (edits + [e])
  {
    hide Encodable;
    hide Encoded;
    hide Snapshot;
    assert [snapshot] + (edits + [e]) == [snapshot] + edits + [e];
    forall x | x in [snapshot] + (edits + [e])
      ensures Encodable(x) && (x.comparator.Some? ==> x.comparator.value == name)
    {
      assert x in [snapshot] + edits || x == e;
    }
  }

  /** The current version is what the edits make of the base. */
  ghost predicate Tracks(ucmp: Comparator<seq<Byte>>, name: seq<Byte>, base: Version<seq<Byte>, ()>, snapshot: Edit,
                         edits: seq<Edit>, current: Version<seq<Byte>, ()>)
  {
    && Manifested(ucmp, name, base, snapshot, edits) && |current| == NumLevels
    && NumbersOnce(AllFilesOf([snapshot] + edits))
    && forall l :: 0 <= l < NumLevels ==>
        SortedByKey(ucmp, current[l])
        && current[l] == VersionAfter(ucmp, base[l], edits, l)
  }

  /** v is current with the edit e applied. */
  ghost predicate AppliedTo(ucmp: Comparator<seq<Byte>>, current: Version<seq<Byte>, ()>, e: Edit,
                            v: Version<seq<Byte>, ()>)
  {
    && |v| == |current| == NumLevels
    && forall l :: 0 <= l < NumLevels ==>
        v[l] == ApplyToLevel(ucmp, current[l], FilesOf(e), l)
        && SortedByKey(ucmp, v[l])
  }

  lemma TracksOneMore(ucmp: Comparator<seq<Byte>>, name: seq<Byte>, base: Version<seq<Byte>, ()>, snapshot: Edit,
                      edits: seq<Edit>, current: Version<seq<Byte>, ()>, e: Edit, v: Version<seq<Byte>, ()>)
    requires Tracks(ucmp, name, base, snapshot, edits, current) && AppliedTo(ucmp, current, e, v)
    requires Encodable(e) && (e.comparator.Some? ==> e.comparator.value == name) && SetsNumbers(e)
    requires NumbersOnce(AllFilesOf([snapshot] + edits + [e]))
    ensures Tracks(ucmp, name, base, snapshot, edits + [e], v)
    ensures Encodings([snapshot] + edits) + [Encoded(e)] == Encodings([snapshot] + (edits + [e]))
  {
    hide Encodable;
    hide Encoded;
    hide ApplyToLevel;
    hide VersionAfter;
    hide NumbersOnce;
    OneEditOn(ucmp, name, base, snapshot, edits, e);
    forall l | 0 <= l < NumLevels ensures v[l] == VersionAfter(ucmp, base[l], edits + [e], l) {
      OneVersionOn(ucmp, base[l], edits, e, l);
    }
  }

  /** Numbers are not what an edit says about files. */
  lemma CompletedFiles(snapshot: Edit, edits: seq<Edit>, e: Edit, logNumber: nat, prevLogNumber: nat,
                       nextFileNumber: nat, lastSequence: nat)
    ensures var e' := Completed(e, logNumber, prevLogNumber, nextFileNumber, lastSequence);
            AllFilesOf([snapshot] + edits + [e']) == AllFilesOf([snapshot] + edits + [e]) && SetsNumbers(e')
  {
    hide FilesOf;
    SameFiles(e, Completed(e, logNumber, prevLogNumber, nextFileNumber, lastSequence));
  }

  lemma SameFiles(e: Edit, e': Edit)
    requires e'.deletedFiles == e.deletedFiles && e'.newFiles == e.newFiles
    ensures FilesOf(e') == FilesOf(e)
  {
  }

  lemma SameSnapshotFiles(was: Edit, s: Edit, edits: seq<Edit>)
    requires FilesOf(s) == FilesOf(was)
    ensures AllFilesOf([s] + edits) == AllFilesOf([was] + edits)
  {
    hide FilesOf;
  }

  class VersionSet {
    const ucmp: Comparator<seq<Byte>>
    const name: seq<Byte>
    var current: Version<seq<Byte>, ()>
    var logNumber: nat
    var prevLogNumber: nat
    var nextFileNumber: nat
    var lastSequence: nat
    var compactPointers: seq<seq<Byte>>    // one a level, empty if there is none
    var descriptorLog: LogWriter.Writer?
    ghost var base: Version<seq<Byte>, ()>
    ghost var snapshot: Edit
    ghost var edits: seq<Edit>

    ghost predicate Valid()
      reads this, descriptorLog
    {
      && |current| == NumLevels == |compactPointers|
      && Tracks(ucmp, name, base, snapshot, edits, current)
      && (descriptorLog != null ==> descriptorLog.Valid() && descriptorLog.records == Encodings([snapshot] + edits))
      && (descriptorLog == null ==> edits == [])
    }

    /** The version set as it stands before its first edit, and before there is a manifest. */
    constructor (ucmp: Comparator<seq<Byte>>, name: seq<Byte>, v: Version<seq<Byte>, ()>, logNumber: nat,
                 prevLogNumber: nat, nextFileNumber: nat, lastSequence: nat)
      requires TotalOrder(ucmp) && AllPlain(v) && |v| == NumLevels && forall l :: 0 <= l < NumLevels ==>
          SortedByKey(ucmp, v[l]) && DistinctNumbers(v[l])
      requires Encodable(Snapshot(name, [], v))
      ensures Valid() && current == v && descriptorLog == null
    {
      this.ucmp, this.name, this.current, this.base := ucmp, name, v, v;
      this.logNumber, this.prevLogNumber, this.nextFileNumber, this.lastSequence := logNumber, prevLogNumber,
          nextFileNumber, lastSequence;
      compactPointers, descriptorLog := seq(NumLevels, _ => []), null;
      snapshot, edits := Snapshot(name, [], v), [];
      new;
      assert [snapshot] + [] == [snapshot];
      FirstOnce(name, v);
      assert AllFilesOf([]) == [];
    }

    /** WriteSnapshot's record. */
    method SnapshotRecord() returns (record: seq<Byte>)
      requires |current| == NumLevels == |compactPointers|
      ensures record == Encoded(Snapshot(name, SetPointers(compactPointers), current))
    {
      hide Encoded;
      var edit := new VersionEdit();
      edit.comparator := Some(name);
      for level := 0 to NumLevels
        invariant fresh(edit) && edit.Value() ==
            EmptyEdit.(comparator := Some(name), compactPointers := SetPointers(compactPointers[..level]))
      {
        assert compactPointers[..level + 1][..level] == compactPointers[..level];
        if compactPointers[level] != [] {
          edit.compactPointers := edit.compactPointers + [(level, compactPointers[level])];
        }
      }
      assert compactPointers[..NumLevels] == compactPointers;
      for level := 0 to NumLevels
        invariant fresh(edit)
        invariant edit.Value() == EmptyEdit.(comparator := Some(name), compactPointers := SetPointers(compactPointers),
            newFiles := FilesBelow(current, level))
      {
        edit.newFiles := edit.newFiles + LevelFiles(level, current[level]);
      }
      record := edit.EncodeTo([]);
      assert [] + Encoded(edit.Value()) == Encoded(edit.Value());
    }

    /** The first edit opens a manifest that starts with a snapshot. */
    method OpenDescriptor()
      requires Valid() && descriptorLog == null && Encodable(Snapshot(name, SetPointers(compactPointers), current))
      modifies this`descriptorLog, this`snapshot, this`base
      ensures Valid() && descriptorLog != null && fresh(descriptorLog)
      ensures edits == old(edits) && FilesOf(snapshot) == FilesOf(old(snapshot))
    {
      hide SetPointers;
      hide FilesOf;
      hide Tracks;
      hide FilesBelow;
      hide Encodable;
      hide Encoded;
      ghost var s := Snapshot(name, SetPointers(compactPointers), current);
      SameBase(ucmp, name, base, current, snapshot, s);
      descriptorLog := new LogWriter.Writer();
      var record := SnapshotRecord();
      descriptorLog.AddRecord(record);
      snapshot, base := s, current;
      assert [] + [record] == Encodings([s] + []);
    }

    method Complete(edit: VersionEdit)
      requires this as object != edit
      modifies edit
      ensures edit.Value() == Completed(old(edit.Value()), logNumber, prevLogNumber, nextFileNumber, lastSequence)
    {
      if edit.logNumber.None? { edit.logNumber := Some(logNumber); }
      if edit.prevLogNumber.None? { edit.prevLogNumber := Some(prevLogNumber); }
      edit.nextFileNumber := Some(nextFileNumber);
      edit.lastSequence := Some(lastSequence);
    }

    /** The version after one more edit. */
    method Applied(e: Edit) returns (v: Version<seq<Byte>, ()>)
      requires Valid() && NumbersOnce(AllFilesOf([snapshot] + edits + [e]))
      ensures |v| == NumLevels && AppliedTo(ucmp, current, e, v)
    {
      hide NumbersOnce;
      hide ApplyToLevel;
      hide FilesOf;
      hide AllFilesOf;
      hide VersionAfter;
      hide Snapshot;
      hide Writable;
      var builder := new Builder<seq<Byte>, ()>(ucmp, current);
      EditApplies(ucmp, name, base, snapshot, edits, current, e, builder.added);
      builder.Apply(FilesOf(e));
      v := builder.SaveTo();
      forall l | 0 <= l < NumLevels ensures v[l] == ApplyToLevel(ucmp, current[l], FilesOf(e), l) {
        OneVersionOn(ucmp, current[l], [], e, l);
      }
    }

    /** The edit's record goes to the manifest, which is opened first if there is none. */
    method AppendEdit(edit: VersionEdit)
      requires Valid()
      requires descriptorLog == null ==> Encodable(Snapshot(name, SetPointers(compactPointers), current))
      modifies this`descriptorLog, this`snapshot, this`base, descriptorLog
      ensures descriptorLog != null && (descriptorLog == old(descriptorLog) || fresh(descriptorLog))
          && descriptorLog.Valid()
      ensures descriptorLog.records == Encodings([snapshot] + edits) + [Encoded(edit.Value())]
      ensures Tracks(ucmp, name, base, snapshot, edits, current) && FilesOf(snapshot) == FilesOf(old(snapshot))
    {
      hide Tracks;
      hide Encodable;
      hide Encoded;
      hide Snapshot;
      if descriptorLog == null { OpenDescriptor(); }
      var record := edit.EncodeTo([]);
      assert [] + Encoded(edit.Value()) == Encoded(edit.Value());
      descriptorLog.AddRecord(record);
    }

    /** The edit is completed, applied, and its record appended to the manifest. */
    method LogAndApply(edit: VersionEdit)
      requires Valid() && this as object != edit
      requires edit.logNumber.Some? ==> logNumber <= edit.logNumber.value < nextFileNumber
      requires edit.comparator.Some? ==> edit.comparator.value == name
      requires Encodable(Completed(edit.Value(), logNumber, prevLogNumber, nextFileNumber, lastSequence))
      requires descriptorLog == null ==> Encodable(Snapshot(name,
          SetPointers(WithPointers(compactPointers, edit.compactPointers)), current))
      requires NumbersOnce(AllFilesOf([snapshot] + edits + [edit.Value()]))
      modifies this, edit, descriptorLog
      ensures Valid() && descriptorLog != null
      ensures edit.Value() == old(Completed(edit.Value(), logNumber, prevLogNumber, nextFileNumber, lastSequence))
      ensures edits == old(edits) + [edit.Value()] && logNumber == edit.logNumber.value
      ensures AppliedTo(ucmp, old(current), edit.Value(), current)
      ensures compactPointers == WithPointers(old(compactPointers), edit.compactPointers)
    {
      hide SetPointers;
      hide WithPointers;
      hide OrElse;
      hide Tracks;
      hide NumbersOnce;
      hide Encodable;
      hide Encoded;
      hide Snapshot;
      hide AppliedTo;
      hide AllFilesOf;
      hide LogWriter.Writer.Valid;
      hide Encodings;
      hide FilesOf;
      CompletedFiles(snapshot, edits, edit.Value(), logNumber, prevLogNumber, nextFileNumber, lastSequence);
      Complete(edit);
      var e := edit.Value();
      var v := Applied(e);
      compactPointers := WithPointers(compactPointers, e.compactPointers);
      AppendEdit(edit);
      SameSnapshotFiles(old(snapshot), snapshot, edits + [e]);
      assert [snapshot] + (edits + [e]) == [snapshot] + edits + [e]
          && old([snapshot]) + (edits + [e]) == old([snapshot]) + edits + [e];
      TracksOneMore(ucmp, name, base, snapshot, edits, current, e, v);
      current, edits := v, edits + [e];
      logNumber, prevLogNumber := edit.logNumber.value, edit.prevLogNumber.value;
      assert descriptorLog.records == Encodings([snapshot] + edits);
    }
  }

  /** With no edits yet, the snapshot may as well be taken of the current version. */
  lemma SameBase(ucmp: Comparator<seq<Byte>>, name: seq<Byte>, base: Version<seq<Byte>, ()>,
                 current: Version<seq<Byte>, ()>, was: Edit, s: Edit)
    requires Tracks(ucmp, name, base, was, [], current)
    requires s == Snapshot(name, s.compactPointers, current) && Encodable(s)
    ensures current == base && Tracks(ucmp, name, current, s, [], current) && FilesOf(s) == FilesOf(was)
  {
    hide Encodable;
    forall l | 0 <= l < NumLevels ensures current[l] == base[l] { assert AllFilesOf([]) == []; }
    assert current == base;
    assert AllFilesOf([s] + []) == AllFilesOf([was] + []);
  }

  lemma FirstOnce(name: seq<Byte>, v: Version<seq<Byte>, ()>)
    requires AllPlain(v) && |v| == NumLevels && forall l :: 0 <= l < NumLevels ==> DistinctNumbers(v[l])
    ensures NumbersOnce(AllFilesOf([Snapshot(name, [], v)]))
  {
    var all := AllFilesOf([Snapshot(name, [], v)]);
    assert all[..0] == [];
    forall l | 0 <= l < NumLevels ensures History(all, l) == v[l] { SnapshotAt(v, |v|, l); }
    SnapshotLevels(v, |v|);
  }

  lemma {:induction false} SnapshotLevels(v: Version<seq<Byte>, ()>, levels: nat)
    requires levels <= |v|
    ensures forall a :: a in FilesBelow(v, levels) ==> a.0 < levels
    ensures forall a :: a in FilesIn(FilesBelow(v, levels)) ==> a.0 < levels
  {
    if levels > 0 { SnapshotLevels(v, levels - 1); }
  }
}
