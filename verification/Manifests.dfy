/** The manifest (db/version_set.cc LogAndApply, WriteSnapshot, Recover): a log whose records are edits.
    Cut anywhere, it leads back to the version as it was after one of its edits. */
module Manifests {
  import opened Coding
  import opened Varints
  import opened Options
  import opened Order
  import opened InternalKeys
  import opened Versions
  import opened Levels
  import opened VersionEdits
  import opened Builders
  import opened LogFormat
  import opened LogRoundTrip
  import LogReader
  // ------------------------------------------------------------------- files as metadata

  /** What a version knows of a table file; the entries stay in the file. */
  type Meta = File<seq<Byte>, ()>

  /** An internal key as bytes: the user key, then sequence number and type packed in eight bytes. */
  function KeyBytes(k: InternalKey<seq<Byte>>): seq<Byte> { k.user + Fixed(InternalKeys.Tag(k), 8) }

  function KeyOf(s: seq<Byte>): InternalKey<seq<Byte>> {
    if |s| < 8 then InternalKey(s, 0, Deletion)  // the source asserts against this
    else
      var tag := FixedValue(s[|s| - 8..]);
      InternalKey(s[..|s| - 8], tag / 256, if tag % 256 == 1 then Value else Deletion)
  }

  lemma KeyRoundTrip(k: InternalKey<seq<Byte>>)
    requires k.sequence <= MaxSequence
    ensures KeyOf(KeyBytes(k)) == k
  {
    assert Pow256(8) == 0x1_0000_0000_0000_0000 by { Eight(); }
    FixedRoundTrip(InternalKeys.Tag(k), 8);
    var s := KeyBytes(k);
    assert s[|s| - 8..] == Fixed(InternalKeys.Tag(k), 8) && s[..|s| - 8] == k.user;
  }

  lemma Eight()
    ensures Pow256(8) == 0x1_0000_0000_0000_0000
  {
    assert Pow256(2) == 0x1_0000;
    assert Pow256(4) == 0x1_0000_0000;
    assert Pow256(6) == 0x1_0000_0000_0000;
  }

  function MetaOf(f: Meta): FileMetaData { FileMetaData(f.number, f.size, KeyBytes(f.smallest), KeyBytes(f.largest)) }

  function FileOf(m: FileMetaData): Meta { File(m.number, m.fileSize, KeyOf(m.smallest), KeyOf(m.largest), []) }

  predicate Plain(f: Meta) {
    f.entries == [] && f.smallest.sequence <= MaxSequence && f.largest.sequence <= MaxSequence
  }

  lemma MetaRoundTrip(f: Meta)
    requires Plain(f)
    ensures FileOf(MetaOf(f)) == f
  {
    KeyRoundTrip(f.smallest);
    KeyRoundTrip(f.largest);
  }

  function FilesIn(ns: seq<(nat, FileMetaData)>): seq<(nat, Meta)> {
    seq(|ns|, i requires 0 <= i < |ns| => (ns[i].0, FileOf(ns[i].1)))
  }

  /** What an edit says about files. */
  function FilesOf(e: Edit): FileEdit<seq<Byte>, ()> { FileEdit(e.deletedFiles, FilesIn(e.newFiles)) }

  function AllFilesOf(edits: seq<Edit>): seq<FileEdit<seq<Byte>, ()>> {
    seq(|edits|, i requires 0 <= i < |edits| => FilesOf(edits[i]))
  }

  // ----------------------------------------------------------------------- the snapshot

  function LevelFiles(level: nat, files: seq<Meta>): seq<(nat, FileMetaData)> {
    seq(|files|, i requires 0 <= i < |files| => (level, MetaOf(files[i])))
  }

  /** The files of the first levels, level by level. */
  function FilesBelow(v: Version<seq<Byte>, ()>, levels: nat): seq<(nat, FileMetaData)>
    requires levels <= |v|
  {
    if levels == 0 then [] else FilesBelow(v, levels - 1) + LevelFiles(levels - 1, v[levels - 1])
  }

  /** The edit WriteSnapshot writes. */
  function Snapshot(name: seq<Byte>, pointers: seq<(nat, seq<Byte>)>, v: Version<seq<Byte>, ()>): Edit {
    Edit(Some(name), None, None, None, None, pointers, [], FilesBelow(v, |v|))
  }

  lemma {:induction false} AddedAppend(a: seq<(nat, Meta)>, b: seq<(nat, Meta)>, l: nat)
    ensures AddedAt(a + b, l) == AddedAt(a, l) + AddedAt(b, l)
  {
    if b == [] {
      assert a + b == a;
    } else {
      assert (a + b)[..|a + b| - 1] == a + b[..|b| - 1];
      AddedAppend(a, b[..|b| - 1], l);
    }
  }

  lemma {:induction false} LevelFilesAt(level: nat, files: seq<Meta>, l: nat)
    requires forall f :: f in files ==> Plain(f)
    ensures AddedAt(FilesIn(LevelFiles(level, files)), l) == if l == level then files else []
  {
    if files != [] {
      var n := |files| - 1;
      var all := FilesIn(LevelFiles(level, files));
      LevelFilesAt(level, files[..n], l);
      assert all[..n] == FilesIn(LevelFiles(level, files[..n]));
      assert files[n] in files;
      MetaRoundTrip(files[n]);
      assert files == files[..n] + [files[n]];
    }
  }

  predicate AllPlain(v: Version<seq<Byte>, ()>) {
    forall l, f :: 0 <= l < |v| && f in v[l] ==> Plain(f)
  }

  lemma FilesInAppend(a: seq<(nat, FileMetaData)>, b: seq<(nat, FileMetaData)>)
    ensures FilesIn(a + b) == FilesIn(a) + FilesIn(b)
  {
  }

  lemma {:induction false} SnapshotAt(v: Version<seq<Byte>, ()>, levels: nat, l: nat)
    requires levels <= |v| && AllPlain(v)
    ensures AddedAt(FilesIn(FilesBelow(v, levels)), l) == if l < levels then v[l] else []
  {
    hide AddedAt;
    hide FilesIn;
    hide LevelFiles;
    if levels == 0 {
      NoneAdded(l);
    } else {
      var a, b := FilesBelow(v, levels - 1), LevelFiles(levels - 1, v[levels - 1]);
      SnapshotAt(v, levels - 1, l);
      LevelFilesAt(levels - 1, v[levels - 1], l);
      AddedAppend(FilesIn(a), FilesIn(b), l);
      FilesInAppend(a, b);
    }
  }

  lemma NoneAdded(l: nat)
    ensures AddedAt(FilesIn([]), l) == []
  {
  }

  /** Inserting a sorted level file by file, from nothing, rebuilds it. */
  lemma {:induction false} InsertSortedEach(ucmp: Comparator<seq<Byte>>, files: seq<Meta>)
    requires TotalOrder(ucmp) && SortedByKey(ucmp, files)
    ensures InsertEach(ucmp, [], files) == files
  {
    if files != [] {
      var n := |files| - 1;
      forall i, j | 0 <= i < j < n ensures BySmallestKey(ucmp, files[..n][i], files[..n][j]) {
        assert BySmallestKey(ucmp, files[i], files[j]);
      }
      InsertSortedEach(ucmp, files[..n]);
      forall i | 0 <= i < n ensures !BySmallestKey(ucmp, files[n], files[..n][i]) {
        assert BySmallestKey(ucmp, files[i], files[n]);
        ByKeyOrder(ucmp, files[i], files[n], files[i]);
      }
      InsertLast(ucmp, files[n], files[..n]);
      assert files == files[..n] + [files[n]];
    }
  }

  lemma {:induction false} InsertLast(ucmp: Comparator<seq<Byte>>, f: Meta, files: seq<Meta>)
    requires forall i :: 0 <= i < |files| ==> !BySmallestKey(ucmp, f, files[i])
    ensures Insert(ucmp, f, files) == files + [f]
  {
    if files != [] {
      InsertLast(ucmp, f, files[1..]);
      assert files + [f] == [files[0]] + (files[1..] + [f]);
    }
  }

  /** The snapshot, applied to no files, is the version it was taken of. */
  lemma SnapshotRebuilds(ucmp: Comparator<seq<Byte>>, name: seq<Byte>, pointers: seq<(nat, seq<Byte>)>,
                         v: Version<seq<Byte>, ()>, l: nat)
    requires TotalOrder(ucmp) && AllPlain(v) && l < |v| && SortedByKey(ucmp, v[l])
    ensures ApplyToLevel(ucmp, [], FilesOf(Snapshot(name, pointers, v)), l) == v[l]
  {
    SnapshotAt(v, |v|, l);
    InsertSortedEach(ucmp, v[l]);
  }

  lemma {:induction false} ApplyAppend(ucmp: Comparator<seq<Byte>>, files: seq<Meta>, a: seq<FileEdit<seq<Byte>, ()>>,
                                       b: seq<FileEdit<seq<Byte>, ()>>, l: nat)
    ensures ApplyAll(ucmp, files, a + b, l) == ApplyAll(ucmp, ApplyAll(ucmp, files, a, l), b, l)
  {
    hide ApplyToLevel;
    if b == [] {
      assert a + b == a;
    } else {
      assert (a + b)[..|a + b| - 1] == a + b[..|b| - 1];
      ApplyAppend(ucmp, files, a, b[..|b| - 1], l);
    }
  }

  // ------------------------------------------------------------------------- replaying

  /** What Recover has gathered: the edits handed to the builder, and the numbers last set. */
  datatype Replayed = Replayed(edits: seq<Edit>, logNumber: Option<nat>, prevLogNumber: Option<nat>,
      nextFileNumber: Option<nat>, lastSequence: Option<nat>)

  const NothingYet: Replayed := Replayed([], None, None, None, None)

  function OrElse<T>(a: Option<T>, b: Option<T>): Option<T> { if a.Some? then a else b }

  function Note(r: Replayed, e: Edit): Replayed {
    Replayed(r.edits + [e], OrElse(e.logNumber, r.logNumber), OrElse(e.prevLogNumber, r.prevLogNumber),
             OrElse(e.nextFileNumber, r.nextFileNumber), OrElse(e.lastSequence, r.lastSequence))
  }

  function NoteAll(r: Replayed, edits: seq<Edit>): Replayed
    decreases |edits|
  {
    if edits == [] then r else NoteAll(Note(r, edits[0]), edits[1..])
  }

  const EmptyEdit: Edit := Edit(None, None, None, None, None, [], [], [])

  /** Each record must decode, and must not name another comparator. */
  function Replay(r: Replayed, records: seq<seq<Byte>>, name: seq<Byte>): Option<Replayed>
    decreases |records|
  {
    if records == [] then Some(r)
    else
      match ParseFields(EmptyEdit, records[0])
      case Corruption(_) => None
      case Ok(e) => if e.comparator.Some? && e.comparator.value != name then None
          else Replay(Note(r, e), records[1..], name)
  }

  datatype Recovery = Failed | Recovered(edits: seq<Edit>, logNumber: nat, prevLogNumber: nat, manifestFileNumber: nat,
      nextFileNumber: nat, lastSequence: nat)

  function Finish(r: Replayed): Recovery {
    if r.nextFileNumber.None? || r.logNumber.None? || r.lastSequence.None? then Failed
    else Recovered(r.edits, r.logNumber.value, if r.prevLogNumber.Some? then r.prevLogNumber.value else 0,
                   r.nextFileNumber.value, r.nextFileNumber.value + 1, r.lastSequence.value)
  }

  /** What a manifest file leads to. */
  function RecoveryOf(contents: seq<Byte>, name: seq<Byte>): Recovery {
    var (records, drops) := ReadAll(contents, 0);
    if drops != [] then Failed
    else
      match Replay(NothingYet, records, name)
      case None => Failed
      case Some(r) => Finish(r)
  }

  /** Recover, up to the builder. */
  method Recover(contents: seq<Byte>, name: seq<Byte>) returns (r: Recovery)
    ensures r == RecoveryOf(contents, name)
  {
    hide ParseFields;
    hide ReadAll;
    var records, drops := LogReader.ReadLog(contents);
    if drops != [] { return Failed; }
    var gathered := NothingYet;
    var i := 0;
    while i < |records|
      invariant i <= |records| && Replay(gathered, records[i..], name) == Replay(NothingYet, records, name)
    {
      assert records[i..][1..] == records[i + 1..];
      var edit := new VersionEdit();
      var message := edit.DecodeFrom(records[i]);
      if message.Some? { return Failed; }
      if edit.comparator.Some? && edit.comparator.value != name { return Failed; }
      gathered := Replayed(gathered.edits + [edit.Value()], OrElse(edit.logNumber, gathered.logNumber),
          OrElse(edit.prevLogNumber, gathered.prevLogNumber),
                           OrElse(edit.nextFileNumber, gathered.nextFileNumber),
                               OrElse(edit.lastSequence, gathered.lastSequence));
      i := i + 1;
    }
    r := Finish(gathered);
  }

  // ---------------------------------------------------------------- what a cut leaves

  function Encodings(edits: seq<Edit>): seq<seq<Byte>> {
    seq(|edits|, i requires 0 <= i < |edits| => Encoded(edits[i]))
  }

  /** Edits one may find in the manifest of a store whose comparator has the given name. */
  predicate Writable(edits: seq<Edit>, name: seq<Byte>) {
    forall e :: e in edits ==> Encodable(e) && (e.comparator.Some? ==> e.comparator.value == name)
  }

  lemma {:induction false} ReplayOfEncodings(r: Replayed, edits: seq<Edit>, name: seq<Byte>)
    requires Writable(edits, name)
    ensures Replay(r, Encodings(edits), name) == Some(NoteAll(r, edits))
    decreases |edits|
  {
    hide Encoded;
    hide ParseFields;
    hide Encodable;
    if edits != [] {
      assert edits[0] in edits;
      EditRoundTrip(EmptyEdit, edits[0]);
      assert EmptyEdit.compactPointers + edits[0].compactPointers == edits[0].compactPointers;
      assert Encodings(edits)[1..] == Encodings(edits[1..]);
      ReplayOfEncodings(Note(r, edits[0]), edits[1..], name);
    }
  }

  /** A manifest cut anywhere leads back to the edits wholly written before the cut, in order. */
  lemma CutManifest(edits: seq<Edit>, name: seq<Byte>, n: nat)
    requires Writable(edits, name) && n <= |Written(Encodings(edits))|
    ensures var k := Complete(Encodings(edits), n);
            k <= |edits| && RecoveryOf(Written(Encodings(edits))[..n], name) == Finish(NoteAll(NothingYet, edits[..k]))
  {
    hide Written;
    hide Complete;
    hide ReadAll;
    hide Encoded;
    hide Encodable;
    TruncatedLog(Encodings(edits), n);
    var k := Complete(Encodings(edits), n);
    assert Encodings(edits)[..k] == Encodings(edits[..k]);
    ReplayOfEncodings(NothingYet, edits[..k], name);
  }

  lemma {:induction false} NotesEdits(r: Replayed, edits: seq<Edit>)
    ensures NoteAll(r, edits).edits == r.edits + edits
    decreases |edits|
  {
    if edits == [] {
      assert r.edits + edits == r.edits;
    } else {
      NotesEdits(Note(r, edits[0]), edits[1..]);
      assert r.edits + edits == (r.edits + [edits[0]]) + edits[1..];
    }
  }

  lemma {:induction false} NotesLast(r: Replayed, edits: seq<Edit>)
    requires edits != []
    ensures NoteAll(r, edits) == Note(NoteAll(r, edits[..|edits| - 1]), edits[|edits| - 1])
    decreases |edits|
  {
    hide Note;
    if |edits| > 1 {
      NotesLast(Note(r, edits[0]), edits[1..]);
      assert edits[1..][..|edits[1..]| - 1] == edits[..|edits| - 1][1..];
    } else {
      assert edits[..0] == [];
    }
  }

  predicate SetsNumbers(e: Edit) {
    e.logNumber.Some? && e.prevLogNumber.Some? && e.nextFileNumber.Some? && e.lastSequence.Some?
  }

  /** When the last edit left sets all numbers, as LogAndApply's edits do, they are what recovery restores. */
  lemma LastNumbersCount(edits: seq<Edit>)
    requires edits != [] && SetsNumbers(edits[|edits| - 1])
    ensures var last := edits[|edits| - 1];
            Finish(NoteAll(NothingYet, edits)) == Recovered(edits, last.logNumber.value, last.prevLogNumber.value,
                                                         last.nextFileNumber.value, last.nextFileNumber.value + 1,
                                                             last.lastSequence.value)
  {
    NotesLast(NothingYet, edits);
    NotesEdits(NothingYet, edits);
    assert [] + edits == edits;
  }

  // ------------------------------------------------------------------ when recovery succeeds

  /** n is the last of the numbers that are set, if any is. */
  ghost predicate LastSet(ns: seq<Option<nat>>, n: Option<nat>) {
    match n
    case None => forall i :: 0 <= i < |ns| ==> ns[i] == None
    case Some(_) => exists i :: 0 <= i < |ns| && ns[i] == n && forall j :: i < j < |ns| ==> ns[j] == None
  }

  lemma LastSetStep(ns: seq<Option<nat>>, n: Option<nat>, next: Option<nat>)
    requires LastSet(ns, n)
    ensures LastSet(ns + [next], OrElse(next, n))
  {
    var all := ns + [next];
    if next.Some? {
      assert all[|ns|] == next;
    } else if n.Some? {
      var i :| 0 <= i < |ns| && ns[i] == n && forall j :: i < j < |ns| ==> ns[j] == None;
      assert all[i] == n;
    }
  }

  function LogNumbers(edits: seq<Edit>): seq<Option<nat>> {
    seq(|edits|, i requires 0 <= i < |edits| => edits[i].logNumber)
  }

  function PrevLogNumbers(edits: seq<Edit>): seq<Option<nat>> {
    seq(|edits|, i requires 0 <= i < |edits| => edits[i].prevLogNumber)
  }

  function NextFileNumbers(edits: seq<Edit>): seq<Option<nat>> {
    seq(|edits|, i requires 0 <= i < |edits| => edits[i].nextFileNumber)
  }

  function LastSequences(edits: seq<Edit>): seq<Option<nat>> {
    seq(|edits|, i requires 0 <= i < |edits| => edits[i].lastSequence)
  }

  lemma {:induction false} NotesLastSet(edits: seq<Edit>)
    ensures var r := NoteAll(NothingYet, edits);
            && LastSet(LogNumbers(edits), r.logNumber) && LastSet(PrevLogNumbers(edits), r.prevLogNumber)
            && LastSet(NextFileNumbers(edits), r.nextFileNumber) && LastSet(LastSequences(edits), r.lastSequence)
  {
    hide LastSet;
    if edits == [] {
      NoneSet();
    } else {
      var n := |edits| - 1;
      var init, e, r := edits[..n], edits[n], NoteAll(NothingYet, edits[..n]);
      NotesLastSet(init);
      NotesLast(NothingYet, edits);
      LastSetStep(LogNumbers(init), r.logNumber, e.logNumber);
      LastSetStep(PrevLogNumbers(init), r.prevLogNumber, e.prevLogNumber);
      LastSetStep(NextFileNumbers(init), r.nextFileNumber, e.nextFileNumber);
      LastSetStep(LastSequences(init), r.lastSequence, e.lastSequence);
      assert LogNumbers(edits) == LogNumbers(init) + [e.logNumber];
      assert PrevLogNumbers(edits) == PrevLogNumbers(init) + [e.prevLogNumber];
      assert NextFileNumbers(edits) == NextFileNumbers(init) + [e.nextFileNumber];
      assert LastSequences(edits) == LastSequences(init) + [e.lastSequence];
    }
  }

  lemma NoneSet()
    ensures LastSet([], None)
  {
  }

  predicate OtherComparator(e: Edit, name: seq<Byte>) { e.comparator.Some? && e.comparator.value != name }

  /** One edit of another comparator, and nothing is recovered. */
  lemma {:induction false} OtherComparatorFails(r: Replayed, edits: seq<Edit>, name: seq<Byte>)
    requires (forall e :: e in edits ==> Encodable(e)) && exists e :: e in edits && OtherComparator(e, name)
    ensures Replay(r, Encodings(edits), name) == None
    decreases |edits|
  {
    hide Encoded;
    hide ParseFields;
    hide Encodable;
    var x :| x in edits && OtherComparator(x, name);
    assert edits[0] in edits && edits == [edits[0]] + edits[1..];
    EditRoundTrip(EmptyEdit, edits[0]);
    assert EmptyEdit.compactPointers + edits[0].compactPointers == edits[0].compactPointers;
    if !OtherComparator(edits[0], name) {
      assert Encodings(edits)[1..] == Encodings(edits[1..]);
      OtherComparatorFails(Note(r, edits[0]), edits[1..], name);
    }
  }

  /** A manifest is recovered if and only if no edit names another comparator, and the log, the next file and the last
      sequence number have each been set by some edit.  The numbers recovered are those set last. */
  lemma RecoversIff(edits: seq<Edit>, name: seq<Byte>)
    requires forall e :: e in edits ==> Encodable(e)
    ensures var r := RecoveryOf(Written(Encodings(edits)), name);
            && (r.Recovered? <==>
                && (forall e :: e in edits ==> !OtherComparator(e, name))
                    && (exists e :: e in edits && e.logNumber.Some?)
                && (exists e :: e in edits && e.nextFileNumber.Some?)
                    && (exists e :: e in edits && e.lastSequence.Some?))
            && (r.Recovered? ==>
                && r.edits == edits && LastSet(LogNumbers(edits), Some(r.logNumber))
                && LastSet(NextFileNumbers(edits), Some(r.manifestFileNumber))
                && r.nextFileNumber == r.manifestFileNumber + 1 && LastSet(LastSequences(edits), Some(r.lastSequence))
                && (LastSet(PrevLogNumbers(edits), Some(r.prevLogNumber))
                    || (r.prevLogNumber == 0 && LastSet(PrevLogNumbers(edits), None))))
  {
    hide Written;
    hide ReadAll;
    hide Encoded;
    hide Encodable;
    WholeLog(Encodings(edits));
    if exists e :: e in edits && OtherComparator(e, name) {
      OtherComparatorFails(NothingYet, edits, name);
    } else {
      ReplayOfEncodings(NothingYet, edits, name);
      NotesEdits(NothingYet, edits);
      assert [] + edits == edits;
      NotesLastSet(edits);
      var r := NoteAll(NothingYet, edits);
      LogNumberIsSet(edits, r.logNumber);
      NextFileIsSet(edits, r.nextFileNumber);
      LastSequenceIsSet(edits, r.lastSequence);
    }
  }

  lemma LogNumberIsSet(edits: seq<Edit>, n: Option<nat>)
    requires LastSet(LogNumbers(edits), n)
    ensures n.Some? <==> exists e :: e in edits && e.logNumber.Some?
  {
    if n.Some? {
      var i :| 0 <= i < |edits| && LogNumbers(edits)[i] == n;
      assert edits[i] in edits;
    } else {
      forall e | e in edits ensures e.logNumber.None? {
        var i :| 0 <= i < |edits| && edits[i] == e;
        assert LogNumbers(edits)[i] == None;
      }
    }
  }

  lemma NextFileIsSet(edits: seq<Edit>, n: Option<nat>)
    requires LastSet(NextFileNumbers(edits), n)
    ensures n.Some? <==> exists e :: e in edits && e.nextFileNumber.Some?
  {
    if n.Some? {
      var i :| 0 <= i < |edits| && NextFileNumbers(edits)[i] == n;
      assert edits[i] in edits;
    } else {
      forall e | e in edits ensures e.nextFileNumber.None? {
        var i :| 0 <= i < |edits| && edits[i] == e;
        assert NextFileNumbers(edits)[i] == None;
      }
    }
  }

  lemma LastSequenceIsSet(edits: seq<Edit>, n: Option<nat>)
    requires LastSet(LastSequences(edits), n)
    ensures n.Some? <==> exists e :: e in edits && e.lastSequence.Some?
  {
    if n.Some? {
      var i :| 0 <= i < |edits| && LastSequences(edits)[i] == n;
      assert edits[i] in edits;
    } else {
      forall e | e in edits ensures e.lastSequence.None? {
        var i :| 0 <= i < |edits| && edits[i] == e;
        assert LastSequences(edits)[i] == None;
      }
    }
  }
}
