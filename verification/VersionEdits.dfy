/** VersionEdit as bytes (db/version_edit.cc): the fields in order, each a tag and a payload. */
module VersionEdits {
  import opened Coding
  import opened Varints
  import opened Options
  import opened Versions

  datatype FileMetaData = FileMetaData(number: nat, fileSize: nat, smallest: seq<Byte>, largest: seq<Byte>)

  /** What one edit says.  The deleted files are in ascending order, as std::set keeps them. */
  datatype Edit = Edit(comparator: Option<seq<Byte>>, logNumber: Option<nat>, prevLogNumber: Option<nat>,
                       nextFileNumber: Option<nat>, lastSequence: Option<nat>, compactPointers: seq<(nat, seq<Byte>)>,
                       deletedFiles: seq<(nat, nat)>, newFiles: seq<(nat, FileMetaData)>)

  /** Clear empties everything but the compaction pointers. */
  function Cleared(e: Edit): Edit {
    Edit(None, None, None, None, None, e.compactPointers, [], [])
  }

  // ------------------------------------------------------------------------ fields

  datatype Field =
    | Comparator(name: seq<Byte>)
    | LogNumber(n: nat)
    | PrevLogNumber(n: nat)
    | NextFileNumber(n: nat)
    | LastSequence(n: nat)
    | CompactPointer(level: nat, key: seq<Byte>)
    | DeletedFile(level: nat, number: nat)
    | NewFile(level: nat, meta: FileMetaData)

  function Tag(f: Field): nat {
    match f
    case Comparator(_) => 1
    case LogNumber(_) => 2
    case NextFileNumber(_) => 3
    case LastSequence(_) => 4
    case CompactPointer(_, _) => 5
    case DeletedFile(_, _) => 6
    case NewFile(_, _) => 7
    case PrevLogNumber(_) => 9
  }

  function Payload(f: Field): seq<Byte> {
    match f
    case Comparator(name) => Prefixed(name)
    case LogNumber(n) => Varint(n)
    case PrevLogNumber(n) => Varint(n)
    case NextFileNumber(n) => Varint(n)
    case LastSequence(n) => Varint(n)
    case CompactPointer(level, key) => Varint(level) + Prefixed(key)
    case DeletedFile(level, number) => Varint(level) + Varint(number)
    case NewFile(level, meta) =>
        Varint(level) + Varint(meta.number) + Varint(meta.fileSize) + Prefixed(meta.smallest)
        + Prefixed(meta.largest)
  }

  function FieldBytes(f: Field): seq<Byte> { Varint(Tag(f)) + Payload(f) }

  function FieldsBytes(fs: seq<Field>): seq<Byte> {
    if fs == [] then [] else FieldBytes(fs[0]) + FieldsBytes(fs[1..])
  }

  /** The widths the source's types give the parts of a field. */
  predicate Storable(f: Field) {
    match f
    case Comparator(name) => |name| < Max32
    case LogNumber(n) => n < Max64
    case PrevLogNumber(n) => n < Max64
    case NextFileNumber(n) => n < Max64
    case LastSequence(n) => n < Max64
    case CompactPointer(level, key) => level < NumLevels && |key| < Max32
    case DeletedFile(level, number) => level < NumLevels && number < Max64
    case NewFile(level, meta) =>
      level < NumLevels && meta.number < Max64 && meta.fileSize < Max64 && |meta.smallest| < Max32
          && |meta.largest| < Max32
  }

  // ------------------------------------------------------------------------ parsing

  /** GetLevel. */
  function Level(input: seq<Byte>): (r: Option<(nat, seq<Byte>)>)
    ensures r.Some? ==> |r.value.1| < |input|
  {
    match Varint32(input)
    case None => None
    case Some((v, rest)) => if v < NumLevels then Some((v, rest)) else None
  }

  datatype Parsed = Item(field: Field, rest: seq<Byte>) | Bad(message: string)

  function ParseCompactPointer(input: seq<Byte>): (r: Option<(Field, seq<Byte>)>)
    ensures r.Some? ==> |r.value.1| < |input|
  {
    match Level(input)
    case None => None
    case Some((level, rest)) =>
      match ParsePrefixed(rest)
      case None => None
      case Some((key, rest)) => Some((CompactPointer(level, key), rest))
  }

  function ParseDeletedFile(input: seq<Byte>): (r: Option<(Field, seq<Byte>)>)
    ensures r.Some? ==> |r.value.1| < |input|
  {
    match Level(input)
    case None => None
    case Some((level, rest)) =>
      match Varint64(rest)
      case None => None
      case Some((number, rest)) => Some((DeletedFile(level, number), rest))
  }

  function ParseBounds(level: nat, number: nat, size: nat, input: seq<Byte>): (r: Option<(Field, seq<Byte>)>)
    ensures r.Some? ==> |r.value.1| < |input|
  {
    match ParsePrefixed(input)
    case None => None
    case Some((smallest, rest)) =>
      match ParsePrefixed(rest)
      case None => None
      case Some((largest, rest)) => Some((NewFile(level, FileMetaData(number, size, smallest, largest)), rest))
  }

  function ParseNewFile(input: seq<Byte>): (r: Option<(Field, seq<Byte>)>)
    ensures r.Some? ==> |r.value.1| < |input|
  {
    match Level(input)
    case None => None
    case Some((level, rest)) =>
      match Varint64(rest)
      case None => None
      case Some((number, rest)) =>
        match Varint64(rest)
        case None => None
        case Some((size, rest)) => ParseBounds(level, number, size, rest)
  }

  function OrBad(r: Option<(Field, seq<Byte>)>, message: string): Parsed {
    match r
    case None => Bad(message)
    case Some((f, rest)) => Item(f, rest)
  }

  function NumberField(input: seq<Byte>, tag: nat): (r: Option<(Field, seq<Byte>)>)
    ensures r.Some? ==> |r.value.1| < |input|
  {
    match Varint64(input)
    case None => None
    case Some((n, rest)) =>
      Some((if tag == 2 then LogNumber(n) else if tag == 9 then PrevLogNumber(n) else if tag == 3 then NextFileNumber(n)
          else LastSequence(n), rest))
  }

  function ComparatorField(input: seq<Byte>): (r: Option<(Field, seq<Byte>)>)
    ensures r.Some? ==> |r.value.1| < |input|
  {
    match ParsePrefixed(input)
    case None => None
    case Some((name, rest)) => Some((Comparator(name), rest))
  }

  /** One field after its tag. */
  function ParseField(tag: nat, input: seq<Byte>): (r: Parsed)
    ensures r.Item? ==> |r.rest| < |input|
  {
    if tag == 1 then OrBad(ComparatorField(input), "comparator name")
    else if tag == 2 then OrBad(NumberField(input, 2), "log number")
    else if tag == 9 then OrBad(NumberField(input, 9), "previous log number")
    else if tag == 3 then OrBad(NumberField(input, 3), "next file number")
    else if tag == 4 then OrBad(NumberField(input, 4), "last sequence number")
    else if tag == 5 then OrBad(ParseCompactPointer(input), "compaction pointer")
    else if tag == 6 then OrBad(ParseDeletedFile(input), "deleted file")
    else if tag == 7 then OrBad(ParseNewFile(input), "new-file entry")
    else Bad("unknown tag")
  }

  // ---------------------------------------------------------------- from fields to edits

  predicate Before(a: (nat, nat), b: (nat, nat)) { a.0 < b.0 || (a.0 == b.0 && a.1 < b.1) }

  /** Insertion into an ordered set of pairs. */
  function InsertPair(s: seq<(nat, nat)>, p: (nat, nat)): seq<(nat, nat)> {
    if s == [] || Before(s[|s| - 1], p) then s + [p]
    else if s[|s| - 1] == p then s
    else InsertPair(s[..|s| - 1], p) + [s[|s| - 1]]
  }

  function Enter(e: Edit, f: Field): Edit {
    match f
    case Comparator(name) => e.(comparator := Some(name))
    case LogNumber(n) => e.(logNumber := Some(n))
    case PrevLogNumber(n) => e.(prevLogNumber := Some(n))
    case NextFileNumber(n) => e.(nextFileNumber := Some(n))
    case LastSequence(n) => e.(lastSequence := Some(n))
    case CompactPointer(level, key) => e.(compactPointers := e.compactPointers + [(level, key)])
    case DeletedFile(level, number) => e.(deletedFiles := InsertPair(e.deletedFiles, (level, number)))
    case NewFile(level, meta) => e.(newFiles := e.newFiles + [(level, meta)])
  }

  function EnterAll(e: Edit, fs: seq<Field>): Edit
    decreases |fs|
  {
    if fs == [] then e else EnterAll(Enter(e, fs[0]), fs[1..])
  }

  datatype Decoded = Ok(edit: Edit) | Corruption(message: string)

  /** DecodeFrom's loop: read fields until the input runs out. */
  function ParseFields(e: Edit, input: seq<Byte>): Decoded
    decreases |input|
  {
    match Varint32(input)
    case None => if input == [] then Ok(e) else Corruption("invalid tag")
    case Some((tag, rest)) =>
      match ParseField(tag, rest)
      case Bad(message) => Corruption(message)
      case Item(f, rest') => ParseFields(Enter(e, f), rest')
  }

  // ------------------------------------------------------------------------ round trips

  lemma PayloadRoundTrip(f: Field, rest: seq<Byte>)
    requires Storable(f)
    ensures ParseField(Tag(f), Payload(f) + rest) == Item(f, rest)
  {
    hide Varint;
    hide Prefixed;
    hide Varint32;
    hide Varint64;
    hide ParsePrefixed;
    match f
    case Comparator(name) => PrefixedRoundTrip(name, rest);
    case LogNumber(n) => Varint64Back(n, rest);
    case PrevLogNumber(n) => Varint64Back(n, rest);
    case NextFileNumber(n) => Varint64Back(n, rest);
    case LastSequence(n) => Varint64Back(n, rest);
    case CompactPointer(level, key) =>
      Varint32Back(level, Prefixed(key) + rest);
      PrefixedRoundTrip(key, rest);
      assert Payload(f) + rest == Varint(level) + (Prefixed(key) + rest);
    case DeletedFile(level, number) =>
      Varint32Back(level, Varint(number) + rest);
      Varint64Back(number, rest);
      assert Payload(f) + rest == Varint(level) + (Varint(number) + rest);
    case NewFile(level, meta) => NewFileRoundTrip(level, meta, rest);
  }

  lemma NewFileRoundTrip(level: nat, meta: FileMetaData, rest: seq<Byte>)
    requires Storable(NewFile(level, meta))
    ensures ParseNewFile(Payload(NewFile(level, meta)) + rest) == Some((NewFile(level, meta), rest))
  {
    hide Varint;
    hide Prefixed;
    hide Varint32;
    hide Varint64;
    hide ParsePrefixed;
    var bounds := Prefixed(meta.smallest) + (Prefixed(meta.largest) + rest);
    Varint32Back(level, Varint(meta.number) + (Varint(meta.fileSize) + bounds));
    Varint64Back(meta.number, Varint(meta.fileSize) + bounds);
    Varint64Back(meta.fileSize, bounds);
    PrefixedRoundTrip(meta.smallest, Prefixed(meta.largest) + rest);
    PrefixedRoundTrip(meta.largest, rest);
    assert Payload(NewFile(level, meta)) + rest ==
        Varint(level) + (Varint(meta.number) + (Varint(meta.fileSize) + bounds));
  }

  /** Reading a list of fields enters them one by one. */
  lemma {:induction false} FieldsRoundTrip(e: Edit, fs: seq<Field>)
    requires forall f :: f in fs ==> Storable(f)
    ensures ParseFields(e, FieldsBytes(fs)) == Ok(EnterAll(e, fs))
    decreases |fs|
  {
    hide Storable;
    hide Payload;
    hide ParseField;
    hide Enter;
    hide Varint;
    if fs == [] {
      NoInput(e);
    } else {
      var rest := FieldsBytes(fs[1..]);
      assert fs[0] in fs;
      Varint32Back(Tag(fs[0]), Payload(fs[0]) + rest);
      PayloadRoundTrip(fs[0], rest);
      assert FieldsBytes(fs) == Varint(Tag(fs[0])) + (Payload(fs[0]) + rest);
      FieldsRoundTrip(Enter(e, fs[0]), fs[1..]);
    }
  }

  lemma NoInput(e: Edit)
    ensures ParseFields(e, []) == Ok(e)
  {
  }

  // ------------------------------------------------------------------- an edit's fields

  function NumberFields(e: Edit): seq<Field> {
    (if e.comparator.Some? then [Comparator(e.comparator.value)] else [])
    + (if e.logNumber.Some? then [LogNumber(e.logNumber.value)] else [])
    + (if e.prevLogNumber.Some? then [PrevLogNumber(e.prevLogNumber.value)] else [])
    + (if e.nextFileNumber.Some? then [NextFileNumber(e.nextFileNumber.value)] else [])
    + (if e.lastSequence.Some? then [LastSequence(e.lastSequence.value)] else [])
  }

  function PointerFields(ps: seq<(nat, seq<Byte>)>): seq<Field> {
    seq(|ps|, i requires 0 <= i < |ps| => CompactPointer(ps[i].0, ps[i].1))
  }

  function DeletedFields(ds: seq<(nat, nat)>): seq<Field> {
    seq(|ds|, i requires 0 <= i < |ds| => DeletedFile(ds[i].0, ds[i].1))
  }

  function NewFields(ns: seq<(nat, FileMetaData)>): seq<Field> {
    seq(|ns|, i requires 0 <= i < |ns| => NewFile(ns[i].0, ns[i].1))
  }

  function Fields(e: Edit): seq<Field> {
    NumberFields(e) + (PointerFields(e.compactPointers) + (DeletedFields(e.deletedFiles) + NewFields(e.newFiles)))
  }

  predicate Ascending(ds: seq<(nat, nat)>) {
    forall i, j :: 0 <= i < j < |ds| ==> Before(ds[i], ds[j])
  }

  predicate Encodable(e: Edit) {
    Ascending(e.deletedFiles) && forall f :: f in Fields(e) ==> Storable(f)
  }

  function Encoded(e: Edit): seq<Byte> { FieldsBytes(Fields(e)) }

  lemma {:induction false} EnterAppend(e: Edit, a: seq<Field>, b: seq<Field>)
    ensures EnterAll(e, a + b) == EnterAll(EnterAll(e, a), b)
    decreases |a|
  {
    hide Enter;
    if a == [] {
      assert a + b == b;
    } else {
      assert (a + b)[1..] == a[1..] + b;
      EnterAppend(Enter(e, a[0]), a[1..], b);
    }
  }

  lemma {:induction false} EnterPointers(e: Edit, ps: seq<(nat, seq<Byte>)>)
    ensures EnterAll(e, PointerFields(ps)) == e.(compactPointers := e.compactPointers + ps)
    decreases |ps|
  {
    if ps == [] {
      assert e.compactPointers + ps == e.compactPointers;
    } else {
      assert PointerFields(ps)[1..] == PointerFields(ps[1..]);
      EnterPointers(Enter(e, PointerFields(ps)[0]), ps[1..]);
      assert e.compactPointers + ps == e.compactPointers + [ps[0]] + ps[1..];
    }
  }

  lemma {:induction false} EnterDeleted(e: Edit, ds: seq<(nat, nat)>)
    requires Ascending(e.deletedFiles + ds)
    ensures EnterAll(e, DeletedFields(ds)) == e.(deletedFiles := e.deletedFiles + ds)
    decreases |ds|
  {
    var was := e.deletedFiles;
    if ds == [] {
      assert was + ds == was;
    } else {
      if was != [] { assert (was + ds)[|was| - 1] == was[|was| - 1] && (was + ds)[|was|] == ds[0]; }
      assert DeletedFields(ds)[1..] == DeletedFields(ds[1..]);
      assert was + ds == (was + [ds[0]]) + ds[1..];
      EnterDeleted(e.(deletedFiles := was + [ds[0]]), ds[1..]);
    }
  }

  lemma {:induction false} EnterNew(e: Edit, ns: seq<(nat, FileMetaData)>)
    ensures EnterAll(e, NewFields(ns)) == e.(newFiles := e.newFiles + ns)
    decreases |ns|
  {
    if ns == [] {
      assert e.newFiles + ns == e.newFiles;
    } else {
      assert NewFields(ns)[1..] == NewFields(ns[1..]);
      EnterNew(Enter(e, NewFields(ns)[0]), ns[1..]);
      assert e.newFiles + ns == e.newFiles + [ns[0]] + ns[1..];
    }
  }

  function NumbersOf(e: Edit, base: Edit): Edit {
    base.(comparator := e.comparator, logNumber := e.logNumber, prevLogNumber := e.prevLogNumber,
          nextFileNumber := e.nextFileNumber, lastSequence := e.lastSequence)
  }

  lemma EnterOne(e: Edit, f: Field)
    ensures EnterAll(e, [f]) == Enter(e, f)
  {
    assert [f][1..] == [];
  }

  lemma EnterNumbers(was: Edit, e: Edit)
    ensures EnterAll(Cleared(was), NumberFields(e)) == NumbersOf(e, Cleared(was))
  {
    hide EnterAll;
    var a := if e.comparator.Some? then [Comparator(e.comparator.value)] else [];
    var b := if e.logNumber.Some? then [LogNumber(e.logNumber.value)] else [];
    var c := if e.prevLogNumber.Some? then [PrevLogNumber(e.prevLogNumber.value)] else [];
    var d := if e.nextFileNumber.Some? then [NextFileNumber(e.nextFileNumber.value)] else [];
    var l := if e.lastSequence.Some? then [LastSequence(e.lastSequence.value)] else [];
    var s0 := Cleared(was);
    EnterAppend(s0, a + b + c + d, l);
    EnterAppend(s0, a + b + c, d);
    EnterAppend(s0, a + b, c);
    EnterAppend(s0, a, b);
    var s1 := s0.(comparator := e.comparator);
    AtMostOne(s0, a, s1);
    var s2 := s1.(logNumber := e.logNumber);
    AtMostOne(s1, b, s2);
    var s3 := s2.(prevLogNumber := e.prevLogNumber);
    AtMostOne(s2, c, s3);
    var s4 := s3.(nextFileNumber := e.nextFileNumber);
    AtMostOne(s3, d, s4);
    AtMostOne(s4, l, s4.(lastSequence := e.lastSequence));
  }

  lemma AtMostOne(e: Edit, fs: seq<Field>, e': Edit)
    requires (fs == [] && e' == e) || (|fs| == 1 && e' == Enter(e, fs[0]))
    ensures EnterAll(e, fs) == e'
  {
    if |fs| == 1 { EnterOne(e, fs[0]); assert fs == [fs[0]]; }
  }

  /** Decoding an encoded edit gives it back, behind whatever compaction pointers Clear left. */
  lemma EditRoundTrip(was: Edit, e: Edit)
    requires Encodable(e)
    ensures ParseFields(Cleared(was), Encoded(e)) == Ok(e.(compactPointers := was.compactPointers + e.compactPointers))
  {
    hide ParseFields;
    hide FieldsBytes;
    hide Enter;
    var n, p, d, a := NumberFields(e), PointerFields(e.compactPointers), DeletedFields(e.deletedFiles),
        NewFields(e.newFiles);
    FieldsRoundTrip(Cleared(was), Fields(e));
    EnterAppend(Cleared(was), n, p + (d + a));
    EnterNumbers(was, e);
    var s1 := NumbersOf(e, Cleared(was));
    EnterAppend(s1, p, d + a);
    EnterPointers(s1, e.compactPointers);
    var s2 := s1.(compactPointers := s1.compactPointers + e.compactPointers);
    EnterAppend(s2, d, a);
    assert [] + e.deletedFiles == e.deletedFiles;
    EnterDeleted(s2, e.deletedFiles);
    EnterNew(s2.(deletedFiles := s2.deletedFiles + e.deletedFiles), e.newFiles);
    assert [] + e.newFiles == e.newFiles;
  }

  /** So an edit decoded into a used object comes back exactly when that object had no pointers. */
  lemma ReusedObjectIff(was: Edit, e: Edit)
    requires Encodable(e)
    ensures ParseFields(Cleared(was), Encoded(e)) == Ok(e) <==> was.compactPointers == []
  {
    EditRoundTrip(was, e);
    if was.compactPointers == [] {
      assert [] + e.compactPointers == e.compactPointers;
    } else {
      assert |was.compactPointers + e.compactPointers| > |e.compactPointers|;
    }
  }

  /** A used object with a pointer for level 0, and an edit of a log number only. */
  lemma PointerSurvives()
    ensures var was := Edit(None, None, None, None, None, [(0, [1])], [], []);
            var e := Edit(None, Some(5), None, None, None, [], [], []);
            && Encodable(e) && Encoded(e) == [2, 5]
            && ParseFields(Cleared(was), [2, 5]) == Ok(e.(compactPointers := [(0, [1])])) != Ok(e)
  {
    var was := Edit(None, None, None, None, None, [(0, [1])], [], []);
    var e := Edit(None, Some(5), None, None, None, [], [], []);
    var fs := [LogNumber(5)];
    assert Fields(e) == fs;
    assert FieldsBytes(fs[1..]) == [];
    assert FieldBytes(fs[0]) == [2, 5];
    assert FieldsBytes(fs) == [2, 5] + [];
    EditRoundTrip(was, e);
    assert was.compactPointers + e.compactPointers == [(0, [1])];
  }

  // ------------------------------------------------------------------------ the class

  lemma {:induction false} InsertPairHas(s: seq<(nat, nat)>, p: (nat, nat))
    requires Ascending(s)
    ensures Ascending(InsertPair(s, p))
    ensures forall q :: q in InsertPair(s, p) <==> q in s || q == p
  {
    if s != [] && !Before(s[|s| - 1], p) && s[|s| - 1] != p {
      var init, last := s[..|s| - 1], s[|s| - 1];
      InsertPairHas(init, p);
      assert s == init + [last];
      forall q | q in init ensures Before(q, last) { }
    }
  }

  class VersionEdit {
    var comparator: Option<seq<Byte>>
    var logNumber: Option<nat>
    var prevLogNumber: Option<nat>
    var nextFileNumber: Option<nat>
    var lastSequence: Option<nat>
    var compactPointers: seq<(nat, seq<Byte>)>
    var deletedFiles: seq<(nat, nat)>
    var newFiles: seq<(nat, FileMetaData)>

    function Value(): Edit
      reads this
    {
      Edit(comparator, logNumber, prevLogNumber, nextFileNumber, lastSequence, compactPointers, deletedFiles, newFiles)
    }

    constructor ()
      ensures Value() == Edit(None, None, None, None, None, [], [], [])
    {
      comparator, logNumber, prevLogNumber, nextFileNumber, lastSequence := None, None, None, None, None;
      compactPointers, deletedFiles, newFiles := [], [], [];
    }

    method Clear()
      modifies this
      ensures Value() == Cleared(old(Value()))
    {
      comparator, logNumber, prevLogNumber, nextFileNumber, lastSequence := None, None, None, None, None;
      deletedFiles, newFiles := [], [];
    }

    method EncodeTo(dst: seq<Byte>) returns (dst': seq<Byte>)
      ensures dst' == dst + Encoded(Value())
    {
      hide NumberFields;
      hide FieldsBytes;
      hide FieldBytes;
      ghost var e := Value();
      ghost var n, p, d, a := NumberFields(e), PointerFields(compactPointers), DeletedFields(deletedFiles),
          NewFields(newFiles);
      var bytes := EncodeNumbers();
      assert n + p[..0] == n;
      for i := 0 to |compactPointers|
        invariant bytes == FieldsBytes(n + p[..i])
      {
        BytesStep(n, p, i);
        bytes := bytes + FieldBytes(CompactPointer(compactPointers[i].0, compactPointers[i].1));
      }
      assert n + p[..|p|] == n + p + d[..0];
      for i := 0 to |deletedFiles|
        invariant bytes == FieldsBytes(n + p + d[..i])
      {
        BytesStep(n + p, d, i);
        bytes := bytes + FieldBytes(DeletedFile(deletedFiles[i].0, deletedFiles[i].1));
      }
      assert n + p + d[..|d|] == n + p + d + a[..0];
      for i := 0 to |newFiles|
        invariant bytes == FieldsBytes(n + p + d + a[..i])
      {
        BytesStep(n + p + d, a, i);
        bytes := bytes + FieldBytes(NewFile(newFiles[i].0, newFiles[i].1));
      }
      assert n + p + d + a[..|newFiles|] == Fields(e);
      dst' := dst + bytes;
    }

    method EncodeNumbers() returns (bytes: seq<Byte>)
      ensures bytes == FieldsBytes(NumberFields(Value()))
    {
      hide FieldBytes;
      hide FieldsBytes;
      ghost var a: seq<Field> := if comparator.Some? then [Comparator(comparator.value)] else [];
      ghost var b: seq<Field> := if logNumber.Some? then [LogNumber(logNumber.value)] else [];
      ghost var c: seq<Field> := if prevLogNumber.Some? then [PrevLogNumber(prevLogNumber.value)] else [];
      ghost var d: seq<Field> := if nextFileNumber.Some? then [NextFileNumber(nextFileNumber.value)] else [];
      ghost var l: seq<Field> := if lastSequence.Some? then [LastSequence(lastSequence.value)] else [];
      bytes := [];
      MaybeField([], a);
      if comparator.Some? { bytes := bytes + FieldBytes(Comparator(comparator.value)); }
      assert bytes == FieldsBytes(a);
      MaybeField(a, b);
      if logNumber.Some? { bytes := bytes + FieldBytes(LogNumber(logNumber.value)); }
      assert bytes == FieldsBytes(a + b);
      MaybeField(a + b, c);
      if prevLogNumber.Some? { bytes := bytes + FieldBytes(PrevLogNumber(prevLogNumber.value)); }
      assert bytes == FieldsBytes(a + b + c);
      MaybeField(a + b + c, d);
      if nextFileNumber.Some? { bytes := bytes + FieldBytes(NextFileNumber(nextFileNumber.value)); }
      assert bytes == FieldsBytes(a + b + c + d);
      MaybeField(a + b + c + d, l);
      if lastSequence.Some? { bytes := bytes + FieldBytes(LastSequence(lastSequence.value)); }
      assert bytes == FieldsBytes(a + b + c + d + l);
      assert a + b + c + d + l == NumberFields(Value());
    }

    /** DecodeFrom: on success the object holds what the bytes say. */
    method DecodeFrom(src: seq<Byte>) returns (message: Option<string>)
      modifies this
      ensures match ParseFields(Cleared(old(Value())), src)
              case Ok(e) => message == None && Value() == e
              case Corruption(m) => message == Some(m)
    {
      Clear();
      var input := src;
      while true
        invariant ParseFields(Value(), input) == ParseFields(Cleared(old(Value())), src)
        decreases |input|
      {
        match Varint32(input) {
          case None => break;
          case Some((tag, rest)) =>
            match ParseField(tag, rest) {
              case Bad(m) => return Some(m);
              case Item(f, rest') =>
                EnterField(f);
                input := rest';
            }
        }
      }
      message := if input != [] then Some("invalid tag") else None;
    }

    method EnterField(f: Field)
      modifies this
      ensures Value() == Enter(old(Value()), f)
    {
      match f
      case Comparator(name) => comparator := Some(name);
      case LogNumber(n) => logNumber := Some(n);
      case PrevLogNumber(n) => prevLogNumber := Some(n);
      case NextFileNumber(n) => nextFileNumber := Some(n);
      case LastSequence(n) => lastSequence := Some(n);
      case CompactPointer(level, key) => compactPointers := compactPointers + [(level, key)];
      case DeletedFile(level, number) => deletedFiles := InsertPair(deletedFiles, (level, number));
      case NewFile(level, meta) => newFiles := newFiles + [(level, meta)];
    }
  }

  lemma {:induction false} BytesAppend(a: seq<Field>, b: seq<Field>)
    ensures FieldsBytes(a + b) == FieldsBytes(a) + FieldsBytes(b)
  {
    hide FieldBytes;
    if a == [] {
      assert a + b == b;
    } else {
      assert (a + b)[1..] == a[1..] + b;
      BytesAppend(a[1..], b);
    }
  }

  lemma OneMoreField(fs: seq<Field>, f: Field)
    ensures FieldsBytes(fs + [f]) == FieldsBytes(fs) + FieldBytes(f)
  {
    hide FieldBytes;
    BytesAppend(fs, [f]);
    assert [f][1..] == [];
  }

  lemma MaybeField(fs: seq<Field>, more: seq<Field>)
    requires |more| <= 1
    ensures FieldsBytes([]) == []
    ensures FieldsBytes(fs + more) == FieldsBytes(fs) + (if more == [] then [] else FieldBytes(more[0]))
    ensures [] + more == more
  {
    hide FieldBytes;
    if more == [] {
      assert fs + more == fs;
    } else {
      OneMoreField(fs, more[0]);
      assert more == [more[0]];
    }
  }

  lemma BytesStep(done: seq<Field>, fs: seq<Field>, i: nat)
    requires i < |fs|
    ensures FieldsBytes(done + fs[..i + 1]) == FieldsBytes(done + fs[..i]) + FieldBytes(fs[i])
    ensures i + 1 == |fs| ==> done + fs[..i + 1] == done + fs
  {
    hide FieldBytes;
    OneMoreField(done + fs[..i], fs[i]);
    assert done + fs[..i + 1] == done + fs[..i] + [fs[i]];
  }
}
