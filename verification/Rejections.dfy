/** What the parsers turn down (util/coding.cc, db/write_batch.cc, db/version_edit.cc, table/format.cc): input cut
    short,
    unknown tags, damaged blocks. */
module Rejections {
  import opened Coding
  import opened Varints
  import opened Options
  import W = WriteBatches
  import V = VersionEdits
  import T = TableBuilders
  import Crc32c
  import Corruption
  import Separators

  type Bytes = seq<Byte>

  // --------------------------------------------------------- more input changes no answer

  lemma {:induction false} VarintExtends(input: Bytes, more: Bytes, most: nat)
    requires ParseVarint(input, most).Some?
    ensures ParseVarint(input + more, most) == ParseVarint(input, most)
  {
    if input[0] >= 128 {
      VarintExtends(input[1..], more, most - 1);
      assert (input + more)[1..] == input[1..] + more;
    }
  }

  lemma SliceExtends(input: Bytes, more: Bytes, k: nat)
    requires k <= |input|
    ensures (input + more)[..k] == input[..k] && (input + more)[k..] == input[k..] + more
  {
  }

  lemma Varint32Extends(input: Bytes, more: Bytes)
    ensures Varint32(input).Some? ==>
        Varint32(input + more) == Some((Varint32(input).value.0, Varint32(input).value.1 + more))
  {
    if ParseVarint(input, 5).Some? {
      VarintExtends(input, more, 5);
      SliceExtends(input, more, ParseVarint(input, 5).value.1);
    }
  }

  lemma Varint64Extends(input: Bytes, more: Bytes)
    ensures Varint64(input).Some? ==>
        Varint64(input + more) == Some((Varint64(input).value.0, Varint64(input).value.1 + more))
  {
    if ParseVarint(input, 10).Some? {
      VarintExtends(input, more, 10);
      SliceExtends(input, more, ParseVarint(input, 10).value.1);
    }
  }

  lemma PrefixedExtends(input: Bytes, more: Bytes)
    ensures ParsePrefixed(input).Some? ==>
        ParsePrefixed(input + more) == Some((ParsePrefixed(input).value.0, ParsePrefixed(input).value.1 + more))
  {
    if ParsePrefixed(input).Some? {
      VarintExtends(input, more, 5);
      var (v, k) := ParseVarint(input, 5).value;
      SliceExtends(input, more, k + v % Max32);
      assert (input + more)[k..k + v % Max32] == input[k..k + v % Max32];
    }
  }

  // ------------------------------------------------------------------------ write batches

  lemma RecordExtends(input: Bytes, more: Bytes)
    requires input != []
    ensures W.ParseRecord(input).Some? ==>
        W.ParseRecord(input + more) == Some((W.ParseRecord(input).value.0, W.ParseRecord(input).value.1 + more))
  {
    hide ParsePrefixed;
    assert (input + more)[1..] == input[1..] + more;
    PrefixedExtends(input[1..], more);
    if ParsePrefixed(input[1..]).Some? { PrefixedExtends(ParsePrefixed(input[1..]).value.1, more); }
  }

  /** A record cut short is none. */
  lemma CutRecordFails(op: W.Op, k: nat)
    requires W.Storable(op) && 0 < k < |W.Record(op)|
    ensures W.ParseRecord(W.Record(op)[..k]) == None
  {
    hide W.Record;
    hide W.ParseRecord;
    var r := W.Record(op);
    RecordExtends(r[..k], r[k..]);
    W.RecordRoundTrip(op, []);
    assert r[..k] + r[k..] == r && r + [] == r;
  }

  /** So is one whose tag is neither that of a value nor that of a deletion. */
  lemma UnknownRecordFails(tag: Byte, rest: Bytes)
    requires tag != 0 && tag != 1
    ensures W.ParseRecord([tag] + rest) == None
  {
  }

  /** Up to such a record the updates are handed over; then the batch is reported as corrupt. */
  lemma {:induction false} BodyStopsAt(ops: seq<W.Op>, bad: Bytes)
    requires (forall op :: op in ops ==> W.Storable(op)) && bad != [] && W.ParseRecord(bad) == None
    ensures W.ParseBody(W.Body(ops) + bad) == (ops, false)
  {
    hide W.Record;
    hide W.ParseRecord;
    if ops == [] {
      assert W.Body(ops) + bad == bad;
    } else {
      W.FirstRecord(ops);
      var rest := W.Body(ops[1..]) + bad;
      assert W.Body(ops) + bad == W.Record(ops[0]) + rest;
      W.RecordRoundTrip(ops[0], rest);
      BodyStopsAt(ops[1..], bad);
      assert ops == [ops[0]] + ops[1..];
    }
  }

  /** A batch cut short anywhere in its records hands over those before the cut, and is reported as corrupt. */
  lemma CutBatchFails(ops: seq<W.Op>, op: W.Op, k: nat)
    requires (forall x :: x in ops ==> W.Storable(x)) && W.Storable(op) && 0 < k < |W.Record(op)|
    ensures W.ParseBody(W.Body(ops) + W.Record(op)[..k]) == (ops, false)
  {
    CutRecordFails(op, k);
    BodyStopsAt(ops, W.Record(op)[..k]);
  }

  // ------------------------------------------------------------------------- version edits

  /** A number, a string and a level each leave what follows them alone. */
  lemma LevelExtends(input: Bytes, more: Bytes)
    ensures V.Level(input).Some? ==>
        V.Level(input + more) == Some((V.Level(input).value.0, V.Level(input).value.1 + more))
  {
    Varint32Extends(input, more);
  }

  lemma NewFileExtends(input: Bytes, more: Bytes)
    ensures V.ParseNewFile(input).Some? ==>
        V.ParseNewFile(input + more) == Some((V.ParseNewFile(input).value.0, V.ParseNewFile(input).value.1 + more))
  {
    hide V.Level;
    hide Varint64;
    hide ParsePrefixed;
    if V.ParseNewFile(input).Some? {
      LevelExtends(input, more);
      var a := V.Level(input).value.1;
      Varint64Extends(a, more);
      var b := Varint64(a).value.1;
      Varint64Extends(b, more);
      var c := Varint64(b).value.1;
      PrefixedExtends(c, more);
      PrefixedExtends(ParsePrefixed(c).value.1, more);
    }
  }

  lemma FieldExtends(tag: nat, input: Bytes, more: Bytes)
    ensures V.ParseField(tag, input).Item? ==>
        V.ParseField(tag, input + more) == V.Item(V.ParseField(tag, input).field, V.ParseField(tag, input).rest + more)
  {
    hide V.Level;
    hide Varint64;
    hide ParsePrefixed;
    hide V.ParseNewFile;
    PrefixedExtends(input, more);
    Varint64Extends(input, more);
    LevelExtends(input, more);
    NewFileExtends(input, more);
    if V.Level(input).Some? {
      PrefixedExtends(V.Level(input).value.1, more);
      Varint64Extends(V.Level(input).value.1, more);
    }
  }

  /** A field cut short behind its tag is none. */
  lemma CutPayloadFails(f: V.Field, k: nat)
    requires V.Storable(f) && k < |V.Payload(f)|
    ensures V.ParseField(V.Tag(f), V.Payload(f)[..k]).Bad?
  {
    hide V.ParseField;
    hide V.Payload;
    hide V.Storable;
    var p := V.Payload(f);
    FieldExtends(V.Tag(f), p[..k], p[k..]);
    V.PayloadRoundTrip(f, []);
    assert p[..k] + p[k..] == p && p + [] == p;
  }

  lemma TagIsOneByte(f: V.Field)
    ensures Varint(V.Tag(f)) == [V.Tag(f) as Byte]
  {
  }

  /** So an edit cut inside one of its fields is reported as corrupt. */
  lemma {:induction false} CutEditFails(e: V.Edit, fs: seq<V.Field>, f: V.Field, k: nat)
    requires (forall g :: g in fs ==> V.Storable(g)) && V.Storable(f) && 0 < k < |V.FieldBytes(f)|
    ensures V.ParseFields(e, V.FieldsBytes(fs) + V.FieldBytes(f)[..k]).Corruption?
    decreases |fs|
  {
    hide V.Storable;
    hide V.Payload;
    hide V.ParseField;
    hide V.Enter;
    hide Varint;
    var cut := V.FieldBytes(f)[..k];
    if fs == [] {
      TagIsOneByte(f);
      CutPayloadFails(f, k - 1);
      assert cut == Varint(V.Tag(f)) + V.Payload(f)[..k - 1];
      Varint32Back(V.Tag(f), V.Payload(f)[..k - 1]);
      assert V.FieldsBytes(fs) + cut == cut;
    } else {
      var rest := V.FieldsBytes(fs[1..]) + cut;
      assert fs[0] in fs;
      assert V.FieldsBytes(fs) + cut == Varint(V.Tag(fs[0])) + (V.Payload(fs[0]) + rest);
      Varint32Back(V.Tag(fs[0]), V.Payload(fs[0]) + rest);
      V.PayloadRoundTrip(fs[0], rest);
      CutEditFails(V.Enter(e, fs[0]), fs[1..], f, k);
    }
  }

  /** And one with a tag there is none of. */
  lemma {:induction false} UnknownTagFails(e: V.Edit, fs: seq<V.Field>, tag: nat, more: Bytes)
    requires (forall g :: g in fs ==> V.Storable(g)) && tag < Max32 && tag !in {1, 2, 3, 4, 5, 6, 7, 9}
    ensures V.ParseFields(e, V.FieldsBytes(fs) + (Varint(tag) + more)) == V.Corruption("unknown tag")
    decreases |fs|
  {
    hide V.Storable;
    hide V.Payload;
    hide V.Enter;
    hide Varint;
    var bad := Varint(tag) + more;
    if fs == [] {
      Varint32Back(tag, more);
      assert V.FieldsBytes(fs) + bad == bad;
    } else {
      hide V.ParseField;
      var rest := V.FieldsBytes(fs[1..]) + bad;
      assert fs[0] in fs;
      assert V.FieldsBytes(fs) + bad == Varint(V.Tag(fs[0])) + (V.Payload(fs[0]) + rest);
      Varint32Back(V.Tag(fs[0]), V.Payload(fs[0]) + rest);
      V.PayloadRoundTrip(fs[0], rest);
      UnknownTagFails(V.Enter(e, fs[0]), fs[1..], tag, more);
    }
  }

  // ------------------------------------------------------------------------------- tables

  /** A stored block with up to four bytes in a row changed, in its contents or type, fails its checksum. */
  lemma DamagedBlockFails(file: Bytes, file': Bytes, h: T.Handle, contents: Bytes, p: nat, q: nat)
    requires T.Stored(file, h, contents) && |file'| == |file|
    requires var data := file'[h.offset..h.offset + h.size + T.BlockTrailerSize];
             && data[h.size + 1..] == file[h.offset..h.offset + h.size + T.BlockTrailerSize][h.size + 1..]
             && data[..h.size + 1] != contents + [0]
             && Corruption.Burst(contents + [0], data[..h.size + 1], p, q)
    ensures !T.BlockPasses(file', h, true)
  {
    hide T.Stored;
    hide Crc32c.Crc;
    hide Crc32c.Unmask;
    hide DecodeFixed32;
    T.StoredParts(file, h, contents);
    T.StoredInFile(file, h, contents);
    var data, was := file'[h.offset..h.offset + h.size + T.BlockTrailerSize],
        file[h.offset..h.offset + h.size + T.BlockTrailerSize];
    assert was[..h.size + 1] == contents + [0];
    if Crc32c.Value(data[..h.size + 1]) == Crc32c.Value(contents + [0]) {
      Corruption.BurstDetected(contents + [0], data[..h.size + 1], p, q);
    }
  }

  /** A footer is taken only with the magic number in its last eight bytes. */
  lemma OtherMagicFails(footer: Bytes)
    requires |footer| == T.FooterLength && footer[40..] != [0x57, 0xfb, 0x80, 0x8b, 0x24, 0x75, 0x47, 0xdb]
    ensures T.DecodeFooter(footer) == None
  {
    hide FixedValue;
    var low, high := footer[40..44], footer[44..48];
    assert footer[40..] == low + high;
    MagicValues();
    if FixedValue(low) == T.MagicLow && FixedValue(high) == T.MagicHigh {
      Separators.FixedInjective(low, [0x57, 0xfb, 0x80, 0x8b]);
      Separators.FixedInjective(high, [0x24, 0x75, 0x47, 0xdb]);
    }
  }

  lemma MagicValues()
    ensures FixedValue([0x57, 0xfb, 0x80, 0x8b]) == T.MagicLow && FixedValue([0x24, 0x75, 0x47, 0xdb]) == T.MagicHigh
  {
  }
}
