/** Encodings written out, as in the Protocol Buffers encoding specification: a message of one required field each, and
    what it is decoded to. */
module NanopbExamples {
  import opened Options
  import opened Varints
  import opened NanopbSchema
  import opened NanopbEncode
  import D = NanopbDecode
  import opened NanopbRoundTrip

  /** A message of one field encodes to these bytes, and decodes from them. */
  ghost predicate Example(f: Field, v: Value, bytes: Bytes) {
    && Encode([f], map[f.slot := One(v)]) == Some(bytes)
    && D.Decode([f], bytes) == Some(map[f.slot := One(v)])
  }

  lemma ExampleIf(tag: nat, t: Type, v: Value, item: Bytes)
    requires 0 < tag < TagLimit && WellFormedType(t) && TypedItem(t, v) && DecodableItem(t, v) && BackItem(t, v) == v
    requires EncodeItem(t, v) == Some(item) && |item| < 1000
    ensures Example(Field(tag, Required, t, 0, None), v, Tag(tag, WireType(t)) + item)
  {
    hide EncodeItem;
    hide DecodableItem;
    hide BackItem;
    hide TypedItem;
    hide WellFormedType;
    hide D.DecodeFields;
    hide Tag;
    var f := Field(tag, Required, t, 0, None);
    var fields, m: Message := [f], map[0 := One(v)];
    OneField(f, m);
    ShortTag(tag, WireType(t));
    assert Decodable(fields, m, 1) by { assert Decodable(fields, m, 0); }
    assert WellFormedField(f) && WellFormed(fields) && Typed(fields, m);
    DecodesTo(fields, m);
    assert Back(fields, m, 0) == Defaults(fields, 1);
    assert Defaults(fields, 0) == map[];
    assert Back(fields, m, 1) == m;
  }

  lemma ShortTag(tag: nat, wireType: nat)
    requires 0 < tag < TagLimit && wireType < 8
    ensures |Tag(tag, wireType)| <= 10
  {
    Lengths(8 * tag + wireType);
  }

  lemma SomeVarints()
    ensures Varint(150) == [0x96, 0x01] && Varint(270) == [0x8e, 0x02] && Varint(86942) == [0x9e, 0xa7, 0x05]
  {
    assert Varint(1) == [1] && Varint(2) == [2];
    assert Varint(679) == [0xa7] + Varint(5) == [0xa7, 0x05];
  }

  /** Tag 1, wire type 0. */
  lemma Int150()
    ensures Example(Field(1, Required, Int(4), 0, None), Number(150), [0x08, 0x96, 0x01])
  {
    hide Example;
    SomeVarints();
    assert Unsigned64(150) == 150 && Varint(8) == [8];
    ExampleIf(1, Int(4), Number(150), [0x96, 0x01]);
    assert [8] + [0x96, 0x01] == [0x08, 0x96, 0x01];
  }

  /** A negative number takes ten bytes. */
  lemma IntMinus2()
    ensures Example(Field(1, Required, Int(4), 0, None), Number(-2),
                    [0x08, 0xfe, 0xff, 0xff, 0xff, 0xff, 0xff, 0xff, 0xff, 0xff, 0x01])
  {
    hide Example;
    var item: Bytes := [0xfe, 0xff, 0xff, 0xff, 0xff, 0xff, 0xff, 0xff, 0xff, 0x01];
    MinusTwo();
    assert Varint(8) == [8];
    ExampleIf(1, Int(4), Number(-2), item);
    assert [8] + item == [0x08, 0xfe, 0xff, 0xff, 0xff, 0xff, 0xff, 0xff, 0xff, 0xff, 0x01];
  }

  lemma MinusTwo()
    ensures Unsigned64(-2) == 0xffff_ffff_ffff_fffe
    ensures Varint(0xffff_ffff_ffff_fffe) == [0xfe, 0xff, 0xff, 0xff, 0xff, 0xff, 0xff, 0xff, 0xff, 0x01]
  {
    var a: Bytes := [0x01];
    assert Varint(1) == a;
    assert Varint(0xff) == [0xff] + a;
    assert Varint(0x7fff) == [0xff, 0xff] + a;
    assert Varint(0x3f_ffff) == [0xff, 0xff, 0xff] + a;
    assert Varint(0x1fff_ffff) == [0xff, 0xff, 0xff, 0xff] + a;
    assert Varint(0xf_ffff_ffff) == [0xff, 0xff, 0xff, 0xff, 0xff] + a;
    assert Varint(0x7ff_ffff_ffff) == [0xff, 0xff, 0xff, 0xff, 0xff, 0xff] + a;
    assert Varint(0x3_ffff_ffff_ffff) == [0xff, 0xff, 0xff, 0xff, 0xff, 0xff, 0xff] + a;
    assert Varint(0x1ff_ffff_ffff_ffff) == [0xff, 0xff, 0xff, 0xff, 0xff, 0xff, 0xff, 0xff] + a;
  }

  /** Small numbers of either sign take one byte. */
  lemma SIntSmall()
    ensures Example(Field(1, Required, SInt(4), 0, None), Number(-1), [0x08, 0x01])
    ensures Example(Field(1, Required, SInt(4), 0, None), Number(1), [0x08, 0x02])
    ensures Example(Field(1, Required, SInt(4), 0, None), Number(-2), [0x08, 0x03])
  {
    hide Example;
    assert ZigZag(-1) == 1 && ZigZag(1) == 2 && ZigZag(-2) == 3;
    assert Varint(1) == [1] && Varint(2) == [2] && Varint(3) == [3] && Varint(8) == [8];
    ExampleIf(1, SInt(4), Number(-1), [0x01]);
    ExampleIf(1, SInt(4), Number(1), [0x02]);
    ExampleIf(1, SInt(4), Number(-2), [0x03]);
    assert [8] + [1] == [8, 1] && [8] + [2] == [8, 2] && [8] + [3] == [8, 3];
  }

  lemma BoolTrue()
    ensures Example(Field(1, Required, Bool, 0, None), Flag(true), [0x08, 0x01])
  {
    hide Example;
    assert Varint(1) == [1] && Varint(8) == [8];
    ExampleIf(1, Bool, Flag(true), [0x01]);
    assert [8] + [1] == [8, 1];
  }

  /** Wire type 5, four bytes. */
  lemma Fixed32Seven()
    ensures Example(Field(1, Required, Fixed32, 0, None), Number(7), [0x0d, 7, 0, 0, 0])
  {
    hide Example;
    assert Fixed(0, 3) == [0] + Fixed(0, 2) == [0, 0, 0] by { assert Fixed(0, 2) == [0, 0]; }
    assert Fixed(7, 4) == [7] + Fixed(0, 3) == [7, 0, 0, 0];
    assert Varint(13) == [13];
    ExampleIf(1, Fixed32, Number(7), [7, 0, 0, 0]);
    assert [13] + [7, 0, 0, 0] == [0x0d, 7, 0, 0, 0];
  }

  /** Wire type 1, eight bytes: the bits of the double 1.0 in field 3. */
  lemma Fixed64One()
    ensures Example(Field(3, Required, Fixed64, 0, None), Number(0x3ff0_0000_0000_0000),
                    [0x19, 0, 0, 0, 0, 0, 0, 0xf0, 0x3f])
  {
    hide Example;
    assert Fixed(0x3ff0, 2) == [0xf0] + Fixed(0x3f, 1) == [0xf0, 0x3f];
    assert Fixed(0x3ff0_0000, 4) == [0] + Fixed(0x3ff0_00, 3) == [0, 0, 0xf0, 0x3f];
    assert Fixed(0x3ff0_0000_0000, 6) == [0] + Fixed(0x3ff0_0000_00, 5) == [0, 0, 0, 0, 0xf0, 0x3f];
    assert Fixed(0x3ff0_0000_0000_0000, 8) == [0] + Fixed(0x3ff0_0000_0000_00, 7) == [0, 0, 0, 0, 0, 0, 0xf0, 0x3f];
    assert Varint(25) == [25];
    ExampleIf(3, Fixed64, Number(0x3ff0_0000_0000_0000), [0, 0, 0, 0, 0, 0, 0xf0, 0x3f]);
    assert [25] + [0, 0, 0, 0, 0, 0, 0xf0, 0x3f] == [0x19, 0, 0, 0, 0, 0, 0, 0xf0, 0x3f];
  }

  /** Wire type 2: the length, and "testing". */
  lemma TextTesting()
    ensures Example(Field(2, Required, Text(8), 0, None), Data([0x74, 0x65, 0x73, 0x74, 0x69, 0x6e, 0x67]),
                    [0x12, 0x07, 0x74, 0x65, 0x73, 0x74, 0x69, 0x6e, 0x67])
  {
    hide Example;
    var text: Bytes := [0x74, 0x65, 0x73, 0x74, 0x69, 0x6e, 0x67];
    assert Varint(7) == [7] && Varint(18) == [18];
    assert [7] + text == [7, 0x74, 0x65, 0x73, 0x74, 0x69, 0x6e, 0x67];
    ExampleIf(2, Text(8), Data(text), [7] + text);
    assert [18] + ([7] + text) == [0x12, 0x07, 0x74, 0x65, 0x73, 0x74, 0x69, 0x6e, 0x67];
  }

  /** A message in field 3 is delimited like a string. */
  lemma NestedInt150()
    ensures var inner := Field(1, Required, Int(4), 0, None);
            EncodeItem(Submessage([inner]), Struct(map[0 := One(Number(150))])) == Some([0x03, 0x08, 0x96, 0x01])
            && Tag(3, WireType(Submessage([inner]))) == [0x1a]
  {
    Int150();
    assert Varint(3) == [3] && Varint(26) == [26];
    assert [3] + [0x08, 0x96, 0x01] == [0x03, 0x08, 0x96, 0x01];
  }

  /** An array of numbers in field 4 has one tag, of wire type 2, and one length. */
  lemma PackedThree()
    ensures EncodeField(Field(4, Repeated(3), Int(4), 0, None), Many([Number(3), Number(270), Number(86942)])) ==
        Some([0x22, 0x06, 0x03, 0x8e, 0x02, 0x9e, 0xa7, 0x05])
  {
    var items := [Number(3), Number(270), Number(86942)];
    SomeVarints();
    assert Varint(3) == [3] && Varint(6) == [6] && Varint(34) == [34];
    assert Unsigned64(3) == 3 && Unsigned64(270) == 270 && Unsigned64(86942) == 86942;
    var none, one, two, three: Bytes := [], [3], [0x8e, 0x02], [0x9e, 0xa7, 0x05];
    assert none + (none + one) == one && one + (none + two) == [3, 0x8e, 0x02];
    assert [3, 0x8e, 0x02] + (none + three) == [3, 0x8e, 0x02, 0x9e, 0xa7, 0x05];
    assert EncodeItems(Int(4), [], items, 0) == Some(none);
    assert EncodeItems(Int(4), [], items, 1) == Some(one);
    assert EncodeItems(Int(4), [], items, 2) == Some([3, 0x8e, 0x02]);
    assert EncodeItems(Int(4), [], items, 3) == Some([3, 0x8e, 0x02, 0x9e, 0xa7, 0x05]);
    assert [34] + ([6] + [3, 0x8e, 0x02, 0x9e, 0xa7, 0x05]) == [0x22, 0x06, 0x03, 0x8e, 0x02, 0x9e, 0xa7, 0x05];
  }
}
