/** Fields the description does not know are skipped (pb_skip_field): put between the fields of an encoded message,
    they change nothing. */
module NanopbUnknown {
  import opened Options
  import opened Varints
  import opened NanopbSchema
  import opened NanopbFields
  import opened NanopbEncode
  import D = NanopbDecode
  import opened NanopbRoundTrip

  datatype Unknown = Unknown(tag: nat, wireType: nat, payload: Bytes)

  /** A varint of any length: the last byte's high bit is clear, the others' are set. */
  predicate AnyVarint(s: Bytes) {
    s != [] && s[|s| - 1] < 128 && forall i :: 0 <= i < |s| - 1 ==> s[i] >= 128
  }

  ghost predicate WellFormedUnknown(fields: seq<Field>, u: Unknown) {
    && 0 < u.tag < TagLimit && FieldOf(fields, u.tag) == |fields|
    && ( || (u.wireType == WireVarint && AnyVarint(u.payload))
         || (u.wireType == Wire64Bit && |u.payload| == 8)
         || (u.wireType == WireString && exists bytes: Bytes :: |bytes| < Max32 && u.payload == Varint(|bytes|) + bytes)
         || (u.wireType == Wire32Bit && |u.payload| == 4))
  }

  function Bare(u: Unknown): Bytes { Tag(u.tag, u.wireType) + u.payload }

  lemma {:induction false} SkipsVarint(s: Bytes, rest: Bytes)
    requires AnyVarint(s)
    ensures D.SkipVarint(s + rest) == Some(rest)
  {
    assert (s + rest)[1..] == s[1..] + rest;
    if |s| > 1 { SkipsVarint(s[1..], rest); } else { assert s[1..] + rest == rest; }
  }

  lemma SkipsPayload(fields: seq<Field>, u: Unknown, rest: Bytes)
    requires WellFormedUnknown(fields, u)
    ensures D.Skip(u.wireType, u.payload + rest) == Some(rest)
  {
    hide Varint;
    hide D.SkipVarint;
    hide D.Substream;
    if u.wireType == WireVarint {
      SkipsVarint(u.payload, rest);
    } else if u.wireType == WireString {
      var bytes: Bytes :| |bytes| < Max32 && u.payload == Varint(|bytes|) + bytes;
      LengthBack(bytes, rest);
    }
  }

  lemma OneIgnored(fields: seq<Field>, m: Message, seen: set<nat>, u: Unknown, rest: Bytes)
    requires WellFormedUnknown(fields, u)
    ensures D.DecodeFields(fields, m, seen, Bare(u) + rest) == D.DecodeFields(fields, m, seen, rest)
  {
    hide Tag;
    hide D.Skip;
    hide D.DecodeField;
    hide D.DecodeTag;
    hide D.Seen;
    hide FieldOf;
    TagBack(u.tag, u.wireType, u.payload + rest);
    SkipsPayload(fields, u, rest);
    assert Bare(u) + rest == Tag(u.tag, u.wireType) + (u.payload + rest);
  }

  /** Unknown fields in a row. */
  function BareAll(us: seq<Unknown>): Bytes { if us == [] then [] else Bare(us[0]) + BareAll(us[1..]) }

  lemma {:induction false} AllIgnored(fields: seq<Field>, m: Message, seen: set<nat>, us: seq<Unknown>, rest: Bytes)
    requires forall u :: u in us ==> WellFormedUnknown(fields, u)
    ensures D.DecodeFields(fields, m, seen, BareAll(us) + rest) == D.DecodeFields(fields, m, seen, rest)
  {
    hide D.DecodeFields;
    hide Bare;
    hide WellFormedUnknown;
    if us == [] {
      assert BareAll(us) + rest == rest;
    } else {
      assert BareAll(us) + rest == Bare(us[0]) + (BareAll(us[1..]) + rest);
      OneIgnored(fields, m, seen, us[0], BareAll(us[1..]) + rest);
      AllIgnored(fields, m, seen, us[1..], rest);
    }
  }

  /** The encodings of the first n fields, with unknown fields before each and at the end. */
  function Interspersed(fields: seq<Field>, m: Message, unknown: seq<seq<Unknown>>, n: nat): Option<Bytes>
    requires n <= |fields| && |unknown| > n
  {
    if n == 0 then Some(BareAll(unknown[0]))
    else Both(Interspersed(fields, m, unknown, n - 1),
        Both(if fields[n - 1].slot in m then EncodeField(fields[n - 1], m[fields[n - 1].slot]) else None,
        Some(BareAll(unknown[n]))))
  }

  lemma {:induction false} InterspersedBack(fields: seq<Field>, m: Message, unknown: seq<seq<Unknown>>, n: nat,
                                            rest: Bytes)
    requires WellFormed(fields) && Typed(fields, m) && n <= |fields| && |unknown| > n
        && EncodeFields(fields, m, n).Some? && |EncodeFields(fields, m, n).value| < Max63
    requires forall us, u :: us in unknown && u in us ==> WellFormedUnknown(fields, u)
    ensures Interspersed(fields, m, unknown, n).Some?
    ensures D.DecodeFields(fields, Defaults(fields, |fields|), {}, Interspersed(fields, m, unknown, n).value + rest) ==
              if Decodable(fields, m, n) then D.DecodeFields(fields, Back(fields, m, n), SeenUpTo(fields, n), rest)
                  else None
  {
    hide D.DecodeFields;
    hide EncodeField;
    hide DecodableSlot;
    hide BareAll;
    hide WellFormed;
    hide Present;
    hide BackSlot;
    hide D.Seen;
    hide Defaults;
    hide WellFormedUnknown;
    assert unknown[n] in unknown;
    if n == 0 {
      AllIgnored(fields, Defaults(fields, |fields|), {}, unknown[0], rest);
    } else {
      var f := fields[n - 1];
      assert f.slot in m && TypedSlot(f, m[f.slot]);
      var before, last, junk := Interspersed(fields, m, unknown, n - 1), EncodeField(f, m[f.slot]), BareAll(unknown[n]);
      BothParts(EncodeFields(fields, m, n - 1), last, EncodeFields(fields, m, n).value, rest);
      InterspersedBack(fields, m, unknown, n - 1, last.value + (junk + rest));
      FieldBack(fields, m, n - 1, last.value, junk + rest);
      AllIgnored(fields, Back(fields, m, n), SeenUpTo(fields, n), unknown[n], rest);
      BothParts(before, Both(last, Some(junk)), Interspersed(fields, m, unknown, n).value, rest);
      BothParts(last, Some(junk), last.value + junk, rest);
    }
  }

  /** So an encoded message decodes to the same with them as without. */
  lemma UnknownIgnored(fields: seq<Field>, m: Message, unknown: seq<seq<Unknown>>)
    requires WellFormed(fields) && Typed(fields, m) && Encode(fields, m).Some? && |Encode(fields, m).value| < Max63
    requires |unknown| == |fields| + 1 && forall us, u :: us in unknown && u in us ==> WellFormedUnknown(fields, u)
    ensures Interspersed(fields, m, unknown, |fields|).Some?
    ensures D.Decode(fields, Interspersed(fields, m, unknown, |fields|).value) ==
        D.Decode(fields, Encode(fields, m).value)
  {
    hide D.DecodeFields;
    hide EncodeFields;
    hide Back;
    hide Decodable;
    hide Interspersed;
    hide WellFormedUnknown;
    InterspersedBack(fields, m, unknown, |fields|, []);
    var all := Interspersed(fields, m, unknown, |fields|).value;
    assert all + [] == all;
    AtTheEnd(fields, Back(fields, m, |fields|));
    DecodesTo(fields, m);
  }

  // ------------------------------------------------------------- readers that know nothing

  lemma {:induction false} VarintIsAny(n: nat)
    ensures AnyVarint(Varint(n))
  {
    if n >= 128 {
      VarintIsAny(n / 128);
      assert Varint(n)[1..] == Varint(n / 128);
    }
  }

  /** The bytes of an item are of the kind its wire type announces. */
  lemma ItemIsPayload(tag: nat, t: Type, v: Value, e: Bytes)
    requires 0 < tag < TagLimit && WellFormedType(t) && TypedItem(t, v) && DecodableItem(t, v)
    requires EncodeItem(t, v) == Some(e)
    ensures WellFormedUnknown([], Unknown(tag, WireType(t), e))
  {
    hide Varint;
    hide AnyVarint;
    hide EncodeFields;
    hide Decodable;
    hide WellFormed;
    hide Typed;
    match t
    case Bool => VarintIsAny(if v.b then 1 else 0);
    case Int(_) => VarintIsAny(Unsigned64(v.n));
    case UInt(_) => VarintIsAny(Unsigned64(v.n));
    case SInt(_) => VarintIsAny(ZigZag(v.n));
    case Fixed32 =>
    case Fixed64 =>
    case ByteArray(_) => assert e == Varint(|v.bytes|) + v.bytes;
    case Text(_) => assert e == Varint(|v.bytes|) + v.bytes;
    case FixedLength(_) => assert e == Varint(|v.bytes|) + v.bytes;
    case Submessage(fields) =>
      var body := Encode(fields, v.slots).value;
      assert e == Varint(|body|) + body;
  }

  lemma ItemSkipped(f: Field, v: Value, e: Bytes, m: Message, rest: Bytes)
    requires 0 < f.tag < TagLimit && WellFormedType(f.ltype) && TypedItem(f.ltype, v) && DecodableItem(f.ltype, v)
    requires EncodeItem(f.ltype, v) == Some(e)
    ensures D.DecodeFields([], m, {}, TagOf(f) + (e + rest)) == D.DecodeFields([], m, {}, rest)
  {
    hide EncodeItem;
    hide DecodableItem;
    hide TypedItem;
    hide D.DecodeFields;
    hide Tag;
    ItemIsPayload(f.tag, f.ltype, v, e);
    var u := Unknown(f.tag, WireType(f.ltype), e);
    OneIgnored([], m, {}, u, rest);
    assert Bare(u) + rest == TagOf(f) + (e + rest);
  }

  lemma {:induction false} ItemsSkipped(f: Field, items: seq<Value>, n: nat, e: Bytes, m: Message, rest: Bytes)
    requires 0 < f.tag < TagLimit && WellFormedType(f.ltype) && n <= |items| && DecodableItems(f.ltype, items, n)
    requires forall i :: 0 <= i < |items| ==> TypedItem(f.ltype, items[i])
    requires EncodeItems(f.ltype, TagOf(f), items, n) == Some(e)
    ensures D.DecodeFields([], m, {}, e + rest) == D.DecodeFields([], m, {}, rest)
    decreases n
  {
    hide EncodeItem;
    hide DecodableItem;
    hide TypedItem;
    hide D.DecodeFields;
    hide TagOf;
    hide WellFormedType;
    if n == 0 {
      assert e + rest == rest;
    } else {
      var before, tag, item := EncodeItems(f.ltype, TagOf(f), items, n - 1), Some(TagOf(f)),
          EncodeItem(f.ltype, items[n - 1]);
      BothParts(before, Both(tag, item), e, rest);
      BothParts(tag, item, Both(tag, item).value, rest);
      ItemsSkipped(f, items, n - 1, before.value, m, Both(tag, item).value + rest);
      ItemSkipped(f, items[n - 1], item.value, m, rest);
    }
  }

  lemma PackedSkipped(f: Field, items: seq<Value>, payload: Bytes, m: Message, rest: Bytes)
    requires 0 < f.tag < TagLimit && |payload| < Max32
    ensures D.DecodeFields([], m, {}, Tag(f.tag, WireString) + ((Varint(|payload|) + payload) + rest)) ==
        D.DecodeFields([], m, {}, rest)
  {
    hide Tag;
    hide Varint;
    hide D.DecodeFields;
    var u := Unknown(f.tag, WireString, Varint(|payload|) + payload);
    assert WellFormedUnknown([], u);
    OneIgnored([], m, {}, u, rest);
    assert Bare(u) + rest == Tag(f.tag, WireString) + ((Varint(|payload|) + payload) + rest);
  }

  lemma FieldSkipped(f: Field, s: Slot, e: Bytes, m: Message, rest: Bytes)
    requires 0 < f.tag < TagLimit && WellFormedType(f.ltype) && TypedSlot(f, s) && DecodableSlot(f, s)
    requires EncodeField(f, s) == Some(e)
    ensures D.DecodeFields([], m, {}, e + rest) == D.DecodeFields([], m, {}, rest)
  {
    hide EncodeItem;
    hide EncodeItems;
    hide DecodableItem;
    hide DecodableItems;
    hide TypedItem;
    hide D.DecodeFields;
    hide TagOf;
    hide Tag;
    hide WellFormedType;
    hide IsZero;
    if !Present(f, s) {
      assert e + rest == rest;
    } else if !f.rule.Repeated? {
      var item := EncodeItem(f.ltype, s.value);
      assert Both(Some(TagOf(f)), item) == Some(e);
      BothParts(Some(TagOf(f)), item, e, rest);
      ItemSkipped(f, s.value, item.value, m, rest);
    } else if Packable(f.ltype) {
      var payload := EncodeItems(f.ltype, [], s.items, |s.items|);
      var tag, body := Some(Tag(f.tag, WireString)), Delimited(payload);
      BothParts(tag, body, e, rest);
      PackedSkipped(f, s.items, payload.value, m, rest);
    } else {
      ItemsSkipped(f, s.items, |s.items|, e, m, rest);
    }
  }

  lemma {:induction false} FieldsSkipped(fields: seq<Field>, m: Message, n: nat, e: Bytes, m': Message, rest: Bytes)
    requires WellFormed(fields) && Typed(fields, m) && n <= |fields| && Decodable(fields, m, n)
    requires EncodeFields(fields, m, n) == Some(e)
    ensures D.DecodeFields([], m', {}, e + rest) == D.DecodeFields([], m', {}, rest)
    decreases n
  {
    hide EncodeField;
    hide D.DecodeFields;
    hide DecodableSlot;
    hide TypedSlot;
    if n == 0 {
      assert e + rest == rest;
    } else {
      var f := fields[n - 1];
      assert WellFormedField(f) && f.slot in m && TypedSlot(f, m[f.slot]);
      var before, last := EncodeFields(fields, m, n - 1), EncodeField(f, m[f.slot]);
      BothParts(before, last, e, rest);
      FieldsSkipped(fields, m, n - 1, before.value, m', last.value + rest);
      FieldSkipped(f, m[f.slot], last.value, m', rest);
    }
  }

  /** A reader that knows none of its fields gets to the end of an encoded message: each tag announces what follows. */
  lemma ReadByStranger(fields: seq<Field>, m: Message)
    requires WellFormed(fields) && Typed(fields, m) && Encode(fields, m).Some? && Decodable(fields, m, |fields|)
    ensures D.Decode([], Encode(fields, m).value) == Some(map[])
  {
    hide EncodeFields;
    hide Decodable;
    var e := Encode(fields, m).value;
    FieldsSkipped(fields, m, |fields|, e, map[], []);
    assert e + [] == e;
    assert RequiredBefore([], 0) == 0;
  }
}
