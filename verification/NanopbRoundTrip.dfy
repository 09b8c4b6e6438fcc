/** Decoding what was encoded: which messages come back, and that they do unchanged. */
module NanopbRoundTrip {
  import opened Options
  import opened Varints
  import opened NanopbSchema
  import opened NanopbFields
  import opened NanopbWire
  import opened NanopbEncode
  import D = NanopbDecode

  // ------------------------------------------------------------- which messages come back

  /** Whether the encoder writes anything of the field. */
  predicate Present(f: Field, s: Slot) {
    match (f.rule, s)
    case (Required, One(_)) => true
    case (Singular, One(_)) => !IsDefault(f, s)
    case (Optional, Maybe(has, _)) => has
    case (Repeated(_), Many(items)) => items != []
    case (Oneof, Union(which, _)) => which == f.tag
    case _ => false
  }

  /** Strings leave room for their final zero, and no length needs more than 32 bits. */
  predicate DecodableItem(t: Type, v: Value)
    decreases t, 0
  {
    match (t, v)
    case (Text(size), Data(bytes)) => |bytes| < size
    case (Submessage(fields), Struct(slots)) => Short(Encode(fields, slots)) && Decodable(fields, slots, |fields|)
    case _ => true
  }

  predicate Short(e: Option<Bytes>) { e.Some? ==> |e.value| < Max32 }

  predicate DecodableItems(t: Type, items: seq<Value>, n: nat)
    requires n <= |items|
    decreases t, n + 1
  {
    n == 0 || (DecodableItems(t, items, n - 1) && DecodableItem(t, items[n - 1]))
  }

  predicate DecodableSlot(f: Field, s: Slot)
    decreases f
  {
    Present(f, s) ==>
      match s
      case One(v) => DecodableItem(f.ltype, v)
      case Maybe(_, v) => DecodableItem(f.ltype, v)
      case Union(_, v) => DecodableItem(f.ltype, v)
      case Many(items) => if Packable(f.ltype) then Short(EncodeItems(f.ltype, [], items, |items|))
          else DecodableItems(f.ltype, items, |items|)
  }

  /** The first n fields can be decoded again. */
  predicate Decodable(fields: seq<Field>, m: Message, n: nat)
    requires n <= |fields|
    decreases fields, n
  {
    n == 0 || (Decodable(fields, m, n - 1) && fields[n - 1].slot in m
        && DecodableSlot(fields[n - 1], m[fields[n - 1].slot]))
  }

  // --------------------------------------------------------------------- what comes back

  function BackItem(t: Type, v: Value): Value
    decreases t, 0
  {
    match (t, v)
    case (Submessage(fields), Struct(slots)) => Struct(Back(fields, slots, |fields|))
    case _ => v
  }

  function BackItems(t: Type, items: seq<Value>, n: nat): (r: seq<Value>)
    requires n <= |items|
    ensures |r| == n
    decreases t, n + 1
  {
    if n == 0 then [] else BackItems(t, items, n - 1) + [BackItem(t, items[n - 1])]
  }

  function BackSlot(f: Field, s: Slot): Slot
    decreases f
  {
    match s
    case One(v) => One(BackItem(f.ltype, v))
    case Maybe(has, v) => Maybe(has, BackItem(f.ltype, v))
    case Many(items) => Many(BackItems(f.ltype, items, |items|))
    case Union(which, v) => Union(which, BackItem(f.ltype, v))
  }

  /** The defaults, and over them what there is of the first n fields. */
  function Back(fields: seq<Field>, m: Message, n: nat): Message
    requires n <= |fields|
    decreases fields, n
  {
    if n == 0 then Defaults(fields, |fields|)
    else
      var f := fields[n - 1];
      if f.slot in m && Present(f, m[f.slot]) then Back(fields, m, n - 1)[f.slot := BackSlot(f, m[f.slot])]
      else Back(fields, m, n - 1)
  }

  function SeenUpTo(fields: seq<Field>, n: nat): set<nat>
    requires n <= |fields|
  {
    if n == 0 then {} else D.Seen(fields, n - 1, SeenUpTo(fields, n - 1))
  }

  lemma {:induction false} SeenAll(fields: seq<Field>, n: nat, k: nat)
    requires n <= |fields| && k < RequiredBefore(fields, n) && k < D.MaxRequiredFields
    ensures k in SeenUpTo(fields, n)
  {
    if k < RequiredBefore(fields, n - 1) { SeenAll(fields, n - 1, k); }
  }

  lemma AllAreSeen(fields: seq<Field>)
    ensures D.AllSeen(fields, SeenUpTo(fields, |fields|))
  {
    forall k | 0 <= k < RequiredBefore(fields, |fields|) && k < D.MaxRequiredFields
      ensures k in SeenUpTo(fields, |fields|)
    {
      SeenAll(fields, |fields|, k);
    }
  }

  lemma {:induction false} DefaultsAt(fields: seq<Field>, n: nat, i: nat)
    requires WellFormed(fields) && i < n <= |fields|
    ensures fields[i].slot in Defaults(fields, n) && Defaults(fields, n)[fields[i].slot] == InitialSlot(fields[i])
  {
    if i < n - 1 {
      DefaultsAt(fields, n - 1, i);
      assert fields[i].slot == fields[n - 1].slot ==> fields[i].rule.Oneof? && fields[n - 1].rule.Oneof?;
    }
  }

  /** A field not yet decoded is as it was initialised, or of another member of its oneof. */
  lemma {:induction false} NotYet(fields: seq<Field>, m: Message, n: nat, i: nat)
    requires WellFormed(fields) && Typed(fields, m) && n <= i < |fields|
    ensures fields[i].slot in Back(fields, m, n)
    ensures var s := Back(fields, m, n)[fields[i].slot];
            if fields[i].rule.Oneof? then s.Union? && s.which != fields[i].tag else s == InitialSlot(fields[i])
  {
    if n == 0 {
      DefaultsAt(fields, |fields|, i);
    } else {
      NotYet(fields, m, n - 1, i);
      assert fields[n - 1].slot in m && TypedSlot(fields[n - 1], m[fields[n - 1].slot]);
      assert fields[n - 1].slot == fields[i].slot ==> fields[n - 1].rule.Oneof? && fields[i].rule.Oneof?;
    }
  }

  // ------------------------------------------------------------------------- on the wire

  const Max63: nat := 0x8000_0000_0000_0000

  lemma NumbersBack(size: nat, n: int)
    requires IntegerSize(size)
    ensures FitsSigned(size, n) ==>
        D.DecodeInt(size, Unsigned64(n)) == Some(Number(n))
        && D.DecodeSInt(size, ZigZag(n)) == Some(Number(n)) && ZigZag(n) < Max64
    ensures Unsigned64(n) < Max64
    ensures FitsUnsigned(size, n) ==> D.DecodeUInt(size, Unsigned64(n)) == Some(Number(n))
  {
    if FitsSigned(size, n) { TwosComplement(n); }
  }

  lemma TwosComplement(n: int)
    requires FitsSigned(8, n)
    ensures Unsigned64(n) == if n < 0 then n + Max64 else n
    ensures ZigZag(n) == if n < 0 then -2 * n - 1 else 2 * n
    ensures D.Signed(Unsigned64(n), Max64) == n && D.UnZigZag(ZigZag(n)) == n
    ensures FitsSigned(4, n) ==> D.Signed(Unsigned64(n) % Max32, Max32) == n
  {
    var u := if n < 0 then n + Max64 else n;
    assert Unsigned64(n) == u;
  }

  lemma TagBack(tag: nat, wireType: nat, rest: Bytes)
    requires 0 < tag < TagLimit && wireType < 8
    ensures D.DecodeTag(Tag(tag, wireType) + rest) == D.Next(tag, wireType, rest)
  {
    hide Varint;
    hide DecodeVarint32;
    Varint32Accepts(8 * tag + wireType, rest);
  }

  lemma LengthBack(bytes: Bytes, rest: Bytes)
    requires |bytes| < Max63
    ensures DecodeVarint32(Varint(|bytes|) + bytes + rest) == if |bytes| < Max32 then Some((|bytes|, bytes + rest))
        else None
    ensures D.Read(bytes + rest, |bytes|) == Some((bytes, rest))
    ensures D.Substream(Varint(|bytes|) + bytes + rest) == if |bytes| < Max32 then Some((bytes, rest)) else None
  {
    hide Varint;
    hide DecodeVarint32;
    assert Varint(|bytes|) + bytes + rest == Varint(|bytes|) + (bytes + rest);
    assert (bytes + rest)[..|bytes|] == bytes && (bytes + rest)[|bytes|..] == rest;
    if |bytes| < Max32 { Varint32Accepts(|bytes|, bytes + rest); } else { Varint32Rejects(|bytes|, bytes + rest); }
  }

  lemma {:induction false} NoZeroInside(s: Bytes)
    requires 0 !in s
    ensures D.UpToZero(s) == s
  {
    if s != [] { NoZeroInside(s[1..]); }
  }

  lemma FixedBack(n: nat, width: nat, rest: Bytes)
    requires n < Pow256(width)
    ensures D.Read(Fixed(n, width) + rest, width) == Some((Fixed(n, width), rest)) && FixedValue(Fixed(n, width)) == n
  {
    FixedRoundTrip(n, width);
    assert (Fixed(n, width) + rest)[..width] == Fixed(n, width) && (Fixed(n, width) + rest)[width..] == rest;
  }

  lemma EightBytes()
    ensures Pow256(4) == Max32 && Pow256(8) == Max64
  {
    FourBytes();
    assert Pow256(6) == 0x1_0000 * Pow256(4);
  }

  /** A number, whatever follows it. */
  lemma NumberBack(t: Type, v: Value, was: Value, e: Bytes, rest: Bytes)
    requires Packable(t) && WellFormedType(t) && TypedItem(t, v) && EncodeItem(t, v) == Some(e)
    ensures D.DecodeItem(t, was, e + rest) == Some((v, rest)) && e != []
  {
    hide Varint;
    hide DecodeVarint32;
    hide Varint64;
    hide Unsigned64;
    hide ZigZag;
    hide D.DecodeInt;
    hide D.DecodeSInt;
    hide D.DecodeUInt;
    hide D.Read;
    hide Fixed;
    hide FixedValue;
    match t
    case Bool => Varint32Accepts(if v.b then 1 else 0, rest);
    case Int(size) => NumbersBack(size, v.n); Varint64Back(Unsigned64(v.n), rest);
    case UInt(size) => NumbersBack(size, v.n); Varint64Back(Unsigned64(v.n), rest);
    case SInt(size) => NumbersBack(size, v.n); Varint64Back(ZigZag(v.n), rest);
    case Fixed32 => EightBytes(); FixedBack(v.n, 4, rest);
    case Fixed64 => EightBytes(); FixedBack(v.n, 8, rest);
  }

  /** A delimited item that is no submessage. */
  lemma DataBack(t: Type, v: Value, was: Value, e: Bytes, rest: Bytes)
    requires !Packable(t) && !t.Submessage? && WellFormedType(t) && TypedItem(t, v) && EncodeItem(t, v) == Some(e)
        && |e| < Max63
    ensures D.DecodeItem(t, was, e + rest) == if DecodableItem(t, v) then Some((v, rest)) else None
  {
    hide Varint;
    hide DecodeVarint32;
    hide D.Read;
    hide D.UpToZero;
    LengthBack(v.bytes, rest);
    match t
    case ByteArray(capacity) =>
    case Text(size) => NoZeroInside(v.bytes);
    case FixedLength(size) => if size == 0 { assert v.bytes == seq(size, i => 0) && v.bytes + rest == rest; }
  }

  // ------------------------------------------------------------------------- round trip

  lemma BothParts(a: Option<Bytes>, b: Option<Bytes>, e: Bytes, rest: Bytes)
    requires Both(a, b) == Some(e)
    ensures a.Some? && b.Some? && |a.value| <= |e| && |b.value| <= |e|
    ensures e + rest == a.value + (b.value + rest)
  {
  }

  /** What is encoded of an item decodes to it. A submessage is decoded onto its defaults. */
  lemma {:induction false} ItemBack(t: Type, v: Value, was: Value, e: Bytes, rest: Bytes)
    requires WellFormedType(t) && TypedItem(t, v) && EncodeItem(t, v) == Some(e) && |e| < Max63
    requires t.Submessage? ==> was == Zero(t)
    ensures D.DecodeItem(t, was, e + rest) == if DecodableItem(t, v) then Some((BackItem(t, v), rest)) else None
    decreases t, 0, 0
  {
    if Packable(t) {
      NumberBack(t, v, was, e, rest);
    } else if t.Submessage? {
      SubmessageBack(t.fields, v.slots, e, rest);
    } else {
      DataBack(t, v, was, e, rest);
    }
  }

  lemma {:induction false} SubmessageBack(fields: seq<Field>, m: Message, e: Bytes, rest: Bytes)
    requires WellFormed(fields) && Typed(fields, m) && EncodeItem(Submessage(fields), Struct(m)) == Some(e)
        && |e| < Max63
    ensures D.DecodeItem(Submessage(fields), Zero(Submessage(fields)), e + rest) ==
              if DecodableItem(Submessage(fields), Struct(m)) then Some((BackItem(Submessage(fields), Struct(m)), rest))
                  else None
    decreases fields, |fields| + 1, 0
  {
    hide Varint;
    hide DecodeVarint32;
    hide EncodeFields;
    hide D.DecodeFields;
    hide D.Substream;
    hide Back;
    hide Decodable;
    hide WellFormed;
    hide Typed;
    var body := Encode(fields, m).value;
    LengthBack(body, rest);
    FieldsBack(fields, m, |fields|, body, []);
    assert body + [] == body;
    AtTheEnd(fields, Back(fields, m, |fields|));
  }

  lemma AtTheEnd(fields: seq<Field>, m: Message)
    ensures D.DecodeFields(fields, m, SeenUpTo(fields, |fields|), []) == Some(m)
  {
    AllAreSeen(fields);
  }

  /** The first n fields, whatever follows them. */
  lemma {:induction false} FieldsBack(fields: seq<Field>, m: Message, n: nat, e: Bytes, rest: Bytes)
    requires WellFormed(fields) && Typed(fields, m) && n <= |fields| && EncodeFields(fields, m, n) == Some(e)
        && |e| < Max63
    ensures D.DecodeFields(fields, Defaults(fields, |fields|), {}, e + rest) ==
              if Decodable(fields, m, n) then D.DecodeFields(fields, Back(fields, m, n), SeenUpTo(fields, n), rest)
                  else None
    decreases fields, n, 1
  {
    hide EncodeField;
    hide D.DecodeFields;
    hide DecodableSlot;
    hide BackSlot;
    hide Defaults;
    hide D.Seen;
    hide WellFormed;
    hide Present;
    if n == 0 {
      assert e + rest == rest;
    } else {
      var f := fields[n - 1];
      assert f.slot in m && TypedSlot(f, m[f.slot]);
      var before, last := EncodeFields(fields, m, n - 1), EncodeField(f, m[f.slot]);
      BothParts(before, last, e, rest);
      FieldsBack(fields, m, n - 1, before.value, last.value + rest);
      FieldBack(fields, m, n - 1, last.value, rest);
    }
  }

  /** The decoder's step over a field it knows. */
  lemma RecordStep(fields: seq<Field>, m: Message, seen: set<nat>, i: nat, wireType: nat, s: Bytes)
    requires WellFormed(fields) && i < |fields| && fields[i].slot in m && wireType < 8
    ensures D.DecodeFields(fields, m, seen, Tag(fields[i].tag, wireType) + s) ==
              match D.DecodeField(fields[i], wireType, m[fields[i].slot], s)
              case None => None
              case Some((slot, rest)) => D.DecodeFields(fields, m[fields[i].slot := slot], D.Seen(fields, i, seen),
                  rest)
  {
    hide D.DecodeField;
    hide D.DecodeTag;
    hide D.Seen;
    hide D.Skip;
    hide FieldOf;
    TagBack(fields[i].tag, wireType, s);
    Unique(fields, fields[i].tag, i);
  }

  /** What a field's slot is before it is decoded. */
  ghost predicate Untouched(f: Field, s: Slot) {
    if f.rule.Oneof? then s.Union? && s.which != f.tag else s == InitialSlot(f)
  }

  /** A field of one item. */
  lemma {:induction false} OneBack(f: Field, s: Slot, initial: Slot, e: Bytes, rest: Bytes)
    requires WellFormedType(f.ltype) && TypedSlot(f, s) && Present(f, s) && !f.rule.Repeated? && Untouched(f, initial)
    requires EncodeField(f, s) == Some(e) && |e| < Max63
    ensures EncodeItem(f.ltype, s.value).Some? && e + rest == TagOf(f) + (EncodeItem(f.ltype, s.value).value + rest)
    ensures D.DecodeField(f, WireType(f.ltype), initial, EncodeItem(f.ltype, s.value).value + rest) ==
              if DecodableSlot(f, s) then Some((BackSlot(f, s), rest)) else None
    decreases f, 0, 1
  {
    hide EncodeItem;
    hide DecodableItem;
    hide BackItem;
    hide TypedItem;
    hide WellFormedType;
    hide D.DecodeItem;
    hide TagOf;
    var item := EncodeItem(f.ltype, s.value);
    assert Both(Some(TagOf(f)), item) == Some(e);
    BothParts(Some(TagOf(f)), item, e, rest);
    var was := if f.rule.Oneof? then (if f.ltype.Submessage? then Zero(f.ltype) else initial.value) else InitialItem(f);
    ItemBack(f.ltype, s.value, was, item.value, rest);
  }

  /** One field more. */
  lemma {:induction false} FieldBack(fields: seq<Field>, m: Message, i: nat, e: Bytes, rest: Bytes)
    requires WellFormed(fields) && Typed(fields, m) && i < |fields| && fields[i].slot in m
    requires EncodeField(fields[i], m[fields[i].slot]) == Some(e) && |e| < Max63
    ensures D.DecodeFields(fields, Back(fields, m, i), SeenUpTo(fields, i), e + rest) ==
              if DecodableSlot(fields[i], m[fields[i].slot])
                  then D.DecodeFields(fields, Back(fields, m, i + 1), SeenUpTo(fields, i + 1), rest) else None
    decreases fields, i + 1, 0
  {
    hide EncodeItem;
    hide EncodeItems;
    hide D.DecodeFields;
    hide D.DecodeField;
    hide DecodableItem;
    hide DecodableItems;
    hide BackSlot;
    hide Tag;
    var f, s, sofar, seen := fields[i], m[fields[i].slot], Back(fields, m, i), SeenUpTo(fields, i);
    assert TypedSlot(f, s);
    if !Present(f, s) {
      assert e + rest == rest;
    } else {
      NotYet(fields, m, i, i);
      if f.rule.Repeated? {
        RepeatedBack(fields, sofar, seen, i, s, e, rest);
      } else {
        OneBack(f, s, sofar[f.slot], e, rest);
        RecordStep(fields, sofar, seen, i, WireType(f.ltype), EncodeItem(f.ltype, s.value).value + rest);
      }
    }
  }

  lemma {:induction false} RepeatedBack(fields: seq<Field>, m: Message, seen: set<nat>, i: nat, s: Slot, e: Bytes,
                                        rest: Bytes)
    requires WellFormed(fields) && i < |fields| && fields[i].slot in m && m[fields[i].slot] == InitialSlot(fields[i])
    requires fields[i].rule.Repeated? && TypedSlot(fields[i], s) && Present(fields[i], s)
    requires EncodeField(fields[i], s) == Some(e) && |e| < Max63
    ensures D.DecodeFields(fields, m, seen, e + rest) ==
              if DecodableSlot(fields[i], s) then D.DecodeFields(fields, m[fields[i].slot := BackSlot(fields[i], s)],
                  seen, rest) else None
    decreases fields[i], 2, 0
  {
    hide D.DecodeFields;
    hide EncodeItem;
    hide EncodeItems;
    hide DecodableItems;
    hide BackItems;
    hide Delimited;
    hide Tag;
    var f := fields[i];
    if Packable(f.ltype) {
      PackedFieldBack(fields, m, seen, i, s.items, e, rest);
    } else {
      ManyBack(fields, m, seen, i, s.items, |s.items|, e, rest);
    }
  }

  // ---------------------------------------------------------------------------- arrays

  lemma {:induction false} NumbersStay(t: Type, items: seq<Value>, n: nat)
    requires Packable(t) && n <= |items|
    ensures BackItems(t, items, n) == items[..n]
  {
    if n > 0 { NumbersStay(t, items, n - 1); }
  }

  lemma {:induction false} PackedBack(t: Type, items: seq<Value>, n: nat, arraySize: nat, e: Bytes, rest: Bytes)
    requires Packable(t) && WellFormedType(t) && n <= |items| && n <= arraySize
        && (forall i :: 0 <= i < |items| ==> TypedItem(t, items[i]))
    requires EncodeItems(t, [], items, n) == Some(e)
    ensures D.DecodePacked(t, [], arraySize, e + rest) == D.DecodePacked(t, items[..n], arraySize, rest)
  {
    hide EncodeItem;
    hide D.DecodeItem;
    hide Packable;
    hide WellFormedType;
    hide TypedItem;
    if n == 0 {
      assert e + rest == rest;
    } else {
      var before, item := EncodeItems(t, [], items, n - 1), EncodeItem(t, items[n - 1]);
      BothParts(before, Both(Some([]), item), e, rest);
      BothParts(Some([]), item, Both(Some([]), item).value, rest);
      assert [] + (item.value + rest) == item.value + rest;
      PackedBack(t, items, n - 1, arraySize, before.value, item.value + rest);
      NumberBack(t, items[n - 1], Zero(t), item.value, rest);
      assert items[..n - 1] + [items[n - 1]] == items[..n];
    }
  }

  lemma PackedFieldBack(fields: seq<Field>, m: Message, seen: set<nat>, i: nat, items: seq<Value>, e: Bytes,
                        rest: Bytes)
    requires WellFormed(fields) && i < |fields| && fields[i].slot in m && m[fields[i].slot] == Many([])
    requires fields[i].rule.Repeated? && Packable(fields[i].ltype) && TypedSlot(fields[i], Many(items)) && items != []
    requires EncodeField(fields[i], Many(items)) == Some(e) && |e| < Max63
    ensures D.DecodeFields(fields, m, seen, e + rest) ==
              if Short(EncodeItems(fields[i].ltype, [], items, |items|))
                  then D.DecodeFields(fields, m[fields[i].slot := Many(BackItems(fields[i].ltype, items, |items|))],
                  seen, rest) else None
  {
    hide D.DecodeFields;
    hide D.DecodePacked;
    hide EncodeItem;
    hide EncodeItems;
    hide BackItems;
    hide TypedItem;
    hide Tag;
    hide Varint;
    hide D.Substream;
    hide WellFormedType;
    var f := fields[i];
    assert WellFormedField(f);
    var payload := EncodeItems(f.ltype, [], items, |items|);
    var tag, body := Some(Tag(f.tag, WireString)), Delimited(payload);
    BothParts(tag, body, e, rest);
    RecordStep(fields, m, seen, i, WireString, body.value + rest);
    LengthBack(payload.value, rest);
    PackedBack(f.ltype, items, |items|, f.rule.arraySize, payload.value, []);
    assert payload.value + [] == payload.value && items[..|items|] == items;
    NumbersStay(f.ltype, items, |items|);
    PackedEnd(f.ltype, items, f.rule.arraySize);
  }

  lemma PackedEnd(t: Type, items: seq<Value>, arraySize: nat)
    ensures D.DecodePacked(t, items, arraySize, []) == Some(items)
  {
  }

  /** The first n items of an array, each in a record of its own. */
  lemma {:induction false} ManyBack(fields: seq<Field>, m: Message, seen: set<nat>, i: nat, items: seq<Value>, n: nat,
                                    e: Bytes, rest: Bytes)
    requires WellFormed(fields) && i < |fields| && fields[i].slot in m && m[fields[i].slot] == Many([])
    requires fields[i].rule.Repeated? && !Packable(fields[i].ltype) && TypedSlot(fields[i], Many(items))
        && n <= |items| <= fields[i].rule.arraySize
    requires EncodeItems(fields[i].ltype, TagOf(fields[i]), items, n) == Some(e) && |e| < Max63
    ensures D.DecodeFields(fields, m, seen, e + rest) ==
              if DecodableItems(fields[i].ltype, items, n)
                  then D.DecodeFields(fields, m[fields[i].slot := Many(BackItems(fields[i].ltype, items, n))], seen,
                  rest) else None
    decreases fields[i], 1, n
  {
    hide D.DecodeFields;
    hide EncodeItem;
    hide D.DecodeItem;
    hide DecodableItem;
    hide BackItem;
    hide TypedItem;
    hide Tag;
    hide WellFormedType;
    hide Zero;
    hide Packable;
    var f := fields[i];
    assert WellFormedField(f);
    if n == 0 {
      assert e + rest == rest;
      assert m[f.slot := Many([])] == m;
    } else {
      var before, tag, item := EncodeItems(f.ltype, TagOf(f), items, n - 1), Some(TagOf(f)),
          EncodeItem(f.ltype, items[n - 1]);
      BothParts(before, Both(tag, item), e, rest);
      BothParts(tag, item, Both(tag, item).value, rest);
      ManyBack(fields, m, seen, i, items, n - 1, before.value, Both(tag, item).value + rest);
      var sofar := m[f.slot := Many(BackItems(f.ltype, items, n - 1))];
      ItemBack(f.ltype, items[n - 1], Zero(f.ltype), item.value, rest);
      RecordStep(fields, sofar, seen, i, WireType(f.ltype), item.value + rest);
      assert sofar[f.slot := Many(BackItems(f.ltype, items, n))] == m[f.slot := Many(BackItems(f.ltype, items, n))];
    }
  }

  // ---------------------------------------------------------------------- main theorems

  /** Every message that can be encoded comes back, unless a string fills its storage to the last byte (the encoder
      sends it, the decoder wants room for the final zero) or a length needs more than 32 bits; those fail. */
  lemma DecodesTo(fields: seq<Field>, m: Message)
    requires WellFormed(fields) && Typed(fields, m) && Encode(fields, m).Some? && |Encode(fields, m).value| < Max63
    ensures D.Decode(fields, Encode(fields, m).value) == if Decodable(fields, m, |fields|)
        then Some(Back(fields, m, |fields|)) else None
  {
    hide D.DecodeFields;
    hide EncodeFields;
    hide Back;
    hide Decodable;
    var e := Encode(fields, m).value;
    FieldsBack(fields, m, |fields|, e, []);
    assert e + [] == e;
    AtTheEnd(fields, Back(fields, m, |fields|));
  }

  lemma {:induction false} BackAt(fields: seq<Field>, m: Message, n: nat, i: nat)
    requires WellFormed(fields) && Typed(fields, m) && i < n <= |fields|
    ensures fields[i].slot in m && fields[i].slot in Back(fields, m, n)
    ensures var f := fields[i];
            var s, b := m[f.slot], Back(fields, m, n)[f.slot];
            if Present(f, s) then b == BackSlot(f, s)
            else if f.rule.Oneof? then b.Union? && b.which != f.tag
            else b == InitialSlot(f)
  {
    hide BackSlot;
    var f, last := fields[i], fields[n - 1];
    assert last.slot in m && TypedSlot(last, m[last.slot]);
    if i == n - 1 {
      NotYet(fields, m, n - 1, i);
    } else {
      BackAt(fields, m, n - 1, i);
      assert f.slot == last.slot ==> f.rule.Oneof? && last.rule.Oneof? && f.tag != last.tag;
      if f.slot == last.slot && Present(last, m[last.slot]) { BackUnion(last, m[last.slot]); }
    }
  }

  lemma BackUnion(f: Field, s: Slot)
    requires s.Union?
    ensures BackSlot(f, s).Union? && BackSlot(f, s).which == s.which
  {
  }

  /** A zero left out of an encoding is a zero again when decoded: the default given, if any, is zero itself. */
  predicate ZeroKept(f: Field) {
    match f.ltype
    case Submessage(fields) => forall i :: 0 <= i < |fields| && fields[i].rule.Singular? ==> ZeroKept(fields[i])
    case t => f.initial.None? || f.initial.value == Zero(t)
  }

  /** Nothing that the proto3 check leaves out has another default.  It can be told from the message alone. */
  predicate NoneReplaced(fields: seq<Field>, m: Message)
    decreases fields, 1
  {
    forall i :: 0 <= i < |fields| && fields[i].slot in m ==> SlotKept(fields[i], m[fields[i].slot])
  }

  predicate SlotKept(f: Field, s: Slot)
    decreases f, 1
  {
    match s
    case Many(items) => forall i :: 0 <= i < |items| ==> ItemKept(f.ltype, items[i])
    case One(v) => if f.rule.Singular? && IsZero(f.ltype, v) then ZeroKept(f) else ItemKept(f.ltype, v)
    case Maybe(has, v) => has ==> ItemKept(f.ltype, v)
    case Union(which, v) => which == f.tag ==> ItemKept(f.ltype, v)
  }

  predicate ItemKept(t: Type, v: Value)
    decreases t, 2
  {
    match (t, v)
    case (Submessage(fields), Struct(slots)) => NoneReplaced(fields, slots)
    case _ => true
  }

  /** What comes back is the same message exactly when no default replaces a zero. */
  lemma {:induction false} BackIsSame(fields: seq<Field>, m: Message)
    requires WellFormed(fields) && Typed(fields, m)
    ensures Same(fields, m, Back(fields, m, |fields|)) <==> NoneReplaced(fields, m)
    decreases fields, 1
  {
    hide BackSlot;
    hide Back;
    hide SameSlot;
    hide SlotKept;
    var back := Back(fields, m, |fields|);
    forall i | 0 <= i < |fields|
      ensures fields[i].slot in m && fields[i].slot in back
      ensures SameSlot(fields[i], m[fields[i].slot], back[fields[i].slot]) <==>
              SlotKept(fields[i], m[fields[i].slot])
    {
      BackAt(fields, m, |fields|, i);
      assert TypedSlot(fields[i], m[fields[i].slot]) && WellFormedField(fields[i]);
      SlotIsSame(fields[i], m[fields[i].slot], back[fields[i].slot]);
    }
  }

  lemma {:induction false} SlotIsSame(f: Field, s: Slot, b: Slot)
    requires WellFormedType(f.ltype) && TypedSlot(f, s)
    requires if Present(f, s) then b == BackSlot(f, s) else if f.rule.Oneof? then b.Union?
        && b.which != f.tag else b == InitialSlot(f)
    ensures SameSlot(f, s, b) <==> SlotKept(f, s)
    decreases f, 1
  {
    hide SameItem;
    hide TypedItem;
    hide WellFormedType;
    hide BackItem;
    hide IsZero;
    hide Zero;
    hide ZeroKept;
    hide ItemKept;
    if f.rule.Repeated? {
      forall i | 0 <= i < |s.items|
        ensures SameItem(f.ltype, s.items[i], BackItems(f.ltype, s.items, |s.items|)[i]) <==>
                ItemKept(f.ltype, s.items[i])
      {
        ItemsAt(f.ltype, s.items, |s.items|, i);
        ItemIsSame(f, s.items[i]);
      }
    } else if Present(f, s) {
      ItemIsSame(f, s.value);
    } else if f.rule.Singular? {
      ZeroIsSame(f, s.value);
    }
  }

  lemma {:induction false} ItemsAt(t: Type, items: seq<Value>, n: nat, i: nat)
    requires i < n <= |items|
    ensures BackItems(t, items, n)[i] == BackItem(t, items[i])
  {
    if i < n - 1 { ItemsAt(t, items, n - 1, i); }
  }

  lemma {:induction false} ItemIsSame(f: Field, v: Value)
    requires WellFormedType(f.ltype) && TypedItem(f.ltype, v)
    ensures SameItem(f.ltype, v, BackItem(f.ltype, v)) <==> ItemKept(f.ltype, v)
    decreases f, 0
  {
    if f.ltype.Submessage? { BackIsSame(f.ltype.fields, v.slots); }
  }

  /** What the proto3 check takes for zero is the default exactly when that is zero too. */
  lemma {:induction false} ZeroIsSame(f: Field, v: Value)
    requires WellFormedType(f.ltype) && TypedItem(f.ltype, v) && IsZero(f.ltype, v)
    ensures SameItem(f.ltype, v, InitialItem(f)) <==> ZeroKept(f)
    decreases f, 0
  {
    match f.ltype
    case Submessage(fields) => DefaultIsSame(fields, v.slots);
    case FixedLength(size) => assert v.bytes == seq(size, i => 0);
    case _ =>
  }

  lemma {:induction false} DefaultIsSame(fields: seq<Field>, m: Message)
    requires WellFormed(fields) && Typed(fields, m)
    requires forall i :: 0 <= i < |fields| ==> fields[i].slot in m && IsDefault(fields[i], m[fields[i].slot])
    ensures Same(fields, m, Defaults(fields, |fields|)) <==>
            forall i :: 0 <= i < |fields| && fields[i].rule.Singular? ==> ZeroKept(fields[i])
    decreases fields, 1
  {
    hide SameItem;
    hide TypedItem;
    hide WellFormedType;
    hide IsZero;
    hide Zero;
    hide ZeroKept;
    var d := Defaults(fields, |fields|);
    forall i | 0 <= i < |fields|
      ensures fields[i].slot in d
      ensures SameSlot(fields[i], m[fields[i].slot], d[fields[i].slot]) <==>
              (fields[i].rule.Singular? ==> ZeroKept(fields[i]))
    {
      DefaultsAt(fields, |fields|, i);
      var f, s := fields[i], m[fields[i].slot];
      assert TypedSlot(f, s) && WellFormedField(f);
      if f.rule.Singular? { ZeroIsSame(f, s.value); }
    }
  }

  /** So decoding an encoded message either fails, just when Decodable says so, or gives the message back, just when
      NoneReplaced says so. */
  lemma RoundTrip(fields: seq<Field>, m: Message)
    requires WellFormed(fields) && Typed(fields, m)
    requires Encode(fields, m).Some? && |Encode(fields, m).value| < Max63
    ensures var back := D.Decode(fields, Encode(fields, m).value);
            && (back.Some? <==> Decodable(fields, m, |fields|))
            && (back.Some? ==> (Same(fields, m, back.value) <==> NoneReplaced(fields, m)))
  {
    hide D.Decode;
    hide Encode;
    hide Decodable;
    hide Same;
    hide NoneReplaced;
    DecodesTo(fields, m);
    BackIsSame(fields, m);
  }

  /** Singular fields have no default of their own, as in proto3. */
  ghost predicate ZeroDefaults(fields: seq<Field>) {
    forall i :: 0 <= i < |fields| ==> ZeroDefault(fields[i])
  }

  ghost predicate ZeroDefault(f: Field) {
    && (f.rule.Singular? ==> f.initial.None?)
    && (f.ltype.Submessage? ==> ZeroDefaults(f.ltype.fields))
  }

  /** Of a proto3 description every message comes back. */
  lemma {:induction false} NothingToReplace(fields: seq<Field>, m: Message)
    requires ZeroDefaults(fields)
    ensures NoneReplaced(fields, m)
    decreases fields, 1
  {
    hide IsZero;
    forall i | 0 <= i < |fields| && fields[i].slot in m ensures SlotKept(fields[i], m[fields[i].slot]) {
      assert ZeroDefault(fields[i]);
      SlotHasNone(fields[i], m[fields[i].slot]);
    }
  }

  lemma {:induction false} SlotHasNone(f: Field, s: Slot)
    requires ZeroDefault(f)
    ensures SlotKept(f, s)
    decreases f, 1
  {
    hide IsZero;
    if f.ltype.Submessage? {
      if f.rule.Singular? { ZerosKept(f); }
      if s.Many? {
        forall i | 0 <= i < |s.items| ensures ItemKept(f.ltype, s.items[i]) {
          if s.items[i].Struct? { NothingToReplace(f.ltype.fields, s.items[i].slots); }
        }
      } else if s.value.Struct? {
        NothingToReplace(f.ltype.fields, s.value.slots);
      }
    }
  }

  lemma {:induction false} ZerosKept(f: Field)
    requires ZeroDefault(f) && f.rule.Singular?
    ensures ZeroKept(f)
  {
    if f.ltype.Submessage? {
      var fields := f.ltype.fields;
      forall i | 0 <= i < |fields| && fields[i].rule.Singular? ensures ZeroKept(fields[i]) {
        assert ZeroDefault(fields[i]);
        ZerosKept(fields[i]);
      }
    }
  }

  lemma OneField(f: Field, m: Message)
    requires f.slot in m
    ensures Encode([f], m) == EncodeField(f, m[f.slot])
  {
    hide EncodeField;
    var e := EncodeField(f, m[f.slot]);
    assert EncodeFields([f], m, 0) == Some([]);
    if e.Some? { assert [] + e.value == e.value; }
  }

  /** A string that fills its storage is sent, and not accepted. */
  lemma FullStringFails()
    ensures var f, m := Field(1, Required, Text(1), 0, None), map[0 := One(Data([65]))];
            && WellFormed([f]) && Typed([f], m)
            && Encode([f], m) == Some([10, 1, 65])
            && D.Decode([f], [10, 1, 65]) == None
  {
    var f, s := Field(1, Required, Text(1), 0, None), One(Data([65]));
    var fields, m: Message := [f], map[0 := s];
    var letter: Bytes := [65];
    assert Varint(1) == [1] && [1] + letter == [1, 65];
    assert EncodeItem(Text(1), Data(letter)) == Delimited(Some(letter)) == Some([1, 65]);
    assert TagOf(f) == Varint(10) == [10];
    var tag, item: Bytes := [10], [1, 65];
    assert tag + item == [10, 1, 65];
    assert EncodeField(f, s) == Both(Some(TagOf(f)), EncodeItem(Text(1), Data(letter)));
    OneField(f, m);
    assert !Decodable(fields, m, 1);
    DecodesTo(fields, m);
  }

  /** A singular field with a default of its own: the encoder leaves out a zero, the decoder puts the default in. */
  lemma DefaultReplacesZero()
    ensures var f, m := Field(1, Singular, Int(4), 0, Some(Number(5))), map[0 := One(Number(0))];
            && WellFormed([f]) && Typed([f], m)
            && Encode([f], m) == Some([])
            && D.Decode([f], []) == Some(map[0 := One(Number(5))])
            && !NoneReplaced([f], m)
  {
    var f := Field(1, Singular, Int(4), 0, Some(Number(5)));
    var fields, m: Message := [f], map[0 := One(Number(0))];
    OneField(f, m);
    assert Defaults(fields, 0) == map[];
    assert Defaults(fields, 1) == map[0 := One(Number(5))];
    assert RequiredBefore(fields, 1) == 0;
  }
}
