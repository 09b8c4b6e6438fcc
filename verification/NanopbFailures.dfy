/** What nanopb's decoder refuses (pb_decode.c): messages cut inside a field, tags or lengths that break off, missing
    required fields, arrays with too many items, unknown wire types. */
module NanopbFailures {
  import opened Options
  import opened Varints
  import opened NanopbSchema
  import opened NanopbFields
  import opened NanopbWire
  import opened NanopbEncode
  import D = NanopbDecode
  import opened NanopbRoundTrip

  // --------------------------------------------------------------------- broken varints

  /** Every byte says that another follows. */
  predicate BrokenOff(s: Bytes) { forall i :: 0 <= i < |s| ==> s[i] >= 128 }

  lemma {:induction false} MoreBrokenOff(s: Bytes, result: nat, bitpos: nat)
    requires BrokenOff(s)
    ensures MoreVarint32(s, result, bitpos) == None
  {
    hide Or;
    hide Shifted;
    if s != [] {
      var low := s[0] as nat % 128;
      MoreBrokenOff(s[1..], if bitpos >= 32 then result else Or(result, Shifted(low, bitpos)), (bitpos + 7) % 256);
    }
  }

  lemma {:induction false} ParseBrokenOff(s: Bytes, most: nat)
    requires BrokenOff(s)
    ensures ParseVarint(s, most) == None
  {
    if s != [] && most > 0 { ParseBrokenOff(s[1..], most - 1); }
  }

  lemma BrokenOffFails(s: Bytes)
    requires BrokenOff(s)
    ensures DecodeVarint32(s) == None && Varint64(s) == None && D.Substream(s) == None
  {
    if s != [] { MoreBrokenOff(s[1..], s[0] as nat % 128, 7); }
    ParseBrokenOff(s, 10);
  }

  lemma {:induction false} VarintCut(n: nat, k: nat)
    requires k < |Varint(n)|
    ensures BrokenOff(Varint(n)[..k])
  {
    if n >= 128 && k > 0 {
      VarintCut(n / 128, k - 1);
      assert Varint(n)[..k] == [Varint(n)[0]] + Varint(n / 128)[..k - 1];
    }
  }

  /** A message followed by the beginning of a tag is refused. */
  lemma CutTagFails(fields: seq<Field>, m: Message, cut: Bytes)
    requires WellFormed(fields) && Typed(fields, m) && Encode(fields, m).Some? && |Encode(fields, m).value| < Max63
    requires cut != [] && BrokenOff(cut)
    ensures D.Decode(fields, Encode(fields, m).value + cut) == None
  {
    hide EncodeFields;
    hide Back;
    hide Decodable;
    hide Defaults;
    FieldsBack(fields, m, |fields|, Encode(fields, m).value, cut);
    BrokenOffFails(cut);
  }

  // ------------------------------------------------------------------------- cut fields

  lemma CutDelimited(body: Bytes, k: nat)
    requires k < |Varint(|body|) + body| && |body| < Max63
    ensures D.Substream((Varint(|body|) + body)[..k]) == None
    ensures match DecodeVarint32((Varint(|body|) + body)[..k])
            case None => true
            case Some((size, rest)) => size == |body| > |rest|
  {
    hide Varint;
    hide DecodeVarint32;
    var length, all := Varint(|body|), Varint(|body|) + body;
    if k < |length| {
      VarintCut(|body|, k);
      assert all[..k] == length[..k];
      BrokenOffFails(all[..k]);
    } else {
      var rest := body[..k - |length|];
      assert all[..k] == length + rest;
      if |body| < Max32 { Varint32Accepts(|body|, rest); } else { Varint32Rejects(|body|, rest); }
    }
  }

  /** No item is read from a part of its bytes. */
  lemma CutItemFails(t: Type, v: Value, was: Value, e: Bytes, k: nat)
    requires WellFormedType(t) && TypedItem(t, v) && EncodeItem(t, v) == Some(e) && |e| < Max63 && k < |e|
    ensures D.DecodeItem(t, was, e[..k]) == None
  {
    hide Varint;
    hide DecodeVarint32;
    hide Varint64;
    hide EncodeFields;
    hide D.DecodeFields;
    hide D.Substream;
    hide WellFormed;
    hide Typed;
    match t
    case Bool => CutNumberFails(if v.b then 1 else 0, k);
    case Int(_) => CutNumberFails(Unsigned64(v.n), k);
    case UInt(_) => CutNumberFails(Unsigned64(v.n), k);
    case SInt(_) => CutNumberFails(ZigZag(v.n), k);
    case Fixed32 =>
    case Fixed64 =>
    case ByteArray(_) => CutDelimited(v.bytes, k);
    case Text(_) => CutDelimited(v.bytes, k);
    case FixedLength(_) => CutDelimited(v.bytes, k);
    case Submessage(fields) => CutDelimited(Encode(fields, v.slots).value, k);
  }

  lemma CutNumberFails(n: nat, k: nat)
    requires k < |Varint(n)|
    ensures DecodeVarint32(Varint(n)[..k]) == None && Varint64(Varint(n)[..k]) == None
  {
    VarintCut(n, k);
    BrokenOffFails(Varint(n)[..k]);
  }

  /** The decoder's answer to the first k bytes of a field that is there. */
  lemma CutRecord(fields: seq<Field>, m: Message, i: nat, k: nat, e: Bytes)
    requires WellFormed(fields) && Typed(fields, m) && i < |fields| && fields[i].slot in m
    requires Present(fields[i], m[fields[i].slot]) && !fields[i].rule.Repeated?
    requires EncodeField(fields[i], m[fields[i].slot]) == Some(e) && |e| < Max63 && 0 < k < |e|
    ensures D.DecodeFields(fields, Back(fields, m, i), SeenUpTo(fields, i), e[..k]) == None
  {
    hide EncodeItem;
    hide D.DecodeFields;
    hide D.DecodeItem;
    hide Back;
    hide TagOf;
    hide Tag;
    hide SeenUpTo;
    hide WellFormedType;
    var f, s, sofar, seen := fields[i], m[fields[i].slot], Back(fields, m, i), SeenUpTo(fields, i);
    assert TypedSlot(f, s) && WellFormedField(f);
    var tag, item := TagOf(f), EncodeItem(f.ltype, s.value).value;
    assert e == tag + item;
    NotYet(fields, m, i, i);
    if k < |tag| {
      assert e[..k] == tag[..k];
      CutTag(f, k);
      MalformedFails(fields, sofar, seen, tag[..k]);
    } else {
      assert e[..k] == tag + item[..k - |tag|];
      TagIs(f);
      RecordStep(fields, sofar, seen, i, WireType(f.ltype), item[..k - |tag|]);
      var was := if f.rule.Oneof? then (if f.ltype.Submessage? then Zero(f.ltype) else sofar[f.slot].value)
                 else InitialItem(f);
      CutItemFails(f.ltype, s.value, was, item, k - |tag|);
    }
  }

  lemma TagIs(f: Field)
    ensures TagOf(f) == Tag(f.tag, WireType(f.ltype))
  {
  }

  lemma CutTag(f: Field, k: nat)
    requires 0 < k < |TagOf(f)|
    ensures BrokenOff(TagOf(f)[..k])
  {
    VarintCut(8 * f.tag + WireType(f.ltype), k);
  }

  lemma MalformedFails(fields: seq<Field>, m: Message, seen: set<nat>, s: Bytes)
    requires s != [] && BrokenOff(s)
    ensures D.DecodeFields(fields, m, seen, s) == None
  {
    BrokenOffFails(s);
  }

  /** A message cut anywhere inside a field is refused, whatever came before it. */
  lemma CutMessageFails(fields: seq<Field>, m: Message, i: nat, k: nat, before: Bytes, e: Bytes)
    requires WellFormed(fields) && Typed(fields, m) && i < |fields| && fields[i].slot in m
    requires EncodeFields(fields, m, i) == Some(before) && |before| < Max63
    requires Present(fields[i], m[fields[i].slot]) && !fields[i].rule.Repeated?
    requires EncodeField(fields[i], m[fields[i].slot]) == Some(e) && |e| < Max63 && 0 < k < |e|
    ensures D.Decode(fields, before + e[..k]) == None
  {
    hide EncodeFields;
    hide EncodeField;
    hide Back;
    hide Decodable;
    hide Defaults;
    hide D.DecodeFields;
    hide Present;
    hide SeenUpTo;
    FieldsBack(fields, m, i, before, e[..k]);
    CutRecord(fields, m, i, k, e);
  }

  // -------------------------------------------------------------- missing required fields

  /** The description without field i: what a sender that leaves it out encodes by. */
  function Without(fields: seq<Field>, i: nat): (r: seq<Field>)
    requires i < |fields|
    ensures |r| == |fields| - 1
    ensures forall n :: 0 <= n < |r| ==> r[n] == fields[Place(i, n)]
  {
    fields[..i] + fields[i + 1..]
  }

  function Place(i: nat, n: nat): nat { if n < i then n else n + 1 }

  /** One field more, decoded onto any message in which it is untouched. */
  lemma AnyFieldBack(fields: seq<Field>, m: Message, seen: set<nat>, j: nat, s: Slot, e: Bytes, rest: Bytes)
    requires WellFormed(fields) && j < |fields| && fields[j].slot in m && Untouched(fields[j], m[fields[j].slot])
    requires TypedSlot(fields[j], s) && Present(fields[j], s) && EncodeField(fields[j], s) == Some(e) && |e| < Max63
    ensures D.DecodeFields(fields, m, seen, e + rest) ==
              if DecodableSlot(fields[j], s)
              then D.DecodeFields(fields, m[fields[j].slot := BackSlot(fields[j], s)], D.Seen(fields, j, seen), rest)
              else None
  {
    hide EncodeItem;
    hide EncodeItems;
    hide D.DecodeFields;
    hide D.DecodeField;
    hide DecodableItem;
    hide DecodableItems;
    hide BackSlot;
    hide Tag;
    var f := fields[j];
    assert WellFormedField(f);
    if f.rule.Repeated? {
      RepeatedBack(fields, m, seen, j, s, e, rest);
    } else {
      OneBack(f, s, m[f.slot], e, rest);
      RecordStep(fields, m, seen, j, WireType(f.ltype), EncodeItem(f.ltype, s.value).value + rest);
    }
  }

  /** The fields from n on, of those without i, are untouched, and i has not been seen. */
  ghost predicate StillWithout(fields: seq<Field>, i: nat, n: nat, m: Message, seen: set<nat>)
    requires i < |fields|
  {
    && RequiredBefore(fields, i) !in seen
    && forall k :: n <= k < |fields| - 1 ==>
         var f := fields[Place(i, k)]; f.slot in m && Untouched(f, m[f.slot])
  }

  lemma {:induction false} WithoutBack(fields: seq<Field>, m: Message, i: nat, n: nat, e: Bytes, rest: Bytes)
      returns (failed: bool, m': Message, seen: set<nat>)
    requires WellFormed(fields) && Typed(fields, m) && i < |fields| && fields[i].rule.Required? && n < |fields|
    requires EncodeFields(Without(fields, i), m, n) == Some(e) && |e| < Max63
    ensures D.DecodeFields(fields, Defaults(fields, |fields|), {}, e + rest) ==
              if failed then None else D.DecodeFields(fields, m', seen, rest)
    ensures StillWithout(fields, i, n, m', seen)
    decreases n
  {
    hide D.DecodeFields;
    hide EncodeField;
    hide DecodableSlot;
    hide BackSlot;
    hide WellFormed;
    hide Present;
    if n == 0 {
      failed, m', seen := false, Defaults(fields, |fields|), {};
      assert e + rest == rest;
      forall k | 0 <= k < |fields| - 1 ensures var f := fields[Place(i, k)]; f.slot in m' && Untouched(f, m'[f.slot]) {
        DefaultUntouched(fields, Place(i, k));
      }
    } else {
      var j := Place(i, n - 1);
      var f := Without(fields, i)[n - 1];
      assert f == fields[j] && f.slot in m && TypedSlot(f, m[f.slot]);
      var before, last := EncodeFields(Without(fields, i), m, n - 1), EncodeField(f, m[f.slot]);
      BothParts(before, last, e, rest);
      failed, m', seen := WithoutBack(fields, m, i, n - 1, before.value, last.value + rest);
      if !Present(f, m[f.slot]) {
        AbsentIsEmpty(f, m[f.slot]);
        assert last.value + rest == rest;
      } else {
        AnyFieldBack(fields, m', seen, j, m[f.slot], last.value, rest);
        OneSeen(fields, m, i, n - 1, m', seen);
        failed := failed || !DecodableSlot(f, m[f.slot]);
        m', seen := m'[f.slot := BackSlot(f, m[f.slot])], D.Seen(fields, j, seen);
      }
    }
  }

  lemma DefaultUntouched(fields: seq<Field>, j: nat)
    requires WellFormed(fields) && j < |fields|
    ensures fields[j].slot in Defaults(fields, |fields|)
    ensures Untouched(fields[j], Defaults(fields, |fields|)[fields[j].slot])
  {
    DefaultsAt(fields, |fields|, j);
    assert 0 < fields[j].tag;
  }

  lemma AbsentIsEmpty(f: Field, s: Slot)
    requires TypedSlot(f, s) && !Present(f, s)
    ensures EncodeField(f, s) == Some([])
  {
    hide EncodeItem;
    hide TypedItem;
  }

  /** Decoding a field touches no later one, and is not seeing field i. */
  lemma OneSeen(fields: seq<Field>, m: Message, i: nat, n: nat, m': Message, seen: set<nat>)
    requires WellFormed(fields) && Typed(fields, m) && i < |fields| && fields[i].rule.Required? && n < |fields| - 1
    requires StillWithout(fields, i, n, m', seen)
    requires var f := fields[Place(i, n)]; f.slot in m && Present(f, m[f.slot])
    ensures var f := fields[Place(i, n)];
            StillWithout(fields, i, n + 1, m'[f.slot := BackSlot(f, m[f.slot])], D.Seen(fields, Place(i, n), seen))
  {
    hide BackItem;
    hide BackItems;
    var j := Place(i, n);
    var f := fields[j];
    assert TypedSlot(f, m[f.slot]);
    if j < i { RequiredBeforeMonotone(fields, j, i); } else { RequiredBeforeMonotone(fields, i, j); }
    forall k | n + 1 <= k < |fields| - 1
      ensures var g := fields[Place(i, k)];
              g.slot in m' && Untouched(g, m'[f.slot := BackSlot(f, m[f.slot])][g.slot])
    {
      var g := fields[Place(i, k)];
      assert g.slot in m' && Untouched(g, m'[g.slot]);
      assert j < Place(i, k);
      if g.slot == f.slot {
        assert f.rule.Oneof? && g.rule.Oneof? && f.tag != g.tag;
      }
    }
  }

  /** A message that lacks a required field, one of those kept track of, is refused. */
  lemma MissingRequiredFails(fields: seq<Field>, m: Message, i: nat)
    requires WellFormed(fields) && Typed(fields, m) && i < |fields|
    requires fields[i].rule.Required? && RequiredBefore(fields, i) < 64
    requires Encode(Without(fields, i), m).Some? && |Encode(Without(fields, i), m).value| < Max63
    ensures D.Decode(fields, Encode(Without(fields, i), m).value) == None
  {
    hide EncodeFields;
    hide StillWithout;
    var e := Encode(Without(fields, i), m).value;
    var failed, m', seen := WithoutBack(fields, m, i, |fields| - 1, e, []);
    assert e + [] == e;
    NotAllSeen(fields, i, |fields| - 1, m', seen);
  }

  lemma NotAllSeen(fields: seq<Field>, i: nat, n: nat, m: Message, seen: set<nat>)
    requires i < |fields| && fields[i].rule.Required? && RequiredBefore(fields, i) < 64
    requires StillWithout(fields, i, n, m, seen)
    ensures D.DecodeFields(fields, m, seen, []) == None
  {
    RequiredBeforeMonotone(fields, i, |fields|);
  }

  // --------------------------------------------------------------------- other failures

  /** An unknown field of a wire type there is no way to skip is refused. */
  lemma BadWireTypeFails(fields: seq<Field>, m: Message, seen: set<nat>, tag: nat, wireType: nat, rest: Bytes)
    requires 0 < tag < TagLimit && FieldOf(fields, tag) == |fields|
    requires wireType == 3 || wireType == 4 || wireType == 6 || wireType == 7
    ensures D.DecodeFields(fields, m, seen, Tag(tag, wireType) + rest) == None
  {
    hide Tag;
    hide D.DecodeTag;
    TagBack(tag, wireType, rest);
  }

  lemma {:induction false} ItemsSplit(t: Type, items: seq<Value>, n: nat, k: nat, e: Bytes) returns (a: Bytes, b: Bytes)
    requires Packable(t) && WellFormedType(t) && k < n <= |items| && EncodeItems(t, [], items, n) == Some(e)
    requires forall i :: 0 <= i < |items| ==> TypedItem(t, items[i])
    ensures EncodeItems(t, [], items, k) == Some(a) && e == a + b && b != []
    decreases n
  {
    hide EncodeItem;
    hide Packable;
    hide WellFormedType;
    hide TypedItem;
    var before, item := EncodeItems(t, [], items, n - 1), EncodeItem(t, items[n - 1]);
    assert e + [] == e;
    BothParts(before, Both(Some([]), item), e, []);
    BothParts(Some([]), item, Both(Some([]), item).value, []);
    NumberBack(t, items[n - 1], Zero(t), item.value, []);
    if k == n - 1 {
      a, b := before.value, [] + item.value;
    } else {
      a, b := ItemsSplit(t, items, n - 1, k, before.value);
      assert e == before.value + ([] + item.value);
      assert before.value == a + b;
      assert e == a + (b + item.value);
      b := b + item.value;
    }
  }

  /** A packed array of more items than there is room for is refused. */
  lemma TooManyFails(fields: seq<Field>, m: Message, seen: set<nat>, i: nat, items: seq<Value>, payload: Bytes,
                     rest: Bytes)
    requires WellFormed(fields) && i < |fields| && fields[i].slot in m && m[fields[i].slot] == Many([])
    requires fields[i].rule.Repeated? && Packable(fields[i].ltype) && |items| > fields[i].rule.arraySize
    requires forall k :: 0 <= k < |items| ==> TypedItem(fields[i].ltype, items[k])
    requires EncodeItems(fields[i].ltype, [], items, |items|) == Some(payload) && |payload| < Max32
    ensures D.DecodeFields(fields, m, seen, Tag(fields[i].tag, WireString) + (Varint(|payload|) + payload + rest)) ==
        None
  {
    hide D.DecodeFields;
    hide D.DecodePacked;
    hide EncodeItems;
    hide TypedItem;
    hide Tag;
    hide Varint;
    hide D.Substream;
    hide WellFormedType;
    var f := fields[i];
    assert WellFormedField(f);
    RecordStep(fields, m, seen, i, WireString, Varint(|payload|) + payload + rest);
    LengthBack(payload, rest);
    var a, b := ItemsSplit(f.ltype, items, |items|, f.rule.arraySize, payload);
    PackedBack(f.ltype, items, f.rule.arraySize, f.rule.arraySize, a, b);
    NoRoom(f.ltype, items[..f.rule.arraySize], b);
  }

  lemma NoRoom(t: Type, items: seq<Value>, b: Bytes)
    requires b != []
    ensures D.DecodePacked(t, items, |items|, b) == None
  {
  }
}
