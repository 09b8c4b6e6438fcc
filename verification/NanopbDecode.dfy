/** What nanopb decodes bytes to (pb_decode.c). None where it fails; what a failed call leaves behind is not said. */
module NanopbDecode {
  import opened Options
  import opened Varints
  import opened NanopbSchema
  import opened NanopbFields
  import opened NanopbWire
  import E = NanopbEncode

  // ---------------------------------------------------------------------------- numbers

  function Signed(value: nat, modulus: nat): int { if 2 * value < modulus then value else value - modulus }

  /** pb_decode_svarint. */
  function UnZigZag(value: nat): int { if value % 2 == 1 then -(value / 2) - 1 else value / 2 }

  /** pb_dec_varint: of a field of at most 32 bits only the low 32 are looked at. */
  function DecodeInt(size: nat, value: nat): Option<Value> {
    var n := if size == 8 then Signed(value, Max64) else Signed(value % Max32, Max32);
    if IntegerSize(size) && FitsSigned(size, n) then Some(Number(n)) else None
  }

  function DecodeUInt(size: nat, value: nat): Option<Value> {
    if IntegerSize(size) && FitsUnsigned(size, value) then Some(Number(value)) else None
  }

  function DecodeSInt(size: nat, value: nat): Option<Value> {
    if IntegerSize(size) && FitsSigned(size, UnZigZag(value)) then Some(Number(UnZigZag(value))) else None
  }

  /** A C string's characters. */
  function UpToZero(s: Bytes): Bytes {
    if s == [] || s[0] == 0 then [] else [s[0]] + UpToZero(s[1..])
  }

  // -------------------------------------------------------------------------- substreams

  /** pb_read. */
  function Read(s: Bytes, count: nat): (r: Option<(Bytes, Bytes)>)
    ensures r.Some? ==> |r.value.0| == count && |r.value.1| == |s| - count
  {
    if |s| < count then None else Some((s[..count], s[count..]))
  }

  /** pb_make_string_substream and pb_close_string_substream: the delimited bytes, and what follows them. */
  function Substream(s: Bytes): (r: Option<(Bytes, Bytes)>)
    ensures r.Some? ==> |r.value.0| + |r.value.1| < |s|
  {
    match DecodeVarint32(s)
    case None => None
    case Some((size, rest)) => Read(rest, size)
  }

  datatype TagResult = End | Malformed | Next(tag: nat, wireType: nat, rest: Bytes)

  /** pb_decode_tag: a zero ends the message. */
  function DecodeTag(s: Bytes): (r: TagResult)
    ensures r.Next? ==> |r.rest| < |s|
  {
    match DecodeVarint32(s)
    case None => Malformed
    case Some((value, rest)) => if value == 0 then End else Next(value / 8, value % 8, rest)
  }

  function SkipVarint(s: Bytes): (r: Option<Bytes>)
    ensures r.Some? ==> |r.value| < |s|
  {
    if s == [] then None else if s[0] >= 128 then SkipVarint(s[1..]) else Some(s[1..])
  }

  /** pb_skip_field. */
  function Skip(wireType: nat, s: Bytes): (r: Option<Bytes>)
    ensures r.Some? ==> |r.value| <= |s|
  {
    if wireType == E.WireVarint then SkipVarint(s)
    else if wireType == E.Wire64Bit then (if |s| < 8 then None else Some(s[8..]))
    else if wireType == E.WireString then (match Substream(s) case None => None case Some((_, rest)) => Some(rest))
    else if wireType == E.Wire32Bit then (if |s| < 4 then None else Some(s[4..]))
    else None
  }

  // ---------------------------------------------------------------------------- decoding

  function WithRest(v: Option<Value>, rest: Bytes): (r: Option<(Value, Bytes)>)
    ensures r.Some? ==> r.value.1 == rest
  {
    if v.Some? then Some((v.value, rest)) else None
  }

  /** PB_DECODERS. A submessage is decoded on top of what was there. */
  function DecodeItem(t: Type, was: Value, s: Bytes): (r: Option<(Value, Bytes)>)
    ensures r.Some? ==> |r.value.1| <= |s|
    decreases t, 0
  {
    match t
    case Bool => (match DecodeVarint32(s) case None => None case Some((value, rest)) => Some((Flag(value != 0), rest)))
    case Int(size) => (match Varint64(s) case None => None case Some((value, rest)) =>
        WithRest(DecodeInt(size, value), rest))
    case UInt(size) => (match Varint64(s) case None => None case Some((value, rest)) =>
        WithRest(DecodeUInt(size, value), rest))
    case SInt(size) => (match Varint64(s) case None => None case Some((value, rest)) =>
        WithRest(DecodeSInt(size, value), rest))
    case Fixed32 => (match Read(s, 4) case None => None case Some((bytes, rest)) =>
        Some((Number(FixedValue(bytes)), rest)))
    case Fixed64 => (match Read(s, 8) case None => None case Some((bytes, rest)) =>
        Some((Number(FixedValue(bytes)), rest)))
    case ByteArray(capacity) =>
      (match DecodeVarint32(s)
       case None => None
       case Some((size, rest)) =>
         if size > capacity then None
         else match Read(rest, size) case None => None case Some((bytes, rest')) => Some((Data(bytes), rest')))
    case Text(dataSize) =>
      (match DecodeVarint32(s)
       case None => None
       case Some((size, rest)) =>
         if size + 1 > dataSize then None
         else match Read(rest, size) case None => None case Some((bytes, rest')) =>
             Some((Data(UpToZero(bytes)), rest')))
    case FixedLength(dataSize) =>
      (match DecodeVarint32(s)
       case None => None
       case Some((size, rest)) =>
         if size == 0 then Some((Data(seq(dataSize, i => 0)), rest))
         else if size != dataSize then None
         else match Read(rest, size) case None => None case Some((bytes, rest')) => Some((Data(bytes), rest')))
    case Submessage(fields) =>
      (match Substream(s)
       case None => None
       case Some((body, rest)) =>
         if !was.Struct? then None
         else match DecodeFields(fields, was.slots, {}, body) case None => None case Some(m) => Some((Struct(m), rest)))
  }

  /** The items of a packed array, behind those there are. */
  function DecodePacked(t: Type, items: seq<Value>, arraySize: nat, body: Bytes): Option<seq<Value>>
    decreases t, 1, if arraySize > |items| then arraySize - |items| else 0
  {
    if body == [] then Some(items)
    else if |items| >= arraySize then None
    else
      match DecodeItem(t, Zero(t), body)
      case None => None
      case Some((v, rest)) => DecodePacked(t, items + [v], arraySize, rest)
  }

  /** decode_static_field. */
  function DecodeField(f: Field, wireType: nat, slot: Slot, s: Bytes): (r: Option<(Slot, Bytes)>)
    ensures r.Some? ==> |r.value.1| <= |s|
    decreases f
  {
    match (f.rule, slot)
    case (Required, One(was)) => (match DecodeItem(f.ltype, was, s) case None => None case Some((v, rest)) =>
        Some((One(v), rest)))
    case (Singular, One(was)) => (match DecodeItem(f.ltype, was, s) case None => None case Some((v, rest)) =>
        Some((One(v), rest)))
    case (Optional, Maybe(_, was)) => (match DecodeItem(f.ltype, was, s) case None => None case Some((v, rest)) =>
        Some((Maybe(true, v), rest)))
    case (Repeated(arraySize), Many(items)) =>
      if wireType == E.WireString && Packable(f.ltype) then
        match Substream(s)
        case None => None
        case Some((body, rest)) => (match DecodePacked(f.ltype, items, arraySize, body) case None =>
            None case Some(all) => Some((Many(all), rest)))
      else if |items| >= arraySize then None
      else (match DecodeItem(f.ltype, Zero(f.ltype), s) case None => None case Some((v, rest)) =>
          Some((Many(items + [v]), rest)))
    case (Oneof, Union(which, was)) =>
      var start := if f.ltype.Submessage? && which != f.tag then Zero(f.ltype) else was;
      (match DecodeItem(f.ltype, start, s) case None => None case Some((v, rest)) => Some((Union(f.tag, v), rest)))
    case _ => None
  }

  const MaxRequiredFields: nat := 64

  /** The required field's bit is set, if it has one. */
  function Seen(fields: seq<Field>, i: nat, seen: set<nat>): set<nat>
    requires i < |fields|
  {
    if fields[i].rule.Required? && RequiredBefore(fields, i) < MaxRequiredFields then seen + {RequiredBefore(fields, i)}
        else seen
  }

  /** Whether all required fields that are kept track of are there. */
  predicate AllSeen(fields: seq<Field>, seen: set<nat>) {
    forall k :: 0 <= k < RequiredBefore(fields, |fields|) && k < MaxRequiredFields ==> k in seen
  }

  /** pb_decode_noinit. The terminator of an empty description passes for a field of tag 0, a bool. */
  function DecodeFields(fields: seq<Field>, m: Message, seen: set<nat>, s: Bytes): Option<Message>
    decreases fields, |s|
  {
    if s == [] then (if AllSeen(fields, seen) then Some(m) else None)
    else
      match DecodeTag(s)
      case End => if AllSeen(fields, seen) then Some(m) else None
      case Malformed => None
      case Next(tag, wireType, rest) =>
        var i := FieldOf(fields, tag);
        if i < |fields| then
          if fields[i].slot !in m then None
          else
            match DecodeField(fields[i], wireType, m[fields[i].slot], rest)
            case None => None
            case Some((slot, rest')) => DecodeFields(fields, m[fields[i].slot := slot], Seen(fields, i, seen), rest')
        else if fields == [] && tag == 0 then
          match DecodeVarint32(rest)
          case None => None
          case Some((_, rest')) => DecodeFields(fields, m, seen, rest')
        else
          match Skip(wireType, rest)
          case None => None
          case Some(rest') => DecodeFields(fields, m, seen, rest')
  }

  /** pb_decode. */
  function Decode(fields: seq<Field>, s: Bytes): Option<Message> {
    DecodeFields(fields, Defaults(fields, |fields|), {}, s)
  }
}
