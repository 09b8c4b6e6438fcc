/** nanopb's message descriptions and the messages they describe (pb.h, pb_decode.c's defaults, pb_encode.c's
    zero check). A struct's storage is divided into slots; the fields of a oneof share one. */
module NanopbSchema {
  import opened Coding
  import opened Options

  type Bytes = seq<Byte>

  /** PB_HTYPE. Singular is an optional field without a has_ flag, as proto3 has them. */
  datatype Rule = Required | Optional | Singular | Repeated(arraySize: nat) | Oneof

  /** PB_LTYPE (VARINT, UVARINT and SVARINT being Int, UInt and SInt), with the sizes that data_size gives: of an
      integer 1, 2, 4 or 8 bytes; of a byte array what fits behind
      its length; of a string its storage, the final zero included. */
  datatype Type =
    | Bool | Int(size: nat) | UInt(size: nat) | SInt(size: nat) | Fixed32 | Fixed64
    | ByteArray(capacity: nat) | Text(size: nat) | Submessage(fields: seq<Field>) | FixedLength(size: nat)

  datatype Field = Field(tag: nat, rule: Rule, ltype: Type, slot: nat, initial: Option<Value>)

  /** One item. A Text's bytes are those before its first zero, or all of its storage. */
  datatype Value = Flag(b: bool) | Number(n: int) | Data(bytes: Bytes) | Struct(slots: Message) | Unset

  /** A required or singular field; one with its has_ flag; an array's items in use; a oneof with its which_. */
  datatype Slot = One(value: Value) | Maybe(has: bool, value: Value) | Many(items: seq<Value>) |
      Union(which: nat, value: Value)

  /** A struct: its slots by number. */
  type Message = map<nat, Slot>

  predicate Packable(t: Type) { t.Bool? || t.Int? || t.UInt? || t.SInt? || t.Fixed32? || t.Fixed64? }

  // ---------------------------------------------------------------------- well-formed messages

  function Half(size: nat): nat {
    if size == 1 then 0x80 else if size == 2 then 0x8000 else if size == 4 then 0x8000_0000 else 0x8000_0000_0000_0000
  }

  predicate FitsSigned(size: nat, n: int) { -(Half(size) as int) <= n < Half(size) }

  predicate FitsUnsigned(size: nat, n: int) { 0 <= n < 2 * Half(size) }

  predicate IntegerSize(size: nat) { size == 1 || size == 2 || size == 4 || size == 8 }

  const SizeMax: nat := 0xffff_ffff    // PB_SIZE_MAX under PB_FIELD_32BIT
  const TagLimit: nat := 0x2000_0000   // of the wire format

  /** What the generator of descriptions guarantees. */
  ghost predicate WellFormed(fields: seq<Field>) {
    && (forall i :: 0 <= i < |fields| ==> 0 < fields[i].tag < TagLimit && WellFormedField(fields[i]))
    && (forall i, j :: 0 <= i < j < |fields| ==> fields[i].tag != fields[j].tag)
    && (forall i, j :: 0 <= i < j < |fields| ==> fields[i].slot == fields[j].slot ==>
        fields[i].rule.Oneof? && fields[j].rule.Oneof?)
  }

  ghost predicate WellFormedField(f: Field) { WellFormedType(f.ltype) }

  ghost predicate WellFormedType(t: Type) {
    match t
    case Int(size) => IntegerSize(size)
    case UInt(size) => IntegerSize(size)
    case SInt(size) => IntegerSize(size)
    case ByteArray(capacity) => capacity <= SizeMax
    case Text(size) => 0 < size <= SizeMax
    case FixedLength(size) => size <= SizeMax
    case Submessage(fields) => WellFormed(fields)
    case _ => true
  }

  /** The value is one of the type's. */
  ghost predicate TypedItem(t: Type, v: Value) {
    match t
    case Bool => v.Flag?
    case Int(size) => v.Number? && FitsSigned(size, v.n)
    case UInt(size) => v.Number? && FitsUnsigned(size, v.n)
    case SInt(size) => v.Number? && FitsSigned(size, v.n)
    case Fixed32 => v.Number? && FitsUnsigned(4, v.n)
    case Fixed64 => v.Number? && FitsUnsigned(8, v.n)
    case ByteArray(capacity) => v.Data? && |v.bytes| <= SizeMax
    case Text(size) => v.Data? && |v.bytes| <= size && 0 !in v.bytes
    case FixedLength(size) => v.Data? && |v.bytes| == size
    case Submessage(fields) => v.Struct? && Typed(fields, v.slots)
  }

  ghost predicate TypedSlot(f: Field, s: Slot) {
    match f.rule
    case Required => s.One? && TypedItem(f.ltype, s.value)
    case Singular => s.One? && TypedItem(f.ltype, s.value)
    case Optional => s.Maybe? && (s.has ==> TypedItem(f.ltype, s.value))
    case Repeated(_) => s.Many? && forall i :: 0 <= i < |s.items| ==> TypedItem(f.ltype, s.items[i])
    case Oneof => s.Union? && (s.which == f.tag ==> TypedItem(f.ltype, s.value))
  }

  ghost predicate Typed(fields: seq<Field>, m: Message) {
    forall i :: 0 <= i < |fields| ==> fields[i].slot in m && TypedSlot(fields[i], m[fields[i].slot])
  }

  /** The same message up to storage not in use. */
  ghost predicate Same(fields: seq<Field>, a: Message, b: Message) {
    forall i :: 0 <= i < |fields| ==>
        fields[i].slot in a && fields[i].slot in b
        && SameSlot(fields[i], a[fields[i].slot], b[fields[i].slot])
  }

  ghost predicate SameSlot(f: Field, a: Slot, b: Slot) {
    match f.rule
    case Required => a.One? && b.One? && SameItem(f.ltype, a.value, b.value)
    case Singular => a.One? && b.One? && SameItem(f.ltype, a.value, b.value)
    case Optional => a.Maybe? && b.Maybe? && a.has == b.has && (a.has ==> SameItem(f.ltype, a.value, b.value))
    case Repeated(_) => a.Many? && b.Many? && |a.items| == |b.items| && forall i :: 0 <= i < |a.items| ==>
        SameItem(f.ltype, a.items[i], b.items[i])
    case Oneof =>
        a.Union? && b.Union? && (a.which == f.tag <==> b.which == f.tag)
        && (a.which == f.tag ==> SameItem(f.ltype, a.value, b.value))
  }

  ghost predicate SameItem(t: Type, a: Value, b: Value) {
    match t
    case Submessage(fields) => a.Struct? && b.Struct? && Same(fields, a.slots, b.slots)
    case _ => a == b
  }

  // ----------------------------------------------------------------------------- defaults

  function Zero(t: Type): Value {
    match t
    case Bool => Flag(false)
    case ByteArray(_) => Data([])
    case Text(_) => Data([])
    case FixedLength(size) => Data(seq(size, i => 0))
    case Submessage(fields) => Struct(Defaults(fields, |fields|))
    case _ => Number(0)
  }

  /** pb_field_set_to_default: a submessage's own defaults, else the given initial value, else zeros. */
  function InitialItem(f: Field): Value
    decreases f, 0
  {
    if f.ltype.Submessage? || f.initial.None? then Zero(f.ltype) else f.initial.value
  }

  function InitialSlot(f: Field): Slot
    decreases f, 1
  {
    match f.rule
    case Required => One(InitialItem(f))
    case Singular => One(InitialItem(f))
    case Optional => Maybe(false, InitialItem(f))
    case Repeated(_) => Many([])
    case Oneof => Union(0, Unset)
  }

  /** pb_message_set_to_defaults, for the first n fields. */
  function Defaults(fields: seq<Field>, n: nat): Message
    requires n <= |fields|
    decreases fields, n
  {
    if n == 0 then map[] else Defaults(fields, n - 1)[fields[n - 1].slot := InitialSlot(fields[n - 1])]
  }

  // ------------------------------------------------------------------------- the zero check

  /** pb_check_proto3_default_value: whether the field is left out of an encoding, as a proto3 field is when zero. */
  predicate IsDefault(f: Field, s: Slot) {
    match (f.rule, s)
    case (Required, _) => false
    case (Repeated(_), Many(items)) => items == []
    case (Oneof, Union(which, _)) => which == 0
    case (Optional, Maybe(has, _)) => !has
    case (_, One(v)) => IsZero(f.ltype, v)
    case _ => false
  }

  predicate IsZero(t: Type, v: Value) {
    match (t, v)
    case (ByteArray(_), Data(b)) => b == []
    case (Text(_), Data(b)) => b == []
    case (FixedLength(size), _) => size == 0
    case (Submessage(fields), Struct(slots)) => forall i :: 0 <= i < |fields| ==>
        fields[i].slot in slots && IsDefault(fields[i], slots[fields[i].slot])
    case (_, Flag(b)) => !b
    case (_, Number(n)) => n == 0
    case _ => false
  }
}
