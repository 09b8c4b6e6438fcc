/** What nanopb encodes a message to (pb_encode.c). */
module NanopbEncode {
  import opened Options
  import opened Varints
  import opened NanopbSchema
  // ---------------------------------------------------------------------------- numbers

  /** A two's complement number's 64 bits. */
  function Unsigned64(n: int): nat { n % Max64 }

  /** pb_encode_svarint: signs alternate, so that small numbers stay short. */
  function ZigZag(n: int): nat {
    var doubled := Unsigned64(n) * 2 % Max64;
    if n < 0 then Max64 - 1 - doubled else doubled
  }

  const WireVarint := 0
  const Wire64Bit := 1
  const WireString := 2
  const Wire32Bit := 5

  function WireType(t: Type): (r: nat)
    ensures r < 8
  {
    match t
    case Fixed32 => Wire32Bit
    case Fixed64 => Wire64Bit
    case ByteArray(_) => WireString
    case Text(_) => WireString
    case Submessage(_) => WireString
    case FixedLength(_) => WireString
    case _ => WireVarint
  }

  function Tag(tag: nat, wireType: nat): Bytes { Varint(8 * tag + wireType) }

  function TagOf(f: Field): Bytes { Tag(f.tag, WireType(f.ltype)) }

  // --------------------------------------------------------------------------- encoding

  /** One after the other, if both work out. */
  function Both(a: Option<Bytes>, b: Option<Bytes>): Option<Bytes> {
    if a.Some? && b.Some? then Some(a.value + b.value) else None
  }

  /** With its length before it. */
  function Delimited(a: Option<Bytes>): Option<Bytes> {
    if a.Some? then Some(Varint(|a.value|) + a.value) else None
  }

  /** PB_ENCODERS. */
  function EncodeItem(t: Type, v: Value): Option<Bytes>
    decreases t, 0
  {
    match (t, v)
    case (Bool, Flag(b)) => Some(Varint(if b then 1 else 0))
    case (Int(size), Number(n)) => if IntegerSize(size) then Some(Varint(Unsigned64(n))) else None
    case (UInt(size), Number(n)) => if IntegerSize(size) then Some(Varint(Unsigned64(n))) else None
    case (SInt(size), Number(n)) => if IntegerSize(size) then Some(Varint(ZigZag(n))) else None
    case (Fixed32, Number(n)) => Some(Fixed(n % Max32, 4))
    case (Fixed64, Number(n)) => Some(Fixed(n % Max64, 8))
    case (ByteArray(capacity), Data(bytes)) => if |bytes| > capacity then None else Delimited(Some(bytes))
    case (Text(_), Data(bytes)) => Delimited(Some(bytes))
    case (FixedLength(_), Data(bytes)) => Delimited(Some(bytes))
    case (Submessage(fields), Struct(slots)) => Delimited(EncodeFields(fields, slots, |fields|))
    case _ => None
  }

  /** The first n items, each with the same bytes before it. */
  function EncodeItems(t: Type, before: Bytes, items: seq<Value>, n: nat): Option<Bytes>
    requires n <= |items|
    decreases t, n + 1
  {
    if n == 0 then Some([]) else Both(EncodeItems(t, before, items, n - 1),
        Both(Some(before), EncodeItem(t, items[n - 1])))
  }

  /** encode_basic_field and encode_array. */
  function EncodeField(f: Field, s: Slot): Option<Bytes>
    decreases f, 0
  {
    match (f.rule, s)
    case (Required, One(v)) => Both(Some(TagOf(f)), EncodeItem(f.ltype, v))
    case (Singular, One(v)) => if IsDefault(f, s) then Some([]) else Both(Some(TagOf(f)), EncodeItem(f.ltype, v))
    case (Optional, Maybe(has, v)) => if has then Both(Some(TagOf(f)), EncodeItem(f.ltype, v)) else Some([])
    case (Repeated(arraySize), Many(items)) =>
      if items == [] then Some([])
      else if |items| > arraySize then None
      else if Packable(f.ltype) then Both(Some(Tag(f.tag, WireString)),
          Delimited(EncodeItems(f.ltype, [], items, |items|)))
      else EncodeItems(f.ltype, TagOf(f), items, |items|)
    case (Oneof, Union(which, v)) => if which == f.tag then Both(Some(TagOf(f)), EncodeItem(f.ltype, v)) else Some([])
    case _ => None
  }

  /** pb_encode, of the first n fields. */
  function EncodeFields(fields: seq<Field>, m: Message, n: nat): Option<Bytes>
    requires n <= |fields|
    decreases fields, n
  {
    if n == 0 then Some([])
    else Both(EncodeFields(fields, m, n - 1), if fields[n - 1].slot in m
        then EncodeField(fields[n - 1], m[fields[n - 1].slot]) else None)
  }

  function Encode(fields: seq<Field>, m: Message): Option<Bytes> { EncodeFields(fields, m, |fields|) }

  // ------------------------------------------------------------------------------ sizes

  /** Packed fixed-width items need no sizing pass. */
  lemma {:induction false} FixedSize(t: Type, items: seq<Value>, n: nat)
    requires n <= |items| && (t.Fixed32? || t.Fixed64?) && forall i :: 0 <= i < n ==> items[i].Number?
    ensures EncodeItems(t, [], items, n).Some? && |EncodeItems(t, [], items, n).value| ==
        (if t.Fixed32? then 4 else 8) * n
  {
    if n > 0 {
      FixedSize(t, items, n - 1);
      assert items[n - 1].Number?;
    }
  }
}
