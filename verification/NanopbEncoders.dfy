/** nanopb's output streams and encoders (pb_encode.c): they write exactly the encoding when it fits, and never past
    the stream's end. */
module NanopbEncoders {
  import opened Coding
  import opened Options
  import opened Varints
  import opened NanopbSchema
  import E = NanopbEncode

  // ------------------------------------------------------------------- what a write does

  /** A stream and its buffer, if it has one. */
  datatype Output = Output(data: Option<Bytes>, state: nat, maxSize: nat, bytesWritten: nat)

  /** What the stream may still write lies in its buffer. */
  ghost predicate InBuffer(a: Output) {
    a.data.Some? ==> a.bytesWritten <= a.maxSize && a.state + (a.maxSize - a.bytesWritten) <= |a.data.value|
  }

  ghost predicate Fits(a: Output, n: nat) { a.data.Some? ==> a.bytesWritten + n <= a.maxSize }

  /** Outside what the stream may write, nothing changes. */
  ghost predicate Kept(a: Output, b: Output) {
    a.data.Some? ==>
      && b.data.Some? && |b.data.value| == |a.data.value| && InBuffer(a)
      && b.data.value[..a.state] == a.data.value[..a.state]
      && b.data.value[a.state + (a.maxSize - a.bytesWritten)..] ==
          a.data.value[a.state + (a.maxSize - a.bytesWritten)..]
  }

  /** A sizing stream has just counted the bytes; another has put them where it stood. */
  ghost predicate Written(a: Output, b: Output, bytes: Bytes) {
    && b.maxSize == a.maxSize && b.bytesWritten == a.bytesWritten + |bytes|
    && (a.data.Some? ==>
          && b.data.Some? && a.state + |bytes| <= |a.data.value| && b.state == a.state + |bytes|
          && b.data.value == a.data.value[..a.state] + bytes + a.data.value[a.state + |bytes|..])
  }

  /** Success is exactly that there is an encoding and room for it. */
  ghost predicate Outcome(a: Output, b: Output, encoding: Option<Bytes>, ok: bool) {
    && b.data.Some? == a.data.Some? && b.maxSize == a.maxSize
    && InBuffer(a) && InBuffer(b)
    && (ok <==> encoding.Some? && Fits(a, |encoding.value|))
    && (ok ==> Written(a, b, encoding.value))
    && Kept(a, b)
    && (a.data.Some? ==> b.bytesWritten >= a.bytesWritten && b.state - a.state == b.bytesWritten - a.bytesWritten)
  }

  lemma NothingWritten(a: Output)
    requires InBuffer(a)
    ensures Outcome(a, a, Some([]), true)
  {
    if a.data.Some? { assert a.data.value == a.data.value[..a.state] + [] + a.data.value[a.state + 0..]; }
  }

  lemma NoEncoding(a: Output)
    requires InBuffer(a)
    ensures Outcome(a, a, None, false)
  {
  }

  /** After a failure nothing more is tried. */
  lemma Stops(a: Output, b: Output, first: Option<Bytes>, second: Option<Bytes>)
    requires Outcome(a, b, first, false)
    ensures Outcome(a, b, E.Both(first, second), false)
  {
  }

  lemma Then(a: Output, b: Output, c: Output, first: Option<Bytes>, second: Option<Bytes>, ok: bool)
    requires Outcome(a, b, first, true) && Outcome(b, c, second, ok)
    ensures Outcome(a, c, E.Both(first, second), ok)
  {
    if a.data.Some? {
      var s, n := a.state, a.maxSize - a.bytesWritten;
      KeptOn(a.data.value, b.data.value, c.data.value, s, |first.value|, n);
      if ok { WrittenOn(a.data.value, b.data.value, c.data.value, s, first.value, second.value); }
    }
  }

  lemma KeptOn(x: Bytes, y: Bytes, z: Bytes, s: nat, k: nat, n: nat)
    requires k <= n && s + n <= |x| == |y| == |z|
    requires y[..s] == x[..s] && y[s + n..] == x[s + n..]
    requires z[..s + k] == y[..s + k] && z[s + k + (n - k)..] == y[s + k + (n - k)..]
    ensures z[..s] == x[..s] && z[s + n..] == x[s + n..]
  {
    assert z[..s] == z[..s + k][..s] && y[..s] == y[..s + k][..s];
  }

  lemma WrittenOn(x: Bytes, y: Bytes, z: Bytes, s: nat, first: Bytes, second: Bytes)
    requires s + |first| + |second| <= |x|
    requires y == x[..s] + first + x[s + |first|..]
    requires z == y[..s + |first|] + second + y[s + |first| + |second|..]
    ensures z == x[..s] + (first + second) + x[s + |first + second|..]
  {
    assert y[..s + |first|] == x[..s] + first;
    assert y[s + |first| + |second|..] == x[s + |first + second|..];
    assert x[..s] + (first + second) == x[..s] + first + second;
  }

  // ------------------------------------------------------------------------------ varints

  /** Seven bits a byte, with the high bit set even in the last. */
  function ContinuedVarint(n: nat): (r: Bytes)
    ensures r != [] && r[|r| - 1] >= 128
  {
    [(n % 128 + 128) as Byte] + if n < 128 then [] else ContinuedVarint(n / 128)
  }

  lemma {:induction false} LastByteEnds(n: nat)
    ensures var r := ContinuedVarint(n); r[|r| - 1 := (r[|r| - 1] as nat - 128) as Byte] == Varint(n)
  {
    if n >= 128 {
      LastByteEnds(n / 128);
      var rest := ContinuedVarint(n / 128);
      assert ContinuedVarint(n) == [(n % 128 + 128) as Byte] + rest;
    }
  }

  function Remaining(n: nat): Bytes { if n > 0 then ContinuedVarint(n) else [] }

  lemma RemainingStep(bytes: Bytes, n: nat)
    requires n > 0
    ensures bytes + [More(n)] + Remaining(n / 128) == bytes + Remaining(n)
  {
  }

  /** The buffer pb_encode_varint fills. */
  method VarintBytes(value: nat) returns (bytes: Bytes)
    ensures bytes == Varint(value)
  {
    if value <= 0x7f { return [value as Byte]; }
    bytes := ContinuedBytes(value);
    LastByteEnds(value);
    var last := bytes[|bytes| - 1] as nat - 128;
    bytes := bytes[|bytes| - 1 := last as Byte];
  }

  method ContinuedBytes(value: nat) returns (bytes: Bytes)
    requires value > 0
    ensures bytes == ContinuedVarint(value)
  {
    hide ContinuedVarint;
    hide More;
    var rest: nat := value;
    bytes := [];
    while rest > 0
      invariant bytes + Remaining(rest) == ContinuedVarint(value)
    {
      RemainingStep(bytes, rest);
      bytes := bytes + [More(rest)];
      rest := rest / 128;
    }
  }

  // ----------------------------------------------------------------------------- streams

  /** pb_ostream_t over a buffer, or for sizing (no callback). A substream writes on in its parent's buffer. */
  class OStream {
    const buffer: array?<Byte>
    var state: nat
    var maxSize: nat
    var bytesWritten: nat

    ghost function Now(): Output
      reads this, buffer
    {
      Output(if buffer == null then None else Some(buffer[..]), state, maxSize, bytesWritten)
    }

    ghost predicate Valid()
      reads this, buffer
    {
      InBuffer(Now())
    }

    constructor (buffer: array?<Byte>, state: nat, maxSize: nat)
      requires buffer != null ==> state + maxSize <= buffer.Length
      ensures Valid() && this.buffer == buffer && this.state == state && this.maxSize == maxSize && bytesWritten == 0
    {
      this.buffer, this.state, this.maxSize, bytesWritten := buffer, state, maxSize, 0;
    }

    /** buf_write. */
    method BufWrite(buf: Bytes)
      requires buffer != null && state + |buf| <= buffer.Length
      modifies this`state, buffer
      ensures state == old(state) + |buf|
      ensures buffer[..] == old(buffer[..])[..old(state)] + buf + old(buffer[..])[old(state) + |buf|..]
    {
      ghost var was, at := buffer[..], state;
      var dest := state;
      state := state + |buf|;
      for i := 0 to |buf|
        invariant state == at + |buf| && dest == at
        invariant buffer[..] == was[..at] + buf[..i] + was[at + i..]
      {
        buffer[dest + i] := buf[i];
      }
      assert buf[..|buf|] == buf;
    }

    /** pb_write. A sizing stream looks only at the count. */
    method Write(buf: Bytes, count: nat) returns (ok: bool)
      requires Valid() && (buffer != null ==> count == |buf|)
      modifies this, buffer
      ensures Valid()
      ensures count == |buf| ==> Outcome(old(Now()), Now(), Some(buf), ok)
      ensures buffer == null ==> ok && maxSize == old(maxSize) && bytesWritten == old(bytesWritten) + count
    {
      if count > 0 && buffer != null {
        if bytesWritten + count > maxSize { return false; }
        BufWrite(buf);
      } else if buffer != null {
        NothingWritten(Now());
      }
      bytesWritten := bytesWritten + count;
      ok := true;
    }

    /** pb_encode_varint. */
    method EncodeVarint(value: nat) returns (ok: bool)
      requires Valid()
      modifies this, buffer
      ensures Valid() && Outcome(old(Now()), Now(), Some(Varint(value)), ok)
    {
      hide Outcome;
      hide Varint;
      var bytes := VarintBytes(value);
      ok := Write(bytes, |bytes|);
    }

    /** pb_encode_tag_for_field. */
    method EncodeTagForField(f: Field) returns (ok: bool)
      requires Valid()
      modifies this, buffer
      ensures Valid() && Outcome(old(Now()), Now(), Some(E.TagOf(f)), ok)
    {
      hide Outcome;
      ok := EncodeVarint(8 * f.tag + E.WireType(f.ltype));
    }

    /** pb_encode_string. */
    method EncodeString(bytes: Bytes) returns (ok: bool)
      requires Valid()
      modifies this, buffer
      ensures Valid() && Outcome(old(Now()), Now(), E.Delimited(Some(bytes)), ok)
    {
      hide Varint;
      ghost var a, length := Now(), Some(Varint(|bytes|));
      ok := EncodeVarint(|bytes|);
      ghost var b := Now();
      if !ok {
        Stops(a, b, length, Some(bytes));
        return;
      }
      ok := Write(bytes, |bytes|);
      Then(a, b, Now(), length, Some(bytes), ok);
    }

    /** PB_ENCODERS: the encoder of the field's type. */
    method EncodeItem(t: Type, v: Value) returns (ok: bool)
      requires Valid() && TypedItem(t, v)
      modifies this, buffer
      ensures Valid() && Outcome(old(Now()), Now(), E.EncodeItem(t, v), ok)
      decreases t, 0, 1
    {
      hide Outcome;
      hide E.EncodeFields;
      assert InBuffer(Now());
      match t
      case Bool => ok := EncodeVarint(if v.b then 1 else 0);
      case Int(size) =>
        if !IntegerSize(size) { NoEncoding(Now()); return false; }
        ok := EncodeVarint(E.Unsigned64(v.n));
      case UInt(size) =>
        if !IntegerSize(size) { NoEncoding(Now()); return false; }
        ok := EncodeVarint(E.Unsigned64(v.n));
      case SInt(size) =>
        if !IntegerSize(size) { NoEncoding(Now()); return false; }
        ok := EncodeVarint(E.ZigZag(v.n));
      case Fixed32 => ok := Write(Fixed(v.n % Max32, 4), 4);
      case Fixed64 => ok := Write(Fixed(v.n % Max64, 8), 8);
      case ByteArray(capacity) =>
        if |v.bytes| > capacity { NoEncoding(Now()); return false; }
        ok := EncodeString(v.bytes);
      case Text(_) => ok := EncodeString(v.bytes);
      case FixedLength(_) => ok := EncodeString(v.bytes);
      case Submessage(fields) => ok := EncodeSubmessage(fields, v.slots);
    }

    /** pb_encode_submessage: once for the size, once more for the bytes. */
    method EncodeSubmessage(fields: seq<Field>, m: Message) returns (ok: bool)
      requires Valid() && Typed(fields, m)
      modifies this, buffer
      ensures Valid() && Outcome(old(Now()), Now(), E.Delimited(E.Encode(fields, m)), ok)
      decreases fields, |fields| + 2, 0
    {
      hide E.EncodeFields;
      hide Varint;
      ghost var a, encoding := Now(), E.Encode(fields, m);
      var sizing := new OStream(null, 0, 0);
      ghost var s := sizing.Now();
      ok := sizing.Encode(fields, m);
      if !ok {
        NoEncoding(a);
        return;
      }
      var size := sizing.bytesWritten;
      ghost var length := Some(Varint(size));
      ok := EncodeVarint(size);
      ghost var b := Now();
      if !ok {
        Stops(a, b, length, encoding);
        return;
      }
      ok := EncodeBody(fields, m, size);
      Then(a, b, Now(), length, encoding, ok);
    }

    /** The substream's part: a stream over the same buffer that ends where the submessage must. */
    method EncodeBody(fields: seq<Field>, m: Message, size: nat) returns (ok: bool)
      requires Valid() && Typed(fields, m) && E.Encode(fields, m).Some? && size == |E.Encode(fields, m).value|
      modifies this, buffer
      ensures Valid() && Outcome(old(Now()), Now(), E.Encode(fields, m), ok)
      decreases fields, |fields| + 1, 0
    {
      hide E.EncodeFields;
      ghost var a := Now();
      if buffer == null {
        ok := Write([], size);
        return;
      }
      if bytesWritten + size > maxSize { return false; }
      var substream := new OStream(buffer, state, size);
      ghost var b := substream.Now();
      ok := substream.Encode(fields, m);
      ghost var c := substream.Now();
      bytesWritten := bytesWritten + substream.bytesWritten;
      state := substream.state;
      Narrowed(a, b, c, Now(), E.Encode(fields, m).value, ok);
      if substream.bytesWritten != size { return false; }
    }

    /** pb_encode. */
    method Encode(fields: seq<Field>, m: Message) returns (ok: bool)
      requires Valid() && Typed(fields, m)
      modifies this, buffer
      ensures Valid() && Outcome(old(Now()), Now(), E.Encode(fields, m), ok)
      decreases fields, |fields|, 1
    {
      hide Outcome;
      hide E.EncodeField;
      ghost var a := Now();
      NothingWritten(a);
      if fields == [] { return true; }
      var pos := 0;
      while true
        invariant pos < |fields| && Valid() && Outcome(a, Now(), E.EncodeFields(fields, m, pos), true)
        decreases |fields| - pos
      {
        ghost var b := Now();
        assert fields[pos].slot in m && TypedSlot(fields[pos], m[fields[pos].slot]);
        ok := EncodeField(fields[pos], m[fields[pos].slot]);
        Then(a, b, Now(), E.EncodeFields(fields, m, pos), E.EncodeField(fields[pos], m[fields[pos].slot]), ok);
        if !ok {
          FieldsStop(a, Now(), fields, m, pos + 1);
          return;
        }
        pos := pos + 1;
        if pos == |fields| { return; }
      }
    }

    /** encode_basic_field. */
    method EncodeField(f: Field, s: Slot) returns (ok: bool)
      requires Valid() && TypedSlot(f, s)
      modifies this, buffer
      ensures Valid() && Outcome(old(Now()), Now(), E.EncodeField(f, s), ok)
      decreases f, 0, 1
    {
      hide Outcome;
      hide E.EncodeItem;
      hide E.EncodeItems;
      ghost var a := Now();
      NothingWritten(a);
      NoEncoding(a);
      match f.rule
      case Required => ok := EncodeOne(f, s.value);
      case Singular =>
        ok := true;
        if !IsDefault(f, s) { ok := EncodeOne(f, s.value); }
      case Optional =>
        ok := true;
        if s.has { ok := EncodeOne(f, s.value); }
      case Repeated(arraySize) => ok := EncodeArray(f, arraySize, s.items);
      case Oneof =>
        ok := true;
        if s.which == f.tag { ok := EncodeOne(f, s.value); }
    }

    method EncodeOne(f: Field, v: Value) returns (ok: bool)
      requires Valid() && TypedItem(f.ltype, v)
      modifies this, buffer
      ensures Valid() && Outcome(old(Now()), Now(), E.Both(Some(E.TagOf(f)), E.EncodeItem(f.ltype, v)), ok)
      decreases f.ltype, 0, 2
    {
      hide Outcome;
      hide E.EncodeItem;
      ghost var a := Now();
      ok := EncodeTagForField(f);
      ghost var b := Now();
      if !ok {
        Stops(a, b, Some(E.TagOf(f)), E.EncodeItem(f.ltype, v));
        return;
      }
      ok := EncodeItem(f.ltype, v);
      Then(a, b, Now(), Some(E.TagOf(f)), E.EncodeItem(f.ltype, v), ok);
    }

    /** encode_array. */
    method EncodeArray(f: Field, arraySize: nat, items: seq<Value>) returns (ok: bool)
      requires Valid() && (forall i :: 0 <= i < |items| ==> TypedItem(f.ltype, items[i]))
          && f.rule == Repeated(arraySize)
      modifies this, buffer
      ensures Valid() && Outcome(old(Now()), Now(), E.EncodeField(f, Many(items)), ok)
      decreases f, 0, 0
    {
      hide Outcome;
      hide E.EncodeItem;
      hide E.EncodeItems;
      hide E.Delimited;
      hide E.Tag;
      ghost var a := Now();
      NothingWritten(a);
      NoEncoding(a);
      var count := |items|;
      if count == 0 { return true; }
      if count > arraySize { return false; }
      if Packable(f.ltype) {
        ghost var tag, body := Some(E.Tag(f.tag, E.WireString)), E.Delimited(E.EncodeItems(f.ltype, [], items, count));
        ok := EncodeTag(E.WireString, f.tag);
        ghost var b := Now();
        if !ok {
          Stops(a, b, tag, body);
          return;
        }
        ok := EncodePacked(f.ltype, items);
        Then(a, b, Now(), tag, body, ok);
      } else {
        ok := EncodeRepeated(f, items);
      }
    }

    /** pb_encode_tag. */
    method EncodeTag(wireType: nat, fieldNumber: nat) returns (ok: bool)
      requires Valid()
      modifies this, buffer
      ensures Valid() && Outcome(old(Now()), Now(), Some(E.Tag(fieldNumber, wireType)), ok)
    {
      hide Outcome;
      ok := EncodeVarint(8 * fieldNumber + wireType);
    }

    /** The items, each after its tag. */
    method EncodeRepeated(f: Field, items: seq<Value>) returns (ok: bool)
      requires Valid() && (forall i :: 0 <= i < |items| ==> TypedItem(f.ltype, items[i]))
      modifies this, buffer
      ensures Valid() && Outcome(old(Now()), Now(), E.EncodeItems(f.ltype, E.TagOf(f), items, |items|), ok)
      decreases f.ltype, |items| + 1, 0
    {
      hide Outcome;
      hide E.EncodeItem;
      hide E.TagOf;
      ghost var a := Now();
      NothingWritten(a);
      for i := 0 to |items|
        invariant Valid() && Outcome(a, Now(), E.EncodeItems(f.ltype, E.TagOf(f), items, i), true)
      {
        ghost var b := Now();
        ok := EncodeOne(f, items[i]);
        Then(a, b, Now(), E.EncodeItems(f.ltype, E.TagOf(f), items, i),
            E.Both(Some(E.TagOf(f)), E.EncodeItem(f.ltype, items[i])), ok);
        if !ok {
          ItemsStop(a, Now(), f.ltype, E.TagOf(f), items, i + 1);
          return;
        }
      }
      ok := true;
    }

    /** A packed array: its size, reckoned or found by a sizing pass, and its items. */
    method EncodePacked(t: Type, items: seq<Value>) returns (ok: bool)
      requires Valid() && (forall i :: 0 <= i < |items| ==> TypedItem(t, items[i])) && Packable(t)
      modifies this, buffer
      ensures Valid() && Outcome(old(Now()), Now(), E.Delimited(E.EncodeItems(t, [], items, |items|)), ok)
      decreases t, |items| + 2, 0
    {
      hide E.EncodeItem;
      hide E.EncodeItems;
      hide Varint;
      ghost var a, body := Now(), E.EncodeItems(t, [], items, |items|);
      var size: nat;
      if t.Fixed32? || t.Fixed64? {
        size := (if t.Fixed32? then 4 else 8) * |items|;
        E.FixedSize(t, items, |items|);
      } else {
        var sizing := new OStream(null, 0, 0);
        ok := sizing.PutItems(t, items);
        if !ok {
          NoEncoding(a);
          return;
        }
        size := sizing.bytesWritten;
      }
      ghost var length := Some(Varint(size));
      ok := EncodeVarint(size);
      ghost var b := Now();
      if !ok {
        Stops(a, b, length, body);
        return;
      }
      if buffer == null {
        ok := Write([], size);
        CountedOn(a, b, Now(), length, body);
      } else {
        ok := PutItems(t, items);
        Then(a, b, Now(), length, body, ok);
      }
    }

    method PutItems(t: Type, items: seq<Value>) returns (ok: bool)
      requires Valid() && (forall i :: 0 <= i < |items| ==> TypedItem(t, items[i]))
      modifies this, buffer
      ensures Valid() && Outcome(old(Now()), Now(), E.EncodeItems(t, [], items, |items|), ok)
      decreases t, |items| + 1, 0
    {
      hide Outcome;
      hide E.EncodeItem;
      ghost var a := Now();
      NothingWritten(a);
      for i := 0 to |items|
        invariant Valid() && Outcome(a, Now(), E.EncodeItems(t, [], items, i), true)
      {
        ghost var b := Now();
        ok := EncodeItem(t, items[i]);
        Then(a, b, Now(), E.EncodeItems(t, [], items, i), E.EncodeItem(t, items[i]), ok);
        Unprefixed(E.EncodeItem(t, items[i]));
        if !ok {
          ItemsStop(a, Now(), t, [], items, i + 1);
          return;
        }
      }
      ok := true;
    }
  }

  /** Sizing goes on without the bytes. */
  lemma CountedOn(a: Output, b: Output, c: Output, first: Option<Bytes>, second: Option<Bytes>)
    requires a.data.None? && second.Some? && Outcome(a, b, first, true)
    requires c == b.(bytesWritten := b.bytesWritten + |second.value|, state := c.state)
    ensures Outcome(a, c, E.Both(first, second), true)
  {
  }

  lemma Unprefixed(e: Option<Bytes>)
    ensures E.Both(Some([]), e) == e
  {
    if e.Some? { assert [] + e.value == e.value; }
  }

  lemma {:induction false} FieldsStop(a: Output, b: Output, fields: seq<Field>, m: Message, n: nat)
    requires n <= |fields| && Outcome(a, b, E.EncodeFields(fields, m, n), false)
    ensures Outcome(a, b, E.Encode(fields, m), false)
    decreases |fields| - n
  {
    hide Outcome;
    hide E.EncodeField;
    if n < |fields| {
      Stops(a, b, E.EncodeFields(fields, m, n), if fields[n].slot in m then E.EncodeField(fields[n], m[fields[n].slot])
          else None);
      FieldsStop(a, b, fields, m, n + 1);
    }
  }

  lemma {:induction false} ItemsStop(a: Output, b: Output, t: Type, before: Bytes, items: seq<Value>, n: nat)
    requires n <= |items| && Outcome(a, b, E.EncodeItems(t, before, items, n), false)
    ensures Outcome(a, b, E.EncodeItems(t, before, items, |items|), false)
    decreases |items| - n
  {
    hide Outcome;
    hide E.EncodeItem;
    if n < |items| {
      Stops(a, b, E.EncodeItems(t, before, items, n), E.Both(Some(before), E.EncodeItem(t, items[n])));
      ItemsStop(a, b, t, before, items, n + 1);
    }
  }

  /** What a substream of the right size does, seen from its parent. */
  lemma Narrowed(a: Output, b: Output, c: Output, d: Output, bytes: Bytes, ok: bool)
    requires InBuffer(a) && a.data.Some? && a.bytesWritten + |bytes| <= a.maxSize
    requires b == Output(a.data, a.state, |bytes|, 0) && Outcome(b, c, Some(bytes), ok)
    requires d == Output(c.data, c.state, a.maxSize, a.bytesWritten + c.bytesWritten)
    ensures ok && c.bytesWritten == |bytes| && Outcome(a, d, Some(bytes), true)
  {
    var end := a.state + (a.maxSize - a.bytesWritten);
    assert d.data.value[end..] == a.data.value[end..];
    assert d.data.value[..a.state] == a.data.value[..a.state];
  }

  // -------------------------------------------------------------------------------- sizes

  /** pb_get_encoded_size. */
  method GetEncodedSize(fields: seq<Field>, m: Message) returns (ok: bool, size: nat)
    requires Typed(fields, m)
    ensures ok <==> E.Encode(fields, m).Some?
    ensures ok ==> size == |E.Encode(fields, m).value|
  {
    hide E.EncodeFields;
    var stream := new OStream(null, 0, 0);
    ok := stream.Encode(fields, m);
    size := stream.bytesWritten;
  }

  /** Sizing and then encoding into maxSize bytes: it works just when the size is one that fits, writes so many bytes
      and those of the encoding, and leaves everything behind them, or behind maxSize if it fails, alone. */
  method SizeThenEncode(buffer: array<Byte>, maxSize: nat, fields: seq<Field>, m: Message)
    returns (sized: bool, size: nat, ok: bool, written: nat)
    requires Typed(fields, m) && maxSize <= buffer.Length
    modifies buffer
    ensures ok <==> sized && size <= maxSize
    ensures ok ==>
        written == size && E.Encode(fields, m) == Some(buffer[..size])
        && buffer[size..] == old(buffer[size..])
    ensures buffer[maxSize..] == old(buffer[maxSize..])
  {
    hide E.EncodeFields;
    sized, size := GetEncodedSize(fields, m);
    var stream := new OStream(buffer, 0, maxSize);
    ghost var was := buffer[..];
    ok := stream.Encode(fields, m);
    written := stream.bytesWritten;
    assert buffer[maxSize..] == buffer[..][maxSize..] && was[maxSize..] == old(buffer[maxSize..]);
    if ok {
      ghost var e := E.Encode(fields, m).value;
      assert buffer[..] == e + was[size..];
      assert buffer[..size] == e && buffer[size..] == was[size..];
    }
  }
}
