/** nanopb's input streams and decoders (pb_decode.c), step by step: they compute what NanopbDecode says. */
module NanopbDecoders {
  import opened Coding
  import opened Options
  import opened Varints
  import opened NanopbSchema
  import opened NanopbFields
  import opened W = NanopbWire
  import E = NanopbEncode
  import D = NanopbDecode

  // -------------------------------------------------------------- required fields' bits

  /** fields_seen: one bit for each of the first 64 required fields. */
  ghost predicate Tracks(words: seq<nat>, seen: set<nat>) {
    && |words| == 2 && words[0] < Pow2(32) && words[1] < Pow2(32)
    && (forall k :: k in seen ==> k < D.MaxRequiredFields)
    && (forall k: nat :: k < 32 ==> (k in seen <==> BitOf(words[0], k)))
    && (forall k: nat :: k < 32 ==> (k + 32 in seen <==> BitOf(words[1], k)))
  }

  lemma NothingSeen()
    ensures Tracks([0, 0], {})
  {
    forall k: nat ensures !BitOf(0, k) { ZeroBits(k); }
  }

  lemma BitSet(w: nat, k: nat, w': nat)
    requires w < Pow2(32) && k < 32 && w' == Or(w, Pow2(k))
    ensures w' < Pow2(32) && forall j: nat :: BitOf(w', j) <==> BitOf(w, j) || j == k
  {
    hide Or;
    hide BitOf;
    Pow2Monotone(k + 1, 32);
    OrBelow(w, Pow2(k), 32);
    forall j: nat ensures BitOf(w', j) <==> BitOf(w, j) || j == k {
      OrBit(w, Pow2(k), j);
      OneBit(k, j);
    }
  }

  lemma OneMoreSeen(words: seq<nat>, seen: set<nat>, index: nat)
    requires Tracks(words, seen) && index < D.MaxRequiredFields
    ensures Tracks(words[index / 32 := Or(words[index / 32], Pow2(index % 32))], seen + {index})
  {
    hide Or;
    hide Pow2;
    hide BitOf;
    var w' := Or(words[index / 32], Pow2(index % 32));
    BitSet(words[index / 32], index % 32, w');
  }

  /** The lowest n bits, and no others. */
  lemma JustTheLowest(w: nat, n: nat)
    requires w < Pow2(32) && n <= 32 && forall k: nat :: n <= k < 32 ==> !BitOf(w, k)
    ensures w == Pow2(n) - 1 <==> forall k: nat :: k < n ==> BitOf(w, k)
  {
    hide BitOf;
    NoHighBits(w, n, 32);
    AllBits(w, n);
  }

  lemma {:induction false} NoHighBits(w: nat, n: nat, m: nat)
    requires w < Pow2(m) && n <= m && forall k: nat :: n <= k < m ==> !BitOf(w, k)
    ensures w < Pow2(n)
  {
    hide BitOf;
    if n < m {
      if w >= Pow2(m - 1) { TopBit(w, m - 1); }
      NoHighBits(w, n, m - 1);
    }
  }

  lemma {:induction false} TopBit(w: nat, m: nat)
    requires Pow2(m) <= w < Pow2(m + 1)
    ensures BitOf(w, m)
  {
    if m > 0 { TopBit(w / 2, m - 1); }
  }

  lemma WordBits(words: seq<nat>, seen: set<nat>, i: nat, k: nat)
    requires Tracks(words, seen) && i < 2 && k < 32
    ensures 32 * i + k in seen <==> BitOf(words[i], k)
  {
  }

  lemma WholeWord(words: seq<nat>, seen: set<nat>, i: nat)
    requires Tracks(words, seen) && i < 2
    ensures words[i] == 0xffff_ffff <==> forall k: nat :: 32 * i <= k < 32 * i + 32 ==> k in seen
  {
    hide BitOf;
    hide Pow2;
    Powers();
    AllBits(words[i], 32);
    forall k: nat | k < 32 ensures 32 * i + k in seen <==> BitOf(words[i], k) { WordBits(words, seen, i, k); }
    if words[i] == 0xffff_ffff {
      forall k: nat | 32 * i <= k < 32 * i + 32 ensures k in seen {
        var j: nat := k - 32 * i;
        assert BitOf(words[i], j);
      }
    } else {
      var j: nat :| j < 32 && !BitOf(words[i], j);
      assert 32 * i + j !in seen;
    }
  }

  lemma PartWord(words: seq<nat>, seen: set<nat>, n: nat)
    requires Tracks(words, seen) && n < 64 && forall k :: k in seen ==> k < n
    ensures words[n / 32] == Pow2(n % 32) - 1 <==> forall k: nat :: n / 32 * 32 <= k < n ==> k in seen
  {
    hide BitOf;
    hide Pow2;
    var i, q := n / 32, n % 32;
    forall k: nat | k < 32 ensures 32 * i + k in seen <==> BitOf(words[i], k) { WordBits(words, seen, i, k); }
    forall k: nat | q <= k < 32 ensures !BitOf(words[i], k) { assert 32 * i + k !in seen; }
    JustTheLowest(words[i], q);
    if words[i] == Pow2(q) - 1 {
      forall k: nat | 32 * i <= k < n ensures k in seen {
        var j: nat := k - 32 * i;
        assert BitOf(words[i], j);
      }
    } else {
      var j: nat :| j < q && !BitOf(words[i], j);
      assert 32 * i + j !in seen;
    }
  }

  /** The check for missing required fields: whole words first, then the rest of the last. */
  method AllPresent(words: seq<nat>, requiredFields: nat, ghost seen: set<nat>) returns (ok: bool)
    requires Tracks(words, seen) && forall k :: k in seen ==> k < requiredFields
    ensures ok <==> forall k :: 0 <= k < requiredFields && k < D.MaxRequiredFields ==> k in seen
  {
    hide BitOf;
    hide Pow2;
    var count := if requiredFields > D.MaxRequiredFields then D.MaxRequiredFields else requiredFields;
    for i := 0 to count / 32
      invariant forall k: nat :: k < 32 * i ==> k in seen
    {
      WholeWord(words, seen, i);
      if words[i] != 0xffff_ffff { return false; }
    }
    if count % 32 != 0 {
      PartWord(words, seen, count);
      if words[count / 32] != Pow2(count % 32) - 1 { return false; }
    }
    ok := true;
  }

  /** No bit is set beyond those of the description's required fields. */
  ghost predicate SeenBelow(fields: seq<Field>, seen: set<nat>) {
    forall k :: k in seen ==> k < RequiredBefore(fields, |fields|)
  }

  lemma NoneSeen(fields: seq<Field>)
    ensures SeenBelow(fields, {})
  {
  }

  lemma SeenStays(fields: seq<Field>, i: nat, seen: set<nat>)
    requires SeenBelow(fields, seen) && i < |fields|
    ensures SeenBelow(fields, D.Seen(fields, i, seen))
  {
    hide RequiredBefore;
    RequiredBeforeMonotone(fields, i, |fields|);
  }

  lemma TagsDistinct(fields: seq<Field>)
    requires WellFormed(fields)
    ensures DistinctTags(fields)
  {
  }

  lemma FieldFits(fields: seq<Field>, i: nat)
    requires WellFormed(fields) && i < |fields|
    ensures WellFormedType(fields[i].ltype)
  {
    assert WellFormedField(fields[i]);
  }

  /** The decoder's mark for a required field it has found. */
  method MarkSeen(iter: FieldIter, words: seq<nat>, ghost seen: set<nat>) returns (words': seq<nat>)
    requires iter.Valid() && iter.pos < |iter.fields| && Tracks(words, seen)
    ensures Tracks(words', D.Seen(iter.fields, iter.pos, seen))
  {
    hide Tracks;
    hide Or;
    hide Pow2;
    words' := words;
    var index := iter.requiredFieldIndex;
    if iter.fields[iter.pos].rule.Required? && index < D.MaxRequiredFields {
      OneMoreSeen(words, seen, index);
      TwoWords(words, seen);
      words' := words[index / 32 := Or(words[index / 32], Pow2(index % 32))];
    }
  }

  lemma TwoWords(words: seq<nat>, seen: set<nat>)
    requires Tracks(words, seen)
    ensures |words| == 2
  {
  }

  /** The check behind the loop: how many required fields there are, by walking on to the end, and whether all came. */
  method CheckRequired(iter: FieldIter, words: seq<nat>, ghost seen: set<nat>) returns (ok: bool)
    requires iter.Valid() && DistinctTags(iter.fields) && Tracks(words, seen) && SeenBelow(iter.fields, seen)
    modifies iter
    ensures ok <==> D.AllSeen(iter.fields, seen)
  {
    hide Tracks;
    ghost var fields := iter.fields;
    var count: nat, lastRequired := 0, false;
    while true
      invariant iter.Valid()
      decreases |fields| - iter.pos
    {
      count := iter.requiredFieldIndex;
      lastRequired := iter.pos < |iter.fields| && iter.fields[iter.pos].rule.Required?;
      var more := iter.Next();
      if !more { break; }
    }
    if lastRequired && iter.TagHere() != 0 { count := count + 1; }
    assert count == RequiredBefore(fields, |fields|);
    ok := AllPresent(words, count, seen);
  }

  // ------------------------------------------------------------------------------ streams

  /** A varint byte's share of the number. */
  function SevenOf(byte: Byte): nat { byte as nat % 128 }

  lemma NextByte(s: Bytes, p: nat, byte: Byte, result: nat, scale: nat)
    requires p < 10 && p < |s| && s[p] == byte && SoFar(ParseVarint(s, 10), ParseVarint(s[p..], 10 - p), result, scale,
        p)
    ensures byte >= 128 ==> SoFar(ParseVarint(s, 10), ParseVarint(s[p + 1..], 10 - (p + 1)),
        result + SevenOf(byte) * scale, scale * 128, p + 1)
    ensures byte < 128 ==> ParseVarint(s, 10) == Some((result + SevenOf(byte) * scale, p + 1))
    ensures s[p..][0] == byte && s[p..][1..] == s[p + 1..]
  {
    hide SoFar;
    hide ParseVarint;
    if byte >= 128 {
      assert SevenOf(byte) == byte as nat - 128;
      MoreBytes(s, 10, p, result, scale);
    } else {
      assert SevenOf(byte) == byte as nat;
      LastByte(s, 10, p, result, scale);
    }
  }

  /** pb_istream_t over a buffer. */
  class IStream {
    const data: Bytes
    var state: nat
    var bytesLeft: nat

    ghost predicate Valid()
      reads this
    {
      End() <= |data|
    }

    ghost function End(): nat
      reads this
    {
      state + bytesLeft
    }

    ghost function Rest(): Bytes
      reads this
      requires Valid()
    {
      data[state..End()]
    }

    constructor (data: Bytes, state: nat, bytesLeft: nat)
      requires state + bytesLeft <= |data|
      ensures Valid() && this.data == data && this.state == state && this.bytesLeft == bytesLeft
    {
      this.data, this.state, this.bytesLeft := data, state, bytesLeft;
    }

    /** pb_readbyte. */
    method ReadByte() returns (ok: bool, byte: Byte)
      requires Valid()
      modifies this
      ensures Valid() && End() == old(End())
      ensures ok <==> old(Rest()) != []
      ensures ok ==> byte == old(Rest())[0] && Rest() == old(Rest())[1..]
      ensures !ok ==> Rest() == []
    {
      if bytesLeft == 0 { return false, 0; }
      ok, byte := true, data[state];
      state, bytesLeft := state + 1, bytesLeft - 1;
    }

    /** pb_read. */
    method Read(count: nat) returns (ok: bool, bytes: Bytes)
      requires Valid()
      modifies this
      ensures Valid() && End() == old(End())
      ensures ok <==> D.Read(old(Rest()), count).Some?
      ensures ok ==> D.Read(old(Rest()), count) == Some((bytes, Rest()))
    {
      if bytesLeft < count { return false, []; }
      ok, bytes := true, data[state..state + count];
      assert Rest()[..count] == bytes && Rest()[count..] == data[state + count..End()];
      state, bytesLeft := state + count, bytesLeft - count;
    }

    /** pb_decode_varint32_eof. eof says that there was nothing at all to read. */
    method DecodeVarint32() returns (ok: bool, dest: nat, eof: bool)
      requires Valid()
      modifies this
      ensures Valid() && End() == old(End())
      ensures ok <==> W.DecodeVarint32(old(Rest())).Some?
      ensures ok ==> W.DecodeVarint32(old(Rest())) == Some((dest, Rest()))
      ensures eof <==> old(Rest()) == []
    {
      hide Or;
      hide Shifted;
      dest := 0;
      var byte: Byte;
      ok, byte := ReadByte();
      eof := !ok;
      if !ok { return; }
      var result: nat := byte as nat % 128;
      if byte < 128 { return true, result, false; }
      var bitpos: nat := 7;
      ghost var whole := W.DecodeVarint32(old(Rest()));
      while true
        invariant Valid() && End() == old(End()) && MoreVarint32(Rest(), result, bitpos) == whole
        decreases bytesLeft
      {
        ok, byte := ReadByte();
        if !ok { return; }
        var low := byte as nat % 128;
        if bitpos >= 32 {
          if low != 0 && (result / 0x8000_0000 == 0 || byte != SignExtension(bitpos)) { return false, 0, false; }
        } else {
          result := Or(result, Shifted(low, bitpos));
        }
        bitpos := (bitpos + 7) % 256;
        if byte < 128 {
          if bitpos == 35 && byte as nat / 16 % 8 != 0 { return false, 0, false; }
          return true, result, false;
        }
      }
    }

    /** pb_decode_varint. */
    method DecodeVarint() returns (ok: bool, dest: nat)
      requires Valid()
      modifies this
      ensures Valid() && End() == old(End())
      ensures ok <==> Varint64(old(Rest())).Some?
      ensures ok ==> Varint64(old(Rest())) == Some((dest, Rest()))
    {
      hide SoFar;
      hide ParseVarint;
      dest := 0;
      ghost var s := Rest();
      ghost var p: nat := 0;
      var result: nat, scale: nat, bitpos: nat := 0, 1, 0;
      StartReading(s, 10);
      while true
        invariant Valid() && End() == old(End()) && bitpos == 7 * p && p <= 10 && p <= |s| && Rest() == s[p..]
        invariant SoFar(ParseVarint(s, 10), ParseVarint(s[p..], 10 - p), result, scale, p)
        decreases bytesLeft
      {
        if bitpos >= 64 {
          OutOfBytes(s, 10, p, result, scale);
          return false, 0;
        }
        var byte: Byte;
        ok, byte := ReadByte();
        if !ok {
          OutOfBytes(s, 10, p, result, scale);
          return;
        }
        NextByte(s, p, byte, result, scale);
        result := result + SevenOf(byte) * scale;
        scale := scale * 128;
        bitpos := bitpos + 7;
        p := p + 1;
        if byte < 128 { return true, result % Max64; }
      }
    }

    /** pb_decode_tag. */
    method DecodeTag() returns (ok: bool, wireType: nat, tag: nat, eof: bool)
      requires Valid()
      modifies this
      ensures Valid() && End() == old(End())
      ensures ok <==> D.DecodeTag(old(Rest())).Next?
      ensures ok ==> D.DecodeTag(old(Rest())) == D.Next(tag, wireType, Rest())
      ensures !ok ==> (eof <==> old(Rest()) == [] || D.DecodeTag(old(Rest())).End?)
    {
      hide W.DecodeVarint32;
      var temp;
      wireType, tag := 0, 0;
      ok, temp, eof := DecodeVarint32();
      if !ok { return; }
      if temp == 0 { return false, 0, 0, true; }
      tag, wireType := temp / 8, temp % 8;
    }

    /** pb_skip_varint. */
    method SkipVarint() returns (ok: bool)
      requires Valid()
      modifies this
      ensures Valid() && End() == old(End())
      ensures ok <==> D.SkipVarint(old(Rest())).Some?
      ensures ok ==> D.SkipVarint(old(Rest())) == Some(Rest())
    {
      ghost var whole := D.SkipVarint(Rest());
      while true
        invariant Valid() && End() == old(End()) && D.SkipVarint(Rest()) == whole
        decreases bytesLeft
      {
        var byte: Byte;
        ok, byte := ReadByte();
        if !ok || byte < 128 { return; }
      }
    }

    /** pb_skip_field, with pb_skip_string. */
    method SkipField(wireType: nat) returns (ok: bool)
      requires Valid()
      modifies this
      ensures Valid() && End() == old(End())
      ensures ok <==> D.Skip(wireType, old(Rest())).Some?
      ensures ok ==> D.Skip(wireType, old(Rest())) == Some(Rest())
    {
      hide W.DecodeVarint32;
      hide D.SkipVarint;
      var skipped;
      if wireType == E.WireVarint {
        ok := SkipVarint();
      } else if wireType == E.Wire64Bit {
        ok, skipped := Read(8);
      } else if wireType == E.WireString {
        var length, eof;
        ok, length, eof := DecodeVarint32();
        if !ok { return; }
        ok, skipped := Read(length);
      } else if wireType == E.Wire32Bit {
        ok, skipped := Read(4);
      } else {
        ok := false;
      }
    }

    /** pb_make_string_substream. This stream already counts the substream's bytes as read, but has not moved. */
    method MakeStringSubstream() returns (ok: bool, substream: IStream)
      requires Valid()
      modifies this
      ensures Valid() && fresh(substream) && substream.Valid() && substream.data == data
      ensures ok <==> D.Substream(old(Rest())).Some?
      ensures ok ==> substream.state == state && substream.End() + bytesLeft == old(End())
      ensures ok ==>
          D.Substream(old(Rest())) ==
          Some((substream.Rest(), data[substream.End()..substream.End() + bytesLeft]))
    {
      hide W.DecodeVarint32;
      var size, eof;
      ok, size, eof := DecodeVarint32();
      if !ok || bytesLeft < size {
        substream := new IStream(data, 0, 0);
        return false, substream;
      }
      substream := new IStream(data, state, size);
      assert Rest()[..size] == substream.Rest() && Rest()[size..] == data[state + size..End()];
      bytesLeft := bytesLeft - size;
    }

    /** pb_close_string_substream: go on behind it, read to its end or not. */
    method CloseStringSubstream(substream: IStream)
      requires Valid() && substream != this && substream.Valid() && substream.data == data
          && substream.End() + bytesLeft <= |data|
      modifies this, substream
      ensures Valid() && bytesLeft == old(bytesLeft) && state == old(substream.End())
      ensures Rest() == data[old(substream.End())..old(substream.End()) + old(bytesLeft)]
    {
      if substream.bytesLeft > 0 {
        var _, _ := substream.Read(substream.bytesLeft);
      }
      state := substream.state;
    }

    /** PB_DECODERS: the decoder of the field's type. */
    method DecodeItem(t: Type, was: Value) returns (ok: bool, v: Value)
      requires Valid() && WellFormedType(t)
      modifies this
      ensures Valid()
      ensures ok <==> D.DecodeItem(t, was, old(Rest())).Some?
      ensures ok ==> End() == old(End()) && D.DecodeItem(t, was, old(Rest())) == Some((v, Rest()))
      decreases t, 0, 1
    {
      v := was;
      match t
      case Bool =>
        var value, eof;
        ok, value, eof := DecodeVarint32();
        v := Flag(value != 0);
      case Int(_) => ok, v := DecodeNumber(t);
      case UInt(_) => ok, v := DecodeNumber(t);
      case SInt(_) => ok, v := DecodeNumber(t);
      case Fixed32 =>
        var bytes;
        ok, bytes := Read(4);
        v := Number(FixedValue(bytes));
      case Fixed64 =>
        var bytes;
        ok, bytes := Read(8);
        v := Number(FixedValue(bytes));
      case ByteArray(_) => ok, v := DecodeData(t);
      case Text(_) => ok, v := DecodeData(t);
      case FixedLength(_) => ok, v := DecodeData(t);
      case Submessage(fields) => ok, v := DecodeSubmessage(fields, was);
    }

    /** pb_dec_varint, pb_dec_uvarint and pb_dec_svarint. */
    method DecodeNumber(t: Type) returns (ok: bool, v: Value)
      requires Valid() && (t.Int? || t.UInt? || t.SInt?)
      modifies this
      ensures Valid() && End() == old(End())
      ensures ok <==> D.DecodeItem(t, Unset, old(Rest())).Some?
      ensures ok ==> D.DecodeItem(t, Unset, old(Rest())) == Some((v, Rest()))
    {
      hide Varint64;
      hide D.DecodeInt;
      hide D.DecodeUInt;
      hide D.DecodeSInt;
      v := Unset;
      var value;
      ok, value := DecodeVarint();
      if !ok { return; }
      var n := if t.Int? then D.DecodeInt(t.size, value) else if t.UInt? then D.DecodeUInt(t.size, value)
          else D.DecodeSInt(t.size, value);
      if n.None? { return false, v; }
      v := n.value;
    }

    /** pb_dec_bytes, pb_dec_string and pb_dec_fixed_length_bytes. */
    method DecodeData(t: Type) returns (ok: bool, v: Value)
      requires Valid() && (t.ByteArray? || t.Text? || t.FixedLength?)
      modifies this
      ensures Valid() && End() == old(End())
      ensures ok <==> D.DecodeItem(t, Unset, old(Rest())).Some?
      ensures ok ==> D.DecodeItem(t, Unset, old(Rest())) == Some((v, Rest()))
    {
      hide W.DecodeVarint32;
      hide D.Read;
      hide D.UpToZero;
      v := Unset;
      var size, eof, bytes;
      ok, size, eof := DecodeVarint32();
      if !ok { return; }
      match t
      case ByteArray(capacity) =>
        if size > capacity { return false, v; }
        ok, bytes := Read(size);
        v := Data(bytes);
      case Text(dataSize) =>
        if size + 1 > dataSize { return false, v; }
        ok, bytes := Read(size);
        v := Data(D.UpToZero(bytes));
      case FixedLength(dataSize) =>
        if size == 0 { return true, Data(seq(dataSize, i => 0)); }
        if size != dataSize { return false, v; }
        ok, bytes := Read(size);
        v := Data(bytes);
    }

    /** pb_dec_submessage. */
    method DecodeSubmessage(fields: seq<Field>, was: Value) returns (ok: bool, v: Value)
      requires Valid() && WellFormed(fields)
      modifies this
      ensures Valid()
      ensures ok <==> D.DecodeItem(Submessage(fields), was, old(Rest())).Some?
      ensures ok ==> End() == old(End()) && D.DecodeItem(Submessage(fields), was, old(Rest())) == Some((v, Rest()))
      decreases fields, 1, 0
    {
      hide D.DecodeFields;
      hide D.Substream;
      hide WellFormed;
      v := was;
      ghost var s := Rest();
      var substream;
      ok, substream := MakeStringSubstream();
      if !ok || !was.Struct? { return false, v; }
      ghost var body, rest := substream.Rest(), data[substream.End()..substream.End() + bytesLeft];
      var m;
      ok, m := substream.DecodeNoinit(fields, was.slots);
      if !ok { return; }
      CloseStringSubstream(substream);
      v := Struct(m);
    }

    /** A packed array's items, until the substream or the room in the array is used up. */
    method DecodePacked(t: Type, items: seq<Value>, arraySize: nat) returns (ok: bool, all: seq<Value>)
      requires Valid() && WellFormedType(t)
      modifies this
      ensures Valid()
      ensures ok <==> D.DecodePacked(t, items, arraySize, old(Rest())).Some?
      ensures ok ==> End() == old(End()) && D.DecodePacked(t, items, arraySize, old(Rest())) == Some(all)
      decreases t, 1, 0
    {
      hide D.DecodeItem;
      hide Zero;
      hide WellFormedType;
      ghost var whole := D.DecodePacked(t, items, arraySize, Rest());
      all := items;
      while bytesLeft > 0 && |all| < arraySize
        invariant Valid() && End() == old(End()) && D.DecodePacked(t, all, arraySize, Rest()) == whole
        decreases if arraySize > |all| then arraySize - |all| else 0
      {
        var v;
        ok, v := DecodeItem(t, Zero(t));
        if !ok { return; }
        all := all + [v];
      }
      ok := bytesLeft == 0;
    }

    /** decode_static_field, for a field that is described by f and stored in slot. */
    method DecodeStaticField(f: Field, wireType: nat, slot: Slot) returns (ok: bool, slot': Slot)
      requires Valid() && WellFormedType(f.ltype)
      modifies this
      ensures Valid()
      ensures ok <==> D.DecodeField(f, wireType, slot, old(Rest())).Some?
      ensures ok ==> End() == old(End()) && D.DecodeField(f, wireType, slot, old(Rest())) == Some((slot', Rest()))
      decreases f, 1, 0
    {
      hide D.DecodeItem;
      hide Zero;
      hide WellFormedType;
      hide D.DecodePacked;
      slot' := slot;
      var v;
      match (f.rule, slot)
      case (Required, One(was)) =>
        ok, v := DecodeItem(f.ltype, was);
        slot' := One(v);
      case (Singular, One(was)) =>
        ok, v := DecodeItem(f.ltype, was);
        slot' := One(v);
      case (Optional, Maybe(_, was)) =>
        ok, v := DecodeItem(f.ltype, was);
        slot' := Maybe(true, v);
      case (Repeated(arraySize), Many(items)) =>
        if wireType == E.WireString && Packable(f.ltype) {
          ok, slot' := DecodePackedField(f, items);
        } else {
          if |items| >= arraySize { return false, slot; }
          ok, v := DecodeItem(f.ltype, Zero(f.ltype));
          slot' := Many(items + [v]);
        }
      case (Oneof, Union(which, was)) =>
        var start := if f.ltype.Submessage? && which != f.tag then Zero(f.ltype) else was;
        ok, v := DecodeItem(f.ltype, start);
        slot' := Union(f.tag, v);
      case _ => ok := false;
    }

    method DecodePackedField(f: Field, items: seq<Value>) returns (ok: bool, slot': Slot)
      requires Valid() && WellFormedType(f.ltype) && f.rule.Repeated? && Packable(f.ltype)
      modifies this
      ensures Valid()
      ensures ok <==> D.DecodeField(f, E.WireString, Many(items), old(Rest())).Some?
      ensures ok ==>
          End() == old(End()) && D.DecodeField(f, E.WireString, Many(items), old(Rest())) ==
          Some((slot', Rest()))
      decreases f, 0, 0
    {
      hide D.DecodePacked;
      hide D.DecodeItem;
      hide D.Substream;
      hide WellFormedType;
      slot' := Many(items);
      var substream, all;
      ok, substream := MakeStringSubstream();
      if !ok { return; }
      ok, all := substream.DecodePacked(f.ltype, items, f.rule.arraySize);
      if !ok { return; }
      CloseStringSubstream(substream);
      slot' := Many(all);
    }

    /** pb_decode_noinit: field after field on top of m, then the check for what is missing. */
    method DecodeNoinit(fields: seq<Field>, m: Message) returns (ok: bool, m': Message)
      requires Valid() && WellFormed(fields)
      modifies this
      ensures Valid()
      ensures ok <==> D.DecodeFields(fields, m, {}, old(Rest())).Some?
      ensures ok ==> End() == old(End()) && D.DecodeFields(fields, m, {}, old(Rest())) == Some(m')
      decreases fields, 0, 0
    {
      hide D.DecodeField;
      hide D.DecodeTag;
      hide D.Skip;
      hide D.AllSeen;
      hide D.Seen;
      hide FieldOf;
      hide RequiredBefore;
      hide Tracks;
      hide WellFormed;
      hide DistinctTags;
      hide W.DecodeVarint32;
      TagsDistinct(fields);
      NothingSeen();
      NoneSeen(fields);
      ghost var whole, seen: set<nat> := D.DecodeFields(fields, m, {}, Rest()), {};
      var words := [0, 0];
      m' := m;
      var iter := new FieldIter(fields);
      while bytesLeft > 0
        invariant Valid() && End() == old(End()) && iter.Valid() && iter.fields == fields && fresh(iter)
        invariant Tracks(words, seen) && SeenBelow(fields, seen) && D.DecodeFields(fields, m', seen, Rest()) == whole
        decreases bytesLeft
      {
        ghost var s := Rest();
        var wireType, tag, eof, found;
        ok, wireType, tag, eof := DecodeTag();
        if !ok {
          if !eof { return; }
          assert whole == if D.AllSeen(fields, seen) then Some(m') else None;
          break;
        }
        found := iter.Find(tag);
        if !found {
          ok := SkipField(wireType);
          if !ok { return; }
        } else if fields == [] {
          // the terminator of an empty description passes for a bool
          var value;
          ok, value, eof := DecodeVarint32();
          if !ok { return; }
        } else {
          var f := fields[iter.pos];
          FieldFits(fields, iter.pos);
          words := MarkSeen(iter, words, seen);
          SeenStays(fields, iter.pos, seen);
          seen := D.Seen(fields, iter.pos, seen);
          if f.slot !in m' { return false, m'; }
          var slot;
          ok, slot := DecodeStaticField(f, wireType, m'[f.slot]);
          if !ok { return; }
          m' := m'[f.slot := slot];
        }
      }
      assert whole == if D.AllSeen(fields, seen) then Some(m') else None;
      ok := CheckRequired(iter, words, seen);
    }

    /** pb_decode. */
    method Decode(fields: seq<Field>) returns (ok: bool, m: Message)
      requires Valid() && WellFormed(fields)
      modifies this
      ensures Valid()
      ensures ok <==> D.Decode(fields, old(Rest())).Some?
      ensures ok ==> D.Decode(fields, old(Rest())) == Some(m)
    {
      ok, m := DecodeNoinit(fields, Defaults(fields, |fields|));
    }
  }
}
