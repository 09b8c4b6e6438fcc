/** What the checksums of the log catch (util/crc32c.cc, db/log_reader.cc): every change within four bytes in a row. */
module Corruption {
  import opened Coding
  import opened Crc32c
  import opened LogFormat

  // -------------------------------------------------------------- division loses nothing

  lemma ZeroBitInjective(a: bv32, b: bv32)
    requires ZeroBit(a) == ZeroBit(b)
    ensures a == b
  {
  }

  lemma {:induction false} ZerosInjective(bits: nat, a: bv32, b: bv32)
    requires Crc32c.Zeros(bits, a) == Crc32c.Zeros(bits, b)
    ensures a == b
  {
    hide ZeroBit;
    if bits > 0 {
      ZeroBitInjective(Crc32c.Zeros(bits - 1, a), Crc32c.Zeros(bits - 1, b));
      ZerosInjective(bits - 1, a, b);
    }
  }

  lemma XorInjective(a: bv32, b: bv32, c: bv32)
    requires Xor(a, c) == Xor(b, c) || Xor(c, a) == Xor(c, b)
    ensures a == b
  {
  }

  /** From different states the same bytes lead to different states. */
  lemma {:induction false} DivideInjective(l: bv32, l': bv32, data: seq<Byte>)
    requires Divide(l, data) == Divide(l', data)
    ensures l == l'
  {
    hide Xor;
    hide Bits;
    hide Crc32c.Zeros;
    if data != [] {
      var init, b := data[..|data| - 1], Bits(data[|data| - 1]) as bv32;
      ZerosInjective(8, Xor(Divide(l, init), b), Xor(Divide(l', init), b));
      XorInjective(Divide(l, init), Divide(l', init), b);
      DivideInjective(l, l', init);
    }
  }

  lemma WordInjective(a: bv8, b: bv8, c: bv8, d: bv8, a': bv8, b': bv8, c': bv8, d': bv8)
    requires Word(a, b, c, d) == Word(a', b', c', d')
    ensures a == a' && b == b' && c == c' && d == d'
  {
    hide Word;
    BytesOfWord(a, b, c, d);
    BytesOfWord(a', b', c', d');
  }

  lemma DivideOneMore(l: bv32, x: seq<Byte>, p: nat)
    requires p < |x|
    ensures Divide(l, x[..p + 1]) == ZeroByte(Xor(Divide(l, x[..p]), Bits(x[p]) as bv32))
  {
    assert x[..p + 1][..p] == x[..p];
  }

  lemma DivideFour(l: bv32, x: seq<Byte>)
    requires |x| == 4
    ensures Divide(l, x) == FourBytes(l, Bits(x[0]), Bits(x[1]), Bits(x[2]), Bits(x[3]))
  {
    DivideNothing(l, x);
    hide Divide;
    hide Xor;
    hide Bits;
    hide ZeroBytes;
    assert x[..4] == x;
    DivideOneMore(l, x, 0);
    DivideOneMore(l, x, 1);
    DivideOneMore(l, x, 2);
    DivideOneMore(l, x, 3);
  }

  lemma SameBits(a: Byte, b: Byte)
    requires Bits(a) == Bits(b)
    ensures a == b
  {
    BitsRoundTrip(a, 0);
    BitsRoundTrip(b, 0);
  }

  /** Different words lead to different states. */
  lemma FourInjective(l: bv32, x: seq<Byte>, y: seq<Byte>)
    requires |x| == |y| == 4 && Divide(l, x) == Divide(l, y)
    ensures x == y
  {
    hide Divide;
    hide Xor;
    hide Bits;
    hide Word;
    hide Crc32c.Zeros;
    var w, w' := Word(Bits(x[0]), Bits(x[1]), Bits(x[2]), Bits(x[3])),
        Word(Bits(y[0]), Bits(y[1]), Bits(y[2]), Bits(y[3]));
    DivideFour(l, x);
    DivideFour(l, y);
    WordStep(l, Bits(x[0]), Bits(x[1]), Bits(x[2]), Bits(x[3]));
    WordStep(l, Bits(y[0]), Bits(y[1]), Bits(y[2]), Bits(y[3]));
    ZerosInjective(32, Xor(l, w), Xor(l, w'));
    XorInjective(w, w', l);
    WordInjective(Bits(x[0]), Bits(x[1]), Bits(x[2]), Bits(x[3]), Bits(y[0]), Bits(y[1]), Bits(y[2]), Bits(y[3]));
    forall i | 0 <= i < 4 ensures x[i] == y[i] { SameBits(x[i], y[i]); }
  }

  lemma BurstInjective(l: bv32, x: seq<Byte>, y: seq<Byte>)
    requires |x| == |y| <= 4 && Divide(l, x) == Divide(l, y)
    ensures x == y
  {
    hide Divide;
    var pad: seq<Byte> := seq(4 - |x|, _ => 0);
    DivideAppend(l, x, pad);
    DivideAppend(l, y, pad);
    FourInjective(l, x + pad, y + pad);
    assert (x + pad)[..|x|] == x && (y + pad)[..|y|] == y;
  }

  /** Two messages that differ in at most four bytes in a row. */
  ghost predicate Burst(data: seq<Byte>, data': seq<Byte>, p: nat, q: nat) {
    p <= q <= p + 4 && q <= |data| == |data'| && data'[..p] == data[..p] && data'[q..] == data[q..]
  }

  /** If they have the same checksum they are the same. */
  lemma BurstDetected(data: seq<Byte>, data': seq<Byte>, p: nat, q: nat)
    requires Burst(data, data', p, q) && Value(data) == Value(data')
    ensures data == data'
  {
    hide Xor;
    hide Divide;
    var l := Xor(0, AllOnes);
    XorInjective(Divide(l, data), Divide(l, data'), AllOnes);
    var a, x, y, b := data[..p], data[p..q], data'[p..q], data[q..];
    assert data == a + x + b && data' == a + y + b;
    DivideAppend(l, a + x, b);
    DivideAppend(l, a + y, b);
    DivideAppend(l, a, x);
    DivideAppend(l, a, y);
    DivideInjective(Divide(l, a + x), Divide(l, a + y), b);
    BurstInjective(Divide(l, a), x, y);
  }

  // ------------------------------------------------------------------------ in the log

  /** A stored checksum matches just what has the checksum it was made of. */
  lemma ChecksumMatchesIff(t: Byte, payload: seq<Byte>, covered: seq<Byte>)
    ensures ChecksumMatches(ChecksumField(t, payload), covered) <==> Value(covered) == Value([t] + payload)
  {
    hide Crc;
    hide Crc32c.Mask;
    hide Unmask;
    hide DecodeFixed32;
    hide EncodeFixed32;
    CrcAppend(0, [t], payload);
    Fixed32RoundTrip(Crc32c.Mask(Value([t] + payload)));
    MaskRoundTrip(Value([t] + payload));
  }

  /** A fragment of which up to four bytes in a row, of its type and payload, are not what was written is reported as
      bad, never returned. */
  lemma CorruptFragmentIsBad(buffer: seq<Byte>, eof: bool, t: Byte, payload: seq<Byte>, p: nat, q: nat)
    requires |payload| <= 0xffff && HeaderSize + |payload| <= |buffer|
    requires buffer[..6] == Physical(t, payload)[..6]
    requires Burst([t] + payload, buffer[6..HeaderSize + |payload|], p, q)
    requires buffer[6..HeaderSize + |payload|] != [t] + payload
    ensures ParseBuffer(buffer, eof) == (Bad(if buffer[6] == ZeroType && payload == [] then 0 else |buffer|), [])
  {
    hide ChecksumField;
    hide ChecksumMatches;
    var r, covered := Physical(t, payload), buffer[6..HeaderSize + |payload|];
    PhysicalParts(t, payload);
    assert buffer[..6][4] == r[..6][4] && buffer[..6][5] == r[..6][5] && buffer[..6][..4] == r[..6][..4];
    assert LengthAt(buffer, 0) == LengthAt(r, 0);
    assert buffer[..4] == ChecksumField(t, payload);
    ChecksumMatchesIff(t, payload, covered);
    if Value(covered) == Value([t] + payload) { BurstDetected([t] + payload, covered, p, q); }
  }
}
