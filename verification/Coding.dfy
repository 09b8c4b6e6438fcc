/** Fixed-width and variable-length integers as bytes (util/coding.cc). */
module Coding {
  newtype Byte = x: int | 0 <= x < 256

  function Bits(b: Byte): bv8 { b as bv8 }

  function OfBits(v: bv8): Byte { v as Byte }

  lemma BitsRoundTrip(b: Byte, v: bv8)
    ensures OfBits(Bits(b)) == b && Bits(OfBits(v)) == v
  {
    OfInt(b as int);
    assert (v as int) as bv8 == v;
  }

  lemma OfInt(n: int)
    requires 0 <= n < 256
    ensures (n as bv8) as int == n
  {
    var v := CountTo(n);
    assert (v as int) as bv8 == v;
  }

  lemma {:induction false} CountTo(n: int) returns (v: bv8)
    requires 0 <= n < 256
    ensures v as int == n
  {
    if n == 0 {
      v := 0;
    } else {
      var u := CountTo(n - 1);
      NextBits(u);
      v := u + 1;
    }
  }

  lemma NextBits(v: bv8)
    requires v as int < 255
    ensures (v + 1) as int == v as int + 1
  {
    assert v != 255;
  }

  /** Little-endian. */
  function EncodeFixed32(v: bv32): (r: seq<Byte>)
    ensures |r| == 4
  {
    [OfBits((v & 0xff) as bv8), OfBits(((v >> 8) & 0xff) as bv8), OfBits(((v >> 16) & 0xff) as bv8),
        OfBits(((v >> 24) & 0xff) as bv8)]
  }

  function Word(a: bv8, b: bv8, c: bv8, d: bv8): bv32 {
    (a as bv32) | ((b as bv32) << 8) | ((c as bv32) << 16) | ((d as bv32) << 24)
  }

  function DecodeFixed32(s: seq<Byte>): bv32
    requires |s| >= 4
  {
    Word(Bits(s[0]), Bits(s[1]), Bits(s[2]), Bits(s[3]))
  }

  lemma WordOfBytes(v: bv32)
    ensures Word((v & 0xff) as bv8, ((v >> 8) & 0xff) as bv8, ((v >> 16) & 0xff) as bv8, ((v >> 24) & 0xff) as bv8) == v
  {
  }

  lemma BytesOfWord(a: bv8, b: bv8, c: bv8, d: bv8)
    ensures var v := Word(a, b, c, d);
            && (v & 0xff) as bv8 == a && ((v >> 8) & 0xff) as bv8 == b
            && ((v >> 16) & 0xff) as bv8 == c && ((v >> 24) & 0xff) as bv8 == d
  {
  }

  lemma Fixed32RoundTrip(v: bv32)
    ensures DecodeFixed32(EncodeFixed32(v)) == v
  {
    hide Word;
    hide Bits;
    hide OfBits;
    BitsRoundTrip(0, (v & 0xff) as bv8);
    BitsRoundTrip(0, ((v >> 8) & 0xff) as bv8);
    BitsRoundTrip(0, ((v >> 16) & 0xff) as bv8);
    BitsRoundTrip(0, ((v >> 24) & 0xff) as bv8);
    WordOfBytes(v);
  }
}
