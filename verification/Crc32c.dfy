/** CRC32C (util/crc32c.cc, util/crc32c.h): the four-stride table loop against the polynomial
    division of section 12.1 of RFC 3720, one bit at a time. */
module Crc32c {
  import opened Coding

  /** The Castagnoli polynomial with its bits reversed. */
  const Polynomial: bv32 := 0x82f63b78
  const AllOnes: bv32 := 0xffff_ffff
  const MaskDelta: bv32 := 0xa282_ead8

  function Xor(a: bv32, b: bv32): bv32 { a ^ b }

  // ------------------------------------------------------------ appending zeros

  /** Divide one more bit. */
  function ZeroBit(x: bv32): bv32 {
    if x & 1 == 1 then Xor(x >> 1, Polynomial) else x >> 1
  }

  /** The state after so many more zero bits. */
  function Zeros(bits: nat, x: bv32): bv32 {
    if bits == 0 then x else ZeroBit(Zeros(bits - 1, x))
  }

  function ZeroBytes(n: nat, x: bv32): bv32 { Zeros(8 * n, x) }

  /** The state after one, four and sixteen more zero bytes. */
  function ZeroByte(x: bv32): bv32 { ZeroBytes(1, x) }

  function ZeroWord(x: bv32): bv32 { ZeroBytes(4, x) }

  function ZeroSwath(x: bv32): bv32 { ZeroBytes(16, x) }

  lemma LowBits(a: bv32, b: bv32)
    ensures (a ^ b) >> 1 == (a >> 1) ^ (b >> 1)
    ensures (a ^ b) & 1 == (a & 1) ^ (b & 1)
    ensures a & 1 == 0 || a & 1 == 1
  {
  }

  lemma XorSwap(a: bv32, b: bv32, p: bv32)
    ensures (a ^ p) ^ b == (a ^ b) ^ p
    ensures a ^ (b ^ p) == (a ^ b) ^ p
    ensures (a ^ p) ^ (b ^ p) == a ^ b
  {
  }

  lemma ZeroBitOfXor(a: bv32, b: bv32)
    ensures ZeroBit(a ^ b) == ZeroBit(a) ^ ZeroBit(b)
  {
    LowBits(a, b);
    LowBits(b, a);
    XorSwap(a >> 1, b >> 1, Polynomial);
    if a & 1 == 1 {
      if b & 1 == 1 { assert (a ^ b) & 1 == 0; } else { assert (a ^ b) & 1 == 1; }
    } else {
      if b & 1 == 1 { assert (a ^ b) & 1 == 1; } else { assert (a ^ b) & 1 == 0; }
    }
  }

  lemma ZeroBitLinear(a: bv32, b: bv32)
    ensures ZeroBit(Xor(a, b)) == Xor(ZeroBit(a), ZeroBit(b))
  {
    ZeroBitOfXor(a, b);
  }

  /** Division is linear, so zeros may be appended to parts of a state separately. */
  lemma {:induction false} ZerosLinear(bits: nat, a: bv32, b: bv32)
    ensures Zeros(bits, Xor(a, b)) == Xor(Zeros(bits, a), Zeros(bits, b))
  {
    hide ZeroBit;
    hide Xor;
    if bits > 0 {
      ZerosLinear(bits - 1, a, b);
      ZeroBitLinear(Zeros(bits - 1, a), Zeros(bits - 1, b));
    }
  }

  lemma ZeroBytesLinear(n: nat, a: bv32, b: bv32)
    ensures ZeroBytes(n, Xor(a, b)) == Xor(ZeroBytes(n, a), ZeroBytes(n, b))
  {
    hide Zeros;
    hide Xor;
    ZerosLinear(8 * n, a, b);
  }

  lemma {:induction false} ZerosAdd(m: nat, n: nat, x: bv32)
    ensures Zeros(m + n, x) == Zeros(m, Zeros(n, x))
  {
    hide ZeroBit;
    if m > 0 { ZerosAdd(m - 1, n, x); }
  }

  lemma ZeroBytesAdd(m: nat, n: nat, x: bv32)
    ensures ZeroBytes(m + n, x) == ZeroBytes(m, ZeroBytes(n, x))
  {
    hide Zeros;
    ZerosAdd(8 * m, 8 * n, x);
  }

  lemma FourOf(n: nat, x: bv32)
    ensures ZeroBytes(4 * n, x) == ZeroBytes(n, ZeroBytes(n, ZeroBytes(n, ZeroBytes(n, x))))
  {
    hide ZeroBytes;
    ZeroBytesAdd(n, n, x);
    ZeroBytesAdd(n, 2 * n, x);
    ZeroBytesAdd(n, 3 * n, x);
  }

  function EightBits(x: bv32): bv32 {
    ZeroBit(ZeroBit(ZeroBit(ZeroBit(ZeroBit(ZeroBit(ZeroBit(ZeroBit(x))))))))
  }

  lemma ZeroByteBits(x: bv32)
    ensures ZeroByte(x) == EightBits(x)
  {
    hide ZeroBit;
    assert Zeros(1, x) == ZeroBit(Zeros(0, x));
    assert Zeros(2, x) == ZeroBit(Zeros(1, x));
    assert Zeros(3, x) == ZeroBit(Zeros(2, x));
    assert Zeros(4, x) == ZeroBit(Zeros(3, x));
    assert Zeros(5, x) == ZeroBit(Zeros(4, x));
    assert Zeros(6, x) == ZeroBit(Zeros(5, x));
    assert Zeros(7, x) == ZeroBit(Zeros(6, x));
    assert Zeros(8, x) == ZeroBit(Zeros(7, x));
  }

  /** Low zero bits just shift out. */
  lemma ShiftOut(y: bv32)
    requires y <= 0xff_ffff
    ensures ZeroByte(y << 8) == y
  {
    hide ZeroByte;
    ZeroByteBits(y << 8);
  }

  // ------------------------------------------------------------------- the tables

  /** The tables of the source, by what their entries are: kByteExtensionTable[i] advances i by one
      zero byte, and the four stride tables advance a byte in each place of a word by sixteen. */
  function ByteExtensionTable(i: bv32): bv32
    requires i <= 0xff
  { ZeroByte(i) }

  function StrideExtensionTable3(i: bv32): bv32
    requires i <= 0xff
  { ZeroSwath(i) }

  function StrideExtensionTable2(i: bv32): bv32
    requires i <= 0xff
  { ZeroSwath(i << 8) }

  function StrideExtensionTable1(i: bv32): bv32
    requires i <= 0xff
  { ZeroSwath(i << 16) }

  function StrideExtensionTable0(i: bv32): bv32
    requires i <= 0xff
  { ZeroSwath(i << 24) }

  lemma SplitLow(x: bv32)
    ensures Xor(x & 0xff, (x >> 8) << 8) == x && x >> 8 <= 0xff_ffff && x & 0xff <= 0xff
  {
  }

  /** One table lookup and a shift advance a state by a zero byte. */
  lemma ByteTableAdvances(x: bv32)
    ensures x & 0xff <= 0xff && Xor(ByteExtensionTable(x & 0xff), x >> 8) == ZeroByte(x)
  {
    hide ZeroBytes;
    hide Xor;
    SplitLow(x);
    ZeroBytesLinear(1, x & 0xff, (x >> 8) << 8);
    ShiftOut(x >> 8);
  }

  lemma SplitBytes(x: bv32)
    ensures x & 0xff <= 0xff && (x >> 8) & 0xff <= 0xff && (x >> 16) & 0xff <= 0xff && x >> 24 <= 0xff
    ensures Xor(x & 0xff, Xor(((x >> 8) & 0xff) << 8, Xor(((x >> 16) & 0xff) << 16, (x >> 24) << 24))) == x
  {
  }

  lemma XorAssoc(a: bv32, b: bv32, c: bv32)
    ensures Xor(Xor(a, b), c) == Xor(a, Xor(b, c))
  {
  }

  /** STEP4: what four table lookups make of a stride's state and the next word. */
  function Step4(x: bv32, w: bv32): bv32 {
    SplitBytes(x);
    Xor(Xor(Xor(Xor(w, StrideExtensionTable3(x & 0xff)), StrideExtensionTable2((x >> 8) & 0xff)),
            StrideExtensionTable1((x >> 16) & 0xff)), StrideExtensionTable0(x >> 24))
  }

  /** It advances the state by sixteen zero bytes. */
  lemma StrideTablesAdvance(x: bv32, w: bv32)
    ensures Step4(x, w) == Xor(w, ZeroSwath(x))
  {
    hide ZeroBytes;
    hide Xor;
    SplitBytes(x);
    var b0, b1, b2, b3 := x & 0xff, ((x >> 8) & 0xff) << 8, ((x >> 16) & 0xff) << 16, (x >> 24) << 24;
    ZeroBytesLinear(16, b2, b3);
    ZeroBytesLinear(16, b1, Xor(b2, b3));
    ZeroBytesLinear(16, b0, Xor(b1, Xor(b2, b3)));
    XorAssoc(w, ZeroSwath(b0), ZeroSwath(b1));
    XorAssoc(w, Xor(ZeroSwath(b0), ZeroSwath(b1)), ZeroSwath(b2));
    XorAssoc(w, Xor(Xor(ZeroSwath(b0), ZeroSwath(b1)), ZeroSwath(b2)), ZeroSwath(b3));
    XorAssoc(Xor(ZeroSwath(b0), ZeroSwath(b1)), ZeroSwath(b2), ZeroSwath(b3));
    XorAssoc(ZeroSwath(b0), ZeroSwath(b1), Xor(ZeroSwath(b2), ZeroSwath(b3)));
  }

  // ----------------------------------------------------------------- the reference

  /** The division, byte by byte, without its pre- and post-conditioning. */
  function Divide(l: bv32, data: seq<Byte>): bv32 {
    if data == [] then l else ZeroByte(Xor(Divide(l, data[..|data| - 1]), Bits(data[|data| - 1]) as bv32))
  }

  /** The CRC32C of a message whose beginning has the given CRC. */
  function Crc(crc: bv32, data: seq<Byte>): bv32 {
    Xor(Divide(Xor(crc, AllOnes), data), AllOnes)
  }

  function Value(data: seq<Byte>): bv32 { Crc(0, data) }

  lemma XorLaws(a: bv32, b: bv32)
    ensures Xor(a, b) == Xor(b, a) && Xor(a, 0) == a && Xor(Xor(a, b), b) == a
  {
  }

  lemma {:induction false} DivideAppend(l: bv32, a: seq<Byte>, b: seq<Byte>)
    ensures Divide(l, a + b) == Divide(Divide(l, a), b)
  {
    hide Xor;
    hide ZeroBytes;
    hide Bits;
    if b == [] {
      assert a + b == a;
    } else {
      DivideAppend(l, a, b[..|b| - 1]);
      assert (a + b)[..|a + b| - 1] == a + b[..|b| - 1];
    }
  }

  /** A checksum may be extended piece by piece. */
  lemma CrcAppend(crc: bv32, a: seq<Byte>, b: seq<Byte>)
    ensures Crc(Crc(crc, a), b) == Crc(crc, a + b)
  {
    hide Xor;
    XorLaws(Divide(Xor(crc, AllOnes), a), AllOnes);
    DivideAppend(Xor(crc, AllOnes), a, b);
  }

  // ---------------------------------------------------------------- bytes and words

  lemma LowByteOfXor(l: bv32, b: bv8)
    ensures var c := (l & 0xff) ^ (b as bv32);
        c <= 0xff && c == Xor(l, b as bv32) & 0xff
        && l >> 8 == Xor(l, b as bv32) >> 8
  {
  }

  /** STEP1. */
  function Step1(l: bv32, b: Byte): bv32 {
    LowByteOfXor(l, Bits(b));
    Xor(ByteExtensionTable((l & 0xff) ^ (Bits(b) as bv32)), l >> 8)
  }

  lemma Step1Divides(l: bv32, b: Byte)
    ensures Step1(l, b) == ZeroByte(Xor(l, Bits(b) as bv32))
  {
    hide ZeroByte;
    hide ByteExtensionTable;
    hide Bits;
    LowByteOfXor(l, Bits(b));
    hide Xor;
    hide ZeroBytes;
    ByteTableAdvances(Xor(l, Bits(b) as bv32));
  }

  lemma DivideByte(l: bv32, data: seq<Byte>, p: nat)
    requires p < |data|
    ensures Step1(Divide(l, data[..p]), data[p]) == Divide(l, data[..p + 1])
  {
    hide Xor;
    hide ZeroBytes;
    hide Step1;
    hide Bits;
    Step1Divides(Divide(l, data[..p]), data[p]);
    assert data[..p + 1][..p] == data[..p];
  }

  function ReadUint32LE(data: seq<Byte>, p: nat): bv32
    requires p + 4 <= |data|
  {
    DecodeFixed32(data[p..p + 4])
  }

  lemma ByteThenRest(l: bv32, b: bv32, rest: bv32)
    requires rest <= 0xff_ffff
    ensures ZeroByte(Xor(l, Xor(b, rest << 8))) == Xor(ZeroByte(Xor(l, b)), rest)
  {
    hide Xor;
    hide ZeroBytes;
    XorAssoc(l, b, rest << 8);
    ZeroBytesLinear(1, Xor(l, b), rest << 8);
    ShiftOut(rest);
  }

  /** A word as its low byte and the rest, down to its high byte. */
  lemma WordIsBytes(a: bv8, b: bv8, c: bv8, d: bv8) returns (r1: bv32, r2: bv32, r3: bv32)
    ensures r3 <= 0xff_ffff && r2 <= 0xff_ffff && r1 <= 0xff_ffff
    ensures r3 == d as bv32 && r2 == Xor(c as bv32, r3 << 8) && r1 == Xor(b as bv32, r2 << 8)
    ensures Word(a, b, c, d) == Xor(a as bv32, r1 << 8)
  {
    r3 := d as bv32;
    r2 := Xor(c as bv32, r3 << 8);
    r1 := Xor(b as bv32, r2 << 8);
  }

  function FourBytes(l: bv32, a: bv8, b: bv8, c: bv8, d: bv8): bv32 {
    ZeroByte(Xor(ZeroByte(Xor(ZeroByte(Xor(ZeroByte(Xor(l, a as bv32)), b as bv32)), c as bv32)), d as bv32))
  }

  /** Four bytes at once, loaded as a little-endian word. */
  lemma WordStep(l: bv32, a: bv8, b: bv8, c: bv8, d: bv8)
    ensures ZeroWord(Xor(l, Word(a, b, c, d))) == FourBytes(l, a, b, c, d)
  {
    hide Xor;
    hide ZeroBytes;
    hide Word;
    FourOf(1, Xor(l, Word(a, b, c, d)));
    var r1, r2, r3 := WordIsBytes(a, b, c, d);
    var x := ZeroByte(Xor(l, a as bv32));
    var y := ZeroByte(Xor(x, b as bv32));
    ByteThenRest(l, a as bv32, r1);
    ByteThenRest(x, b as bv32, r2);
    ByteThenRest(y, c as bv32, r3);
  }

  lemma DivideStep(l: bv32, data: seq<Byte>, p: nat)
    requires p < |data|
    ensures Divide(l, data[..p + 1]) == ZeroByte(Xor(Divide(l, data[..p]), Bits(data[p]) as bv32))
  {
    hide Xor;
    hide ZeroBytes;
    hide Bits;
    assert data[..p + 1][..p] == data[..p];
  }

  lemma DivideWord(l: bv32, data: seq<Byte>, p: nat)
    requires p + 4 <= |data|
    ensures ZeroWord(Xor(Divide(l, data[..p]), ReadUint32LE(data, p))) == Divide(l, data[..p + 4])
  {
    hide Xor;
    hide ZeroBytes;
    hide Word;
    hide Bits;
    hide Divide;
    WordStep(Divide(l, data[..p]), Bits(data[p]), Bits(data[p + 1]), Bits(data[p + 2]), Bits(data[p + 3]));
    DivideStep(l, data, p);
    DivideStep(l, data, p + 1);
    DivideStep(l, data, p + 2);
    DivideStep(l, data, p + 3);
  }

  // ------------------------------------------------------------------- the strides

  /** The last two strides and the recombination: what the four partial results stand for. */
  function Combine(c0: bv32, c1: bv32, c2: bv32, c3: bv32): bv32 {
    ZeroWord(Xor(c3, ZeroWord(Xor(c2, ZeroWord(Xor(c1, ZeroWord(Xor(c0, 0))))))))
  }

  lemma CombineSplits(c0: bv32, c1: bv32, c2: bv32, c3: bv32)
    ensures Combine(c0, c1, c2, c3) == Xor(ZeroWord(Xor(c3, ZeroWord(Xor(c2, ZeroWord(c1))))), ZeroSwath(c0))
  {
    hide Xor;
    hide ZeroBytes;
    FourOf(4, c0);
    var z := ZeroWord(c0);
    XorLaws(c0, 0);
    ZeroBytesLinear(4, c1, z);
    var z2, t1 := ZeroWord(z), ZeroWord(c1);
    XorAssoc(c2, t1, z2);
    ZeroBytesLinear(4, Xor(c2, t1), z2);
    var z3, t2 := ZeroWord(z2), ZeroWord(Xor(c2, t1));
    XorAssoc(c3, t2, z3);
    ZeroBytesLinear(4, Xor(c3, t2), z3);
  }

  /** Giving the oldest stride the next word, and making it the newest, takes the whole one word further. */
  lemma Rotate(c0: bv32, c1: bv32, c2: bv32, c3: bv32, w: bv32)
    ensures Combine(c1, c2, c3, Step4(c0, w)) == ZeroWord(Xor(Combine(c0, c1, c2, c3), w))
  {
    hide Xor;
    hide ZeroBytes;
    hide Step4;
    StrideTablesAdvance(c0, w);
    CombineSplits(c0, c1, c2, c3);
    XorLaws(c1, 0);
    var t := ZeroWord(Xor(c3, ZeroWord(Xor(c2, ZeroWord(c1)))));
    var s := ZeroSwath(c0);
    XorAssoc(w, s, t);
    XorLaws(s, t);
    XorLaws(w, Xor(t, s));
  }

  lemma LoadSwath(l: bv32, w0: bv32, w1: bv32, w2: bv32, w3: bv32)
    ensures Combine(Xor(w0, l), w1, w2, w3) == ZeroWord(Xor(ZeroWord(Xor(ZeroWord(Xor(ZeroWord(Xor(l, w0)), w1)), w2)),
        w3))
  {
    hide Xor;
    hide ZeroBytes;
    XorLaws(w0, l);
    XorLaws(Xor(w0, l), 0);
    var x := ZeroWord(Xor(l, w0));
    XorLaws(w1, x);
    var y := ZeroWord(Xor(x, w1));
    XorLaws(w2, y);
    var z := ZeroWord(Xor(y, w2));
    XorLaws(w3, z);
  }

  /** STEP4W. */
  method Step4W(l: bv32, crc: bv32) returns (r: bv32)
    ensures r == ZeroWord(Xor(crc, l))
  {
    hide Xor;
    hide ZeroBytes;
    var w := Xor(crc, l);
    for i := 0 to 4
      invariant ZeroWord(Xor(crc, l)) == ZeroBytes(4 - i, w)
    {
      ZeroBytesAdd(3 - i, 1, w);
      ByteTableAdvances(w);
      XorLaws(w >> 8, ByteExtensionTable(w & 0xff));
      w := Xor(w >> 8, ByteExtensionTable(w & 0xff));
    }
    r := w;
    NoBytes(w);
  }

  lemma NoBytes(x: bv32)
    ensures ZeroBytes(0, x) == x
  {
  }

  /** The address of p after rounding up to a multiple of four, as an offset from p. */
  function RoundUp(address: nat): (n: nat)
    ensures n < 4 && (address + n) % 4 == 0
  {
    (4 - address % 4) % 4
  }

  /** The four accumulators stand for the remainder of the first p bytes. */
  ghost predicate Accumulated(l: bv32, data: seq<Byte>, p: nat, c0: bv32, c1: bv32, c2: bv32, c3: bv32)
    requires p <= |data|
  {
    Combine(c0, c1, c2, c3) == Divide(l, data[..p])
  }

  /** STEP4 on the word at p. */
  function StepAt(c: bv32, data: seq<Byte>, p: nat): bv32
    requires p + 4 <= |data|
  {
    Step4(c, ReadUint32LE(data, p))
  }

  /** STEP16: each stride takes its word of the next swath. */
  lemma SwathStep(l: bv32, data: seq<Byte>, p: nat, c0: bv32, c1: bv32, c2: bv32, c3: bv32)
    requires p + 16 <= |data| && Accumulated(l, data, p, c0, c1, c2, c3)
    ensures Accumulated(l, data, p + 16, StepAt(c0, data, p), StepAt(c1, data, p + 4), StepAt(c2, data, p + 8),
                        StepAt(c3, data, p + 12))
  {
    hide Accumulated;
    hide StepAt;
    WordIn(l, data, p, c0, c1, c2, c3);
    var d0 := StepAt(c0, data, p);
    WordIn(l, data, p + 4, c1, c2, c3, d0);
    var d1 := StepAt(c1, data, p + 4);
    WordIn(l, data, p + 8, c2, c3, d0, d1);
    var d2 := StepAt(c2, data, p + 8);
    WordIn(l, data, p + 12, c3, d0, d1, d2);
  }

  lemma WordIn(l: bv32, data: seq<Byte>, p: nat, c0: bv32, c1: bv32, c2: bv32, c3: bv32)
    requires p + 4 <= |data| && Accumulated(l, data, p, c0, c1, c2, c3)
    ensures Accumulated(l, data, p + 4, c1, c2, c3, StepAt(c0, data, p))
  {
    hide Combine;
    hide Step4;
    hide Divide;
    hide ZeroBytes;
    hide Xor;
    Rotate(c0, c1, c2, c3, ReadUint32LE(data, p));
    DivideWord(l, data, p);
  }

  lemma FirstSwath(l: bv32, data: seq<Byte>, p: nat, l': bv32)
    requires p + 16 <= |data| && l' == Divide(l, data[..p])
    ensures Combine(Xor(ReadUint32LE(data, p), l'), ReadUint32LE(data, p + 4), ReadUint32LE(data, p + 8),
        ReadUint32LE(data, p + 12))
            == Divide(l, data[..p + 16])
  {
    hide Combine;
    hide Divide;
    hide ZeroBytes;
    hide Xor;
    LoadSwath(l', ReadUint32LE(data, p), ReadUint32LE(data, p + 4), ReadUint32LE(data, p + 8),
        ReadUint32LE(data, p + 12));
    DivideWord(l, data, p);
    DivideWord(l, data, p + 4);
    DivideWord(l, data, p + 8);
    DivideWord(l, data, p + 12);
  }

  /** The strided middle of Extend, from an aligned p with at least 16 bytes left. */
  method Strides(l: bv32, data: seq<Byte>, start: nat, ghost initial: bv32) returns (p: nat, r: bv32)
    requires start + 16 <= |data| && l == Divide(initial, data[..start])
    ensures start <= p <= |data| && r == Divide(initial, data[..p])
  {
    hide Combine;
    hide Step4;
    hide Divide;
    hide ReadUint32LE;
    hide Xor;
    hide StepAt;
    var crc0 := Xor(ReadUint32LE(data, start), l);
    var crc1 := ReadUint32LE(data, start + 4);
    var crc2 := ReadUint32LE(data, start + 8);
    var crc3 := ReadUint32LE(data, start + 12);
    FirstSwath(initial, data, start, l);
    p := start + 16;
    while |data| - p >= 16
      invariant start <= p <= |data| && Accumulated(initial, data, p, crc0, crc1, crc2, crc3)
    {
      SwathStep(initial, data, p, crc0, crc1, crc2, crc3);
      crc0 := StepAt(crc0, data, p);
      crc1 := StepAt(crc1, data, p + 4);
      crc2 := StepAt(crc2, data, p + 8);
      crc3 := StepAt(crc3, data, p + 12);
      p := p + 16;
    }
    while |data| - p >= 4
      invariant start <= p <= |data| && Accumulated(initial, data, p, crc0, crc1, crc2, crc3)
    {
      WordIn(initial, data, p, crc0, crc1, crc2, crc3);
      crc0 := StepAt(crc0, data, p);
      crc0, crc1, crc2, crc3 := crc1, crc2, crc3, crc0;
      p := p + 4;
    }
    r := Recombine(crc0, crc1, crc2, crc3);
  }

  method Recombine(crc0: bv32, crc1: bv32, crc2: bv32, crc3: bv32) returns (l: bv32)
    ensures l == Combine(crc0, crc1, crc2, crc3)
  {
    hide Xor;
    hide ZeroBytes;
    l := 0;
    l := Step4W(l, crc0);
    l := Step4W(l, crc1);
    l := Step4W(l, crc2);
    l := Step4W(l, crc3);
  }

  method StepBytes(l: bv32, data: seq<Byte>, from: nat, to: nat, ghost initial: bv32) returns (r: bv32)
    requires from <= to <= |data| && l == Divide(initial, data[..from])
    ensures r == Divide(initial, data[..to])
  {
    hide Divide;
    hide Step1;
    var p := from;
    r := l;
    while p != to
      invariant from <= p <= to && r == Divide(initial, data[..p])
    {
      DivideByte(initial, data, p);
      r := Step1(r, data[p]);
      p := p + 1;
    }
  }

  /** Extend: for every buffer at every address, the strided computation is the plain division. */
  method Extend(crc: bv32, data: seq<Byte>, address: nat) returns (r: bv32)
    ensures r == Crc(crc, data)
  {
    hide Divide;
    hide Xor;
    var p, l := 0, Xor(crc, AllOnes);
    ghost var initial := l;
    DivideNothing(initial, data);
    var x := RoundUp(address);
    if x <= |data| {
      l := StepBytes(l, data, 0, x, initial);
      p := x;
    }
    if |data| - p >= 16 {
      p, l := Strides(l, data, p, initial);
    }
    l := StepBytes(l, data, p, |data|, initial);
    assert data[..|data|] == data;
    r := Xor(l, AllOnes);
  }

  lemma DivideNothing(l: bv32, data: seq<Byte>)
    ensures Divide(l, data[..0]) == l
  {
  }

  // ---------------------------------------------------------------------- masking

  /** Stored checksums are rotated and offset. */
  function Mask(crc: bv32): bv32 { ((crc >> 15) | (crc << 17)) + MaskDelta }

  function Unmask(masked: bv32): bv32 {
    var rot := masked - MaskDelta;
    (rot >> 17) | (rot << 15)
  }

  lemma MaskRoundTrip(x: bv32)
    ensures Unmask(Mask(x)) == x && Mask(Unmask(x)) == x
  {
  }
}
