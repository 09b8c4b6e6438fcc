/** nanopb's wire format: varints, zigzag and tags (pb_encode.c, pb_decode.c; "Base 128 Varints" and "Message
    Structure" of the Protocol Buffers encoding specification). */
module NanopbWire {
  import opened Coding
  import opened Options
  import opened Varints

  // ------------------------------------------------------------------------------ bits

  function Pow2(k: nat): (r: nat)
    ensures r > 0
  {
    if k == 0 then 1 else 2 * Pow2(k - 1)
  }

  /** Bitwise or. */
  function Or(a: nat, b: nat): nat {
    if a == 0 && b == 0 then 0 else (if a % 2 == 1 || b % 2 == 1 then 1 else 0) + 2 * Or(a / 2, b / 2)
  }

  function BitOf(a: nat, k: nat): bool { if k == 0 then a % 2 == 1 else BitOf(a / 2, k - 1) }

  lemma OrHalves(a: nat, b: nat)
    ensures Or(a, b) % 2 == (if a % 2 == 1 || b % 2 == 1 then 1 else 0)
    ensures Or(a, b) / 2 == Or(a / 2, b / 2)
  {
    if a != 0 || b != 0 {
      var low: nat, high := if a % 2 == 1 || b % 2 == 1 then 1 else 0, Or(a / 2, b / 2);
      assert Or(a, b) == low + 2 * high;
    }
  }

  lemma {:induction false} OrBit(a: nat, b: nat, k: nat)
    ensures BitOf(Or(a, b), k) <==> BitOf(a, k) || BitOf(b, k)
  {
    hide Or;
    OrHalves(a, b);
    if k > 0 { OrBit(a / 2, b / 2, k - 1); }
  }

  lemma {:induction false} ZeroBits(k: nat)
    ensures !BitOf(0, k)
  {
    if k > 0 { ZeroBits(k - 1); }
  }

  lemma {:induction false} OneBit(k: nat, j: nat)
    ensures BitOf(Pow2(k), j) <==> j == k
  {
    if k == 0 {
      if j > 0 { ZeroBits(j - 1); }
    } else if j > 0 {
      OneBit(k - 1, j - 1);
    }
  }

  lemma {:induction false} OrBelow(a: nat, b: nat, k: nat)
    requires a < Pow2(k) && b < Pow2(k)
    ensures Or(a, b) < Pow2(k)
  {
    if k > 0 && (a != 0 || b != 0) { OrBelow(a / 2, b / 2, k - 1); }
  }

  lemma {:induction false} FullBit(n: nat, k: nat)
    requires k < n
    ensures BitOf(Pow2(n) - 1, k)
  {
    if k > 0 {
      assert (Pow2(n) - 1) / 2 == Pow2(n - 1) - 1;
      FullBit(n - 1, k - 1);
    }
  }

  lemma {:induction false} ClearBit(w: nat, n: nat) returns (k: nat)
    requires w < Pow2(n) - 1
    ensures k < n && !BitOf(w, k)
  {
    if w % 2 == 0 {
      k := 0;
    } else {
      k := ClearBit(w / 2, n - 1);
      k := k + 1;
    }
  }

  /** A word with just its lowest n bits set. */
  lemma AllBits(w: nat, n: nat)
    requires w < Pow2(n)
    ensures w == Pow2(n) - 1 <==> forall k: nat :: k < n ==> BitOf(w, k)
  {
    hide BitOf;
    if w == Pow2(n) - 1 {
      forall k: nat | k < n ensures BitOf(w, k) { FullBit(n, k); }
    } else {
      var k := ClearBit(w, n);
    }
  }

  lemma {:induction false} OrSum(a: nat, b: nat, k: nat)
    requires a < Pow2(k)
    ensures Or(a, b * Pow2(k)) == a + b * Pow2(k)
  {
    if k == 0 {
      OrZero(b);
    } else {
      assert b * Pow2(k) == 2 * (b * Pow2(k - 1));
      OrSum(a / 2, b, k - 1);
    }
  }

  lemma {:induction false} OrZero(b: nat)
    ensures Or(0, b) == b
  {
    if b > 0 { OrZero(b / 2); }
  }

  // --------------------------------------------------------------------------- varints

  /** pb_decode_varint32_eof from its second byte on. bitpos is 8 bits wide and wraps around. */
  function MoreVarint32(s: seq<Byte>, result: nat, bitpos: nat): (r: Option<(nat, seq<Byte>)>)
    ensures r.Some? ==> |r.value.1| < |s|
  {
    if s == [] then None
    else
      var byte := s[0];
      var low := byte as nat % 128;
      if bitpos >= 32 && low != 0 && (result < 0x8000_0000 || byte != SignExtension(bitpos)) then None
      else
        var result', bitpos' := if bitpos >= 32 then result else Or(result, Shifted(low, bitpos)), (bitpos + 7) % 256;
        if byte >= 128 then MoreVarint32(s[1..], result', bitpos')
        else if bitpos' == 35 && byte as nat / 16 % 8 != 0 then None
        else Some((result', s[1..]))
  }

  function Shifted(low: nat, bitpos: nat): nat { low * Pow2(bitpos) % Max32 }

  function SignExtension(bitpos: nat): Byte { if bitpos < 63 then 0xff else 0x01 }

  /** pb_decode_varint32. */
  function DecodeVarint32(s: seq<Byte>): (r: Option<(nat, seq<Byte>)>)
    ensures r.Some? ==> |r.value.1| < |s|
  {
    if s == [] then None
    else if s[0] < 128 then Some((s[0] as nat, s[1..]))
    else MoreVarint32(s[1..], s[0] as nat % 128, 7)
  }

  lemma {:induction false} Pow2Monotone(a: nat, b: nat)
    requires a <= b
    ensures Pow2(a) <= Pow2(b)
  {
    if a < b { Pow2Monotone(a, b - 1); }
  }

  lemma Pow2Plus7(p: nat)
    ensures Pow2(p + 7) == 128 * Pow2(p)
  {
    assert Pow2(p + 7) == 2 * Pow2(p + 6) == 4 * Pow2(p + 5) == 8 * Pow2(p + 4);
    assert Pow2(p + 4) == 2 * Pow2(p + 3) == 4 * Pow2(p + 2) == 8 * Pow2(p + 1);
  }

  lemma Powers()
    ensures Pow2(7) == 0x80 && Pow2(14) == 0x4000 && Pow2(21) == 0x20_0000 && Pow2(28) == 0x1000_0000
        && Pow2(32) == Max32
  {
    hide Pow2;
    Pow2Plus7(0);
    Pow2Plus7(7);
    Pow2Plus7(14);
    Pow2Plus7(21);
    SmallPowers();
    SixteenFold(28);
  }

  lemma SmallPowers()
    ensures Pow2(0) == 1
  {
  }

  lemma SixteenFold(k: nat)
    ensures Pow2(k + 4) == 16 * Pow2(k)
  {
    assert Pow2(k + 4) == 2 * Pow2(k + 3) == 4 * Pow2(k + 2) == 8 * Pow2(k + 1) == 16 * Pow2(k);
  }

  predicate Place(p: nat, scale: nat) {
    (p == 7 && scale == 0x80) || (p == 14 && scale == 0x4000) || (p == 21 && scale == 0x20_0000)
        || (p == 28 && scale == 0x1000_0000)
  }

  /** Seven bits more, at a place where they fit 32 bits. */
  lemma SevenBits(result: nat, v: nat, p: nat, scale: nat)
    requires Place(p, scale)
    requires result < scale && result + v * scale < Max32
    ensures Or(result, Shifted(v % 128, p)) == result + v % 128 * scale < 128 * scale
    ensures result + v % 128 * scale + v / 128 * (128 * scale) == result + v * scale
    ensures p == 28 ==> v < 16
  {
    hide Or;
    hide Pow2;
    Powers();
    OrSum(result, v % 128, p);
    if p == 7 {
    } else if p == 14 {
    } else if p == 21 {
    } else {
      assert v < 16;
    }
  }

  lemma FirstByte(n: nat, rest: seq<Byte>)
    ensures var s := Varint(n) + rest;
            s != [] && s[0] as nat == (if n < 128 then n else n % 128 + 128)
                && s[1..] == if n < 128 then rest else Varint(n / 128) + rest
  {
    if n < 128 { assert Varint(n) == [n as Byte]; } else {
      assert Varint(n) == [(n % 128 + 128) as Byte] + Varint(n / 128);
    }
  }

  lemma MoreStep(v: nat, rest: seq<Byte>, result: nat, p: nat)
    requires p < 32
    ensures var result' := Or(result, Shifted(v % 128, p));
            MoreVarint32(Varint(v) + rest, result, p) ==
              if v >= 128 then MoreVarint32(Varint(v / 128) + rest, result', p + 7)
              else if p == 28 && v >= 16 then None else Some((result', rest))
  {
    hide Or;
    hide Pow2;
    hide Shifted;
    FirstByte(v, rest);
    hide Varint;
  }

  /** The remaining bytes of a number that fits 32 bits. */
  lemma {:induction false} MoreVarint32Back(v: nat, rest: seq<Byte>, result: nat, p: nat, scale: nat)
    requires Place(p, scale) && result < scale && result + v * scale < Max32
    ensures MoreVarint32(Varint(v) + rest, result, p) == Some((result + v * scale, rest))
    decreases v
  {
    hide Or;
    hide Pow2;
    hide Shifted;
    hide MoreVarint32;
    hide Varint;
    SevenBits(result, v, p, scale);
    MoreStep(v, rest, result, p);
    if v >= 128 { MoreVarint32Back(v / 128, rest, result + v % 128 * scale, p + 7, 128 * scale); }
  }

  lemma Varint32Accepts(n: nat, rest: seq<Byte>)
    requires n < Max32
    ensures DecodeVarint32(Varint(n) + rest) == Some((n, rest))
  {
    hide MoreVarint32;
    FirstByte(n, rest);
    if n >= 128 {
      MoreVarint32Back(n / 128, rest, n % 128, 7, 0x80);
    }
  }

  /** From bit 35 on only bytes without a value, or of a sign extension, are let through. */
  lemma {:induction false} TooBig(v: nat, rest: seq<Byte>, result: nat, p: nat)
    requires 35 <= p <= 63 && p % 7 == 0 && 0 < v < Pow2(63 - p)
    ensures MoreVarint32(Varint(v) + rest, result, p).None?
    decreases v
  {
    hide Pow2;
    var s := Varint(v) + rest;
    SmallPowers();
    assert p <= 56;
    if v < 128 {
      assert s[0] == v as Byte;
    } else {
      assert s[0] as nat == v % 128 + 128;
      assert s[1..] == Varint(v / 128) + rest;
      Pow2Plus7(56 - p);
      TooBig(v / 128, rest, result, p + 7);
    }
  }

  predicate TooLarge(v: nat, p: nat) {
    || (p == 7 && 0x200_0000 <= v < 0x100_0000_0000_0000)
    || (p == 14 && 0x4_0000 <= v < 0x2_0000_0000_0000)
    || (p == 21 && 0x800 <= v < 0x400_0000_0000)
    || (p == 28 && 0x10 <= v < 0x8_0000_0000)
  }

  lemma {:induction false} RejectsFrom(v: nat, rest: seq<Byte>, result: nat, p: nat)
    requires TooLarge(v, p)
    ensures MoreVarint32(Varint(v) + rest, result, p).None?
    decreases v
  {
    hide Or;
    hide Pow2;
    hide Shifted;
    hide MoreVarint32;
    hide Varint;
    MoreStep(v, rest, result, p);
    var result' := Or(result, Shifted(v % 128, p));
    if p < 28 {
      RejectsFrom(v / 128, rest, result', p + 7);
    } else if v >= 128 {
      Powers();
      TooBig(v / 128, rest, result', 35);
    }
  }

  /** So what a 32-bit varint is read from is not larger, short of what passes for the sign of a negative number. */
  lemma Varint32Rejects(n: nat, rest: seq<Byte>)
    requires Max32 <= n < 0x8000_0000_0000_0000
    ensures DecodeVarint32(Varint(n) + rest).None?
  {
    hide MoreVarint32;
    FirstByte(n, rest);
    RejectsFrom(n / 128, rest, n % 128, 7);
  }
}
