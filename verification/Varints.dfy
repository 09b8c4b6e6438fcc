/** Variable-length and fixed-width integers and length-prefixed strings (util/coding.cc): every
    reader gets back what the matching writer put, whatever follows it. */
module Varints {
  import opened Coding
  import opened Options

  function Pow128(k: nat): (r: nat)
    ensures r > 0
  {
    if k == 0 then 1 else 128 * Pow128(k - 1)
  }

  const Max32: nat := 0x1_0000_0000
  const Max64: nat := 0x1_0000_0000_0000_0000

  // ------------------------------------------------------------------------ writing

  /** Seven bits a byte, low bits first; the high bit says that more bytes follow. */
  function Varint(n: nat): (r: seq<Byte>)
    ensures r != []
  {
    if n < 128 then [n as Byte] else [(n % 128 + 128) as Byte] + Varint(n / 128)
  }

  /** PutVarint64. */
  method PutVarint64(dst: seq<Byte>, value: nat) returns (dst': seq<Byte>)
    ensures dst' == dst + Varint(value)
  {
    var v := value;
    dst' := dst;
    while v >= 128
      invariant dst' + Varint(v) == dst + Varint(value)
    {
      assert dst' + ([(v % 128 + 128) as Byte] + Varint(v / 128)) == dst' + [(v % 128 + 128) as Byte] + Varint(v / 128);
      dst' := dst' + [(v % 128 + 128) as Byte];
      v := v / 128;
    }
    dst' := dst' + [v as Byte];
  }

  function More(n: nat): Byte { (n % 128 + 128) as Byte }

  /** EncodeVarint32, with its five cases spelled out. */
  function EncodeVarint32(v: nat): seq<Byte>
    requires v < Max32
  {
    if v < 0x80 then [v as Byte]
    else if v < 0x4000 then [More(v), (v / 0x80) as Byte]
    else if v < 0x20_0000 then [More(v), More(v / 0x80), (v / 0x4000) as Byte]
    else if v < 0x1000_0000 then [More(v), More(v / 0x80), More(v / 0x4000), (v / 0x20_0000) as Byte]
    else [More(v), More(v / 0x80), More(v / 0x4000), More(v / 0x20_0000), (v / 0x1000_0000) as Byte]
  }

  lemma {:induction false} FiveCases(v: nat)
    requires v < Max32
    ensures EncodeVarint32(v) == Varint(v)
  {
    var v1, v2, v3, v4 := v / 128, v / 128 / 128, v / 128 / 128 / 128, v / 128 / 128 / 128 / 128;
    assert v2 == v / 0x4000 && v3 == v / 0x20_0000 && v4 == v / 0x1000_0000;
    if v >= 128 {
      assert Varint(v) == [More(v)] + Varint(v1);
      if v1 >= 128 {
        assert Varint(v1) == [More(v1)] + Varint(v2);
        if v2 >= 128 {
          assert Varint(v2) == [More(v2)] + Varint(v3);
          if v3 >= 128 { assert Varint(v3) == [More(v3)] + Varint(v4); }
        }
      }
    }
  }

  lemma {:induction false} VarintLength(n: nat, k: nat)
    requires k > 0 && n < Pow128(k)
    ensures |Varint(n)| <= k
  {
    if n >= 128 {
      assert n / 128 < Pow128(k - 1);
      VarintLength(n / 128, k - 1);
    }
  }

  lemma Lengths(n: nat)
    ensures n < Max32 ==> |Varint(n)| <= 5
    ensures n < Max64 ==> |Varint(n)| <= 10
  {
    assert Pow128(1) == 128;
    assert Pow128(2) == 0x4000;
    assert Pow128(3) == 0x20_0000;
    assert Pow128(4) == 0x1000_0000;
    assert Pow128(5) == 0x8_0000_0000;
    assert Pow128(6) == 0x400_0000_0000;
    assert Pow128(7) == 0x2_0000_0000_0000;
    assert Pow128(8) == 0x100_0000_0000_0000;
    assert Pow128(9) == 0x8000_0000_0000_0000;
    assert Pow128(10) == 0x40_0000_0000_0000_0000;
    if n < Max32 { VarintLength(n, 5); }
    if n < Max64 { VarintLength(n, 10); }
  }

  // ------------------------------------------------------------------------ reading

  /** A varint at the start of the input, of at most so many bytes: its value and its length. */
  function ParseVarint(input: seq<Byte>, most: nat): (r: Option<(nat, nat)>)
    ensures r.Some? ==> 0 < r.value.1 <= |input|
  {
    if most == 0 || input == [] then None
    else if input[0] < 128 then Some((input[0] as nat, 1))
    else
      match ParseVarint(input[1..], most - 1)
      case None => None
      case Some((v, k)) => Some((input[0] as nat - 128 + 128 * v, k + 1))
  }

  lemma {:induction false} VarintRoundTrip(n: nat, rest: seq<Byte>, most: nat)
    requires |Varint(n)| <= most
    ensures ParseVarint(Varint(n) + rest, most) == Some((n, |Varint(n)|))
  {
    if n >= 128 {
      VarintRoundTrip(n / 128, rest, most - 1);
      assert (Varint(n) + rest)[1..] == Varint(n / 128) + rest;
    }
  }

  lemma Scaled(b: nat, v: nat, scale: nat)
    ensures scale * (b + 128 * v) == b * scale + (scale * 128) * v
  {
    assert scale * (128 * v) == (scale * 128) * v;
    assert scale * (b + 128 * v) == scale * b + scale * (128 * v);
  }

  /** What has been read so far, result, and what is still to come make up the whole. */
  ghost predicate SoFar(whole: Option<(nat, nat)>, rest: Option<(nat, nat)>, result: nat, scale: nat, p: nat) {
    match rest
    case None => whole == None
    case Some((v, k)) => whole == Some((result + scale * v, p + k))
  }

  lemma MoreBytes(input: seq<Byte>, most: nat, p: nat, result: nat, scale: nat)
    requires p < |input| && p < most && input[p] >= 128
    requires SoFar(ParseVarint(input, most), ParseVarint(input[p..], most - p), result, scale, p)
    ensures SoFar(ParseVarint(input, most), ParseVarint(input[p + 1..], most - p - 1),
        result + (input[p] as nat - 128) * scale, scale * 128, p + 1)
  {
    assert input[p..][1..] == input[p + 1..];
    match ParseVarint(input[p + 1..], most - p - 1)
    case None =>
    case Some((v, k)) => Scaled(input[p] as nat - 128, v, scale);
  }

  lemma LastByte(input: seq<Byte>, most: nat, p: nat, result: nat, scale: nat)
    requires p < |input| && p < most && input[p] < 128
    requires SoFar(ParseVarint(input, most), ParseVarint(input[p..], most - p), result, scale, p)
    ensures ParseVarint(input, most) == Some((result + input[p] as nat * scale, p + 1))
  {
  }

  /** GetVarint32Ptr and GetVarint64Ptr: shift in seven bits at a time; bits beyond the word are lost. */
  method GetVarint(input: seq<Byte>, most: nat, modulus: nat) returns (ok: bool, value: nat, rest: seq<Byte>)
    requires modulus > 0
    ensures ok <==> ParseVarint(input, most).Some?
    ensures ok ==>
        value == ParseVarint(input, most).value.0 % modulus
        && rest == input[ParseVarint(input, most).value.1..]
  {
    hide SoFar;
    var result: nat, scale: nat, p := 0, 1, 0;
    StartReading(input, most);
    while p < most && p < |input|
      invariant p <= most && p <= |input| && SoFar(ParseVarint(input, most), ParseVarint(input[p..], most - p), result,
          scale, p)
    {
      var byte := input[p] as nat;
      if byte >= 128 {
        MoreBytes(input, most, p, result, scale);
        result, scale := result + (byte - 128) * scale, scale * 128;
        p := p + 1;
      } else {
        LastByte(input, most, p, result, scale);
        result := result + byte * scale;
        return true, result % modulus, input[p + 1..];
      }
    }
    OutOfBytes(input, most, p, result, scale);
    return false, 0, input;
  }

  lemma StartReading(input: seq<Byte>, most: nat)
    ensures SoFar(ParseVarint(input, most), ParseVarint(input[0..], most), 0, 1, 0)
  {
    assert input[0..] == input;
  }

  lemma OutOfBytes(input: seq<Byte>, most: nat, p: nat, result: nat, scale: nat)
    requires p <= most && p <= |input| && (p == most || p == |input|)
    requires SoFar(ParseVarint(input, most), ParseVarint(input[p..], most - p), result, scale, p)
    ensures ParseVarint(input, most) == None
  {
  }

  /** GetVarint64 and GetVarint32: the value and what follows it. */
  function Varint64(input: seq<Byte>): (r: Option<(nat, seq<Byte>)>)
    ensures r.Some? ==> |r.value.1| < |input|
  {
    match ParseVarint(input, 10)
    case None => None
    case Some((v, k)) => Some((v % Max64, input[k..]))
  }

  function Varint32(input: seq<Byte>): (r: Option<(nat, seq<Byte>)>)
    ensures r.Some? ==> |r.value.1| < |input|
  {
    match ParseVarint(input, 5)
    case None => None
    case Some((v, k)) => Some((v % Max32, input[k..]))
  }

  lemma Varint64Back(n: nat, rest: seq<Byte>)
    requires n < Max64
    ensures Varint64(Varint(n) + rest) == Some((n, rest))
  {
    hide Varint;
    hide ParseVarint;
    Lengths(n);
    VarintRoundTrip(n, rest, 10);
    assert (Varint(n) + rest)[|Varint(n)|..] == rest;
  }

  lemma Varint32Back(n: nat, rest: seq<Byte>)
    requires n < Max32
    ensures Varint32(Varint(n) + rest) == Some((n, rest))
  {
    hide Varint;
    hide ParseVarint;
    Lengths(n);
    VarintRoundTrip(n, rest, 5);
    assert (Varint(n) + rest)[|Varint(n)|..] == rest;
  }

  /** PutLengthPrefixedSlice. */
  function Prefixed(s: seq<Byte>): seq<Byte> { Varint(|s|) + s }

  /** GetLengthPrefixedSlice: the string and what follows it. */
  function ParsePrefixed(input: seq<Byte>): (r: Option<(seq<Byte>, seq<Byte>)>)
    ensures r.Some? ==> |r.value.1| < |input|
  {
    match ParseVarint(input, 5)
    case None => None
    case Some((v, k)) =>
      var n := v % Max32;
      if k + n <= |input| then Some((input[k..k + n], input[k + n..])) else None
  }

  lemma PrefixedRoundTrip(s: seq<Byte>, rest: seq<Byte>)
    requires |s| < Max32
    ensures ParsePrefixed(Prefixed(s) + rest) == Some((s, rest))
  {
    Lengths(|s|);
    VarintRoundTrip(|s|, s + rest, 5);
    assert Prefixed(s) + rest == Varint(|s|) + (s + rest);
    var input, k := Prefixed(s) + rest, |Varint(|s|)|;
    assert input[k..k + |s|] == s && input[k + |s|..] == rest;
  }

  method GetLengthPrefixedSlice(input: seq<Byte>) returns (ok: bool, s: seq<Byte>, rest: seq<Byte>)
    ensures ok <==> ParsePrefixed(input).Some?
    ensures ok ==> (s, rest) == ParsePrefixed(input).value
  {
    var len;
    ok, len, rest := GetVarint(input, 5, Max32);
    s := [];
    if !ok { return; }
    ghost var k := ParseVarint(input, 5).value.1;
    if |rest| >= len {
      assert rest[..len] == input[k..k + len] && rest[len..] == input[k + len..];
      s, rest := rest[..len], rest[len..];
    } else {
      ok := false;
    }
  }

  // -------------------------------------------------------------------- fixed width

  /** Little-endian, so many bytes. */
  function Fixed(n: nat, bytes: nat): (r: seq<Byte>)
    ensures |r| == bytes
  {
    if bytes == 0 then [] else [(n % 256) as Byte] + Fixed(n / 256, bytes - 1)
  }

  function FixedValue(s: seq<Byte>): nat {
    if s == [] then 0 else s[0] as nat + 256 * FixedValue(s[1..])
  }

  function Pow256(k: nat): (r: nat)
    ensures r > 0
  {
    if k == 0 then 1 else 256 * Pow256(k - 1)
  }

  lemma {:induction false} FixedRoundTrip(n: nat, bytes: nat)
    requires n < Pow256(bytes)
    ensures FixedValue(Fixed(n, bytes)) == n
  {
    if bytes > 0 {
      assert n / 256 < Pow256(bytes - 1);
      FixedRoundTrip(n / 256, bytes - 1);
    }
  }

  /** PutFixed32 of one number after the other. */
  function FixedAll(ns: seq<nat>): seq<Byte> {
    if ns == [] then [] else FixedAll(ns[..|ns| - 1]) + Fixed(ns[|ns| - 1], 4)
  }

  lemma {:induction false} FixedAllAt(ns: seq<nat>, r: nat)
    requires r < |ns|
    ensures |FixedAll(ns)| == 4 * |ns|
    ensures FixedAll(ns)[4 * r..4 * r + 4] == Fixed(ns[r], 4)
  {
    hide Fixed;
    var init := ns[..|ns| - 1];
    if |ns| > 1 { FixedAllAt(init, if r < |init| then r else 0); } else { assert FixedAll(init) == []; }
    if r < |init| {
      assert FixedAll(ns)[4 * r..4 * r + 4] == FixedAll(init)[4 * r..4 * r + 4];
    }
  }

  lemma FourBytes()
    ensures Pow256(4) == Max32
  {
    assert Pow256(2) == 0x1_0000;
  }
}
