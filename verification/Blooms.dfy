/** Bloom filters (util/bloom.cc): a key that went into a filter is never rejected by it. */
module Blooms {
  import opened Coding

  type Bytes = seq<Byte>

  // ----------------------------------------------------------------------------- bits

  function Mask(i: nat): bv8
    requires i < 8
  {
    if i == 0 then 1 else if i == 1 then 2 else if i == 2 then 4 else if i == 3 then 8
    else if i == 4 then 16 else if i == 5 then 32 else if i == 6 then 64 else 128
  }

  function OrBits(a: bv8, b: bv8): bv8 { a | b }

  predicate Meet(a: bv8, b: bv8) { a & b != 0 }

  lemma OrSets(a: bv8, i: nat, j: nat)
    requires i < 8 && j < 8
    ensures Meet(OrBits(a, Mask(i)), Mask(i))
    ensures Meet(a, Mask(j)) ==> Meet(OrBits(a, Mask(i)), Mask(j))
  {
  }

  /** Bit number bit of an array of bytes. */
  predicate IsSet(bytes: Bytes, bit: nat)
    requires bit < 8 * |bytes|
  {
    Meet(Bits(bytes[bit / 8]), Mask(bit % 8))
  }

  function WithBit(bytes: Bytes, bit: nat): (r: Bytes)
    requires bit < 8 * |bytes|
    ensures |r| == |bytes|
  {
    bytes[bit / 8 := OfBits(OrBits(Bits(bytes[bit / 8]), Mask(bit % 8)))]
  }

  /** Setting a bit sets it, and clears none. */
  lemma SettingKeeps(bytes: Bytes, bit: nat, other: nat)
    requires bit < 8 * |bytes| && other < 8 * |bytes|
    ensures IsSet(WithBit(bytes, bit), bit)
    ensures IsSet(bytes, other) ==> IsSet(WithBit(bytes, bit), other)
  {
    hide OfBits;
    hide Bits;
    hide OrBits;
    hide Meet;
    hide Mask;
    var b := Bits(bytes[bit / 8]);
    BitsRoundTrip(0, OrBits(b, Mask(bit % 8)));
    OrSets(b, bit % 8, other % 8);
  }

  // --------------------------------------------------------------------------- probes

  function Advance(h: bv32, delta: bv32): bv32 { h + delta }

  /** Double hashing: the j-th probe of a key. */
  function Probe(h: bv32, delta: bv32, j: nat): bv32 {
    if j == 0 then h else Advance(Probe(h, delta, j - 1), delta)
  }

  function Delta(h: bv32): bv32 { (h >> 17) | (h << 15) }

  function BitPosition(h: bv32, bits: nat): (bit: nat)
    requires bits > 0
    ensures bit < bits
  {
    (h as int) % bits
  }

  predicate AllProbesSet(bytes: Bytes, h: bv32, k: nat)
    requires |bytes| > 0
  {
    forall j :: 0 <= j < k ==> IsSet(bytes, BitPosition(Probe(h, Delta(h), j), 8 * |bytes|))
  }

  /** KeyMayMatch, for any hash function. */
  predicate KeyMayMatch(hash: Bytes -> bv32, key: Bytes, filter: Bytes) {
    if |filter| < 2 then false
    else
      var bytes, k := filter[..|filter| - 1], filter[|filter| - 1] as nat;
      k > 30 || AllProbesSet(bytes, hash(key), k)
  }

  method TestKey(hash: Bytes -> bv32, key: Bytes, filter: Bytes) returns (r: bool)
    ensures r == KeyMayMatch(hash, key, filter)
  {
    hide IsSet;
    hide Delta;
    hide Advance;
    hide BitPosition;
    if |filter| < 2 { return false; }
    var bytes := filter[..|filter| - 1];
    var k := filter[|filter| - 1] as nat;
    if k > 30 { return true; }
    var h := hash(key);
    var delta := Delta(h);
    ghost var h0 := h;
    for j := 0 to k
      invariant h == Probe(h0, delta, j)
      invariant forall i :: 0 <= i < j ==> IsSet(bytes, BitPosition(Probe(h0, delta, i), 8 * |bytes|))
    {
      var bitpos := BitPosition(h, 8 * |bytes|);
      if !IsSet(bytes, bitpos) { return false; }
      h := Advance(h, delta);
    }
    r := true;
  }

  // -------------------------------------------------------------------------- building

  /** The filter keeps all the bits it had. */
  ghost predicate Keeps(before: Bytes, after: Bytes) {
    |after| == |before| && forall bit :: 0 <= bit < 8 * |before| && IsSet(before, bit) ==> IsSet(after, bit)
  }

  lemma KeepsProbes(before: Bytes, after: Bytes, h: bv32, k: nat)
    requires |before| > 0 && Keeps(before, after) && AllProbesSet(before, h, k)
    ensures AllProbesSet(after, h, k)
  {
    hide IsSet;
    hide Delta;
    hide Advance;
    hide BitPosition;
  }

  lemma KeepsTransitive(a: Bytes, b: Bytes, c: Bytes)
    requires Keeps(a, b) && Keeps(b, c)
    ensures Keeps(a, c)
  {
    hide IsSet;
  }

  /** All the probes of one key. */
  function SetProbes(bytes: Bytes, h: bv32, k: nat): (r: Bytes)
    requires |bytes| > 0
    ensures |r| == |bytes|
  {
    if k == 0 then bytes
    else WithBit(SetProbes(bytes, h, k - 1), BitPosition(Probe(h, Delta(h), k - 1), 8 * |bytes|))
  }

  function AddKeys(hash: Bytes -> bv32, bytes: Bytes, keys: seq<Bytes>, k: nat): (r: Bytes)
    requires |bytes| > 0
    ensures |r| == |bytes|
  {
    if keys == [] then bytes else SetProbes(AddKeys(hash, bytes, keys[..|keys| - 1], k), hash(keys[|keys| - 1]), k)
  }

  function Zeros(n: nat): (r: Bytes)
    ensures |r| == n
  {
    seq(n, _ => 0)
  }

  function FilterSize(n: nat, bitsPerKey: nat): (size: nat)
    ensures size > 0
  {
    ((if n * bitsPerKey < 64 then 64 else n * bitsPerKey) + 7) / 8
  }

  function Filter(hash: Bytes -> bv32, bitsPerKey: nat, k: nat, keys: seq<Bytes>): Bytes
    requires k < 256
  {
    AddKeys(hash, Zeros(FilterSize(|keys|, bitsPerKey)), keys, k) + [k as Byte]
  }

  lemma KeepsSelf(bytes: Bytes)
    ensures Keeps(bytes, bytes)
  {
    hide IsSet;
  }

  lemma SettingIs(bytes: Bytes, bit: nat)
    requires bit < 8 * |bytes|
    ensures Keeps(bytes, WithBit(bytes, bit)) && IsSet(WithBit(bytes, bit), bit)
  {
    hide IsSet;
    hide WithBit;
    SettingKeeps(bytes, bit, bit);
    forall other: nat | other < 8 * |bytes| && IsSet(bytes, other) ensures IsSet(WithBit(bytes, bit), other) {
      SettingKeeps(bytes, bit, other);
    }
  }

  lemma {:induction false} SetProbesSets(bytes: Bytes, h: bv32, k: nat)
    requires |bytes| > 0
    ensures Keeps(bytes, SetProbes(bytes, h, k)) && AllProbesSet(SetProbes(bytes, h, k), h, k)
  {
    hide IsSet;
    hide Delta;
    hide Advance;
    hide BitPosition;
    hide WithBit;
    hide Keeps;
    if k == 0 {
      KeepsSelf(bytes);
    } else {
      var before, bit := SetProbes(bytes, h, k - 1), BitPosition(Probe(h, Delta(h), k - 1), 8 * |bytes|);
      SetProbesSets(bytes, h, k - 1);
      SettingIs(before, bit);
      KeepsProbes(before, WithBit(before, bit), h, k - 1);
      KeepsTransitive(bytes, before, WithBit(before, bit));
    }
  }

  lemma {:induction false} AddedKeysMatch(hash: Bytes -> bv32, bytes: Bytes, keys: seq<Bytes>, k: nat, i: nat)
    requires |bytes| > 0 && i < |keys|
    ensures AllProbesSet(AddKeys(hash, bytes, keys, k), hash(keys[i]), k)
  {
    hide AllProbesSet;
    hide Keeps;
    var n := |keys| - 1;
    var before := AddKeys(hash, bytes, keys[..n], k);
    SetProbesSets(before, hash(keys[n]), k);
    if i < n {
      AddedKeysMatch(hash, bytes, keys[..n], k, i);
      KeepsProbes(before, SetProbes(before, hash(keys[n]), k), hash(keys[i]), k);
    }
  }

  /** No false negatives: every key of a filter matches it, for any hash function and any number of probes. */
  lemma KeysMatch(hash: Bytes -> bv32, bitsPerKey: nat, k: nat, keys: seq<Bytes>, i: nat)
    requires k < 256 && i < |keys|
    ensures KeyMayMatch(hash, keys[i], Filter(hash, bitsPerKey, k, keys))
  {
    var filter := Filter(hash, bitsPerKey, k, keys);
    var bytes := AddKeys(hash, Zeros(FilterSize(|keys|, bitsPerKey)), keys, k);
    AddedKeysMatch(hash, Zeros(FilterSize(|keys|, bitsPerKey)), keys, k, i);
    assert filter[..|filter| - 1] == bytes;
  }

  // ---------------------------------------------------------------- no more than its probes

  lemma OrOnly(a: bv8, i: nat, j: nat)
    requires i < 8 && j < 8 && i != j
    ensures Meet(OrBits(a, Mask(i)), Mask(j)) ==> Meet(a, Mask(j))
  {
  }

  /** Setting a bit sets no other. */
  lemma SettingOnly(bytes: Bytes, bit: nat, other: nat)
    requires bit < 8 * |bytes| && other < 8 * |bytes| && bit != other
    ensures IsSet(WithBit(bytes, bit), other) ==> IsSet(bytes, other)
  {
    hide OfBits;
    hide Bits;
    hide OrBits;
    hide Meet;
    hide Mask;
    if bit / 8 == other / 8 {
      var b := Bits(bytes[bit / 8]);
      BitsRoundTrip(0, OrBits(b, Mask(bit % 8)));
      OrOnly(b, bit % 8, other % 8);
    }
  }

  /** One of the first k probes of hash value h. */
  ghost predicate Probed(h: bv32, k: nat, bits: nat, bit: nat)
    requires bits > 0
  {
    exists j :: 0 <= j < k && BitPosition(Probe(h, Delta(h), j), bits) == bit
  }

  lemma {:induction false} ProbesOnly(bytes: Bytes, h: bv32, k: nat, bit: nat)
    requires |bytes| > 0 && bit < 8 * |bytes|
    ensures IsSet(SetProbes(bytes, h, k), bit) <==> IsSet(bytes, bit) || Probed(h, k, 8 * |bytes|, bit)
  {
    hide IsSet;
    hide Delta;
    hide Advance;
    hide BitPosition;
    hide WithBit;
    if k > 0 {
      var before, last := SetProbes(bytes, h, k - 1), BitPosition(Probe(h, Delta(h), k - 1), 8 * |bytes|);
      ProbesOnly(bytes, h, k - 1, bit);
      SettingKeeps(before, last, bit);
      if bit != last { SettingOnly(before, last, bit); }
    }
  }

  /** The bits of a filter are just the probes of its keys. */
  lemma {:induction false} KeysOnly(hash: Bytes -> bv32, bytes: Bytes, keys: seq<Bytes>, k: nat, bit: nat)
    requires |bytes| > 0 && bit < 8 * |bytes|
    ensures IsSet(AddKeys(hash, bytes, keys, k), bit) <==>
        IsSet(bytes, bit) || exists i :: 0 <= i < |keys| && Probed(hash(keys[i]), k, 8 * |bytes|, bit)
  {
    hide IsSet;
    hide Probed;
    if keys != [] {
      var n := |keys| - 1;
      var init := keys[..n];
      KeysOnly(hash, bytes, init, k, bit);
      ProbesOnly(AddKeys(hash, bytes, init, k), hash(keys[n]), k, bit);
      assert forall i :: 0 <= i < n ==> init[i] == keys[i];
    }
  }

  lemma NoneSet(n: nat, bit: nat)
    requires bit < 8 * n
    ensures !IsSet(Zeros(n), bit)
  {
    NoBits(bit % 8);
  }

  lemma NoBits(i: nat)
    requires i < 8
    ensures !Meet(Bits(0), Mask(i))
  {
  }

  /** A filter lets a key through just when each of its probes is one of a key the filter was made of. */
  lemma MatchesIff(hash: Bytes -> bv32, bitsPerKey: nat, k: nat, keys: seq<Bytes>, key: Bytes)
    requires k <= 30
    ensures var bits := 8 * FilterSize(|keys|, bitsPerKey);
            KeyMayMatch(hash, key, Filter(hash, bitsPerKey, k, keys)) <==>
              forall bit :: 0 <= bit < bits && Probed(hash(key), k, bits, bit) ==>
                exists i :: 0 <= i < |keys| && Probed(hash(keys[i]), k, bits, bit)
  {
    hide IsSet;
    hide Delta;
    hide Advance;
    hide BitPosition;
    hide FilterSize;
    var size, h := FilterSize(|keys|, bitsPerKey), hash(key);
    var filter, bytes := Filter(hash, bitsPerKey, k, keys), AddKeys(hash, Zeros(size), keys, k);
    assert filter[..|filter| - 1] == bytes;
    forall bit: nat | bit < 8 * size
      ensures IsSet(bytes, bit) <==> exists i :: 0 <= i < |keys| && Probed(hash(keys[i]), k, 8 * size, bit)
    {
      KeysOnly(hash, Zeros(size), keys, k, bit);
      NoneSet(size, bit);
    }
    forall j | 0 <= j < k ensures Probed(h, k, 8 * size, BitPosition(Probe(h, Delta(h), j), 8 * size)) { }
  }

  /** So a filter of no keys rejects every key. */
  lemma NoKeysMatchNothing(hash: Bytes -> bv32, bitsPerKey: nat, k: nat, key: Bytes)
    requires 1 <= k <= 30
    ensures !KeyMayMatch(hash, key, Filter(hash, bitsPerKey, k, []))
  {
    hide BitPosition;
    hide KeyMayMatch;
    hide Filter;
    MatchesIff(hash, bitsPerKey, k, [], key);
    var bits := 8 * FilterSize(0, bitsPerKey);
    assert Probed(hash(key), k, bits, BitPosition(Probe(hash(key), Delta(hash(key)), 0), bits));
  }

  method AddProbes(bytes: Bytes, h: bv32, k: nat) returns (bytes': Bytes)
    requires |bytes| > 0
    ensures bytes' == SetProbes(bytes, h, k)
  {
    hide Delta;
    hide Advance;
    hide BitPosition;
    hide WithBit;
    bytes' := bytes;
    var g := h;
    var delta := Delta(h);
    for j := 0 to k
      invariant g == Probe(h, delta, j) && bytes' == SetProbes(bytes, h, j)
    {
      bytes' := WithBit(bytes', BitPosition(g, 8 * |bytes'|));
      g := Advance(g, delta);
    }
  }

  /** CreateFilter: the bits of all keys' probes, and the number of probes. */
  method CreateFilter(hash: Bytes -> bv32, bitsPerKey: nat, k: nat, keys: seq<Bytes>) returns (filter: Bytes)
    requires 1 <= k <= 30
    ensures filter == Filter(hash, bitsPerKey, k, keys)
  {
    var bits := |keys| * bitsPerKey;
    if bits < 64 { bits := 64; }
    var size := (bits + 7) / 8;
    var bytes := Zeros(size);
    for i := 0 to |keys|
      invariant |bytes| == size && bytes == AddKeys(hash, Zeros(size), keys[..i], k)
    {
      assert keys[..i + 1][..i] == keys[..i];
      bytes := AddProbes(bytes, hash(keys[i]), k);
    }
    assert keys[..|keys|] == keys;
    filter := bytes + [k as Byte];
  }
}
