/** Filter blocks (table/filter_block.cc): one filter for every 2 KB of file offsets, and no key is rejected at
    the offset of the block it was added for. */
module FilterBlocks {
  import opened Coding
  import opened Varints
  import Blooms

  type Bytes = seq<Byte>

  const FilterBaseLg: Byte := 11
  const FilterBase: nat := 2048

  /** A filter policy: making a filter of keys, and asking one about a key. */
  datatype Policy = Policy(create: seq<Bytes> -> Bytes, keyMayMatch: (Bytes, Bytes) -> bool)

  ghost predicate NeverRejects(p: Policy) {
    forall keys: seq<Bytes>, i: nat {:trigger keys[i], p.create(keys)} :: i < |keys| ==>
        p.keyMayMatch(keys[i], p.create(keys))
  }

  function BloomPolicy(hash: Bytes -> bv32, bitsPerKey: nat, k: nat): Policy
    requires k < 256
  {
    Policy((keys: seq<Bytes>) => Blooms.Filter(hash, bitsPerKey, k, keys),
           (key: Bytes, filter: Bytes) => Blooms.KeyMayMatch(hash, key, filter))
  }

  lemma BloomNeverRejects(hash: Bytes -> bv32, bitsPerKey: nat, k: nat)
    requires k < 256
    ensures NeverRejects(BloomPolicy(hash, bitsPerKey, k))
  {
    hide Blooms.KeyMayMatch;
    hide Blooms.Filter;
    forall keys: seq<Bytes>, i: nat | i < |keys|
      ensures Blooms.KeyMayMatch(hash, keys[i], Blooms.Filter(hash, bitsPerKey, k, keys))
    {
      Blooms.KeysMatch(hash, bitsPerKey, k, keys, i);
    }
  }

  // -------------------------------------------------------------------------- layout

  /** The filter of a group of keys; no keys, no filter. */
  function FilterOf(p: Policy, keys: seq<Bytes>): Bytes { if keys == [] then [] else p.create(keys) }

  function Data(p: Policy, groups: seq<seq<Bytes>>): Bytes {
    if groups == [] then [] else Data(p, groups[..|groups| - 1]) + FilterOf(p, groups[|groups| - 1])
  }

  function FilterOffsets(p: Policy, groups: seq<seq<Bytes>>): (r: seq<nat>)
    ensures |r| == |groups|
  {
    if groups == [] then [] else FilterOffsets(p, groups[..|groups| - 1]) + [|Data(p, groups[..|groups| - 1])|]
  }

  /** The finished filter block. */
  function FilterBlock(p: Policy, groups: seq<seq<Bytes>>): Bytes {
    Data(p, groups) + FixedAll(FilterOffsets(p, groups)) + Fixed(|Data(p, groups)|, 4) + [FilterBaseLg]
  }

  /** Keys in a row, and where each starts. */
  function Flat(keys: seq<Bytes>): Bytes {
    if keys == [] then [] else Flat(keys[..|keys| - 1]) + keys[|keys| - 1]
  }

  function KeyStarts(keys: seq<Bytes>): (r: seq<nat>)
    ensures |r| == |keys|
  {
    if keys == [] then [] else KeyStarts(keys[..|keys| - 1]) + [|Flat(keys[..|keys| - 1])|]
  }

  /** A key is what lies between its start and the next. */
  lemma {:induction false} KeyLies(keys: seq<Bytes>, i: nat)
    requires i < |keys|
    ensures var ends := KeyStarts(keys) + [|Flat(keys)|];
            ends[i] <= ends[i + 1] <= |Flat(keys)| && Flat(keys)[ends[i]..ends[i + 1]] == keys[i]
  {
    var n := |keys| - 1;
    var init := keys[..n];
    if i < n {
      KeyLies(init, i);
      var ends, ends' := KeyStarts(init) + [|Flat(init)|], KeyStarts(keys) + [|Flat(keys)|];
      assert ends'[i] == ends[i] && ends'[i + 1] == ends[i + 1];
      assert Flat(keys)[ends[i]..ends[i + 1]] == Flat(init)[ends[i]..ends[i + 1]];
    }
  }

  // -------------------------------------------------------------------------- building

  class FilterBlockBuilder {
    const policy: Policy
    var keys: Bytes              // flattened key contents
    var start: seq<nat>          // starting index in keys of each key
    var result: Bytes            // filter data computed so far
    var filterOffsets: seq<nat>
    ghost var groups: seq<seq<Bytes>>
    ghost var pending: seq<Bytes>
    ghost var current: nat                  // the offset of the block last started
    ghost var added: set<(nat, Bytes)>      // keys with the offset of their block

    ghost predicate Built()
      reads this
    {
      && keys == Flat(pending) && start == KeyStarts(pending)
      && result == Data(policy, groups) && filterOffsets == FilterOffsets(policy, groups)
    }

    ghost predicate Valid()
      reads this
    {
      Built() && |groups| == current / FilterBase && AllPlaced(added, groups, pending)
    }

    constructor (policy: Policy)
      ensures Valid() && added == {} && current == 0 && this.policy == policy
    {
      this.policy := policy;
      keys, start, result, filterOffsets := [], [], [], [];
      groups, pending, current, added := [], [], 0, {};
    }

    method StartBlock(blockOffset: nat)
      requires Valid() && blockOffset >= current
      modifies this
      ensures Valid() && current == blockOffset && added == old(added)
    {
      hide AllPlaced;
      var filterIndex := blockOffset / FilterBase;
      while filterIndex > |filterOffsets|
        invariant Built() && |groups| <= filterIndex && AllPlaced(added, groups, pending) && added == old(added)
      {
        StillPlaced(added, groups, pending);
        GenerateFilter();
      }
      current := blockOffset;
    }

    method AddKey(key: Bytes)
      requires Valid()
      modifies this
      ensures Valid() && current == old(current) && added == old(added) + {(current, key)}
    {
      NewlyPlaced(added, groups, pending, current, key);
      hide AllPlaced;
      assert (pending + [key])[..|pending|] == pending;
      start := start + [|keys|];
      keys := keys + key;
      pending, added := pending + [key], added + {(current, key)};
    }

    method GenerateFilter()
      requires Built()
      modifies this`keys, this`start, this`result, this`filterOffsets, this`groups, this`pending
      ensures Built() && groups == old(groups) + [old(pending)] && pending == []
    {
      assert (groups + [pending])[..|groups|] == groups;
      ghost var group := pending;
      var numKeys := |start|;
      filterOffsets := filterOffsets + [|result|];
      if numKeys > 0 {
        var tmpKeys := MakeKeys();
        result := result + policy.create(tmpKeys);
        keys, start := [], [];
      }
      groups, pending := groups + [group], [];
    }

    /** The list of keys from the flattened key structure. */
    method MakeKeys() returns (tmpKeys: seq<Bytes>)
      requires keys == Flat(pending) && start == KeyStarts(pending)
      ensures tmpKeys == pending
    {
      var ends := start + [|keys|];
      tmpKeys := [];
      for i := 0 to |start|
        invariant tmpKeys == pending[..i]
      {
        KeyLies(pending, i);
        tmpKeys := tmpKeys + [keys[ends[i]..ends[i + 1]]];
      }
    }

    /** The finished filter block lets every added key pass at the offset of its block. */
    method Finish() returns (contents: Bytes)
      requires Valid()
      modifies this
      ensures |contents| < Max32 && NeverRejects(policy) ==> forall a :: a in old(added) ==>
          KeyMayMatch(policy, contents, a.0, a.1)
    {
      hide AllPlaced;
      hide Placed;
      hide Fixed;
      hide FixedAll;
      hide Data;
      hide FilterOffsets;
      hide KeyMayMatch;
      hide NeverRejects;
      StillPlaced(added, groups, pending);
      if start != [] {
        GenerateFilter();
      } else {
        NothingPending(added, groups, pending);
      }
      NoWords(result);
      var arrayOffset := |result|;
      var i := 0;
      while i < |filterOffsets|
        invariant i <= |filterOffsets| && result == Data(policy, groups) + FixedAll(filterOffsets[..i])
            && arrayOffset == |Data(policy, groups)|
        invariant filterOffsets == FilterOffsets(policy, groups) && AllPlaced(added, groups, []) && added == old(added)
      {
        OneMoreWord(filterOffsets[..i], filterOffsets[i]);
        assert filterOffsets[..i + 1] == filterOffsets[..i] + [filterOffsets[i]];
        result := result + Fixed(filterOffsets[i], 4);
        i := i + 1;
      }
      assert filterOffsets[..i] == filterOffsets;
      result := result + Fixed(arrayOffset, 4);
      result := result + [FilterBaseLg];
      contents := result;
      assert contents == FilterBlock(policy, groups);
      if |contents| < Max32 && NeverRejects(policy) {
        forall a | a in added ensures KeyMayMatch(policy, contents, a.0, a.1) {
          EachPlaced(added, groups, a);
          PlacedPasses(policy, groups, a.0, a.1);
        }
      }
    }
  }

  /** Every added key is in the group of its block's offset, or among the pending keys if that is the next group. */
  ghost predicate AllPlaced(added: set<(nat, Bytes)>, groups: seq<seq<Bytes>>, pending: seq<Bytes>) {
    forall a :: a in added ==> Placed(groups, pending, a.0, a.1)
  }

  ghost predicate Placed(groups: seq<seq<Bytes>>, pending: seq<Bytes>, offset: nat, key: Bytes) {
    var i := offset / FilterBase;
    i <= |groups| && key in if i < |groups| then groups[i] else pending
  }

  lemma EachPlaced(added: set<(nat, Bytes)>, groups: seq<seq<Bytes>>, a: (nat, Bytes))
    requires AllPlaced(added, groups, []) && a in added
    ensures Placed(groups, [], a.0, a.1)
  {
  }

  lemma StillPlaced(added: set<(nat, Bytes)>, groups: seq<seq<Bytes>>, pending: seq<Bytes>)
    requires AllPlaced(added, groups, pending)
    ensures AllPlaced(added, groups + [pending], [])
  {
  }

  lemma NothingPending(added: set<(nat, Bytes)>, groups: seq<seq<Bytes>>, pending: seq<Bytes>)
    requires AllPlaced(added, groups, pending) && |KeyStarts(pending)| == 0
    ensures AllPlaced(added, groups, []) && pending == []
  {
  }

  lemma NewlyPlaced(added: set<(nat, Bytes)>, groups: seq<seq<Bytes>>, pending: seq<Bytes>, offset: nat, key: Bytes)
    requires AllPlaced(added, groups, pending) && |groups| == offset / FilterBase
    ensures AllPlaced(added + {(offset, key)}, groups, pending + [key])
  {
    assert key in pending + [key];
  }

  // --------------------------------------------------------------------------- reading

  /** offset >> n. */
  function Shifted(offset: nat, n: nat): nat {
    if n == 0 then offset else Shifted(offset / 2, n - 1)
  }

  function WordAt(contents: Bytes, i: nat): nat
    requires i + 4 <= |contents|
  {
    FixedValue(contents[i..i + 4])
  }

  /** FilterBlockReader::KeyMayMatch, over the fields its constructor reads.  Errors count as matches. */
  predicate KeyMayMatch(p: Policy, contents: Bytes, blockOffset: nat, key: Bytes) {
    var n := |contents|;
    if n < 5 then true
    else
      var lastWord := WordAt(contents, n - 5);
      if lastWord > n - 5 then true
      else
        var num, index := (n - 5 - lastWord) / 4, Shifted(blockOffset, contents[n - 1] as nat);
        if index >= num then true
        else
          var start, limit := WordAt(contents, lastWord + index * 4), WordAt(contents, lastWord + index * 4 + 4);
          if start <= limit && limit <= lastWord then p.keyMayMatch(key, contents[start..limit])
          else start != limit
  }

  lemma {:induction false} DataPrefix(p: Policy, groups: seq<seq<Bytes>>, i: nat)
    requires i < |groups|
    ensures FilterOffsets(p, groups)[i] == |Data(p, groups[..i])|
    ensures |Data(p, groups[..i + 1])| == |Data(p, groups[..i])| + |FilterOf(p, groups[i])| <= |Data(p, groups)|
    ensures Data(p, groups)[|Data(p, groups[..i])|..|Data(p, groups[..i + 1])|] == FilterOf(p, groups[i])
  {
    hide Data;
    hide FilterOffsets;
    hide FilterOf;
    var n := |groups| - 1;
    var init := groups[..n];
    LastGroup(p, groups);
    if i < n {
      DataPrefix(p, init, i);
      assert init[..i] == groups[..i] && init[..i + 1] == groups[..i + 1];
      var a, b := |Data(p, groups[..i])|, |Data(p, groups[..i + 1])|;
      assert Data(p, groups)[a..b] == Data(p, init)[a..b];
    } else {
      assert groups[..i] == init && groups[..i + 1] == groups;
    }
  }

  lemma LastGroup(p: Policy, groups: seq<seq<Bytes>>)
    requires groups != []
    ensures var init := groups[..|groups| - 1];
            && Data(p, groups) == Data(p, init) + FilterOf(p, groups[|groups| - 1])
            && FilterOffsets(p, groups) == FilterOffsets(p, init) + [|Data(p, init)|]
  {
    hide FilterOf;
  }

  lemma BlockParts(data: Bytes, words: Bytes, j: nat)
    requires 4 * j + 4 <= |words|
    ensures var contents := data + words + [11];
            && |contents| == |data| + |words| + 1 && contents[|contents| - 1] == 11 && contents[..|data|] == data
            && contents[|data| + 4 * j..|data| + 4 * j + 4] == words[4 * j..4 * j + 4]
  {
  }

  /** The offsets and the size of the data, as one array of words behind the data. */
  lemma Words(p: Policy, groups: seq<seq<Bytes>>, j: nat)
    requires |FilterBlock(p, groups)| < Max32 && j <= |groups|
    ensures var contents, data, ends := FilterBlock(p, groups), Data(p, groups),
        FilterOffsets(p, groups) + [|Data(p, groups)|];
            && |contents| == |data| + 4 * |groups| + 5 && contents[|contents| - 1] == 11 && contents[..|data|] == data
            && (ends[j] < Max32 ==> WordAt(contents, |data| + 4 * j) == ends[j])
  {
    hide Fixed;
    hide FixedValue;
    hide Data;
    hide FilterOffsets;
    hide FixedAll;
    var data, ends := Data(p, groups), FilterOffsets(p, groups) + [|Data(p, groups)|];
    var words := FixedAll(ends);
    OneMoreWord(FilterOffsets(p, groups), |data|);
    assert FilterBlock(p, groups) == data + words + [11];
    FixedAllAt(ends, j);
    BlockParts(data, words, j);
    if ends[j] < Max32 {
      FourBytes();
      FixedRoundTrip(ends[j], 4);
    }
  }

  lemma NoWords(data: Bytes)
    ensures data + FixedAll([]) == data
  {
  }

  lemma OneMoreWord(ns: seq<nat>, n: nat)
    ensures FixedAll(ns + [n]) == FixedAll(ns) + Fixed(n, 4)
  {
    hide Fixed;
    assert (ns + [n])[..|ns|] == ns;
  }

  lemma FourBits(offset: nat, n: nat)
    requires n >= 4
    ensures Shifted(offset, n) == Shifted(offset / 16, n - 4)
  {
    assert Shifted(offset, n) == Shifted(offset / 2, n - 1);
    assert Shifted(offset / 2, n - 1) == Shifted(offset / 2 / 2, n - 2);
    assert Shifted(offset / 4, n - 2) == Shifted(offset / 4 / 2, n - 3);
    assert Shifted(offset / 8, n - 3) == Shifted(offset / 8 / 2, n - 4);
  }

  lemma TwoKilobytes(offset: nat)
    ensures Shifted(offset, 11) == offset / FilterBase
  {
    FourBits(offset, 11);
    FourBits(offset / 16, 7);
    assert offset / 16 / 16 == offset / 256;
    assert Shifted(offset / 256, 3) == Shifted(offset / 256 / 2, 2);
    assert Shifted(offset / 512, 2) == Shifted(offset / 512 / 2, 1);
    assert Shifted(offset / 1024, 1) == Shifted(offset / 1024 / 2, 0);
  }

  /** Where a group's filter ends. */
  lemma FilterEnds(p: Policy, groups: seq<seq<Bytes>>, i: nat)
    requires i < |groups|
    ensures var ends := FilterOffsets(p, groups) + [|Data(p, groups)|];
            ends[i] <= ends[i + 1] <= |Data(p, groups)|
                && Data(p, groups)[ends[i]..ends[i + 1]] == FilterOf(p, groups[i])
  {
    hide Data;
    DataPrefix(p, groups, i);
    if i + 1 < |groups| { DataPrefix(p, groups, i + 1); } else { assert groups[..i + 1] == groups; }
  }

  lemma SliceOfPrefix(s: Bytes, n: nat, i: nat, j: nat)
    requires i <= j <= n <= |s|
    ensures s[..n][i..j] == s[i..j]
  {
  }

  /** No key is rejected at the offset of its block. */
  lemma PlacedPasses(p: Policy, groups: seq<seq<Bytes>>, offset: nat, key: Bytes)
    requires NeverRejects(p) && |FilterBlock(p, groups)| < Max32 && Placed(groups, [], offset, key)
    ensures KeyMayMatch(p, FilterBlock(p, groups), offset, key)
  {
    hide Data;
    hide FilterOffsets;
    hide WordAt;
    hide FilterBlock;
    hide Shifted;
    var contents, data, ends := FilterBlock(p, groups), Data(p, groups), FilterOffsets(p, groups) + [|Data(p, groups)|];
    var i := offset / FilterBase;
    TwoKilobytes(offset);
    FilterEnds(p, groups, i);
    Words(p, groups, i);
    Words(p, groups, i + 1);
    Words(p, groups, |groups|);
    SliceOfPrefix(contents, |data|, ends[i], ends[i + 1]);
    var k :| 0 <= k < |groups[i]| && groups[i][k] == key;
    assert p.keyMayMatch(groups[i][k], p.create(groups[i]));
  }
}
