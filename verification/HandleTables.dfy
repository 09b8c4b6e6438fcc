/** HandleTable (util/cache.cc): buckets of handles chained through next_hash, as a map from
    (hash, key) to handle. */
module HandleTables {
  import opened Coding

  /** A cache entry, linked into a hash chain and into one of the cache's rings. */
  class LRUHandle {
    const key: seq<Byte>
    const hash: nat
    const value: int     // the client's pointer
    const charge: nat
    var nextHash: LRUHandle?
    var next: LRUHandle?
    var prev: LRUHandle?
    var inCache: bool
    var refs: nat

    constructor (key: seq<Byte>, hash: nat, value: int, charge: nat)
      ensures this.key == key && this.hash == hash && this.value == value && this.charge == charge
      ensures !inCache && refs == 1 && next == null && prev == null && nextHash == null
    {
      this.key, this.hash, this.value, this.charge := key, hash, value, charge;
      nextHash, next, prev, inCache, refs := null, null, null, false, 1;
    }
  }

  /** What the table compares: the hash, then the key. */
  datatype Id = Id(hash: nat, key: seq<Byte>)

  function IdOf(h: LRUHandle): Id { Id(h.hash, h.key) }

  /** hash & (length - 1), for the lengths a table may have. */
  function BucketOf(hash: nat, length: nat): (b: nat)
    requires length > 0
    ensures b < length
  {
    hash % length
  }

  // ------------------------------------------------------------------------- chains

  type Links = map<LRUHandle, LRUHandle?>

  ghost function NextHashes(handles: set<LRUHandle>): Links
    reads handles`nextHash
  {
    map h | h in handles :: h.nextHash
  }

  /** Following the links from start visits exactly c. */
  ghost predicate Chain(links: Links, start: LRUHandle?, c: seq<LRUHandle>) {
    if c == [] then start == null
    else start == c[0] && c[0] in links && Chain(links, links[c[0]], c[1..])
  }

  function At(c: seq<LRUHandle>, i: nat): LRUHandle? { if i < |c| then c[i] else null }

  lemma {:induction false} ChainFrom(links: Links, start: LRUHandle?, c: seq<LRUHandle>, i: nat)
    requires Chain(links, start, c) && i <= |c|
    ensures Chain(links, At(c, i), c[i..])
    ensures i > 0 ==> c[i - 1] in links && links[c[i - 1]] == At(c, i)
  {
    if i > 0 {
      ChainFrom(links, links[c[0]], c[1..], i - 1);
      assert c[1..][i - 1..] == c[i..];
    }
  }

  /** Links of other handles do not matter. */
  lemma {:induction false} ChainFrame(links: Links, links': Links, start: LRUHandle?, c: seq<LRUHandle>)
    requires Chain(links, start, c) && forall h :: h in c ==> h in links' && (h in links ==> links'[h] == links[h])
    ensures Chain(links', start, c)
  {
    if c != [] { ChainFrame(links, links', links[c[0]], c[1..]); }
  }

  lemma {:induction false} InLinks(links: Links, start: LRUHandle?, c: seq<LRUHandle>)
    requires Chain(links, start, c)
    ensures forall h :: h in c ==> h in links
  {
    if c != [] { InLinks(links, links[c[0]], c[1..]); }
  }

  /** Setting the link before position i replaces what follows. */
  lemma {:induction false} Relink(links: Links, start: LRUHandle?, c: seq<LRUHandle>, i: nat, x: LRUHandle?,
                                  rest: seq<LRUHandle>)
    requires Chain(links, start, c) && Chain(links, x, rest) && 0 < i <= |c|
    requires c[i - 1] !in c[..i - 1] && c[i - 1] !in rest
    ensures Chain(links[c[i - 1] := x], start, c[..i] + rest)
  {
    var links' := links[c[i - 1] := x];
    var c' := c[..i] + rest;
    InLinks(links, x, rest);
    if i == 1 {
      ChainFrame(links, links', x, rest);
      assert c'[1..] == rest;
    } else {
      assert c[i - 1] == c[1..][i - 2];
      assert c[..i - 1] == [c[0]] + c[1..][..i - 2];
      Relink(links, links[c[0]], c[1..], i - 1, x, rest);
      assert c[0] in c[..i - 1];
      assert c'[1..] == c[1..][..i - 1] + rest;
    }
  }

  // -------------------------------------------------------------------------- buckets

  ghost predicate Chained(links: Links, list: seq<LRUHandle?>, chains: seq<seq<LRUHandle>>) {
    |list| == |chains| && forall b :: 0 <= b < |list| ==> Chain(links, list[b], chains[b])
  }

  ghost predicate NoRepeats(c: seq<LRUHandle>) { forall i, j :: 0 <= i < j < |c| ==> c[i] != c[j] }

  /** The chains hold the entries, each in the bucket its hash belongs to, once. */
  ghost predicate Indexed(chains: seq<seq<LRUHandle>>, entries: map<Id, LRUHandle>) {
    && |chains| > 0
    && (forall b :: 0 <= b < |chains| ==> NoRepeats(chains[b]))
    && (forall b, h: LRUHandle :: 0 <= b < |chains| && h in chains[b] ==>
        BucketOf(h.hash, |chains|) == b && IdOf(h) in entries && entries[IdOf(h)] == h)
    && forall id: Id :: id in entries ==> IdOf(entries[id]) == id && entries[id] in chains[BucketOf(id.hash, |chains|)]
  }

  /** The chain with the element at i, if any, replaced by h. */
  function Put(c: seq<LRUHandle>, i: nat, h: LRUHandle): seq<LRUHandle>
    requires i <= |c|
  {
    c[..i] + ([h] + if i < |c| then c[i + 1..] else [])
  }

  function Take(c: seq<LRUHandle>, i: nat): seq<LRUHandle>
    requires i < |c|
  {
    c[..i] + c[i + 1..]
  }

  /** Where the search for an id stops: at the handle with it, or at the end. */
  ghost predicate Stops(c: seq<LRUHandle>, id: Id, i: nat) {
    && i <= |c| && (forall j :: 0 <= j < i ==> IdOf(c[j]) != id) && (i < |c| ==> IdOf(c[i]) == id)
  }

  lemma StopsAtEntry(chains: seq<seq<LRUHandle>>, entries: map<Id, LRUHandle>, id: Id, i: nat)
    requires Indexed(chains, entries) && Stops(chains[BucketOf(id.hash, |chains|)], id, i)
    ensures var c := chains[BucketOf(id.hash, |chains|)];
            (i < |c| <==> id in entries) && (i < |c| ==> c[i] == entries[id])
  {
    var c := chains[BucketOf(id.hash, |chains|)];
    if i < |c| { assert c[i] in c; }
    if id in entries {
      var k :| 0 <= k < |c| && c[k] == entries[id];
    }
  }

  lemma PutHas(c: seq<LRUHandle>, i: nat, h: LRUHandle, x: LRUHandle)
    requires i <= |c| && NoRepeats(c)
    ensures x in Put(c, i, h) <==> x == h || (x in c && (i < |c| ==> x != c[i]))
  {
    var p := Put(c, i, h);
    if x in p && x != h {
      var k :| 0 <= k < |p| && p[k] == x;
      assert x == if k < i then c[k] else c[k];
    }
    if x in c && (i < |c| ==> x != c[i]) {
      var k :| 0 <= k < |c| && c[k] == x;
      assert p[k] == x;
    }
    assert p[i] == h;
  }

  lemma PutNoRepeats(c: seq<LRUHandle>, i: nat, h: LRUHandle)
    requires i <= |c| && NoRepeats(c) && h !in c
    ensures NoRepeats(Put(c, i, h))
  {
  }

  lemma TakeHas(c: seq<LRUHandle>, i: nat, x: LRUHandle)
    requires i < |c| && NoRepeats(c)
    ensures x in Take(c, i) <==> x in c && x != c[i]
    ensures NoRepeats(Take(c, i))
  {
    var t := Take(c, i);
    if x in t {
      var k :| 0 <= k < |t| && t[k] == x;
      assert x == if k < i then c[k] else c[k + 1];
    }
    if x in c && x != c[i] {
      var k :| 0 <= k < |c| && c[k] == x;
      assert t[if k < i then k else k - 1] == x;
    }
  }

  lemma PutIndexed(chains: seq<seq<LRUHandle>>, entries: map<Id, LRUHandle>, i: nat, h: LRUHandle)
    requires Indexed(chains, entries) && Stops(chains[BucketOf(h.hash, |chains|)], IdOf(h), i) && h !in entries.Values
    ensures var b := BucketOf(h.hash, |chains|);
            Indexed(chains[b := Put(chains[b], i, h)], entries[IdOf(h) := h])
  {
    hide BucketOf;
    hide Put;
    hide NoRepeats;
    var b := BucketOf(h.hash, |chains|);
    var c := chains[b];
    var chains', entries' := chains[b := Put(c, i, h)], entries[IdOf(h) := h];
    StopsAtEntry(chains, entries, IdOf(h), i);
    PutNoRepeats(c, i, h);
    forall b', x: LRUHandle | 0 <= b' < |chains'| && x in chains'[b']
      ensures BucketOf(x.hash, |chains'|) == b' && IdOf(x) in entries' && entries'[IdOf(x)] == x
    {
      if b' == b { PutHas(c, i, h, x); }
    }
    forall id: Id | id in entries'
      ensures IdOf(entries'[id]) == id && entries'[id] in chains'[BucketOf(id.hash, |chains'|)]
    {
      PutHas(c, i, h, entries'[id]);
      if id != IdOf(h) && i < |c| { assert IdOf(c[i]) == IdOf(h); }
    }
  }

  lemma TakeIndexed(chains: seq<seq<LRUHandle>>, entries: map<Id, LRUHandle>, id: Id, i: nat)
    requires Indexed(chains, entries) && Stops(chains[BucketOf(id.hash, |chains|)], id, i)
        && i < |chains[BucketOf(id.hash, |chains|)]|
    ensures var b := BucketOf(id.hash, |chains|);
            Indexed(chains[b := Take(chains[b], i)], entries - {id})
  {
    hide Stops;
    hide Take;
    var b := BucketOf(id.hash, |chains|);
    var c := chains[b];
    StopsAtEntry(chains, entries, id, i);
    var chains', entries' := chains[b := Take(c, i)], entries - {id};
    TakeHas(c, i, c[i]);
    forall b', x: LRUHandle | 0 <= b' < |chains'| && x in chains'[b']
      ensures BucketOf(x.hash, |chains'|) == b' && IdOf(x) in entries' && entries'[IdOf(x)] == x
    {
      if b' == b { TakeHas(c, i, x); }
      assert x in chains[b'];
    }
    forall id': Id | id' in entries'
      ensures IdOf(entries'[id']) == id' && entries'[id'] in chains'[BucketOf(id'.hash, |chains'|)]
    {
      TakeHas(c, i, entries'[id']);
    }
  }

  // ------------------------------------------------------------------- changing links

  /** Handles of other buckets are other handles. */
  lemma OtherBucket(chains: seq<seq<LRUHandle>>, entries: map<Id, LRUHandle>, b: nat, b': nat, h: LRUHandle)
    requires Indexed(chains, entries) && b < |chains| && b' < |chains| && h in chains[b] && b' != b
    ensures h !in chains[b']
  {
    assert BucketOf(h.hash, |chains|) == b;
  }

  /** Writing x where position i of bucket b is read from. */
  lemma WriteSlot(links: Links, list: seq<LRUHandle?>, chains: seq<seq<LRUHandle>>, entries: map<Id, LRUHandle>, b: nat,
                  i: nat, x: LRUHandle?, rest: seq<LRUHandle>)
    requires Chained(links, list, chains) && Indexed(chains, entries) && b < |chains| && i <= |chains[b]|
    requires Chain(links, x, rest) && (i > 0 ==> chains[b][i - 1] !in rest)
    ensures var c := chains[b];
            && (i == 0 ==> Chained(links, list[b := x], chains[b := c[..i] + rest]))
            && (i > 0 ==> Chained(links[c[i - 1] := x], list, chains[b := c[..i] + rest]))
  {
    var c := chains[b];
    if i == 0 {
      assert c[..0] + rest == rest;
    } else {
      assert NoRepeats(c);
      Relink(links, list[b], c, i, x, rest);
      forall b' | 0 <= b' < |chains| && b' != b ensures Chain(links[c[i - 1] := x], list[b'], chains[b']) {
        OtherBucket(chains, entries, b, b', c[i - 1]);
        InLinks(links, list[b'], chains[b']);
        ChainFrame(links, links[c[i - 1] := x], list[b'], chains[b']);
      }
    }
  }

  /** A handle in no chain may be linked at will. */
  lemma LinkNew(links: Links, list: seq<LRUHandle?>, chains: seq<seq<LRUHandle>>, h: LRUHandle, x: LRUHandle?)
    requires Chained(links, list, chains) && forall b :: 0 <= b < |chains| ==> h !in chains[b]
    ensures Chained(links[h := x], list, chains)
  {
    forall b | 0 <= b < |chains| ensures Chain(links[h := x], list[b], chains[b]) {
      InLinks(links, list[b], chains[b]);
      ChainFrame(links, links[h := x], list[b], chains[b]);
    }
  }

  /** Links of handles outside the chains may be forgotten. */
  lemma Forget(links: Links, links': Links, list: seq<LRUHandle?>, chains: seq<seq<LRUHandle>>)
    requires Chained(links, list, chains)
    requires forall b, h: LRUHandle :: 0 <= b < |chains| && h in chains[b] ==>
        h in links' && (h in links ==> links'[h] == links[h])
    ensures Chained(links', list, chains)
  {
    forall b | 0 <= b < |chains| ensures Chain(links', list[b], chains[b]) {
      ChainFrame(links, links', list[b], chains[b]);
    }
  }

  lemma InChains(chains: seq<seq<LRUHandle>>, entries: map<Id, LRUHandle>)
    requires Indexed(chains, entries)
    ensures forall b, h :: 0 <= b < |chains| && h in chains[b] ==> h in entries.Values
  {
    forall b, h | 0 <= b < |chains| && h in chains[b] ensures h in entries.Values { assert entries[IdOf(h)] == h; }
  }

  /** The links and heads after h has been put at position i of its bucket. */
  lemma PutChained(links: Links, list: seq<LRUHandle?>, chains: seq<seq<LRUHandle>>, entries: map<Id, LRUHandle>,
                   b: nat, i: nat, h: LRUHandle)
    requires Chained(links, list, chains) && Indexed(chains, entries) && b < |chains| && i <= |chains[b]|
        && h !in entries.Values
    ensures var c := chains[b];
            var links' := links[h := At(c, i + 1)];
            && (i == 0 ==> Chained(links', list[b := h], chains[b := Put(c, i, h)]))
            && (i > 0 ==> Chained(links'[c[i - 1] := h], list, chains[b := Put(c, i, h)]))
  {
    var c := chains[b];
    var links' := links[h := At(c, i + 1)];
    var rest := if i < |c| then c[i + 1..] else [];
    InChains(chains, entries);
    LinkNew(links, list, chains, h, At(c, i + 1));
    if i < |c| { ChainFrom(links', list[b], c, i + 1); }
    assert ([h] + rest)[1..] == rest;
    if i > 0 {
      assert c[i - 1] in c;
      if i < |c| { assert forall j :: 0 <= j < |rest| ==> rest[j] == c[i + 1 + j]; }
    }
    WriteSlot(links', list, chains, entries, b, i, h, [h] + rest);
  }

  /** The links and heads after position i of a bucket has been taken out. */
  lemma TakeChained(links: Links, list: seq<LRUHandle?>, chains: seq<seq<LRUHandle>>, entries: map<Id, LRUHandle>,
                    b: nat, i: nat)
    requires Chained(links, list, chains) && Indexed(chains, entries) && b < |chains| && i < |chains[b]|
    ensures var c := chains[b];
            && (i == 0 ==> Chained(links, list[b := At(c, i + 1)], chains[b := Take(c, i)]))
            && (i > 0 ==> Chained(links[c[i - 1] := At(c, i + 1)], list, chains[b := Take(c, i)]))
  {
    var c := chains[b];
    var rest := c[i + 1..];
    ChainFrom(links, list[b], c, i + 1);
    assert forall j :: 0 <= j < |rest| ==> rest[j] == c[i + 1 + j];
    WriteSlot(links, list, chains, entries, b, i, At(c, i + 1), rest);
  }

  lemma ForgetOthers(all: set<LRUHandle>, some: set<LRUHandle>, list: seq<LRUHandle?>, chains: seq<seq<LRUHandle>>)
    requires Chained(NextHashes(all), list, chains) && some <= all
    requires forall b, h :: 0 <= b < |chains| && h in chains[b] ==> h in some
    ensures Chained(NextHashes(some), list, chains)
  {
    Forget(NextHashes(all), NextHashes(some), list, chains);
  }

  // ------------------------------------------------------------------------- rehashing

  /** x is still to be moved: it is in the rest of bucket i, or in a later bucket. */
  ghost predicate Left(chains: seq<seq<LRUHandle>>, i: int, rest: seq<LRUHandle>, x: LRUHandle)
    requires |chains| > 0
  {
    x in rest || (BucketOf(x.hash, |chains|) > i && x in chains[BucketOf(x.hash, |chains|)])
  }

  /** Part of the entries has moved to the new buckets; the others are where they were. */
  ghost predicate Split(chains: seq<seq<LRUHandle>>, entries: map<Id, LRUHandle>, i: int, rest: seq<LRUHandle>,
                        moved: seq<seq<LRUHandle>>)
  {
    && Indexed(chains, entries) && |moved| > 0
    && NoRepeats(rest) && (forall x :: x in rest ==> x in entries.Values && BucketOf(x.hash, |chains|) == i)
    && (forall b :: 0 <= b < |moved| ==> NoRepeats(moved[b]))
    && (forall b, x: LRUHandle :: 0 <= b < |moved| && x in moved[b] ==>
        x in entries.Values && BucketOf(x.hash, |moved|) == b)
    && forall x: LRUHandle :: x in entries.Values ==>
        (Left(chains, i, rest, x) <==> x !in moved[BucketOf(x.hash, |moved|)])
  }

  ghost predicate Moving(links: Links, list: seq<LRUHandle?>, chains: seq<seq<LRUHandle>>, entries: map<Id, LRUHandle>,
                         i: int, h: LRUHandle?, rest: seq<LRUHandle>, newList: seq<LRUHandle?>,
                         moved: seq<seq<LRUHandle>>)
  {
    && |list| == |chains| && -1 <= i < |list|
    && Split(chains, entries, i, rest, moved)
    && Chained(links, newList, moved)
    && Chain(links, h, rest)
    && forall b :: i < b < |list| ==> Chain(links, list[b], chains[b])
  }

  lemma ValuesAre(chains: seq<seq<LRUHandle>>, entries: map<Id, LRUHandle>, x: LRUHandle)
    requires Indexed(chains, entries)
    ensures x in entries.Values <==> IdOf(x) in entries && entries[IdOf(x)] == x
    ensures x in entries.Values ==> x in chains[BucketOf(x.hash, |chains|)]
  {
    if x in entries.Values {
      var id :| id in entries && entries[id] == x;
    }
  }

  lemma MovingStarts(links: Links, list: seq<LRUHandle?>, chains: seq<seq<LRUHandle>>, entries: map<Id, LRUHandle>,
                     newList: seq<LRUHandle?>, moved: seq<seq<LRUHandle>>)
    requires Indexed(chains, entries) && Chained(links, list, chains) && |moved| == |newList| > 0
    requires forall b :: 0 <= b < |newList| ==> newList[b] == null && moved[b] == []
    ensures Moving(links, list, chains, entries, -1, null, [], newList, moved)
  {
    forall x: LRUHandle | x in entries.Values ensures Left(chains, -1, [], x) { ValuesAre(chains, entries, x); }
  }

  lemma NextBucket(links: Links, list: seq<LRUHandle?>, chains: seq<seq<LRUHandle>>, entries: map<Id, LRUHandle>,
                   i: int, newList: seq<LRUHandle?>, moved: seq<seq<LRUHandle>>)
    requires Moving(links, list, chains, entries, i, null, [], newList, moved) && i + 1 < |list|
    ensures Moving(links, list, chains, entries, i + 1, list[i + 1], chains[i + 1], newList, moved)
  {
    InChains(chains, entries);
    forall x: LRUHandle | x in entries.Values
      ensures Left(chains, i, [], x) <==> Left(chains, i + 1, chains[i + 1], x)
    {
      ValuesAre(chains, entries, x);
    }
  }

  lemma MoveOneSplit(chains: seq<seq<LRUHandle>>, entries: map<Id, LRUHandle>, i: int, h: LRUHandle,
                     rest: seq<LRUHandle>, moved: seq<seq<LRUHandle>>)
    requires Split(chains, entries, i, [h] + rest, moved)
    ensures |moved| > 0 && h in entries.Values && h !in rest && (forall b :: 0 <= b < |moved| ==> h !in moved[b])
    ensures var b := BucketOf(h.hash, |moved|);
            Split(chains, entries, i, rest, moved[b := [h] + moved[b]])
  {
    var all := [h] + rest;
    var b := BucketOf(h.hash, |moved|);
    var moved' := moved[b := [h] + moved[b]];
    assert all[0] == h && h in all;
    assert Left(chains, i, all, h);
    forall j | 0 <= j < |rest| ensures rest[j] != h { assert all[j + 1] == rest[j]; }
    forall j, k | 0 <= j < k < |rest| ensures rest[j] != rest[k] {
      assert all[j + 1] == rest[j] && all[k + 1] == rest[k];
    }
    forall x: LRUHandle | x in entries.Values
      ensures Left(chains, i, rest, x) <==> x !in moved'[BucketOf(x.hash, |moved'|)]
    {
      assert x in all <==> x == h || x in rest;
    }
  }

  lemma MoveOne(links: Links, list: seq<LRUHandle?>, chains: seq<seq<LRUHandle>>, entries: map<Id, LRUHandle>, i: int,
                h: LRUHandle, rest: seq<LRUHandle>, newList: seq<LRUHandle?>, moved: seq<seq<LRUHandle>>)
    requires Moving(links, list, chains, entries, i, h, [h] + rest, newList, moved)
    ensures |newList| == |moved| > 0 && h in links && h in entries.Values
    ensures var b := BucketOf(h.hash, |moved|);
            Moving(links[h := newList[b]], list, chains, entries, i, links[h], rest, newList[b := h],
                moved[b := [h] + moved[b]])
  {
    hide Split;
    hide Indexed;
    MoveOneSplit(chains, entries, i, h, rest, moved);
    var b := BucketOf(h.hash, |moved|);
    var links' := links[h := newList[b]];
    assert ([h] + rest)[1..] == rest && ([h] + moved[b])[1..] == moved[b];
    LinkNew(links, newList, moved, h, newList[b]);
    InLinks(links, links[h], rest);
    ChainFrame(links, links', links[h], rest);
    forall b' | i < b' < |list| ensures Chain(links', list[b'], chains[b']) {
      LaterIsOther(chains, entries, i, h, rest, moved, b');
      InLinks(links, list[b'], chains[b']);
      ChainFrame(links, links', list[b'], chains[b']);
    }
  }

  lemma LaterIsOther(chains: seq<seq<LRUHandle>>, entries: map<Id, LRUHandle>, i: int, h: LRUHandle,
                     rest: seq<LRUHandle>, moved: seq<seq<LRUHandle>>, b: int)
    requires Split(chains, entries, i, [h] + rest, moved) && -1 <= i < b < |chains|
    ensures h !in chains[b]
  {
    assert h in [h] + rest;
  }

  lemma MovingEnds(links: Links, list: seq<LRUHandle?>, chains: seq<seq<LRUHandle>>, entries: map<Id, LRUHandle>,
                   newList: seq<LRUHandle?>, moved: seq<seq<LRUHandle>>)
    requires Moving(links, list, chains, entries, |list| - 1, null, [], newList, moved)
    ensures Indexed(moved, entries) && Chained(links, newList, moved)
  {
    forall b, x: LRUHandle | 0 <= b < |moved| && x in moved[b] ensures IdOf(x) in entries && entries[IdOf(x)] == x {
      ValuesAre(chains, entries, x);
    }
    forall id: Id | id in entries ensures IdOf(entries[id]) == id && entries[id] in moved[BucketOf(id.hash, |moved|)] {
      assert !Left(chains, |list| - 1, [], entries[id]);
    }
  }

  // ------------------------------------------------------------------------ the table

  /** What LRUHandle** points at: a bucket's head, or the next_hash of a handle. */
  datatype Slot = Bucket(b: nat) | After(h: LRUHandle)

  function SlotAt(c: seq<LRUHandle>, b: nat, i: nat): Slot
    requires i <= |c|
  {
    if i == 0 then Bucket(b) else After(c[i - 1])
  }

  /** Lengths a table may have; hash & (length - 1) is then hash % length. */
  predicate TableLength(n: nat) { n == 4 || (n > 4 && n % 2 == 0 && TableLength(n / 2)) }

  class HandleTable {
    var list: array<LRUHandle?>
    var elems: nat
    ghost var chains: seq<seq<LRUHandle>>
    ghost var entries: map<Id, LRUHandle>

    ghost predicate Linked()
      reads this`list, this`chains, this`entries, list, entries.Values`nextHash
    {
      && Indexed(chains, entries)
      && Chained(NextHashes(entries.Values), list[..], chains)
    }

    ghost predicate Valid()
      reads this, list, entries.Values`nextHash
    {
      Linked() && elems == |entries| <= list.Length && TableLength(list.Length)
    }

    constructor ()
      ensures Valid() && entries == map[] && fresh(list)
    {
      list, elems := new LRUHandle?[4](_ => null), 0;
      chains, entries := [[], [], [], []], map[];
    }

    function Read(slot: Slot): LRUHandle?
      requires slot.Bucket? ==> slot.b < list.Length
      reads this, list, (if slot.After? then {slot.h} else {})`nextHash
    {
      match slot
      case Bucket(b) => list[b]
      case After(h) => h.nextHash
    }

    lemma Follow(b: nat, i: nat)
      requires Linked() && b < |chains| && i <= |chains[b]|
      ensures |chains| == list.Length && list[b] == At(chains[b], 0)
      ensures i < |chains[b]| ==> chains[b][i].nextHash == At(chains[b], i + 1)
    {
      var links := NextHashes(entries.Values);
      assert Chain(links, list[..][b], chains[b]);
      ChainFrom(links, list[b], chains[b], 0);
      if i < |chains[b]| { ChainFrom(links, list[b], chains[b], i + 1); }
    }

    method FindPointer(key: seq<Byte>, hash: nat) returns (slot: Slot, ghost i: nat)
      requires Linked()
      ensures |chains| == list.Length
      ensures var c := chains[BucketOf(hash, |chains|)];
              Stops(c, Id(hash, key), i) && slot == SlotAt(c, BucketOf(hash, |chains|), i) && Read(slot) == At(c, i)
    {
      assert |chains| > 0;
      ghost var b, c := BucketOf(hash, |chains|), chains[BucketOf(hash, |chains|)];
      Follow(b, 0);
      hide Linked;
      hide BucketOf;
      slot, i := Bucket(BucketOf(hash, list.Length)), 0;
      var h := list[BucketOf(hash, list.Length)];
      while h != null && (h.hash != hash || h.key != key)
        invariant i <= |c| && slot == SlotAt(c, b, i) && h == Read(slot) == At(c, i)
        invariant forall j :: 0 <= j < i ==> IdOf(c[j]) != Id(hash, key)
        decreases |c| - i
      {
        Follow(b, i);
        slot, i := After(h), i + 1;
        h := h.nextHash;
      }
    }

    method Lookup(key: seq<Byte>, hash: nat) returns (h: LRUHandle?)
      requires Valid()
      ensures h == if Id(hash, key) in entries then entries[Id(hash, key)] else null
    {
      var slot, i := FindPointer(key, hash);
      StopsAtEntry(chains, entries, Id(hash, key), i);
      h := Read(slot);
    }

    /** *ptr = x, where ptr is position i of bucket b. */
    method Write(slot: Slot, x: LRUHandle?)
      requires slot.Bucket? ==> slot.b < list.Length
      modifies list, (if slot.After? then {slot.h} else {})`nextHash
      ensures slot.Bucket? ==> list[..] == old(list[..])[slot.b := x]
      ensures slot.After? ==> list[..] == old(list[..]) && slot.h.nextHash == x
    {
      match slot
      case Bucket(b) => list[b] := x;
      case After(h) => h.nextHash := x;
    }

    /** The handle takes the place of the one with its id, or the end of its bucket. */
    method Place(slot: Slot, h: LRUHandle, was: LRUHandle?, ghost b: nat, ghost i: nat)
      requires Linked() && |chains| == list.Length && b == BucketOf(h.hash, |chains|) && i <= |chains[b]|
          && Stops(chains[b], IdOf(h), i)
      requires slot == SlotAt(chains[b], b, i) && was == At(chains[b], i) && h !in entries.Values
      modifies this`chains, this`entries, list, entries.Values`nextHash, h`nextHash
      ensures Linked() && entries == old(entries)[IdOf(h) := h]
    {
      hide Chained;
      hide Indexed;
      hide BucketOf;
      hide Stops;
      hide Put;
      ghost var c, all, links := chains[b], entries.Values + {h}, NextHashes(entries.Values);
      PutChained(links, list[..], chains, entries, b, i, h);
      PutIndexed(chains, entries, i, h);
      InChains(chains, entries);
      Follow(b, i);
      if i > 0 { assert c[i - 1] in c; }
      h.nextHash := if was == null then null else was.nextHash;
      assert NextHashes(all) == links[h := At(c, i + 1)];
      Write(slot, h);
      ghost var links' := links[h := At(c, i + 1)];
      assert NextHashes(all) == if i == 0 then links' else links'[c[i - 1] := h];
      chains, entries := chains[b := Put(c, i, h)], entries[IdOf(h) := h];
      InChains(chains, entries);
      ForgetOthers(all, entries.Values, list[..], chains);
    }

    method Unlink(slot: Slot, h: LRUHandle, ghost b: nat, ghost i: nat)
      requires Linked() && |chains| == list.Length && b == BucketOf(h.hash, |chains|) && i < |chains[b]|
          && Stops(chains[b], IdOf(h), i)
      requires slot == SlotAt(chains[b], b, i) && h == chains[b][i]
      modifies this`chains, this`entries, list, entries.Values`nextHash
      ensures Linked() && entries == old(entries) - {IdOf(h)}
    {
      hide Chained;
      hide Indexed;
      hide BucketOf;
      hide Stops;
      hide Take;
      ghost var c, all, links := chains[b], entries.Values, NextHashes(entries.Values);
      TakeChained(links, list[..], chains, entries, b, i);
      TakeIndexed(chains, entries, IdOf(h), i);
      InChains(chains, entries);
      Follow(b, i);
      if i > 0 { assert c[i - 1] in c; }
      Write(slot, h.nextHash);
      assert NextHashes(all) == if i == 0 then links else links[c[i - 1] := At(c, i + 1)];
      chains, entries := chains[b := Take(c, i)], entries - {IdOf(h)};
      InChains(chains, entries);
      ForgetOthers(all, entries.Values, list[..], chains);
    }

    method Remove(key: seq<Byte>, hash: nat) returns (result: LRUHandle?)
      requires Valid()
      modifies this`chains, this`entries, this`elems, list, entries.Values`nextHash
      ensures Valid() && entries == old(entries) - {Id(hash, key)}
      ensures result == if Id(hash, key) in old(entries) then old(entries)[Id(hash, key)] else null
    {
      hide Linked;
      var slot, i := FindPointer(key, hash);
      StopsHere(key, hash, i);
      OneLess(entries, Id(hash, key));
      result := Read(slot);
      if result != null {
        Unlink(slot, result, BucketOf(hash, |chains|), i);
        elems := elems - 1;
      }
    }

    method Insert(h: LRUHandle) returns (was: LRUHandle?)
      requires Valid() && h !in entries.Values
      modifies this, list, entries.Values`nextHash, h`nextHash
      ensures Valid() && entries == old(entries)[IdOf(h) := h] && (list == old(list) || fresh(list))
      ensures fresh(list) <==> |entries| > old(list.Length)
      ensures was == if IdOf(h) in old(entries) then old(entries)[IdOf(h)] else null
    {
      hide Linked;
      var slot, i := FindPointer(h.key, h.hash);
      StopsHere(h.key, h.hash, i);
      was := Read(slot);
      Place(slot, h, was, BucketOf(h.hash, |chains|), i);
      if was == null {
        elems := elems + 1;
        if elems > list.Length { Resize(); }
      }
    }

    method Resize()
      requires Linked() && elems == |entries|
      modifies this`list, this`chains, entries.Values`nextHash
      ensures Valid() && fresh(list) && list.Length >= elems
    {
      hide Moving;
      hide Linked;
      hide Indexed;
      hide Chained;
      hide TableLength;
      var newLength := NewLength(elems);
      var newList := new LRUHandle?[newLength](_ => null);
      ghost var moved := seq(newLength, _ => []);
      NothingMoved(newList, moved);
      moved := MoveBuckets(newList, moved);
      list, chains := newList, moved;
      LinkedIf();
    }

    lemma LinkedIf()
      requires Indexed(chains, entries) && Chained(NextHashes(entries.Values), list[..], chains)
      ensures Linked()
    {
    }

    lemma NothingMoved(newList: array<LRUHandle?>, moved: seq<seq<LRUHandle>>)
      requires Linked() && |moved| == newList.Length > 0
      requires forall b :: 0 <= b < newList.Length ==> newList[b] == null && moved[b] == []
      ensures |chains| == list.Length && Moving(NextHashes(entries.Values), list[..], chains, entries, -1, null, [],
          newList[..], moved)
    {
      MovingStarts(NextHashes(entries.Values), list[..], chains, entries, newList[..], moved);
    }

    method MoveBuckets(newList: array<LRUHandle?>, ghost moved: seq<seq<LRUHandle>>)
        returns (ghost moved': seq<seq<LRUHandle>>)
      requires newList != list && |chains| == list.Length
      requires Moving(NextHashes(entries.Values), list[..], chains, entries, -1, null, [], newList[..], moved)
      modifies entries.Values`nextHash, newList
      ensures Indexed(moved', entries) && Chained(NextHashes(entries.Values), newList[..], moved')
    {
      hide Moving;
      moved' := moved;
      for i := 0 to list.Length
        modifies entries.Values`nextHash, newList
        invariant Moving(NextHashes(entries.Values), list[..], chains, entries, i - 1, null, [], newList[..], moved')
      {
        NextBucket(NextHashes(entries.Values), list[..], chains, entries, i - 1, newList[..], moved');
        moved' := MoveBucket(i, newList, moved');
      }
      MovingEnds(NextHashes(entries.Values), list[..], chains, entries, newList[..], moved');
    }

    method MoveBucket(i: nat, newList: array<LRUHandle?>, ghost moved: seq<seq<LRUHandle>>)
        returns (ghost moved': seq<seq<LRUHandle>>)
      requires newList != list && i < list.Length && |chains| == list.Length
      requires Moving(NextHashes(entries.Values), list[..], chains, entries, i, list[i], chains[i], newList[..], moved)
      modifies entries.Values`nextHash, newList
      ensures Moving(NextHashes(entries.Values), list[..], chains, entries, i, null, [], newList[..], moved')
    {
      hide Moving;
      moved' := moved;
      var h := list[i];
      ghost var rest := chains[i];
      while h != null
        modifies entries.Values`nextHash, newList
        invariant Moving(NextHashes(entries.Values), list[..], chains, entries, i, h, rest, newList[..], moved')
        decreases |rest|
      {
        ghost var links, heads := NextHashes(entries.Values), newList[..];
        RestStarts(links, list[..], chains, entries, i, h, rest, newList[..], moved');
        MoveOne(links, list[..], chains, entries, i, h, rest[1..], newList[..], moved');
        var next := h.nextHash;
        var b := BucketOf(h.hash, newList.Length);
        h.nextHash := newList[b];
        newList[b] := h;
        moved' := moved'[b := [h] + moved'[b]];
        assert NextHashes(entries.Values) == links[h := heads[b]];
        h, rest := next, rest[1..];
      }
      NoRest(NextHashes(entries.Values), list[..], chains, entries, i, rest, newList[..], moved');
    }

    lemma StopsHere(key: seq<Byte>, hash: nat, i: nat)
      requires Linked() && Stops(chains[BucketOf(hash, |chains|)], Id(hash, key), i)
      ensures var c := chains[BucketOf(hash, |chains|)];
              (i < |c| <==> Id(hash, key) in entries)
                  && (i < |c| ==> c[i] == entries[Id(hash, key)] && IdOf(c[i]) == Id(hash, key))
    {
      StopsAtEntry(chains, entries, Id(hash, key), i);
    }
  }

  lemma RestStarts(links: Links, list: seq<LRUHandle?>, chains: seq<seq<LRUHandle>>, entries: map<Id, LRUHandle>,
                   i: int, h: LRUHandle, rest: seq<LRUHandle>, newList: seq<LRUHandle?>, moved: seq<seq<LRUHandle>>)
    requires Moving(links, list, chains, entries, i, h, rest, newList, moved)
    ensures rest != [] && rest[0] == h && rest == [h] + rest[1..]
  {
  }

  lemma NoRest(links: Links, list: seq<LRUHandle?>, chains: seq<seq<LRUHandle>>, entries: map<Id, LRUHandle>, i: int,
               rest: seq<LRUHandle>, newList: seq<LRUHandle?>, moved: seq<seq<LRUHandle>>)
    requires Moving(links, list, chains, entries, i, null, rest, newList, moved)
    ensures rest == []
  {
  }

  /** The smallest power of two from four on that is enough. */
  method NewLength(elems: nat) returns (n: nat)
    ensures TableLength(n) && n >= elems && (n == 4 || n / 2 < elems)
  {
    n := 4;
    while n < elems
      invariant TableLength(n) && n >= 4 && (n == 4 || n / 2 < elems)
      decreases elems - n
    {
      n := n * 2;
    }
  }

  lemma OneLess(m: map<Id, LRUHandle>, id: Id)
    ensures |m - {id}| == (if id in m then |m| - 1 else |m|) && (id !in m ==> m - {id} == m)
  {
    if id in m {
      assert m == (m - {id})[id := m[id]];
    } else {
      assert m - {id} == m;
    }
  }
}
