/** LRUCache (util/cache.cc): two rings of handles, reference counts and the hash table, as a bounded map
    that evicts what no client holds, least recently released first. */
module LruCaches {
  import opened HandleTables

  // --------------------------------------------------------------------------- rings

  type Pointers = map<LRUHandle, LRUHandle?>

  ghost function Nexts(handles: set<LRUHandle>): Pointers
    reads handles`next
  {
    map h | h in handles :: h.next
  }

  ghost function Prevs(handles: set<LRUHandle>): Pointers
    reads handles`prev
  {
    map h | h in handles :: h.prev
  }

  /** The ring's elements, with its head before the first and after the last. */
  function RingAt(head: LRUHandle, l: seq<LRUHandle>, i: int): LRUHandle {
    if 0 <= i < |l| then l[i] else head
  }

  ghost predicate Joined(nexts: Pointers, prevs: Pointers, a: LRUHandle, b: LRUHandle) {
    a in nexts && nexts[a] == b && b in prevs && prevs[b] == a
  }

  ghost predicate Ring(nexts: Pointers, prevs: Pointers, head: LRUHandle, l: seq<LRUHandle>) {
    && NoRepeats(l) && head !in l
    && forall i :: 0 <= i <= |l| ==> Joined(nexts, prevs, RingAt(head, l, i - 1), RingAt(head, l, i))
  }

  lemma RingMembers(nexts: Pointers, prevs: Pointers, head: LRUHandle, l: seq<LRUHandle>)
    requires Ring(nexts, prevs, head, l)
    ensures head in nexts && head in prevs && forall h :: h in l ==> h in nexts && h in prevs
    ensures nexts[head] == RingAt(head, l, 0) && prevs[head] == RingAt(head, l, |l| - 1)
  {
    assert Joined(nexts, prevs, RingAt(head, l, -1), RingAt(head, l, 0));
    assert Joined(nexts, prevs, RingAt(head, l, |l| - 1), RingAt(head, l, |l|));
    forall h | h in l ensures h in nexts && h in prevs {
      var i :| 0 <= i < |l| && l[i] == h;
      assert Joined(nexts, prevs, RingAt(head, l, i - 1), RingAt(head, l, i));
      assert Joined(nexts, prevs, RingAt(head, l, i), RingAt(head, l, i + 1));
    }
  }

  /** A ring whose own pointers do not change stays a ring. */
  lemma RingFrame(nexts: Pointers, prevs: Pointers, nexts': Pointers, prevs': Pointers, head: LRUHandle,
                  l: seq<LRUHandle>)
    requires Ring(nexts, prevs, head, l)
    requires forall h :: h in l || h == head ==>
        h in nexts' && (h in nexts ==> nexts'[h] == nexts[h]) && h in prevs' && (h in prevs ==> prevs'[h] == prevs[h])
    ensures Ring(nexts', prevs', head, l)
  {
    RingMembers(nexts, prevs, head, l);
    forall i | 0 <= i <= |l| ensures Joined(nexts', prevs', RingAt(head, l, i - 1), RingAt(head, l, i)) {
      assert Joined(nexts, prevs, RingAt(head, l, i - 1), RingAt(head, l, i));
    }
  }

  /** l without its element e. */
  function Without(l: seq<LRUHandle>, e: LRUHandle): seq<LRUHandle> {
    if l == [] then [] else if l[0] == e then l[1..] else [l[0]] + Without(l[1..], e)
  }

  lemma {:induction false} WithoutIs(l: seq<LRUHandle>, e: LRUHandle) returns (i: nat)
    requires NoRepeats(l) && e in l
    ensures i < |l| && l[i] == e && Without(l, e) == Take(l, i)
  {
    if l[0] == e {
      i := 0;
    } else {
      assert NoRepeats(l[1..]) by { assert forall j :: 0 <= j < |l[1..]| ==> l[1..][j] == l[j + 1]; }
      var j := WithoutIs(l[1..], e);
      i := j + 1;
      assert Take(l, i) == [l[0]] + Take(l[1..], j);
    }
  }

  lemma WithoutHas(l: seq<LRUHandle>, e: LRUHandle)
    requires NoRepeats(l)
    ensures NoRepeats(Without(l, e))
    ensures forall i :: 0 <= i < |Without(l, e)| ==> Without(l, e)[i] in l && Without(l, e)[i] != e
    ensures forall i :: 0 <= i < |l| && l[i] != e ==> l[i] in Without(l, e)
  {
    var w := Without(l, e);
    if e in l {
      var i := WithoutIs(l, e);
      TakeHas(l, i, e);
      forall j | 0 <= j < |w| ensures w[j] in l && w[j] != e { TakeHas(l, i, w[j]); }
      forall j | 0 <= j < |l| && l[j] != e ensures l[j] in w { TakeHas(l, i, l[j]); }
    } else {
      NotWithout(l, e);
    }
  }

  lemma {:induction false} NotWithout(l: seq<LRUHandle>, e: LRUHandle)
    requires e !in l
    ensures Without(l, e) == l
  {
    if l != [] { NotWithout(l[1..], e); }
  }

  /** LRU_Remove's two writes take an element out of its ring. */
  lemma RingRemove(nexts: Pointers, prevs: Pointers, head: LRUHandle, l: seq<LRUHandle>, e: LRUHandle)
    requires Ring(nexts, prevs, head, l) && e in l
    ensures e in nexts && e in prevs && nexts[e] != null && prevs[e] != null
    ensures Ring(nexts[prevs[e] := nexts[e]], prevs[nexts[e] := prevs[e]], head, Without(l, e))
    ensures nexts[e] in prevs && prevs[e] in nexts
    ensures nexts[e] == head || nexts[e] in l
    ensures prevs[e] == head || prevs[e] in l
  {
    var i: int := WithoutIs(l, e);
    var a, b := RingAt(head, l, i - 1), RingAt(head, l, i + 1);
    assert Joined(nexts, prevs, RingAt(head, l, i - 1), RingAt(head, l, i));
    assert Joined(nexts, prevs, RingAt(head, l, i), RingAt(head, l, i + 1));
    var t, nexts', prevs' := Take(l, i), nexts[a := b], prevs[b := a];
    WithoutHas(l, e);
    forall j | 0 <= j <= |t| ensures Joined(nexts', prevs', RingAt(head, t, j - 1), RingAt(head, t, j)) {
      TakeAt(head, l, i, j);
      TakeAt(head, l, i, j - 1);
      if j < i {
        assert Joined(nexts, prevs, RingAt(head, l, j - 1), RingAt(head, l, j));
        Apart(head, l, j - 1, i - 1);
        Apart(head, l, j, i + 1);
      } else if j > i {
        assert Joined(nexts, prevs, RingAt(head, l, j), RingAt(head, l, j + 1));
        Apart(head, l, j, i - 1);
        Apart(head, l, j + 1, i + 1);
      }
    }
  }

  lemma TakeAt(head: LRUHandle, l: seq<LRUHandle>, i: nat, j: int)
    requires i < |l| && -1 <= j <= |l| - 1
    ensures RingAt(head, Take(l, i), j) == RingAt(head, l, if j < i then j else j + 1)
  {
  }

  /** Different places of a ring hold different handles. */
  lemma Apart(head: LRUHandle, l: seq<LRUHandle>, i: int, j: int)
    requires NoRepeats(l) && head !in l && -1 <= i <= |l| && -1 <= j <= |l| && i != j && !(i == -1 && j == |l|)
        && !(i == |l| && j == -1)
    ensures RingAt(head, l, i) != RingAt(head, l, j)
  {
    if 0 <= i < |l| { assert l[i] in l; }
    if 0 <= j < |l| { assert l[j] in l; }
    if 0 <= i < |l| && 0 <= j < |l| && j < i { assert l[j] != l[i]; }
  }

  /** LRU_Append's four writes put e before the head, as the newest element. */
  lemma RingAppend(nexts: Pointers, prevs: Pointers, head: LRUHandle, l: seq<LRUHandle>, e: LRUHandle)
    requires Ring(nexts, prevs, head, l) && e !in l && e != head
    ensures head in prevs && prevs[head] in nexts && (prevs[head] == head || prevs[head] in l)
    ensures var last := RingAt(head, l, |l| - 1);
            prevs[head] == last && Ring(nexts[e := head][last := e], prevs[e := last][head := e], head, l + [e])
  {
    RingMembers(nexts, prevs, head, l);
    var last, l' := RingAt(head, l, |l| - 1), l + [e];
    var nexts', prevs' := nexts[e := head][last := e], prevs[e := last][head := e];
    forall i | 0 <= i <= |l'| ensures Joined(nexts', prevs', RingAt(head, l', i - 1), RingAt(head, l', i)) {
      if i < |l| {
        assert Joined(nexts, prevs, RingAt(head, l, i - 1), RingAt(head, l, i));
        Apart(head, l, i - 1, |l| - 1);
        assert l[i] in l;
      }
    }
  }

  // ----------------------------------------------------------------- the bounded map

  /** The cache as a value: the cached entries, those of them no client holds, oldest release first,
      those some client holds, how many references clients have to each live handle, and the
      handles given to their deleter, in order. */
  datatype Cache = Cache(capacity: nat, entries: map<Id, LRUHandle>, idle: seq<LRUHandle>, used: seq<LRUHandle>,
                         clients: map<LRUHandle, nat>, deleted: seq<LRUHandle>)

  /** The handles the cache holds a reference to are exactly the idle and the used ones. */
  ghost predicate SoundWith(c: Cache, cached: set<LRUHandle>) {
    && NoRepeats(c.idle) && NoRepeats(c.used) && NoRepeats(c.deleted)
    && (forall h :: h in c.idle ==> h !in c.used)
    && (forall id: Id :: id in c.entries ==> IdOf(c.entries[id]) == id)
    && (forall h :: h in c.idle ==> h in cached) && (forall h :: h in c.used ==> h in cached)
    && (forall h :: h in cached ==> h in c.idle || h in c.used)
    && (forall h :: h in cached ==> h in c.clients)
    && (forall h :: h in c.idle ==> c.clients[h] == 0)
    && (forall h :: h in c.clients && h !in c.idle ==> c.clients[h] > 0)
    && (forall h :: h in c.deleted ==> h !in c.clients)
  }

  ghost predicate Sound(c: Cache) { SoundWith(c, c.entries.Values) }

  function Charge(l: seq<LRUHandle>): nat {
    if l == [] then 0 else l[0].charge + Charge(l[1..])
  }

  function Usage(c: Cache): nat { Charge(c.idle) + Charge(c.used) }

  lemma {:induction false} ChargeAppend(l: seq<LRUHandle>, e: LRUHandle)
    ensures Charge(l + [e]) == Charge(l) + e.charge
  {
    if l == [] {
      assert l + [e] == [e];
    } else {
      assert (l + [e])[1..] == l[1..] + [e];
      ChargeAppend(l[1..], e);
    }
  }

  lemma {:induction false} ChargeWithout(l: seq<LRUHandle>, e: LRUHandle)
    ensures Charge(Without(l, e)) == Charge(l) - (if e in l then e.charge else 0)
  {
    if l != [] && l[0] != e {
      ChargeWithout(l[1..], e);
    }
  }

  /** A client gains a reference to a cached handle. */
  function Referenced(c: Cache, h: LRUHandle): Cache
    requires h in c.clients
  {
    c.(idle := Without(c.idle, h), used := if h in c.idle then c.used + [h] else c.used,
        clients := c.clients[h := c.clients[h] + 1])
  }

  /** A client gives a reference back; the last one to a handle out of the cache deletes it. */
  ghost function Released(c: Cache, h: LRUHandle): Cache
    requires h in c.clients && c.clients[h] > 0
  {
    if c.clients[h] > 1 then c.(clients := c.clients[h := (c.clients[h] - 1) as nat])
    else if h in c.entries.Values then c.(used := Without(c.used, h), idle := c.idle + [h],
        clients := c.clients[h := 0])
    else c.(clients := c.clients - {h}, deleted := c.deleted + [h])
  }

  /** The cache gives up its reference to a handle that is no longer among its entries. */
  function Dropped(c: Cache, h: LRUHandle): Cache
    requires h in c.clients
  {
    var out := c.(idle := Without(c.idle, h), used := Without(c.used, h));
    if c.clients[h] > 0 then out else out.(clients := c.clients - {h}, deleted := c.deleted + [h])
  }

  function Erased(c: Cache, id: Id): Cache
    requires id in c.entries ==> c.entries[id] in c.clients
  {
    if id in c.entries then Dropped(c.(entries := c.entries - {id}), c.entries[id]) else c
  }

  lemma ReferencedSound(c: Cache, h: LRUHandle)
    requires Sound(c) && h in c.entries.Values
    ensures h in c.clients && Sound(Referenced(c, h))
  {
    hide Without;
    WithoutHas(c.idle, h);
  }

  lemma ReleasedSound(c: Cache, h: LRUHandle)
    requires Sound(c) && h in c.clients && c.clients[h] > 0
    ensures Sound(Released(c, h))
  {
    hide Without;
    WithoutHas(c.used, h);
  }

  /** Between leaving the table and losing its reference, a handle counts the cache among its clients. */
  function Orphaned(c: Cache, h: LRUHandle): Cache
    requires h in c.clients
  {
    c.(idle := Without(c.idle, h), used := Without(c.used, h), clients := c.clients[h := c.clients[h] + 1])
  }

  lemma OrphanedSound(c: Cache, h: LRUHandle)
    requires SoundWith(c, c.entries.Values + {h}) && h !in c.entries.Values
    ensures h in c.clients && Sound(Orphaned(c, h))
  {
    WithoutHas(c.idle, h);
    WithoutHas(c.used, h);
  }

  lemma DroppedIs(c: Cache, h: LRUHandle)
    requires SoundWith(c, c.entries.Values + {h}) && h !in c.entries.Values
    ensures h in c.clients && Dropped(c, h) == Released(Orphaned(c, h), h) && Sound(Dropped(c, h))
  {
    hide SoundWith;
    OrphanedSound(c, h);
    ReleasedSound(Orphaned(c, h), h);
    var o := Orphaned(c, h);
    assert c.clients[h] == 0 ==> o.clients - {h} == c.clients - {h};
    assert c.clients[h] > 0 ==> o.clients[h := c.clients[h]] == c.clients;
  }

  lemma ValueGone(entries: map<Id, LRUHandle>, id: Id, h: LRUHandle)
    requires id in entries && forall i: Id :: i in entries ==> IdOf(entries[i]) == i
    ensures h in (entries - {id}).Values <==> h in entries.Values && h != entries[id]
  {
    if h in entries.Values && h != entries[id] {
      var i :| i in entries && entries[i] == h;
      assert i in entries - {id};
    }
    if h in (entries - {id}).Values {
      var i :| i in entries - {id} && (entries - {id})[i] == h;
      assert IdOf(entries[i]) == i;
    }
  }

  /** Taken out of the table, a handle is all the cache still has to let go of. */
  lemma RemovedPends(c: Cache, id: Id)
    requires Sound(c) && id in c.entries
    ensures var h, c' := c.entries[id], c.(entries := c.entries - {id});
            h in c.entries.Values && h !in c'.entries.Values && SoundWith(c', c'.entries.Values + {h})
  {
    var h, gone := c.entries[id], c.entries - {id};
    assert h in c.entries.Values;
    ValueGone(c.entries, id, h);
    forall x ensures x in gone.Values + {h} <==> x in c.entries.Values { ValueGone(c.entries, id, x); }
    assert gone.Values + {h} == c.entries.Values;
  }

  lemma ErasedSound(c: Cache, id: Id)
    requires Sound(c)
    ensures id in c.entries ==> c.entries[id] in c.clients
    ensures Sound(Erased(c, id))
  {
    if id in c.entries {
      RemovedPends(c, id);
      DroppedIs(c.(entries := c.entries - {id}), c.entries[id]);
    }
  }

  /** Erasing takes just the one key out, and deletes its handle unless a client still holds it. */
  lemma ErasedIs(c: Cache, id: Id)
    requires Sound(c)
    ensures id in c.entries ==> c.entries[id] in c.clients
    ensures var e := Erased(c, id);
            && e.entries == c.entries - {id} && e.capacity == c.capacity
            && e.deleted == c.deleted + (if id in c.entries
                && c.clients[c.entries[id]] == 0 then [c.entries[id]] else [])
            && (forall h :: h in c.idle && (id in c.entries ==> h != c.entries[id]) <==> h in e.idle)
            && (forall h :: h in c.used && (id in c.entries ==> h != c.entries[id]) <==> h in e.used)
  {
    if id in c.entries {
      assert c.entries[id] in c.entries.Values;
      WithoutHas(c.idle, c.entries[id]);
      WithoutHas(c.used, c.entries[id]);
    } else {
      assert c.deleted + [] == c.deleted;
    }
  }

  // ------------------------------------------------------------------------- eviction

  /** The oldest idle entry goes, and is deleted at once. */
  function OldestGone(c: Cache): Cache
    requires c.idle != []
  {
    c.(entries := c.entries - {IdOf(c.idle[0])}, idle := c.idle[1..], clients := c.clients - {c.idle[0]},
        deleted := c.deleted + [c.idle[0]])
  }

  /** What clients hold is still cached. */
  ghost predicate UsedStay(c: Cache, e: Cache) {
    c.used == e.used && forall id: Id :: id in c.entries && c.entries[id] in c.used ==>
        id in e.entries && e.entries[id] == c.entries[id]
  }

  lemma OldestIs(c: Cache)
    requires Sound(c) && c.idle != []
    ensures IdOf(c.idle[0]) in c.entries && c.entries[IdOf(c.idle[0])] == c.idle[0]
    ensures c.idle[0] in c.clients && Erased(c, IdOf(c.idle[0])) == OldestGone(c) && Sound(OldestGone(c))
    ensures UsedStay(c, OldestGone(c))
  {
    var h := c.idle[0];
    assert h in c.idle;
    var id :| id in c.entries && c.entries[id] == h;
    assert h !in c.used;
    NotWithout(c.used, h);
    ErasedSound(c, id);
  }

  function Evicted(c: Cache): Cache
    decreases |c.idle|
  {
    if Usage(c) > c.capacity && c.idle != [] then Evicted(OldestGone(c)) else c
  }

  function Pruned(c: Cache): Cache
    decreases |c.idle|
  {
    if c.idle != [] then Pruned(OldestGone(c)) else c
  }

  /** h's entry replaces the one with its id. */
  function Entered(c: Cache, h: LRUHandle): Cache {
    c.(entries := c.entries[IdOf(h) := h], used := c.used + [h], clients := c.clients[h := 1])
  }

  /** What Insert does: with no capacity the handle is only the client's. */
  function Inserted(c: Cache, h: LRUHandle): Cache
    requires IdOf(h) in c.entries ==> c.entries[IdOf(h)] in Entered(c, h).clients
  {
    if c.capacity == 0 then Evicted(c.(clients := c.clients[h := 1]))
    else if IdOf(h) in c.entries then Evicted(Dropped(Entered(c, h), c.entries[IdOf(h)]))
    else Evicted(Entered(c, h))
  }

  ghost predicate New(c: Cache, h: LRUHandle) { h !in c.clients && h !in c.deleted }

  lemma EnteredValues(entries: map<Id, LRUHandle>, h: LRUHandle, x: LRUHandle)
    requires forall i: Id :: i in entries ==> IdOf(entries[i]) == i
    ensures x in entries[IdOf(h) := h].Values <==> x == h || (x in entries.Values && IdOf(x) != IdOf(h))
  {
    var e' := entries[IdOf(h) := h];
    assert e'[IdOf(h)] == h;
    if x in entries.Values && IdOf(x) != IdOf(h) {
      var i :| i in entries && entries[i] == x;
      assert e'[i] == x;
    }
    if x in e'.Values && x != h {
      var i :| i in e' && e'[i] == x;
      assert entries[i] == x;
    }
  }

  lemma SameIdSame(entries: map<Id, LRUHandle>, h: LRUHandle, x: LRUHandle)
    requires forall i: Id :: i in entries ==> IdOf(entries[i]) == i
    ensures x in entries.Values && IdOf(x) == IdOf(h) ==> IdOf(h) in entries && x == entries[IdOf(h)]
  {
    if x in entries.Values {
      var i :| i in entries && entries[i] == x;
    }
  }

  lemma CachedAfterEntering(c: Cache, e: LRUHandle)
    requires Sound(c) && New(c, e)
    ensures if IdOf(e) in c.entries
            then var was := c.entries[IdOf(e)];
                 was in Entered(c, e).clients && was !in Entered(c, e).entries.Values
                     && c.entries.Values + {e} == Entered(c, e).entries.Values + {was}
                 && SoundWith(Entered(c, e), c.entries.Values + {e})
            else c.entries.Values + {e} == Entered(c, e).entries.Values && Sound(Entered(c, e))
  {
    hide IdOf;
    var c' := Entered(c, e);
    forall x ensures x in c'.entries.Values <==> x == e || (x in c.entries.Values && IdOf(x) != IdOf(e)) {
      EnteredValues(c.entries, e, x);
    }
    if IdOf(e) in c.entries {
      var was := c.entries[IdOf(e)];
      assert c'.entries.Values + {was} == c.entries.Values + {e} by {
        assert was in c.entries.Values;
        forall x ensures x in c'.entries.Values + {was} <==> x in c.entries.Values + {e} {
          SameIdSame(c.entries, e, x);
        }
      }
    } else {
      assert c'.entries.Values == c.entries.Values + {e} by {
        forall x ensures x in c'.entries.Values <==> x in c.entries.Values + {e} { SameIdSame(c.entries, e, x); }
      }
    }
  }

  lemma EnteredPends(c: Cache, h: LRUHandle)
    requires Sound(c) && New(c, h)
    ensures h !in c.entries.Values
    ensures IdOf(h) !in c.entries ==> Sound(Entered(c, h))
    ensures var c' := Entered(c, h);
            IdOf(h) in c.entries ==>
              var was := c.entries[IdOf(h)];
              was in c'.clients && was !in c'.entries.Values && SoundWith(c', c'.entries.Values + {was})
  {
    CachedAfterEntering(c, h);
  }

  lemma InsertedSound(c: Cache, h: LRUHandle)
    requires Sound(c) && New(c, h)
    ensures IdOf(h) in c.entries ==> c.entries[IdOf(h)] in Entered(c, h).clients
    ensures Sound(Inserted(c, h)) && (Usage(Inserted(c, h)) <= Inserted(c, h).capacity || Inserted(c, h).idle == [])
  {
    EnteredPends(c, h);
    if c.capacity == 0 {
      var n := EvictedIs(c.(clients := c.clients[h := 1]));
    } else if IdOf(h) in c.entries {
      DroppedIs(Entered(c, h), c.entries[IdOf(h)]);
      var n := EvictedIs(Dropped(Entered(c, h), c.entries[IdOf(h)]));
    } else {
      var n := EvictedIs(Entered(c, h));
    }
  }

  /** With any capacity at all a new entry is found until someone erases it: insertion never evicts it. */
  lemma InsertedIsFound(c: Cache, h: LRUHandle)
    requires Sound(c) && New(c, h) && c.capacity > 0
    ensures IdOf(h) in c.entries ==> c.entries[IdOf(h)] in Entered(c, h).clients
    ensures var i := Inserted(c, h);
            IdOf(h) in i.entries && i.entries[IdOf(h)] == h && h in i.used
  {
    EnteredPends(c, h);
    var before := Entered(c, h);
    if IdOf(h) in c.entries {
      var was := c.entries[IdOf(h)];
      DroppedIs(before, was);
      before := Dropped(before, was);
      assert h in Entered(c, h).entries.Values && h != was;
      StillThere(Entered(c, h).used, was, h);
    }
    var n := EvictedIs(before);
  }

  lemma StillThere(l: seq<LRUHandle>, e: LRUHandle, h: LRUHandle)
    requires NoRepeats(l) && h in l && h != e
    ensures h in Without(l, e)
  {
    WithoutHas(l, e);
  }

  /** Eviction takes the oldest idle entries, no more than it must, and is over when what is left fits
      or nothing idle is left.  What clients hold is untouched. */
  lemma {:induction false} EvictedIs(c: Cache) returns (n: nat)
    requires Sound(c)
    ensures n <= |c.idle|
    ensures var e := Evicted(c);
            && Sound(e) && e.idle == c.idle[n..] && e.deleted == c.deleted + c.idle[..n] && e.capacity == c.capacity
            && (Usage(e) <= c.capacity || e.idle == [])
    ensures n > 0 ==> Charge(c.idle[n - 1..]) + Charge(c.used) > c.capacity
    ensures UsedStay(c, Evicted(c))
    decreases |c.idle|
  {
    hide Charge;
    hide Sound;
    if Usage(c) > c.capacity && c.idle != [] {
      OldestIs(c);
      var m := EvictedIs(OldestGone(c));
      n := m + 1;
      assert c.idle[1..][m..] == c.idle[n..];
      assert c.deleted + [c.idle[0]] + c.idle[1..][..m] == c.deleted + c.idle[..n];
      if m > 0 { assert c.idle[1..][m - 1..] == c.idle[n - 1..]; } else { assert c.idle[0..] == c.idle; }
    } else {
      n := 0;
      assert c.deleted + c.idle[..0] == c.deleted && c.idle[0..] == c.idle;
    }
  }

  /** What was evicted is no longer found, everything else is. */
  lemma {:induction false} EvictedLoses(c: Cache, n: nat)
    requires Sound(c) && n <= |c.idle| && Evicted(c).idle == c.idle[n..]
    ensures forall id: Id :: id in Evicted(c).entries <==> id in c.entries && c.entries[id] !in c.idle[..n]
    ensures forall id: Id :: id in Evicted(c).entries ==> Evicted(c).entries[id] == c.entries[id]
    decreases |c.idle|
  {
    hide Charge;
    hide SoundWith;
    if Usage(c) > c.capacity && c.idle != [] {
      var next := OldestGone(c);
      OldestIs(c);
      var m := EvictedIs(next);
      assert |c.idle[n..]| == |next.idle[m..]|;
      assert c.idle[1..][m..] == c.idle[n..];
      EvictedLoses(next, m);
      assert c.idle[..n] == [c.idle[0]] + c.idle[1..][..m];
      OldestLoses(c);
    } else {
      assert |c.idle[n..]| == |c.idle|;
    }
  }

  lemma OldestLoses(c: Cache)
    requires Sound(c) && c.idle != []
    ensures forall id: Id :: id in OldestGone(c).entries <==> id in c.entries && c.entries[id] != c.idle[0]
  {
    OldestIs(c);
    forall id: Id | id in c.entries ensures c.entries[id] == c.idle[0] <==> id == IdOf(c.idle[0]) { }
  }

  /** Eviction goes by age: while an idle handle is still cached it is found, and it goes only after all that have been
      idle longer. */
  lemma EvictedInOrder(c: Cache, i: nat)
    requires Sound(c) && i < |c.idle|
    ensures var id := IdOf(c.idle[i]);
            if c.idle[i] in Evicted(c).idle then id in Evicted(c).entries && Evicted(c).entries[id] == c.idle[i]
            else forall j :: 0 <= j <= i ==> c.idle[j] in Evicted(c).deleted && IdOf(c.idle[j]) !in Evicted(c).entries
  {
    var n := EvictedIs(c);
    EvictedLoses(c, n);
    forall j | 0 <= j < |c.idle|
      ensures IdOf(c.idle[j]) in c.entries && c.entries[IdOf(c.idle[j])] == c.idle[j]
      ensures c.idle[j] in c.idle[..n] <==> j < n
    {
      assert c.idle[j] in c.entries.Values;
      if j < n { assert c.idle[..n][j] == c.idle[j]; }
    }
    if i >= n {
      assert c.idle[n..][i - n] == c.idle[i];
    } else {
      forall j | 0 <= j <= i ensures c.idle[j] in Evicted(c).deleted { assert c.idle[..n][j] == c.idle[j]; }
    }
  }

  /** Given back by its last client, a cached handle is still found, and is the last of the idle ones to go. */
  lemma ReleasedIsNewest(c: Cache, h: LRUHandle)
    requires Sound(c) && h in c.entries.Values && h in c.clients && c.clients[h] == 1
    ensures var r := Released(c, h);
            && r.entries == c.entries && r.deleted == c.deleted && r.capacity == c.capacity && Usage(r) == Usage(c)
            && h !in c.idle && h !in r.used && r.idle == c.idle + [h]
            && (forall x :: x in c.used && x != h ==> x in r.used) && (forall x :: x in r.used ==> x in c.used)
    ensures var e := Evicted(Released(c, h));
            h !in e.idle ==> forall x :: x in c.idle ==> x in e.deleted && IdOf(x) !in e.entries
  {
    hide Charge;
    var r := Released(c, h);
    ReleasedSound(c, h);
    ChargeWithout(c.used, h);
    ChargeAppend(c.idle, h);
    WithoutHas(c.used, h);
    EvictedInOrder(r, |c.idle|);
    assert forall j :: 0 <= j < |c.idle| ==> r.idle[j] == c.idle[j];
  }

  lemma EvictedKeepsUsed(c: Cache)
    requires Sound(c)
    ensures forall id: Id :: id in Evicted(c).entries ==> id in c.entries && Evicted(c).entries[id] == c.entries[id]
    ensures forall id: Id :: id in c.entries && c.entries[id] in c.used ==> id in Evicted(c).entries
  {
    var n := EvictedIs(c);
    EvictedLoses(c, n);
  }

  /** What Insert has made of the cache when it starts to evict. */
  ghost predicate Replaced(c: Cache, h: LRUHandle, before: Cache)
    requires IdOf(h) in c.entries ==> c.entries[IdOf(h)] in Entered(c, h).clients
  {
    && Sound(before) && Inserted(c, h) == Evicted(before) && before.entries == c.entries[IdOf(h) := h]
    && forall x :: x in c.used && (IdOf(h) in c.entries ==> x != c.entries[IdOf(h)]) ==> x in before.used
  }

  lemma InsertedReplaces(c: Cache, h: LRUHandle) returns (before: Cache)
    requires Sound(c) && New(c, h) && c.capacity > 0
    ensures IdOf(h) in c.entries ==> c.entries[IdOf(h)] in Entered(c, h).clients
    ensures Replaced(c, h, before)
  {
    hide Evicted;
    EnteredPends(c, h);
    before := Entered(c, h);
    if IdOf(h) in c.entries {
      var was := c.entries[IdOf(h)];
      DroppedIs(before, was);
      before := Dropped(before, was);
      forall x | x in c.used && x != was ensures x in before.used {
        assert x in Entered(c, h).used;
        StillThere(Entered(c, h).used, was, x);
      }
    }
  }

  /** Besides the new entry an insertion leaves only entries that were there, all of those that clients hold among
      them. */
  lemma InsertedKeeps(c: Cache, h: LRUHandle)
    requires Sound(c) && New(c, h) && c.capacity > 0
    ensures IdOf(h) in c.entries ==> c.entries[IdOf(h)] in Entered(c, h).clients
    ensures forall id: Id :: id in Inserted(c, h).entries && id != IdOf(h) ==>
        id in c.entries && Inserted(c, h).entries[id] == c.entries[id]
    ensures forall id: Id :: id in c.entries && id != IdOf(h) && c.entries[id] in c.used ==>
        id in Inserted(c, h).entries
  {
    hide Inserted;
    hide Evicted;
    var before := InsertedReplaces(c, h);
    EvictedKeepsUsed(before);
    forall id: Id | id in c.entries && id != IdOf(h) && c.entries[id] in c.used ensures id in Evicted(before).entries {
      assert before.entries[id] in before.used;
    }
  }

  lemma {:induction false} PrunedIs(c: Cache)
    requires Sound(c)
    ensures var p := Pruned(c);
            Sound(p) && p.idle == [] && p.used == c.used && p.capacity == c.capacity && p.deleted == c.deleted + c.idle
    decreases |c.idle|
  {
    hide Sound;
    if c.idle != [] {
      OldestIs(c);
      PrunedIs(OldestGone(c));
      assert c.deleted + [c.idle[0]] + c.idle[1..] == c.deleted + c.idle;
    } else {
      assert c.deleted + [] == c.deleted;
    }
  }

  // ------------------------------------------------------------------- both rings at once

  ghost predicate Rings(nexts: Pointers, prevs: Pointers, lru: LRUHandle, inUse: LRUHandle, idle: seq<LRUHandle>,
                        used: seq<LRUHandle>)
  {
    && lru != inUse && lru !in used && inUse !in idle
    && (forall h :: h in idle ==> h !in used)
    && Ring(nexts, prevs, lru, idle) && Ring(nexts, prevs, inUse, used)
  }

  ghost predicate OnRings(lru: LRUHandle, inUse: LRUHandle, idle: seq<LRUHandle>, used: seq<LRUHandle>, h: LRUHandle) {
    h == lru || h == inUse || h in idle || h in used
  }

  lemma RemoveFromRings(nexts: Pointers, prevs: Pointers, lru: LRUHandle, inUse: LRUHandle, idle: seq<LRUHandle>,
                        used: seq<LRUHandle>, e: LRUHandle)
    requires Rings(nexts, prevs, lru, inUse, idle, used) && (e in idle || e in used)
    ensures e in nexts && e in prevs && nexts[e] != null && prevs[e] != null
    ensures nexts[e] in prevs && prevs[e] in nexts
    ensures Rings(nexts[prevs[e] := nexts[e]], prevs[nexts[e] := prevs[e]], lru, inUse, Without(idle, e),
        Without(used, e))
  {
    if e in idle {
      RingRemove(nexts, prevs, lru, idle, e);
      NotWithout(used, e);
      RingFrame(nexts, prevs, nexts[prevs[e] := nexts[e]], prevs[nexts[e] := prevs[e]], inUse, used) by {
        RingMembers(nexts, prevs, inUse, used);
      }
    } else {
      RingRemove(nexts, prevs, inUse, used, e);
      NotWithout(idle, e);
      RingFrame(nexts, prevs, nexts[prevs[e] := nexts[e]], prevs[nexts[e] := prevs[e]], lru, idle) by {
        RingMembers(nexts, prevs, lru, idle);
      }
    }
    RingsWithout(idle, used, e);
  }

  lemma RingsWithout(idle: seq<LRUHandle>, used: seq<LRUHandle>, e: LRUHandle)
    requires NoRepeats(idle) && NoRepeats(used)
    ensures forall h :: h in Without(idle, e) ==> h in idle
    ensures forall h :: h in Without(used, e) ==> h in used
  {
    WithoutHas(idle, e);
    WithoutHas(used, e);
  }

  /** LRU_Append on either ring. */
  lemma AppendToRings(nexts: Pointers, prevs: Pointers, lru: LRUHandle, inUse: LRUHandle, idle: seq<LRUHandle>,
                      used: seq<LRUHandle>, e: LRUHandle, toIdle: bool)
    requires Rings(nexts, prevs, lru, inUse, idle, used) && !OnRings(lru, inUse, idle, used, e)
    ensures var list := if toIdle then lru else inUse;
            && list in prevs && prevs[list] != null && prevs[list] in nexts && prevs[list] != e
            && Rings(nexts[e := list][prevs[list] := e], prevs[e := prevs[list]][list := e], lru, inUse,
                     if toIdle then idle + [e] else idle, if toIdle then used else used + [e])
  {
    var list, l := if toIdle then lru else inUse, if toIdle then idle else used;
    RingAppend(nexts, prevs, list, l, e);
    var last := prevs[list];
    var other, o := if toIdle then inUse else lru, if toIdle then used else idle;
    RingFrame(nexts, prevs, nexts[e := list][last := e], prevs[e := last][list := e], other, o) by {
      RingMembers(nexts, prevs, other, o);
    }
  }
}
