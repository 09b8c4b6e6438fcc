/** The methods of LRUCache (util/cache.cc), each against what it does to the bounded map. */
module Caches {
  import opened Coding
  import opened HandleTables
  import opened LruCaches

  ghost function Refs(handles: set<LRUHandle>): map<LRUHandle, nat>
    reads handles`refs
  {
    map h | h in handles :: h.refs
  }

  ghost function InCaches(handles: set<LRUHandle>): map<LRUHandle, bool>
    reads handles`inCache
  {
    map h | h in handles :: h.inCache
  }

  /** refs counts the clients' references and the cache's own. */
  ghost predicate Counted(c: Cache, cached: set<LRUHandle>, refs: map<LRUHandle, nat>, inCache: map<LRUHandle, bool>) {
    forall h :: h in c.clients ==>
      && h in refs && refs[h] == c.clients[h] + (if h in cached then 1 else 0)
      && h in inCache && inCache[h] == (h in cached)
  }

  /** Every handle ever made is a ring's head, alive, or was given to its deleter. */
  ghost predicate Housed(c: Cache, handles: set<LRUHandle>, lru: LRUHandle, inUse: LRUHandle) {
    && lru in handles && inUse in handles && lru != inUse
    && (forall h :: h in c.clients ==> h in handles && h != lru && h != inUse)
    && (forall h :: h in c.deleted ==> h in handles && h != lru && h != inUse)
    && forall h :: h in handles ==> h == lru || h == inUse || h in c.clients || h in c.deleted
  }

  /** The cache's memory stands for the value c, where the cache holds a reference to the handles in cached. */
  ghost predicate Stands(c: Cache, cached: set<LRUHandle>, handles: set<LRUHandle>, lru: LRUHandle, inUse: LRUHandle,
                         nexts: Pointers, prevs: Pointers, refs: map<LRUHandle, nat>, inCache: map<LRUHandle, bool>,
                         usage: nat)
  {
    && SoundWith(c, cached) && Housed(c, handles, lru, inUse)
    && Rings(nexts, prevs, lru, inUse, c.idle, c.used)
    && Counted(c, cached, refs, inCache)
    && usage == Usage(c)
  }

  lemma OtherCapacity(c: Cache, n: nat, cached: set<LRUHandle>, handles: set<LRUHandle>, lru: LRUHandle,
                      inUse: LRUHandle, nexts: Pointers, prevs: Pointers, refs: map<LRUHandle, nat>,
                      inCache: map<LRUHandle, bool>, usage: nat)
    requires Stands(c, cached, handles, lru, inUse, nexts, prevs, refs, inCache, usage)
    ensures Stands(c.(capacity := n), cached, handles, lru, inUse, nexts, prevs, refs, inCache, usage)
  {
  }

  lemma NothingCached(handles: set<LRUHandle>, lru: LRUHandle, inUse: LRUHandle, nexts: Pointers, prevs: Pointers,
                      refs: map<LRUHandle, nat>, inCache: map<LRUHandle, bool>)
    requires lru != inUse && handles == {lru, inUse}
    requires Joined(nexts, prevs, lru, lru) && Joined(nexts, prevs, inUse, inUse)
    ensures Stands(Cache(0, map[], [], [], map[], []), {}, handles, lru, inUse, nexts, prevs, refs, inCache, 0)
  {
  }

  // --------------------------------------------------- what a step does to the counts

  lemma IdleIff(c: Cache, cached: set<LRUHandle>, handles: set<LRUHandle>, lru: LRUHandle, inUse: LRUHandle,
                nexts: Pointers, prevs: Pointers, refs: map<LRUHandle, nat>, inCache: map<LRUHandle, bool>, usage: nat,
                e: LRUHandle)
    requires Stands(c, cached, handles, lru, inUse, nexts, prevs, refs, inCache, usage)
        && (e in c.clients || e in cached)
    ensures e in c.clients && e in handles && e in refs && e in inCache
    ensures refs[e] == c.clients[e] + (if e in cached then 1 else 0) && inCache[e] == (e in cached)
    ensures refs[e] == 1 && inCache[e] <==> e in c.idle
    ensures e in c.idle ==> e !in c.used
    ensures e != lru && e != inUse && lru != inUse && NoRepeats(c.idle) && NoRepeats(c.used)
    ensures e in cached <==> e in c.idle || e in c.used
    ensures Rings(nexts, prevs, lru, inUse, c.idle, c.used)
  {
  }

  lemma ReferencedStands(c: Cache, handles: set<LRUHandle>, lru: LRUHandle, inUse: LRUHandle, nexts: Pointers,
                         prevs: Pointers, refs: map<LRUHandle, nat>, inCache: map<LRUHandle, bool>, usage: nat,
                         nexts': Pointers, prevs': Pointers, e: LRUHandle)
    requires Stands(c, c.entries.Values, handles, lru, inUse, nexts, prevs, refs, inCache, usage)
        && e in c.entries.Values && e in c.clients && e in refs
    requires Rings(nexts', prevs', lru, inUse, Referenced(c, e).idle, Referenced(c, e).used)
    ensures Stands(Referenced(c, e), c.entries.Values, handles, lru, inUse, nexts', prevs', refs[e := refs[e] + 1],
        inCache, usage)
  {
    hide SoundWith;
    hide Counted;
    hide Housed;
    hide Rings;
    hide Usage;
    ReferencedSound(c, e);
    ReferencedCounts(c, handles, lru, inUse, refs, inCache, e);
    ReferencedUsage(c, e);
  }

  lemma ReferencedCounts(c: Cache, handles: set<LRUHandle>, lru: LRUHandle, inUse: LRUHandle, refs: map<LRUHandle, nat>,
                         inCache: map<LRUHandle, bool>, e: LRUHandle)
    requires Counted(c, c.entries.Values, refs, inCache) && Housed(c, handles, lru, inUse) && e in c.clients
        && e in refs
    ensures Counted(Referenced(c, e), c.entries.Values, refs[e := refs[e] + 1], inCache)
        && Housed(Referenced(c, e), handles, lru, inUse)
  {
  }

  lemma ReferencedUsage(c: Cache, e: LRUHandle)
    requires e in c.clients
    ensures Usage(Referenced(c, e)) == Usage(c)
  {
    ChargeWithout(c.idle, e);
    ChargeAppend(c.used, e);
  }

  lemma ReleasedCounted(c: Cache, refs: map<LRUHandle, nat>, inCache: map<LRUHandle, bool>, e: LRUHandle)
    requires Sound(c) && Counted(c, c.entries.Values, refs, inCache)
    requires e in c.clients && c.clients[e] > 0 && e in refs && refs[e] > 0
    ensures Counted(Released(c, e), c.entries.Values, refs[e := refs[e] - 1], inCache)
  {
  }

  lemma ReleasedHoused(c: Cache, handles: set<LRUHandle>, lru: LRUHandle, inUse: LRUHandle, e: LRUHandle)
    requires Housed(c, handles, lru, inUse) && e in c.clients && c.clients[e] > 0
    ensures Housed(Released(c, e), handles, lru, inUse)
  {
  }

  lemma ReleasedUsage(c: Cache, e: LRUHandle)
    requires Sound(c) && e in c.clients && c.clients[e] > 0
    ensures Usage(Released(c, e)) == Usage(c)
  {
    ChargeWithout(c.used, e);
    ChargeAppend(c.idle, e);
  }

  lemma ReleasedStands(c: Cache, handles: set<LRUHandle>, lru: LRUHandle, inUse: LRUHandle, nexts: Pointers,
                       prevs: Pointers, refs: map<LRUHandle, nat>, inCache: map<LRUHandle, bool>, usage: nat,
                       nexts': Pointers, prevs': Pointers, e: LRUHandle)
    requires Stands(c, c.entries.Values, handles, lru, inUse, nexts, prevs, refs, inCache, usage)
    requires e in c.clients && c.clients[e] > 0 && e in refs && refs[e] > 0
    requires Rings(nexts', prevs', lru, inUse, Released(c, e).idle, Released(c, e).used)
    ensures Stands(Released(c, e), c.entries.Values, handles, lru, inUse, nexts', prevs', refs[e := refs[e] - 1],
        inCache, usage)
  {
    hide SoundWith;
    hide Counted;
    hide Housed;
    hide Rings;
    hide Usage;
    ReleasedSound(c, e);
    ReleasedCounted(c, refs, inCache, e);
    ReleasedHoused(c, handles, lru, inUse, e);
    ReleasedUsage(c, e);
  }

  lemma OrphanedStands(c: Cache, handles: set<LRUHandle>, lru: LRUHandle, inUse: LRUHandle, nexts: Pointers,
                       prevs: Pointers, refs: map<LRUHandle, nat>, inCache: map<LRUHandle, bool>, usage: nat,
                       nexts': Pointers, prevs': Pointers, e: LRUHandle)
    requires Stands(c, c.entries.Values + {e}, handles, lru, inUse, nexts, prevs, refs, inCache, usage)
    requires e !in c.entries.Values && e in c.clients
    requires Rings(nexts', prevs', lru, inUse, Orphaned(c, e).idle, Orphaned(c, e).used)
    ensures usage >= e.charge
    ensures Stands(Orphaned(c, e), c.entries.Values, handles, lru, inUse, nexts', prevs', refs, inCache[e := false],
        usage - e.charge)
  {
    hide SoundWith;
    hide Counted;
    hide Housed;
    hide Rings;
    hide Usage;
    OrphanedSound(c, e);
    OrphanedCounts(c, handles, lru, inUse, refs, inCache, e);
    OrphanedUsage(c, e);
  }

  lemma OrphanedCounts(c: Cache, handles: set<LRUHandle>, lru: LRUHandle, inUse: LRUHandle, refs: map<LRUHandle, nat>,
                       inCache: map<LRUHandle, bool>, e: LRUHandle)
    requires Counted(c, c.entries.Values + {e}, refs, inCache) && Housed(c, handles, lru, inUse)
        && e !in c.entries.Values && e in c.clients
    ensures Counted(Orphaned(c, e), c.entries.Values, refs, inCache[e := false])
        && Housed(Orphaned(c, e), handles, lru, inUse)
  {
  }

  lemma OrphanedUsage(c: Cache, e: LRUHandle)
    requires SoundWith(c, c.entries.Values + {e}) && e in c.clients
    ensures Usage(Orphaned(c, e)) + e.charge == Usage(c)
  {
    ChargeWithout(c.used, e);
    ChargeWithout(c.idle, e);
    assert e in c.entries.Values + {e};
  }

  lemma StandsSound(c: Cache, cached: set<LRUHandle>, handles: set<LRUHandle>, lru: LRUHandle, inUse: LRUHandle,
                    nexts: Pointers, prevs: Pointers, refs: map<LRUHandle, nat>, inCache: map<LRUHandle, bool>,
                    usage: nat)
    requires Stands(c, cached, handles, lru, inUse, nexts, prevs, refs, inCache, usage)
    ensures SoundWith(c, cached) && usage == Usage(c)
  {
  }

  lemma RemovedStands(c: Cache, id: Id, handles: set<LRUHandle>, lru: LRUHandle, inUse: LRUHandle, nexts: Pointers,
                      prevs: Pointers, refs: map<LRUHandle, nat>, inCache: map<LRUHandle, bool>, usage: nat)
    requires Stands(c, c.entries.Values, handles, lru, inUse, nexts, prevs, refs, inCache, usage) && id in c.entries
    ensures var h, c' := c.entries[id], c.(entries := c.entries - {id});
            h in c.clients && h !in c'.entries.Values
                && Stands(c', c'.entries.Values + {h}, handles, lru, inUse, nexts, prevs, refs, inCache, usage)
  {
    hide Rings;
    RemovedPends(c, id);
    assert c.entries.Values == (c.entries - {id}).Values + {c.entries[id]} by {
      forall x ensures x in c.entries.Values <==> x in (c.entries - {id}).Values + {c.entries[id]} {
        ValueGone(c.entries, id, x);
      }
    }
  }

  ghost predicate Extends<T>(m: map<LRUHandle, T>, m': map<LRUHandle, T>) {
    forall h :: h in m ==> h in m' && m'[h] == m[h]
  }

  lemma RingsExtend(nexts: Pointers, prevs: Pointers, nexts': Pointers, prevs': Pointers, lru: LRUHandle,
                    inUse: LRUHandle, idle: seq<LRUHandle>, used: seq<LRUHandle>)
    requires Rings(nexts, prevs, lru, inUse, idle, used) && Extends(nexts, nexts') && Extends(prevs, prevs')
    ensures Rings(nexts', prevs', lru, inUse, idle, used)
  {
    RingMembers(nexts, prevs, lru, idle);
    RingMembers(nexts, prevs, inUse, used);
    RingFrame(nexts, prevs, nexts', prevs', lru, idle);
    RingFrame(nexts, prevs, nexts', prevs', inUse, used);
  }

  lemma NewClientCounts(c: Cache, handles: set<LRUHandle>, lru: LRUHandle, inUse: LRUHandle, refs: map<LRUHandle, nat>,
                        inCache: map<LRUHandle, bool>, e: LRUHandle, refs': map<LRUHandle, nat>,
                        inCache': map<LRUHandle, bool>)
    requires Sound(c) && Housed(c, handles, lru, inUse) && Counted(c, c.entries.Values, refs, inCache) && e !in handles
    requires Extends(refs, refs') && Extends(inCache, inCache') && e in refs' && refs'[e] == 1 && e in inCache'
        && !inCache'[e]
    ensures New(c, e)
    ensures var c' := c.(clients := c.clients[e := 1]);
            Sound(c') && Housed(c', handles + {e}, lru, inUse) && Counted(c', c.entries.Values, refs', inCache')
                && Usage(c') == Usage(c)
  {
  }

  /** A new handle with one client, in no ring. */
  lemma NewClientStands(c: Cache, handles: set<LRUHandle>, lru: LRUHandle, inUse: LRUHandle, nexts: Pointers,
                        prevs: Pointers, refs: map<LRUHandle, nat>, inCache: map<LRUHandle, bool>, usage: nat,
                        e: LRUHandle, nexts': Pointers, prevs': Pointers, refs': map<LRUHandle, nat>,
                        inCache': map<LRUHandle, bool>)
    requires Stands(c, c.entries.Values, handles, lru, inUse, nexts, prevs, refs, inCache, usage) && e !in handles
    requires Extends(nexts, nexts') && Extends(prevs, prevs') && Extends(refs, refs') && Extends(inCache, inCache')
    requires e in refs' && refs'[e] == 1 && e in inCache' && !inCache'[e]
    ensures New(c, e)
    ensures Stands(c.(clients := c.clients[e := 1]), c.entries.Values, handles + {e}, lru, inUse, nexts', prevs', refs',
        inCache', usage)
  {
    hide Extends;
    hide Rings;
    hide Counted;
    hide Housed;
    hide Usage;
    hide SoundWith;
    RingsExtend(nexts, prevs, nexts', prevs', lru, inUse, c.idle, c.used);
    NewClientCounts(c, handles, lru, inUse, refs, inCache, e, refs', inCache');
  }

  /** The state Insert reaches before the replaced handle leaves. */
  lemma EnteredCounts(c: Cache, handles: set<LRUHandle>, lru: LRUHandle, inUse: LRUHandle, refs: map<LRUHandle, nat>,
                      inCache: map<LRUHandle, bool>, e: LRUHandle)
    requires Sound(c) && New(c, e)
    requires var c1 := c.(clients := c.clients[e := 1]);
        Housed(c1, handles, lru, inUse) && Counted(c1, c.entries.Values, refs, inCache)
    ensures e !in c.entries.Values
    ensures Housed(Entered(c, e), handles, lru, inUse)
        && Counted(Entered(c, e), c.entries.Values + {e}, refs[e := 2], inCache[e := true])
    ensures Usage(Entered(c, e)) == Usage(c) + e.charge
  {
    ChargeAppend(c.used, e);
  }

  /** The handles cached once e is entered, the one it replaces among them. */
  ghost function Joint(c: Cache, e: LRUHandle): set<LRUHandle> { c.entries.Values + {e} }

  lemma EnteredStands(c: Cache, handles: set<LRUHandle>, lru: LRUHandle, inUse: LRUHandle, nexts: Pointers,
                      prevs: Pointers, refs: map<LRUHandle, nat>, inCache: map<LRUHandle, bool>, usage: nat,
                      nexts': Pointers, prevs': Pointers, e: LRUHandle)
    requires Sound(c) && New(c, e) && Stands(c.(clients := c.clients[e := 1]), c.entries.Values, handles, lru, inUse,
        nexts, prevs, refs, inCache, usage)
    requires Rings(nexts', prevs', lru, inUse, c.idle, c.used + [e])
    ensures var c' := Entered(c, e);
            Stands(c', Joint(c, e), handles, lru, inUse, nexts', prevs', refs[e := 2], inCache[e := true],
                usage + e.charge)
  {
    hide Rings;
    hide Counted;
    hide Housed;
    hide SoundWith;
    EnteredCounts(c, handles, lru, inUse, refs, inCache, e);
    CachedAfterEntering(c, e);
  }

  lemma NotOnRings(c: Cache, handles: set<LRUHandle>, lru: LRUHandle, inUse: LRUHandle, nexts: Pointers,
                   prevs: Pointers, refs: map<LRUHandle, nat>, inCache: map<LRUHandle, bool>, usage: nat, e: LRUHandle)
    requires Sound(c) && New(c, e) && Stands(c.(clients := c.clients[e := 1]), c.entries.Values, handles, lru, inUse,
        nexts, prevs, refs, inCache, usage)
    ensures !OnRings(lru, inUse, c.idle, c.used, e) && e !in c.entries.Values && lru != inUse
        && Rings(nexts, prevs, lru, inUse, c.idle, c.used)
  {
  }

  class LRUCache {
    var capacity: nat
    var usage: nat
    const lru: LRUHandle      // the ring of idle handles: next is the oldest, prev the newest
    const inUse: LRUHandle    // the ring of handles in use
    const table: HandleTable
    var deletions: seq<LRUHandle>  // the calls of deleters, in order
    ghost var value: Cache
    ghost var handles: set<LRUHandle>

    ghost predicate Core(cached: set<LRUHandle>)
      reads this, handles
    {
      Stands(value, cached, handles, lru, inUse, Nexts(handles), Prevs(handles), Refs(handles), InCaches(handles),
          usage)
      && capacity == value.capacity && deletions == value.deleted
    }

    ghost predicate Valid()
      reads this, handles, table, table.list, table.entries.Values`nextHash
    {
      && Core(table.entries.Values) && value.entries == table.entries && table.Valid()
    }

    /** Valid, except that a handle the table no longer knows may still be on a ring. */
    ghost predicate Pending(was: LRUHandle?)
      reads this, handles, table, table.list, table.entries.Values`nextHash
    {
      && table.Valid() && value.entries == table.entries
      && if was == null then Core(table.entries.Values)
         else Core(table.entries.Values + {was}) && was !in table.entries.Values && was in value.clients
    }

    constructor ()
      ensures Valid() && value == Cache(0, map[], [], [], map[], [])
    {
      hide HandleTable.Valid;
      lru := new LRUHandle([], 0, 0, 0);
      inUse := new LRUHandle([], 0, 0, 0);
      table := new HandleTable();
      capacity, usage, deletions := 0, 0, [];
      value := Cache(0, map[], [], [], map[], []);
      handles := {};
      new;
      MakeRings();
    }

    /** Empty circular lists. */
    method MakeRings()
      requires lru != inUse && value == Cache(0, map[], [], [], map[], []) && capacity == usage == 0 && deletions == []
      requires table.Valid() && table.entries == map[]
      modifies this`handles, lru`next, lru`prev, inUse`next, inUse`prev
      ensures Valid() && value == old(value)
    {
      hide Stands;
      hide Rings;
      hide HandleTable.Valid;
      handles := {lru, inUse};
      lru.next, lru.prev := lru, lru;
      inUse.next, inUse.prev := inUse, inUse;
      NothingCached(handles, lru, inUse, Nexts(handles), Prevs(handles), Refs(handles), InCaches(handles));
      assert table.entries.Values == {};
    }

    method SetCapacity(capacity: nat)
      requires Valid()
      modifies this`capacity, this`value
      ensures Valid() && value == old(value).(capacity := capacity)
    {
      hide Stands;
      hide Rings;
      hide HandleTable.Valid;
      OtherCapacity(value, capacity, table.entries.Values, handles, lru, inUse, Nexts(handles), Prevs(handles),
          Refs(handles), InCaches(handles), usage);
      this.capacity := capacity;
      value := value.(capacity := capacity);
    }

    method LRU_Remove(e: LRUHandle, ghost idle: seq<LRUHandle>, ghost used: seq<LRUHandle>)
      requires Rings(Nexts(handles), Prevs(handles), lru, inUse, idle, used) && (e in idle || e in used)
      modifies handles`next, handles`prev
      ensures Rings(Nexts(handles), Prevs(handles), lru, inUse, LruCaches.Without(idle, e), LruCaches.Without(used, e))
    {
      hide Rings;
      ghost var nexts, prevs := Nexts(handles), Prevs(handles);
      RemoveFromRings(nexts, prevs, lru, inUse, idle, used, e);
      e.next.prev := e.prev;
      e.prev.next := e.next;
      assert Nexts(handles) == nexts[prevs[e] := nexts[e]];
      assert Prevs(handles) == prevs[nexts[e] := prevs[e]];
    }

    method LRU_Append(list: LRUHandle, e: LRUHandle, ghost idle: seq<LRUHandle>, ghost used: seq<LRUHandle>)
      requires Rings(Nexts(handles), Prevs(handles), lru, inUse, idle, used)
      requires e in handles && !OnRings(lru, inUse, idle, used, e) && (list == lru || list == inUse)
      modifies handles`next, handles`prev
      ensures Rings(Nexts(handles), Prevs(handles), lru, inUse, if list == lru then idle + [e] else idle,
          if list == lru then used else used + [e])
    {
      ghost var nexts, prevs := Nexts(handles), Prevs(handles);
      AppendToRings(nexts, prevs, lru, inUse, idle, used, e, list == lru);
      hide Rings;
      ghost var last: LRUHandle := list.prev;
      e.next := list;
      e.prev := list.prev;
      e.prev.next := e;
      e.next.prev := e;
      ghost var nexts': Pointers := nexts[e := list];
      nexts' := nexts'[last := e];
      ghost var prevs': Pointers := prevs[e := last];
      prevs' := prevs'[list := e];
      assert Nexts(handles) == nexts' && Prevs(handles) == prevs';
    }

    /** On the ring of idle handles: move to the ring of handles in use. */
    method ToUse(e: LRUHandle)
      requires Valid() && e in table.entries.Values
      modifies handles`next, handles`prev
      ensures Rings(Nexts(handles), Prevs(handles), lru, inUse, LruCaches.Without(value.idle, e),
          if e in value.idle then value.used + [e] else value.used)
    {
      hide Stands;
      hide Rings;
      hide HandleTable.Valid;
      IdleIff(value, table.entries.Values, handles, lru, inUse, Nexts(handles), Prevs(handles), Refs(handles),
          InCaches(handles), usage, e);
      if e.refs == 1 && e.inCache {
        LRU_Remove(e, value.idle, value.used);
        NotWithout(value.used, e);
        WithoutLacks(value.idle, e);
        LRU_Append(inUse, e, LruCaches.Without(value.idle, e), value.used);
      } else {
        NotWithout(value.idle, e);
      }
    }

    /** A client gets hold of a cached handle. */
    method Ref(e: LRUHandle)
      requires Valid() && e in table.entries.Values
      modifies this`value, handles`next, handles`prev, handles`refs
      ensures e in old(value).clients && Valid() && value == Referenced(old(value), e)
    {
      hide Housed;
      hide Without;
      hide Stands;
      hide Rings;
      hide HandleTable.Valid;
      hide Refs;
      hide InCaches;
      hide Nexts;
      hide Prevs;
      ghost var nexts, prevs, refs := Nexts(handles), Prevs(handles), Refs(handles);
      IdleIff(value, table.entries.Values, handles, lru, inUse, nexts, prevs, refs, InCaches(handles), usage, e);
      ToUse(e);
      ReferencedStands(value, handles, lru, inUse, nexts, prevs, refs, InCaches(handles), usage, Nexts(handles),
          Prevs(handles), e);
      AddRef(e);
      value := Referenced(value, e);
    }

    /** A client gives a reference back. */
    method Unref(e: LRUHandle)
      requires Valid() && e in value.clients && value.clients[e] > 0
      modifies this`value, this`deletions, handles`next, handles`prev, handles`refs
      ensures Valid() && value == Released(old(value), e)
      ensures deletions == value.deleted
    {
      hide NoRepeats;
      hide SoundWith;
      hide Usage;
      hide Stands;
      hide Rings;
      hide HandleTable.Valid;
      hide Refs;
      hide InCaches;
      hide Nexts;
      hide Prevs;
      ghost var nexts, prevs, refs := Nexts(handles), Prevs(handles), Refs(handles);
      IdleIff(value, table.entries.Values, handles, lru, inUse, nexts, prevs, refs, InCaches(handles), usage, e);
      FieldsOf(e);
      TakeRef(e);
      FieldsOf(e);
      ToIdle(e);
      ReleasedStands(value, handles, lru, inUse, nexts, prevs, refs, InCaches(handles), usage, Nexts(handles),
          Prevs(handles), e);
      value := Released(value, e);
    }

    lemma FieldsOf(e: LRUHandle)
      requires e in handles
      ensures e in Refs(handles) && Refs(handles)[e] == e.refs && e in InCaches(handles)
          && InCaches(handles)[e] == e.inCache
    {
    }

    method TakeRef(e: LRUHandle)
      requires e in handles && e in Refs(handles) && Refs(handles)[e] > 0
      modifies e`refs
      ensures Refs(handles) == old(Refs(handles))[e := old(Refs(handles))[e] - 1]
    {
      e.refs := e.refs - 1;
    }

    /** After a reference is gone: nothing is left of e, or e is idle, or e is still in use. */
    method ToIdle(e: LRUHandle)
      requires e in handles && e in value.clients && value.clients[e] > 0 && NoRepeats(value.used) && e !in value.idle
          && e != lru && e != inUse
      requires Rings(Nexts(handles), Prevs(handles), lru, inUse, value.idle, value.used)
      requires e.inCache == (e in value.entries.Values) && e.refs == value.clients[e] - 1 + (if e.inCache then 1 else 0)
      requires e.inCache ==> e in value.used
      requires deletions == value.deleted
      modifies this`deletions, handles`next, handles`prev
      ensures Rings(Nexts(handles), Prevs(handles), lru, inUse, Released(value, e).idle, Released(value, e).used)
      ensures deletions == Released(value, e).deleted
    {
      hide Rings;
      if e.refs == 0 {
        // the deleter is called and the handle freed
        deletions := deletions + [e];
      } else if e.inCache && e.refs == 1 {
        // no longer in use
        LRU_Remove(e, value.idle, value.used);
        NotWithout(value.idle, e);
        WithoutLacks(value.used, e);
        LRU_Append(lru, e, value.idle, LruCaches.Without(value.used, e));
      }
    }

    /** The handle, already out of the table, leaves its ring; the cache's reference is still counted. */
    method Orphan(e: LRUHandle)
      requires Pending(e)
      modifies this`value, this`usage, handles`next, handles`prev, handles`inCache
      ensures Valid() && e in old(value).clients && value == Orphaned(old(value), e)
    {
      hide Without;
      hide Stands;
      hide Rings;
      hide HandleTable.Valid;
      hide Refs;
      hide InCaches;
      hide Nexts;
      hide Prevs;
      ghost var nexts, prevs, refs, ins := Nexts(handles), Prevs(handles), Refs(handles), InCaches(handles);
      IdleIff(value, table.entries.Values + {e}, handles, lru, inUse, nexts, prevs, refs, ins, usage, e);
      LRU_Remove(e, value.idle, value.used);
      LeaveCache(e);
      OrphanedStands(value, handles, lru, inUse, nexts, prevs, refs, ins, usage, Nexts(handles), Prevs(handles), e);
      usage := usage - e.charge;
      value := Orphaned(value, e);
    }

    /** The handle, already out of the table, leaves the cache. */
    method FinishErase(e: LRUHandle?) returns (erased: bool)
      requires Pending(e)
      modifies this`value, this`deletions, this`usage, handles`next, handles`prev, handles`refs, handles`inCache
      ensures Valid() && erased == (e != null)
      ensures value == if e == null then old(value) else Dropped(old(value), e)
    {
      hide Stands;
      hide HandleTable.Valid;
      if e != null {
        StandsSound(value, table.entries.Values + {e}, handles, lru, inUse, Nexts(handles), Prevs(handles),
            Refs(handles), InCaches(handles), usage);
        DroppedIs(value, e);
        Orphan(e);
        Unref(e);
      }
      erased := e != null;
    }

    method LeaveCache(e: LRUHandle)
      requires e in handles
      modifies e`inCache
      ensures InCaches(handles) == old(InCaches(handles))[e := false]
    {
      e.inCache := false;
    }

    method Lookup(key: seq<Byte>, hash: nat) returns (e: LRUHandle?)
      requires Valid()
      modifies this`value, handles`next, handles`prev, handles`refs
      ensures Valid()
      ensures var id := Id(hash, key);
              if id in old(value).entries
              then e == old(value).entries[id] && e in old(value).clients && value == Referenced(old(value), e)
              else e == null && value == old(value)
    {
      e := table.Lookup(key, hash);
      hide Stands;
      hide HandleTable.Valid;
      if e != null {
        Ref(e);
      }
    }

    method Release(handle: LRUHandle)
      requires Valid() && handle in value.clients && value.clients[handle] > 0
      modifies this`value, this`deletions, handles`next, handles`prev, handles`refs
      ensures Valid() && value == Released(old(value), handle)
      ensures deletions == value.deleted
    {
      Unref(handle);
    }

    /** table_.Remove: what is left is a handle on a ring that the table no longer knows. */
    method TakeOut(key: seq<Byte>, hash: nat) returns (e: LRUHandle?)
      requires Valid()
      modifies this`value, table, table.list, table.entries.Values`nextHash
      ensures Pending(e) && value == old(value).(entries := old(value).entries - {Id(hash, key)})
      ensures table.list == old(table.list)
      ensures e == if Id(hash, key) in old(value).entries then old(value).entries[Id(hash, key)] else null
      ensures e == null ==> value == old(value)
    {
      hide Stands;
      hide HandleTable.Valid;
      hide Refs;
      hide InCaches;
      hide Nexts;
      hide Prevs;
      ghost var id := Id(hash, key);
      if id in value.entries {
        RemovedStands(value, id, handles, lru, inUse, Nexts(handles), Prevs(handles), Refs(handles), InCaches(handles),
            usage);
      } else {
        assert value.entries - {id} == value.entries;
      }
      e := table.Remove(key, hash);
      value := value.(entries := table.entries);
    }

    method Erase(key: seq<Byte>, hash: nat)
      requires Valid()
      modifies this`value, this`deletions, this`usage, handles`next, handles`prev, handles`refs, handles`inCache
      modifies table, table.list, table.entries.Values`nextHash
      ensures Id(hash, key) in old(value).entries ==> old(value).entries[Id(hash, key)] in old(value).clients
      ensures Valid() && value == Erased(old(value), Id(hash, key)) && table.list == old(table.list)
      ensures deletions == value.deleted
    {
      hide Stands;
      hide HandleTable.Valid;
      hide Refs;
      hide InCaches;
      hide Nexts;
      hide Prevs;
      var e := TakeOut(key, hash);
      var erased := FinishErase(e);
    }

    method Adopt(e: LRUHandle)
      requires Valid() && e !in handles && e.refs == 1 && !e.inCache
      modifies this`handles, this`value
      ensures Valid() && handles == old(handles) + {e} && New(old(value), e)
          && value == old(value).(clients := old(value).clients[e := 1])
    {
      hide Stands;
      hide HandleTable.Valid;
      hide Extends;
      hide Refs;
      hide InCaches;
      hide Nexts;
      hide Prevs;
      ghost var all := handles + {e};
      SnapshotsGrow(handles, e);
      NewClientStands(value, handles, lru, inUse, Nexts(handles), Prevs(handles), Refs(handles), InCaches(handles),
          usage, e,
                      Nexts(all), Prevs(all), Refs(all), InCaches(all));
      handles, value := all, value.(clients := value.clients[e := 1]);
    }

    /** Insert with room: one more reference, for the cache; newest in the ring of handles in use. */
    method Link(e: LRUHandle, ghost c: Cache)
      requires Valid() && e in handles && Sound(c) && New(c, e) && value == c.(clients := c.clients[e := 1])
      modifies this`value, this`usage, handles`next, handles`prev, handles`refs, handles`inCache
      ensures value == Entered(c, e) && Core(Joint(c, e)) && table.Valid()
    {
      hide New;
      hide Joint;
      hide IdOf;
      hide Ring;
      hide NoRepeats;
      hide Stands;
      hide HandleTable.Valid;
      hide Refs;
      hide InCaches;
      hide Nexts;
      hide Prevs;
      hide Rings;
      hide SoundWith;
      hide OnRings;
      ghost var nexts, prevs, refs, ins := Nexts(handles), Prevs(handles), Refs(handles), InCaches(handles);
      NotOnRings(c, handles, lru, inUse, nexts, prevs, refs, ins, usage, e);
      SetRefs(e, 2);
      JoinCache(e);
      LRU_Append(inUse, e, value.idle, value.used);
      EnteredStands(c, handles, lru, inUse, nexts, prevs, refs, ins, usage, Nexts(handles), Prevs(handles), e);
      usage := usage + e.charge;
      value := Entered(c, e);
    }

    /** The table takes the handle, and gives back the one it replaces. */
    method Enter(e: LRUHandle, ghost c: Cache) returns (was: LRUHandle?)
      requires table.Valid() && Sound(c) && New(c, e) && table.entries == c.entries && table.entries.Values <= handles
          && e in handles
      requires value == Entered(c, e) && Core(Joint(c, e))
      modifies table, table.list, handles`nextHash
      ensures Pending(was) && (table.list == old(table.list) || fresh(table.list))
      ensures was == if IdOf(e) in c.entries then c.entries[IdOf(e)] else null
    {
      hide Stands;
      hide HandleTable.Valid;
      hide Refs;
      hide InCaches;
      hide Nexts;
      hide Prevs;
      hide SoundWith;
      CachedAfterEntering(c, e);
      EnteredPends(c, e);
      was := table.Insert(e);
    }

    method SetRefs(e: LRUHandle, n: nat)
      requires e in handles
      modifies e`refs
      ensures Refs(handles) == old(Refs(handles))[e := n]
    {
      e.refs := n;
    }

    method JoinCache(e: LRUHandle)
      requires e in handles
      modifies e`inCache
      ensures InCaches(handles) == old(InCaches(handles))[e := true]
    {
      e.inCache := true;
    }

    /** What the head of the lru ring points at is the oldest idle handle, or itself. */
    lemma LruNext()
      requires Valid()
      ensures lru.next == (if value.idle == [] then lru else value.idle[0])
      ensures Sound(value) && usage == Usage(value) && capacity == value.capacity && table.entries.Values <= handles
          && value.entries == table.entries
      ensures (value.idle != [] ==> value.idle[0] != lru) && deletions == value.deleted
    {
      RingMembers(Nexts(handles), Prevs(handles), lru, value.idle);
      if value.idle != [] { assert value.idle[0] in value.idle; }
    }

    /** The oldest idle entry is erased. */
    method EraseOldest()
      requires Valid() && value.idle != []
      modifies this`value, this`deletions, this`usage, handles`next, handles`prev, handles`refs, handles`inCache,
          handles`nextHash, table, table.list
      ensures Valid() && value == OldestGone(old(value)) && table.list == old(table.list)
    {
      hide Stands;
      hide HandleTable.Valid;
      hide Nexts;
      hide Prevs;
      hide Sound;
      LruNext();
      OldestIs(value);
      var oldest := lru.next;
      Erase(oldest.key, oldest.hash);
    }

    /** Insert's last loop. */
    method EvictOld()
      requires Valid()
      modifies this`value, this`deletions, this`usage, handles`next, handles`prev, handles`refs, handles`inCache,
          handles`nextHash, table, table.list
      ensures Valid() && value == Evicted(old(value)) && table.list == old(table.list)
      ensures deletions == value.deleted
    {
      hide Valid;
      LruNext();
      while usage > capacity && lru.next != lru
        invariant Valid() && Evicted(value) == Evicted(old(value)) && table.list == old(table.list)
            && capacity == value.capacity && usage == Usage(value)
        invariant lru.next == (if value.idle == [] then lru else value.idle[0])
            && (value.idle != [] ==> value.idle[0] != lru) && deletions == value.deleted
        decreases |value.idle|
      {
        EraseOldest();
        LruNext();
      }
    }

    method Prune()
      requires Valid()
      modifies this`value, this`deletions, this`usage, handles`next, handles`prev, handles`refs, handles`inCache,
          handles`nextHash, table, table.list
      ensures Valid() && value == Pruned(old(value)) && table.list == old(table.list)
      ensures deletions == value.deleted
    {
      hide Valid;
      LruNext();
      while lru.next != lru
        invariant Valid() && Pruned(value) == Pruned(old(value)) && table.list == old(table.list)
        invariant lru.next == (if value.idle == [] then lru else value.idle[0])
            && (value.idle != [] ==> value.idle[0] != lru) && deletions == value.deleted
        decreases |value.idle|
      {
        EraseOldest();
        LruNext();
      }
    }

    method InsertCached(e: LRUHandle, ghost c: Cache)
      requires Valid() && e in handles && Sound(c) && New(c, e) && value == c.(clients := c.clients[e := 1])
          && table.entries == c.entries && table.entries.Values <= handles
      modifies this`value, this`deletions, this`usage, handles`next, handles`prev, handles`refs, handles`inCache,
          handles`nextHash, table, table.list
      ensures IdOf(e) in c.entries ==> c.entries[IdOf(e)] in Entered(c, e).clients
      ensures Valid() && value == (if IdOf(e) in c.entries then Dropped(Entered(c, e), c.entries[IdOf(e)])
          else Entered(c, e))
      ensures table.list == old(table.list) || fresh(table.list)
    {
      hide Valid;
      hide Core;
      hide Sound;
      hide Pending;
      hide HandleTable.Valid;
      EnteredPends(c, e);
      Link(e, c);
      var was := Enter(e, c);
      var erased := FinishErase(was);
    }

    /** The caller gets a reference to the new handle, whether or not it is cached.  Afterwards the cache
        is within its capacity or holds nothing that no client uses. */
    method Insert(key: seq<Byte>, hash: nat, v: int, charge: nat) returns (e: LRUHandle)
      requires Valid()
      modifies this`value, this`deletions, this`usage, this`handles, handles`next, handles`prev, handles`refs,
          handles`inCache, handles`nextHash, table, table.list
      ensures fresh(e) && e.key == key && e.hash == hash && e.value == v && e.charge == charge && New(old(value), e)
      ensures IdOf(e) in old(value).entries ==> old(value).entries[IdOf(e)] in Entered(old(value), e).clients
      ensures Valid() && handles == old(handles) + {e} && value == Inserted(old(value), e)
      ensures usage <= capacity || value.idle == []
      ensures deletions == value.deleted
    {
      hide Valid;
      hide Sound;
      ghost var c := value;
      LruNext();
      e := new LRUHandle(key, hash, v, charge);
      Adopt(e);
      InsertedSound(c, e);
      if capacity > 0 {
        InsertCached(e, c);
      }
      EvictOld();
      LruNext();
    }

    method AddRef(e: LRUHandle)
      requires e in handles
      modifies e`refs
      ensures e in old(Refs(handles)) && Refs(handles) == old(Refs(handles))[e := old(Refs(handles))[e] + 1]
    {
      e.refs := e.refs + 1;
    }
  }

  lemma SnapshotsGrow(handles: set<LRUHandle>, e: LRUHandle)
    ensures var all := handles + {e};
            && Extends(Nexts(handles), Nexts(all)) && Extends(Prevs(handles), Prevs(all))
            && Extends(Refs(handles), Refs(all)) && Extends(InCaches(handles), InCaches(all))
            && e in Refs(all) && Refs(all)[e] == e.refs && e in InCaches(all) && InCaches(all)[e] == e.inCache
  {
  }

  lemma WithoutLacks(l: seq<LRUHandle>, e: LRUHandle)
    requires NoRepeats(l)
    ensures e !in LruCaches.Without(l, e)
  {
    WithoutHas(l, e);
  }
}
