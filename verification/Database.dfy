/** The store as its clients see it (db/db_impl.cc): whatever sequence of writes, memtable switches,
    flushes and compactions has run, a read at a live snapshot answers from what was written. */
module Database {
  import opened Order
  import opened Cursors
  import opened InternalKeys
  import opened Options
  import opened Tables
  import opened Versions
  import opened Levels
  import opened Flush
  import opened Drops
  import opened Compactions
  import CompactionSteps
  import opened CompactionEffects
  import opened Background
  import opened Interleaving
  import opened Linking
  import opened Picking

  // --------------------------------------------------------------- sets of entries

  ghost function SetOf<U, V>(es: Entries<U, V>): set<Entry<U, V>> { set e | e in es }

  ghost function ImmSet<U, V>(imm: Option<Entries<U, V>>): set<Entry<U, V>> {
    match imm
    case None => SetOf([])
    case Some(es) => SetOf(es)
  }

  /** Everything a read may look at. */
  ghost function Everything<U, V>(mem: Entries<U, V>, imm: Option<Entries<U, V>>, v: Version<U, V>): set<Entry<U, V>> {
    SetOf(mem) + (ImmSet(imm) + From(v, 0))
  }

  lemma ReadsIgnore<U(!new), V(!new)>(A: set<Entry<U, V>>, B: set<Entry<U, V>>, k: U, s: nat, x: Option<V>)
    requires Distinct(A + B) && !SomeMatch(A, k, s)
    ensures ReadsValue(A + B, k, s, x) <==> ReadsValue(B, k, s, x)
  {
    if SomeMatch(B, k, s) {
      var e := BestExists(B, k, s);
      assert BestOf(A + B, e, k, s);
      ReadsBest(A + B, e, k, s, x);
      ReadsBest(B, e, k, s, x);
    } else {
      ReadsNone(A + B, k, s, x);
      ReadsNone(B, k, s, x);
    }
  }

  /** Newer entries on top of two stores that read alike leave them reading alike. */
  lemma OnTop<U(!new), V(!new)>(A: set<Entry<U, V>>, B: set<Entry<U, V>>, B': set<Entry<U, V>>, k: U, horizon: nat)
    requires Newer(A, B) && Newer(A, B') && Distinct(A + B) && Distinct(A + B') && SameReads(B, B', k, horizon)
    ensures SameReads(A + B, A + B', k, horizon)
  {
    forall s: nat, x | horizon <= s ensures ReadsValue(A + B, k, s, x) <==> ReadsValue(A + B', k, s, x) {
      if SomeMatch(A, k, s) {
        var e := BestExists(A, k, s);
        assert BestOf(A + B, e, k, s) && BestOf(A + B', e, k, s);
        ReadsBest(A + B, e, k, s, x);
        ReadsBest(A + B', e, k, s, x);
      } else {
        ReadsIgnore(A, B, k, s, x);
        ReadsIgnore(A, B', k, s, x);
      }
    }
  }

  lemma SameReadsTrans<U(!new), V(!new)>(A: set<Entry<U, V>>, B: set<Entry<U, V>>, C: set<Entry<U, V>>, k: U,
                                         horizon: nat, snapshot: nat)
    requires SameReads(A, B, k, horizon) && SameReads(B, C, k, snapshot) && horizon <= snapshot
    ensures SameReads(A, C, k, snapshot)
  {
    forall s: nat, x | snapshot <= s ensures ReadsValue(A, k, s, x) <==> ReadsValue(C, k, s, x) {
      assert ReadsValue(A, k, s, x) <==> ReadsValue(B, k, s, x);
    }
  }

  ghost predicate UpTo<U(!new), V(!new)>(S: set<Entry<U, V>>, last: nat) {
    forall e :: e in S ==> e.0.sequence <= last
  }

  lemma LaterIsNewer<U(!new), V(!new)>(A: set<Entry<U, V>>, B: set<Entry<U, V>>, last: nat)
    requires UpTo(B, last) && forall e :: e in A ==> e.0.sequence > last
    ensures Newer(A, B)
  {
    forall a, b | a in A && b in B ensures Tag(a.0) > Tag(b.0) { TagInjective(b.0, a.0); }
  }

  lemma DistinctParts<U(!new), V(!new)>(S: set<Entry<U, V>>, T: set<Entry<U, V>>)
    requires Distinct(S) && T <= S
    ensures Distinct(T)
  {
  }

  lemma DistinctTogether<U(!new), V(!new)>(A: set<Entry<U, V>>, B: set<Entry<U, V>>)
    requires Distinct(A) && Distinct(B) && Newer(A, B)
    ensures Distinct(A + B)
  {
  }

  // ------------------------------------------------------------------ the memtable

  function AddSorted<U, V>(ucmp: Comparator<U>, mem: Entries<U, V>, e: Entry<U, V>): Entries<U, V> {
    if mem == [] || InternalCompare(ucmp, e.0, mem[0].0) < 0 then [e] + mem
    else [mem[0]] + AddSorted(ucmp, mem[1..], e)
  }

  lemma {:induction false} AddSortedHas<U(!new), V(!new)>(ucmp: Comparator<U>, mem: Entries<U, V>, e: Entry<U, V>,
                                                          x: Entry<U, V>)
    ensures x in AddSorted(ucmp, mem, e) <==> x == e || x in mem
  {
    if !(mem == [] || InternalCompare(ucmp, e.0, mem[0].0) < 0) {
      AddSortedHas(ucmp, mem[1..], e, x);
      assert mem == [mem[0]] + mem[1..];
    }
  }

  lemma ConsOrdered<U(!new), V(!new)>(ucmp: Comparator<U>, e: Entry<U, V>, rest: Entries<U, V>)
    requires Ordered(ucmp, rest) && forall x :: x in rest ==> InternalCompare(ucmp, e.0, x.0) < 0
    ensures Ordered(ucmp, [e] + rest)
  {
    var cmp, all := InternalComparator(ucmp), [e] + rest;
    forall i, j | 0 <= i < j < |all| ensures Precedes(cmp, all, i, j) {
      if i > 0 { assert Precedes(cmp, rest, i - 1, j - 1); } else { assert rest[j - 1] in rest; }
    }
  }

  lemma {:induction false} AddSortedOrdered<U(!new), V(!new)>(ucmp: Comparator<U>, mem: Entries<U, V>, e: Entry<U, V>)
    requires TotalOrder(ucmp) && Ordered(ucmp, mem) && forall x :: x in mem ==> x.0 != e.0
    ensures Ordered(ucmp, AddSorted(ucmp, mem, e))
  {
    var cmp := InternalComparator(ucmp);
    InternalIsTotal(ucmp);
    Laws(cmp);
    if mem == [] {
    } else {
      forall x | x in mem[1..] ensures cmp(mem[0].0, x.0) < 0 {
        var j :| 0 <= j < |mem[1..]| && mem[1..][j] == x;
        assert Precedes(cmp, mem, 0, j + 1);
      }
      assert mem[0] in mem;
      if cmp(e.0, mem[0].0) < 0 {
        forall x | x in mem ensures cmp(e.0, x.0) < 0 {
          if x != mem[0] {
            assert x in mem[1..];
            Transitive(cmp, e.0, mem[0].0, x.0);
          }
        }
        ConsOrdered(ucmp, e, mem);
      } else {
        PrefixSorted(ucmp, mem, 1, |mem|);
        assert mem[1..|mem|] == mem[1..];
        AddSortedOrdered(ucmp, mem[1..], e);
        forall x | x in AddSorted(ucmp, mem[1..], e) ensures cmp(mem[0].0, x.0) < 0 {
          AddSortedHas(ucmp, mem[1..], e, x);
        }
        ConsOrdered(ucmp, mem[0], AddSorted(ucmp, mem[1..], e));
      }
    }
  }

  /** One update of a batch: set or delete a key. */
  datatype Update<U, V> = Update(kind: ValueType, key: U, value: V)

  function EntryOf<U, V>(u: Update<U, V>, sequence: nat): Entry<U, V> {
    (InternalKey(u.key, sequence, u.kind), u.value)
  }

  /** The entries of a batch, numbered consecutively from the batch's sequence number. */
  ghost function BatchSet<U(!new), V(!new)>(batch: seq<Update<U, V>>, sequence: nat): set<Entry<U, V>> {
    set i | 0 <= i < |batch| :: EntryOf(batch[i], sequence + i)
  }

  /** WriteBatchInternal::InsertInto. */
  method InsertInto<U(!new), V(!new)>(ucmp: Comparator<U>, batch: seq<Update<U, V>>, sequence: nat, mem: Entries<U, V>)
      returns (mem': Entries<U, V>)
    requires TotalOrder(ucmp) && Ordered(ucmp, mem) && forall x :: x in mem ==> x.0.sequence < sequence
    ensures Ordered(ucmp, mem') && SetOf(mem') == SetOf(mem) + BatchSet(batch, sequence)
  {
    mem' := mem;
    for i := 0 to |batch|
      invariant Ordered(ucmp, mem') && (forall x :: x in mem' ==> x.0.sequence < sequence + i)
      invariant SetOf(mem') == SetOf(mem) + BatchSet(batch[..i], sequence)
    {
      InsertOne(ucmp, batch, i, sequence, mem');
      mem' := AddSorted(ucmp, mem', EntryOf(batch[i], sequence + i));
    }
    assert batch[..|batch|] == batch;
  }

  lemma InsertOne<U(!new), V(!new)>(ucmp: Comparator<U>, batch: seq<Update<U, V>>, i: nat, sequence: nat,
                                    mem: Entries<U, V>)
    requires TotalOrder(ucmp) && Ordered(ucmp, mem) && i < |batch| && forall x :: x in mem ==>
        x.0.sequence < sequence + i
    ensures var mem' := AddSorted(ucmp, mem, EntryOf(batch[i], sequence + i));
            && Ordered(ucmp, mem') && (forall x :: x in mem' ==> x.0.sequence < sequence + i + 1)
            && SetOf(mem') == SetOf(mem) + {EntryOf(batch[i], sequence + i)}
    ensures BatchSet(batch[..i + 1], sequence) == BatchSet(batch[..i], sequence) + {EntryOf(batch[i], sequence + i)}
  {
    var e := EntryOf(batch[i], sequence + i);
    AddSortedOrdered(ucmp, mem, e);
    forall x ensures x in AddSorted(ucmp, mem, e) <==> x == e || x in mem { AddSortedHas(ucmp, mem, e, x); }
    BatchGrows(batch, i, sequence);
  }

  lemma BatchGrows<U(!new), V(!new)>(batch: seq<Update<U, V>>, i: nat, sequence: nat)
    requires i < |batch|
    ensures BatchSet(batch[..i + 1], sequence) == BatchSet(batch[..i], sequence) + {EntryOf(batch[i], sequence + i)}
  {
    var A, B := BatchSet(batch[..i + 1], sequence), BatchSet(batch[..i], sequence) + {EntryOf(batch[i], sequence + i)};
    forall e | e in A ensures e in B {
      var j :| 0 <= j < i + 1 && e == EntryOf(batch[..i + 1][j], sequence + j);
      if j < i { assert batch[..i][j] == batch[j]; }
    }
    forall e | e in B ensures e in A {
      if e == EntryOf(batch[i], sequence + i) {
        assert batch[..i + 1][i] == batch[i];
      } else {
        var j :| 0 <= j < i && e == EntryOf(batch[..i][j], sequence + j);
        assert batch[..i + 1][j] == batch[j];
      }
    }
  }

  // ------------------------------------------------------------------- the state

  /** What every step keeps: runs are ordered, and newer data is found first. */
  ghost predicate Healthy<U(!new), V(!new)>(ucmp: Comparator<U>, mem: Entries<U, V>, imm: Option<Entries<U, V>>,
                                            v: Version<U, V>, last: nat, nextFile: nat)
  {
    match imm
    case None => HealthyWith(ucmp, mem, [], v, last, nextFile)
    case Some(es) => HealthyWith(ucmp, mem, es, v, last, nextFile)
  }

  ghost predicate HealthyWith<U(!new), V(!new)>(ucmp: Comparator<U>, mem: Entries<U, V>, imm: Entries<U, V>,
                                                v: Version<U, V>, last: nat, nextFile: nat)
  {
    && TotalOrder(ucmp) && last < MaxSequence
    && Ordered(ucmp, mem) && Ordered(ucmp, imm)
    && Good(ucmp, v) && UniqueNumbers(v) && NumbersBelow(v, nextFile)
    && Newer(SetOf(mem), SetOf(imm) + From(v, 0)) && Newer(SetOf(imm), From(v, 0))
    && UpTo(SetOf(mem) + (SetOf(imm) + From(v, 0)), last) && Distinct(SetOf(mem) + (SetOf(imm) + From(v, 0)))
  }

  /** Except for these keys, the store reads as the set of all written entries does, from the horizon on. */
  ghost predicate Faithful<U(!new), V(!new)>(except: iset<U>, written: set<Entry<U, V>>, S: set<Entry<U, V>>,
                                             horizon: nat)
  {
    forall k {:trigger SameReads(written, S, k, horizon)} :: k !in except ==> SameReads(written, S, k, horizon)
  }

  /** DBImpl::Get: memtable, then immutable memtable, then the version. */
  method Lookups<U(!new), V(!new)>(ucmp: Comparator<U>, mem: Entries<U, V>, imm: Option<Entries<U, V>>,
                                   v: Version<U, V>, k: U, s: nat, ghost last: nat, ghost nextFile: nat)
                                   returns (r: Answer<V>)
    requires Healthy(ucmp, mem, imm, v, last, nextFile)
    ensures Reads(Everything(mem, imm, v), k, s, r)
  {
    r := Lookup(ucmp, mem, k, s);
    LookupReads(ucmp, mem, k, s);
    if r != NotFound {
      ReadsUpperFirst(SetOf(mem), ImmSet(imm) + From(v, 0), k, s, r);
      return;
    }
    if imm.Some? {
      r := Lookup(ucmp, imm.value, k, s);
      LookupReads(ucmp, imm.value, k, s);
      if r != NotFound {
        ReadsUpperFirst(ImmSet(imm), From(v, 0), k, s, r);
        ReadsThrough(SetOf(mem), ImmSet(imm) + From(v, 0), k, s, r);
        return;
      }
    }
    assert Reads(ImmSet(imm), k, s, NotFound);
    r := Get(ucmp, v, k, s);
    ReadsThrough(ImmSet(imm), From(v, 0), k, s, r);
    ReadsThrough(SetOf(mem), ImmSet(imm) + From(v, 0), k, s, r);
  }

  /** A deletion marker and nothing at all look the same to the caller. */
  function ValueOf<V>(r: Answer<V>): Option<V> {
    match r
    case Found(value) => Some(value)
    case NotFound => None
    case Deleted => None
  }

  // -------------------------------------------------------- one lemma for each step

  lemma EmptyNewer<U(!new), V(!new)>(A: set<Entry<U, V>>)
    ensures Newer({}, A) && Newer(A, {})
  {
  }

  lemma BatchSequences<U(!new), V(!new)>(batch: seq<Update<U, V>>, sequence: nat)
    ensures forall e :: e in BatchSet(batch, sequence) ==> sequence <= e.0.sequence < sequence + |batch|
    ensures Distinct(BatchSet(batch, sequence))
  {
    forall x, y | x in BatchSet(batch, sequence) && y in BatchSet(batch, sequence) && x.0.user == y.0.user
        && Tag(x.0) == Tag(y.0)
      ensures x == y
    {
      TagInjective(x.0, y.0);
    }
  }

  /** A batch numbered beyond everything keeps the store healthy and faithful. */
  lemma WriteKeeps<U(!new), V(!new)>(ucmp: Comparator<U>, mem: Entries<U, V>, imm: Option<Entries<U, V>>,
                                     v: Version<U, V>, last: nat, nextFile: nat, batch: seq<Update<U, V>>,
                                     mem': Entries<U, V>)
    requires Healthy(ucmp, mem, imm, v, last, nextFile) && last + |batch| < MaxSequence
    requires Ordered(ucmp, mem') && SetOf(mem') == SetOf(mem) + BatchSet(batch, last + 1)
    ensures Healthy(ucmp, mem', imm, v, last + |batch|, nextFile)
    ensures Everything(mem', imm, v) == BatchSet(batch, last + 1) + Everything(mem, imm, v)
    ensures Newer(BatchSet(batch, last + 1), Everything(mem, imm, v))
  {
    var E, S, B := BatchSet(batch, last + 1), Everything(mem, imm, v), ImmSet(imm) + From(v, 0);
    BatchSequences(batch, last + 1);
    LaterIsNewer(E, S, last);
    DistinctTogether(E, S);
    assert Everything(mem', imm, v) == E + S;
    assert Newer(SetOf(mem'), B) by {
      forall a, b | a in SetOf(mem') && b in B && a.0.user == b.0.user ensures Tag(a.0) > Tag(b.0) {
        assert a in SetOf(mem) || a in E;
      }
    }
  }

  lemma WriteFaithful<U(!new), V(!new)>(except: iset<U>, written: set<Entry<U, V>>, S: set<Entry<U, V>>,
                                        E: set<Entry<U, V>>, horizon: nat, last: nat)
    requires Faithful(except, written, S, horizon) && Distinct(written) && Distinct(S) && Distinct(E)
        && UpTo(written, last)
        && UpTo(S, last)
    requires forall e :: e in E ==> e.0.sequence > last
    ensures Faithful(except, E + written, E + S, horizon) && Distinct(E + written)
  {
    LaterIsNewer(E, written, last);
    LaterIsNewer(E, S, last);
    DistinctTogether(E, written);
    DistinctTogether(E, S);
    forall k | k !in except ensures SameReads(E + written, E + S, k, horizon) {
      assert SameReads(written, S, k, horizon);
      OnTop(E, written, S, k, horizon);
    }
  }

  lemma SwitchKeeps<U(!new), V(!new)>(ucmp: Comparator<U>, mem: Entries<U, V>, v: Version<U, V>, last: nat,
                                      nextFile: nat)
    requires Healthy(ucmp, mem, None, v, last, nextFile)
    ensures Healthy(ucmp, [], Some(mem), v, last, nextFile) && Everything([], Some(mem), v) == Everything(mem, None, v)
  {
    var none: Entries<U, V> := [];
    assert SetOf(none) == {} && ImmSet(None) + From(v, 0) == From(v, 0);
    assert Everything([], Some(mem), v) == Everything(mem, None, v);
    EmptyNewer(ImmSet(Some(mem)) + From(v, 0));
  }

  /** The immutable memtable may be flushed. */
  lemma ImmFlushable<U(!new), V(!new)>(ucmp: Comparator<U>, mem: Entries<U, V>, imm: Entries<U, V>, v: Version<U, V>,
                                       last: nat, nextFile: nat, size: nat)
    requires Healthy(ucmp, mem, Some(imm), v, last, nextFile) && imm != []
    ensures Flushable(ucmp, v, TableOf(nextFile, size, imm))
  {
    assert EntriesOf(TableOf(nextFile, size, imm)) == ImmSet(Some(imm));
  }

  lemma FilesBounded<U(!new), V(!new)>(ucmp: Comparator<U>, v: Version<U, V>, last: nat)
    requires Good(ucmp, v) && UpTo(From(v, 0), last) && last < MaxSequence
    ensures AllBounded(v)
  {
    forall l, f | 0 <= l < |v| && f in v[l] ensures f.largest.sequence <= MaxSequence {
      assert FileOk(ucmp, f);
      CompactionSteps.FileInFrom(v, l, f, f.entries[|f.entries| - 1]);
    }
  }

  lemma FlushKeeps<U(!new), V(!new)>(ucmp: Comparator<U>, mem: Entries<U, V>, imm: Entries<U, V>, v: Version<U, V>,
                                     last: nat, nextFile: nat, v': Version<U, V>)
    requires Healthy(ucmp, mem, Some(imm), v, last, nextFile)
    requires Good(ucmp, v') && UniqueNumbers(v') && NumbersBelow(v', nextFile + 1)
        && From(v', 0) == From(v, 0) + SetOf(imm)
    ensures Healthy(ucmp, mem, None, v', last, nextFile + 1)
        && Everything(mem, None, v') == Everything(mem, Some(imm), v)
  {
    var none: Option<Entries<U, V>> := None;
    assert ImmSet(none) == {} && ImmSet(none) + From(v', 0) == ImmSet(Some(imm)) + From(v, 0);
    EmptyNewer(From(v', 0));
  }

  lemma CompactionKeeps<U(!new), V(!new)>(ucmp: Comparator<U>, mem: Entries<U, V>, imm: Option<Entries<U, V>>,
                                          v: Version<U, V>, last: nat, nextFile: nat, v': Version<U, V>, nextFile': nat)
    requires Healthy(ucmp, mem, imm, v, last, nextFile)
    requires Good(ucmp, v') && UniqueNumbers(v') && NumbersBelow(v', nextFile') && From(v', 0) <= From(v, 0)
    ensures Healthy(ucmp, mem, imm, v', last, nextFile')
  {
    DistinctParts(Everything(mem, imm, v), Everything(mem, imm, v'));
  }

  lemma CompactionFaithful<U(!new), V(!new)>(ucmp: Comparator<U>, mem: Entries<U, V>, imm: Option<Entries<U, V>>,
                                             v: Version<U, V>, last: nat, nextFile: nat, v': Version<U, V>,
                                             except: iset<U>, written: set<Entry<U, V>>, horizon: nat, snapshot: nat)
    requires Healthy(ucmp, mem, imm, v, last, nextFile) && From(v', 0) <= From(v, 0)
    requires Faithful(except, written, Everything(mem, imm, v), horizon) && horizon <= snapshot
    ensures Faithful(except + Disturbed(From(v, 0), From(v', 0), snapshot), written, Everything(mem, imm, v'), snapshot)
  {
    var M, I, B, B' := SetOf(mem), ImmSet(imm), From(v, 0), From(v', 0);
    var S := Everything(mem, imm, v);
    DistinctParts(S, I + B);
    DistinctParts(S, I + B');
    DistinctParts(S, M + (I + B'));
    forall k | k !in except + Disturbed(B, B', snapshot)
      ensures SameReads(written, Everything(mem, imm, v'), k, snapshot)
    {
      assert SameReads(B, B', k, snapshot);
      OnTop(I, B, B', k, snapshot);
      OnTop(M, I + B, I + B', k, snapshot);
      assert SameReads(written, S, k, horizon);
      SameReadsTrans(written, S, Everything(mem, imm, v'), k, horizon, snapshot);
    }
  }

  // ------------------------------------------------------- what updates mean to a reader

  /** The value that the updates, applied one after the other, give a key. */
  function ValueAfter<U(==), V>(updates: seq<Update<U, V>>, k: U): Option<V> {
    if updates == [] then None
    else
      var last := updates[|updates| - 1];
      if last.key != k then ValueAfter(updates[..|updates| - 1], k)
      else if last.kind == Deletion then None
      else Some(last.value)
  }

  predicate Mentions<U(==), V>(updates: seq<Update<U, V>>, k: U) {
    exists i :: 0 <= i < |updates| && updates[i].key == k
  }

  lemma {:induction false} LastMention<U(!new), V(!new)>(updates: seq<Update<U, V>>, k: U) returns (j: nat)
    requires Mentions(updates, k)
    ensures j < |updates| && updates[j].key == k && forall m :: j < m < |updates| ==> updates[m].key != k
    ensures ValueAfter(updates, k) == if updates[j].kind == Value then Some(updates[j].value) else None
  {
    var n := |updates| - 1;
    if updates[n].key == k {
      j := n;
    } else {
      var i :| 0 <= i < |updates| && updates[i].key == k;
      assert updates[..n][i] == updates[i];
      j := LastMention(updates[..n], k);
    }
  }

  lemma {:induction false} NoMention<U(!new), V(!new)>(updates: seq<Update<U, V>>, k: U)
    requires !Mentions(updates, k)
    ensures ValueAfter(updates, k) == None
  {
    if updates != [] {
      var init := updates[..|updates| - 1];
      assert forall i :: 0 <= i < |init| ==> init[i] == updates[i];
      NoMention(init, k);
    }
  }

  /** How many updates, numbered from sequence, a reader at s sees. */
  ghost predicate Seen<U, V>(updates: seq<Update<U, V>>, sequence: nat, s: nat, i: nat) {
    i <= |updates| && sequence + i <= s + 1 && (i < |updates| ==> s < sequence + i)
  }

  lemma NewestSeen<U(!new), V(!new)>(updates: seq<Update<U, V>>, sequence: nat, older: set<Entry<U, V>>, i: nat, k: U,
                                     s: nat) returns (j: nat)
    requires sequence > 0 && UpTo(older, sequence - 1) && Seen(updates, sequence, s, i) && Mentions(updates[..i], k)
    ensures j < i && BestOf(BatchSet(updates, sequence) + older, EntryOf(updates[j], sequence + j), k, s)
    ensures ValueAfter(updates[..i], k) == if updates[j].kind == Value then Some(updates[j].value) else None
  {
    var E, seen := BatchSet(updates, sequence), updates[..i];
    j := LastMention(seen, k);
    var e := EntryOf(updates[j], sequence + j);
    assert e in E;
    forall y | y in E + older && Matches(y, k, s) ensures Tag(y.0) <= Tag(e.0) {
      TagInjective(y.0, e.0);
      if y in E {
        var m :| 0 <= m < |updates| && y == EntryOf(updates[m], sequence + m);
        assert m < i && seen[m].key == k;
      }
    }
  }

  /** On top of older entries a reader finds what the updates it sees make of a key, and of a key that they do not
      mention what was there. */
  lemma UpdatesRead<U(!new), V(!new)>(updates: seq<Update<U, V>>, sequence: nat, older: set<Entry<U, V>>, i: nat, k: U,
                                      s: nat, x: Option<V>)
    requires sequence > 0 && UpTo(older, sequence - 1) && Distinct(older) && Seen(updates, sequence, s, i)
    ensures ReadsValue(BatchSet(updates, sequence) + older, k, s, x) <==>
        if Mentions(updates[..i], k) then x == ValueAfter(updates[..i], k) else ReadsValue(older, k, s, x)
  {
    hide ReadsValue;
    hide ValueAfter;
    hide Mentions;
    var E := BatchSet(updates, sequence);
    BatchSequences(updates, sequence);
    LaterIsNewer(E, older, sequence - 1);
    DistinctTogether(E, older);
    if Mentions(updates[..i], k) {
      var j := NewestSeen(updates, sequence, older, i, k, s);
      ReadsBest(E + older, EntryOf(updates[j], sequence + j), k, s, x);
    } else {
      NoneSeen(updates, sequence, i, k, s);
      ReadsIgnore(E, older, k, s, x);
    }
  }

  lemma NoneSeen<U(!new), V(!new)>(updates: seq<Update<U, V>>, sequence: nat, i: nat, k: U, s: nat)
    requires Seen(updates, sequence, s, i) && !Mentions(updates[..i], k)
    ensures !SomeMatch(BatchSet(updates, sequence), k, s)
  {
    forall y | y in BatchSet(updates, sequence) ensures !Matches(y, k, s) {
      var m :| 0 <= m < |updates| && y == EntryOf(updates[m], sequence + m);
      if m < i { assert updates[..i][m].key != k; }
    }
  }

  /** Everything ever written, read at s: what the first s updates make of the key. */
  lemma HistoryReads<U(!new), V(!new)>(history: seq<Update<U, V>>, k: U, s: nat, x: Option<V>)
    requires s <= |history|
    ensures ReadsValue(BatchSet(history, 1), k, s, x) <==> x == ValueAfter(history[..s], k)
  {
    UpdatesRead(history, 1, {}, s, k, s, x);
    assert BatchSet(history, 1) + {} == BatchSet(history, 1);
    ReadsNone<U, V>({}, k, s, x);
    if !Mentions(history[..s], k) { NoMention(history[..s], k); }
  }

  lemma BatchesJoin<U(!new), V(!new)>(a: seq<Update<U, V>>, b: seq<Update<U, V>>, sequence: nat)
    ensures BatchSet(a + b, sequence) == BatchSet(a, sequence) + BatchSet(b, sequence + |a|)
  {
    var A, B, C := BatchSet(a, sequence), BatchSet(b, sequence + |a|), BatchSet(a + b, sequence);
    forall i | 0 <= i < |a| ensures EntryOf(a[i], sequence + i) in C { assert (a + b)[i] == a[i]; }
    forall i | 0 <= i < |b| ensures EntryOf(b[i], sequence + |a| + i) in C {
      assert (a + b)[|a| + i] == b[i];
    }
    forall i | 0 <= i < |a + b| ensures EntryOf((a + b)[i], sequence + i) in A + B {
      if i < |a| {
        assert EntryOf(a[i], sequence + i) in A;
      } else {
        assert EntryOf(b[i - |a|], sequence + |a| + (i - |a|)) in B;
      }
    }
  }

  // ------------------------------------------------------------------- the database

  /** The database's invariant on the values of its fields. */
  ghost predicate Sound<U(!new), V(!new)>(ucmp: Comparator<U>, mem: Entries<U, V>, imm: Option<Entries<U, V>>,
                                          v: Version<U, V>, last: nat, nextFile: nat, written: set<Entry<U, V>>,
                                          horizon: nat, disturbed: iset<U>)
  {
    match horizon
    case _ =>
      && Consistent(ucmp, mem, imm, v, last, nextFile, written, horizon)
      && Faithful(disturbed, written, Everything(mem, imm, v), horizon)
  }

  ghost predicate Consistent<U(!new), V(!new)>(ucmp: Comparator<U>, mem: Entries<U, V>, imm: Option<Entries<U, V>>,
                                               v: Version<U, V>, last: nat, nextFile: nat, written: set<Entry<U, V>>,
                                               horizon: nat)
  {
    && Healthy(ucmp, mem, imm, v, last, nextFile)
    && Distinct(written) && UpTo(written, last) && horizon <= last && Everything(mem, imm, v) <= written
  }

  /** Live snapshots: in order, none beyond the last write, none below the horizon. */
  ghost predicate Live(snapshots: seq<nat>, horizon: nat, last: nat) {
    && horizon <= last
    && (forall i :: 0 <= i < |snapshots| ==> horizon <= snapshots[i] <= last)
    && (forall i, j :: 0 <= i < j < |snapshots| ==> snapshots[i] <= snapshots[j])
  }

  lemma WriteSound<U(!new), V(!new)>(ucmp: Comparator<U>, mem: Entries<U, V>, imm: Option<Entries<U, V>>,
                                     v: Version<U, V>, last: nat, nextFile: nat, written: set<Entry<U, V>>,
                                     horizon: nat, disturbed: iset<U>, batch: seq<Update<U, V>>, mem': Entries<U, V>)
    requires Sound(ucmp, mem, imm, v, last, nextFile, written, horizon, disturbed) && last + |batch| < MaxSequence
    requires Ordered(ucmp, mem') && SetOf(mem') == SetOf(mem) + BatchSet(batch, last + 1)
    ensures Sound(ucmp, mem', imm, v, last + |batch|, nextFile, BatchSet(batch, last + 1) + written, horizon, disturbed)
  {
    var E, S := BatchSet(batch, last + 1), Everything(mem, imm, v);
    WriteKeeps(ucmp, mem, imm, v, last, nextFile, batch, mem');
    BatchSequences(batch, last + 1);
    LaterIsNewer(E, written, last);
    DistinctTogether(E, written);
    WriteFaithful(disturbed, written, S, E, horizon, last);
  }

  lemma SwitchSound<U(!new), V(!new)>(ucmp: Comparator<U>, mem: Entries<U, V>, v: Version<U, V>, last: nat,
                                      nextFile: nat, written: set<Entry<U, V>>, horizon: nat, disturbed: iset<U>)
    requires Sound(ucmp, mem, None, v, last, nextFile, written, horizon, disturbed)
    ensures Sound(ucmp, [], Some(mem), v, last, nextFile, written, horizon, disturbed)
  {
    SwitchKeeps(ucmp, mem, v, last, nextFile);
  }

  lemma FlushSound<U(!new), V(!new)>(ucmp: Comparator<U>, mem: Entries<U, V>, imm: Entries<U, V>, v: Version<U, V>,
                                     last: nat, nextFile: nat, written: set<Entry<U, V>>, horizon: nat,
                                     disturbed: iset<U>, v': Version<U, V>)
    requires Sound(ucmp, mem, Some(imm), v, last, nextFile, written, horizon, disturbed)
    requires Good(ucmp, v') && UniqueNumbers(v') && NumbersBelow(v', nextFile + 1)
        && From(v', 0) == From(v, 0) + SetOf(imm)
    ensures Sound(ucmp, mem, None, v', last, nextFile + 1, written, horizon, disturbed)
  {
    FlushKeeps(ucmp, mem, imm, v, last, nextFile, v');
  }

  lemma CompactionSound<U(!new), V(!new)>(ucmp: Comparator<U>, mem: Entries<U, V>, imm: Option<Entries<U, V>>,
                                          v: Version<U, V>, last: nat, nextFile: nat, written: set<Entry<U, V>>,
                                          horizon: nat, disturbed: iset<U>, v': Version<U, V>, nextFile': nat,
                                          snapshot: nat)
    requires Sound(ucmp, mem, imm, v, last, nextFile, written, horizon, disturbed) && horizon <= snapshot <= last
    requires Good(ucmp, v') && UniqueNumbers(v') && NumbersBelow(v', nextFile') && From(v', 0) <= From(v, 0)
    ensures Sound(ucmp, mem, imm, v', last, nextFile', written, snapshot,
        disturbed + Disturbed(From(v, 0), From(v', 0), snapshot))
  {
    CompactionKeeps(ucmp, mem, imm, v, last, nextFile, v', nextFile');
    CompactionFaithful(ucmp, mem, imm, v, last, nextFile, v', disturbed, written, horizon, snapshot);
  }

  /** What was written is the entries of the updates, numbered from 1. */
  ghost predicate Recorded<U(!new), V(!new)>(history: seq<Update<U, V>>, written: set<Entry<U, V>>, last: nat) {
    |history| == last && written == BatchSet(history, 1)
  }

  lemma RecordedReads<U(!new), V(!new)>(history: seq<Update<U, V>>, written: set<Entry<U, V>>, last: nat, k: U, s: nat,
                                        x: Option<V>)
    requires Recorded(history, written, last) && s <= last
    ensures ReadsValue(written, k, s, x) <==> x == ValueAfter(history[..s], k)
    ensures history[..last] == history
  {
    HistoryReads(history, k, s, x);
  }

  /** A compaction that runs can be installed, and spares what every live snapshot may read. */
  ghost predicate Pending<U(!new), V(!new)>(ucmp: Comparator<U>, v: Version<U, V>, compacting: Option<Job<U, V>>,
                                            nextFile: nat, snapshots: seq<nat>, horizon: nat, last: nat)
  {
    match compacting
    case None => true
    case Some(job) =>
      && Underway(ucmp, v, job) && (forall h :: h in job.outputs ==> h.number < nextFile)
      && Live(snapshots, job.snapshot, last) && horizon <= job.snapshot
  }

  lemma NothingPending<U(!new), V(!new)>(ucmp: Comparator<U>, v: Version<U, V>, nextFile: nat, snapshots: seq<nat>,
                                         horizon: nat, last: nat)
    ensures Pending(ucmp, v, None, nextFile, snapshots, horizon, last)
  {
  }

  /** The flush of a memtable does not get in its way. */
  lemma FlushPending<U(!new), V(!new)>(ucmp: Comparator<U>, mem: Entries<U, V>, imm: Entries<U, V>, v: Version<U, V>,
                                       last: nat, nextFile: nat, written: set<Entry<U, V>>, horizon: nat,
                                       disturbed: iset<U>, v': Version<U, V>, size: nat, maxOverlap: nat,
                                       compacting: Option<Job<U, V>>, snapshots: seq<nat>)
    requires Sound(ucmp, mem, Some(imm), v, last, nextFile, written, horizon, disturbed) && |v| == NumLevels
    requires Pending(ucmp, v, compacting, nextFile, snapshots, horizon, last)
    requires FlushesTo(ucmp, v, v', nextFile, size, imm, maxOverlap)
    ensures Pending(ucmp, v', compacting, nextFile + 1, snapshots, horizon, last)
  {
    hide Underway;
    hide Good;
    hide Added;
    hide Faithful;
    hide From;
    if imm != [] && compacting.Some? {
      ImmFlushable(ucmp, mem, imm, v, last, nextFile, size);
      AddedKeepsUnderway(ucmp, v, v', TableOf(nextFile, size, imm), maxOverlap, compacting.value);
    }
  }

  lemma InstallPending<U(!new), V(!new)>(ucmp: Comparator<U>, v: Version<U, V>, job: Job<U, V>, nextFile: nat,
                                         snapshots: seq<nat>, horizon: nat, last: nat)
    requires TotalOrder(ucmp) && Good(ucmp, v) && UniqueNumbers(v) && NumbersBelow(v, nextFile) && Distinct(From(v, 0))
    requires Pending(ucmp, v, Some(job), nextFile, snapshots, horizon, last)
    ensures job.level + 1 < |v| && Live(snapshots, job.snapshot, last) && horizon <= job.snapshot
    ensures job.level + 1 < |job.input|
    ensures var v' := CompactionSteps.Compacted(ucmp, v, job.level, job.in0, job.in1, job.outputs);
            && Good(ucmp, v') && UniqueNumbers(v') && NumbersBelow(v', nextFile) && From(v', 0) <= From(v, 0)
            && forall k :: k in Disturbed(From(v, 0), From(v', 0), job.snapshot) <==>
                ResurfacesBy(ucmp, From(v, 0), job, k)
  {
    hide Underway;
    hide Good;
    hide From;
    hide SameReads;
    hide ResurfacesBy;
    UnderwayLevels(ucmp, v, job);
    var v' := CompactionSteps.Compacted(ucmp, v, job.level, job.in0, job.in1, job.outputs);
    UnderwayInstalls(ucmp, v, job);
    InstalledNumbers(ucmp, v, v', job, nextFile);
  }

  lemma StartPending<U(!new), V(!new)>(ucmp: Comparator<U>, mem: Entries<U, V>, imm: Option<Entries<U, V>>,
                                       v: Version<U, V>, last: nat, nextFile: nat, written: set<Entry<U, V>>,
                                       horizon: nat, disturbed: iset<U>, snapshots: seq<nat>, job: Job<U, V>, next: nat,
                                       snapshot: nat)
    requires Sound(ucmp, mem, imm, v, last, nextFile, written, horizon, disturbed) && Live(snapshots, horizon, last)
    requires Prepared(ucmp, v, job, nextFile, next) && job.snapshot == snapshot
    requires snapshot == if snapshots == [] then last else snapshots[0]
    ensures Sound(ucmp, mem, imm, v, last, next, written, horizon, disturbed)
    ensures Pending(ucmp, v, Some(job), next, snapshots, horizon, last)
  {
    hide Faithful;
    hide CompactsTo;
    hide Good;
    hide Linked;
    hide Effect;
    forall h | h in job.outputs ensures h.number < next {
      if !(nextFile <= h.number < next) { assert h in v[job.level]; }
    }
  }

  lemma UnderwayLevels<U(!new), V(!new)>(ucmp: Comparator<U>, v: Version<U, V>, job: Job<U, V>)
    requires Underway(ucmp, v, job)
    ensures job.level + 1 < NumLevels == |v| == |job.input|
  {
  }

  /** So no key has two entries of one number, in the files least of all. */
  lemma OneOfEachNumber<U(!new), V(!new)>(ucmp: Comparator<U>, mem: Entries<U, V>, imm: Option<Entries<U, V>>,
                                          v: Version<U, V>, last: nat, nextFile: nat, written: set<Entry<U, V>>,
                                          horizon: nat, disturbed: iset<U>, history: seq<Update<U, V>>, job: Job<U, V>)
    requires Sound(ucmp, mem, imm, v, last, nextFile, written, horizon, disturbed) && Recorded(history, written, last)
    requires Underway(ucmp, v, job)
    ensures OneEach(Contents(job.in0 + job.in1))
  {
    hide Faithful;
    hide Linked;
    hide BaseKeys;
    hide BatchSet;
    hide Good;
    hide UniqueNumbers;
    assert Contents(job.in0 + job.in1) <= From(v, 0) <= written;
    OneInHistory(history);
  }

  lemma OneInHistory<U(!new), V(!new)>(history: seq<Update<U, V>>)
    ensures OneEach(BatchSet(history, 1))
  {
    var all := BatchSet(history, 1);
    forall x, y | x in all && y in all && x.0.sequence == y.0.sequence ensures x == y {
      var i :| 0 <= i < |history| && x == EntryOf(history[i], 1 + i);
      var j :| 0 <= j < |history| && y == EntryOf(history[j], 1 + j);
    }
  }

  class DBImpl<U(!new), V(!new)> {
    const ucmp: Comparator<U>
    var mem: Entries<U, V>
    var imm: Option<Entries<U, V>>
    var current: Version<U, V>
    var lastSequence: nat
    var nextFileNumber: nat
    var snapshots: seq<nat>  // sequence numbers, oldest first
    var compacting: Option<Job<U, V>>  // the compaction that is running, if any
    ghost var history: seq<Update<U, V>>  // every update ever written, in order
    ghost var written: set<Entry<U, V>>  // their entries
    ghost var horizon: nat  // the smallest snapshot of the last compaction
    ghost var disturbed: iset<U>  // the keys of which a compaction has let an old value resurface

    ghost predicate Valid()
      reads this
    {
      && Sound(ucmp, mem, imm, current, lastSequence, nextFileNumber, written, horizon, disturbed)
      && Live(snapshots, horizon, lastSequence)
      && Recorded(history, written, lastSequence)
      && Pending(ucmp, current, compacting, nextFileNumber, snapshots, horizon, lastSequence)
    }

    constructor (ucmp: Comparator<U>)
      requires TotalOrder(ucmp)
      ensures Valid() && disturbed == iset{} && history == [] && written == {} && snapshots == [] && this.ucmp == ucmp
      ensures compacting == None
    {
      this.ucmp, mem, imm, current := ucmp, [], None, seq(NumLevels, _ => []);
      lastSequence, nextFileNumber, snapshots, compacting := 0, 2, [], None;
      history, written, horizon, disturbed := [], {}, 0, iset{};
      new;
      EmptyVersion(ucmp, current);
      assert Everything(mem, imm, current) == {};
    }

    /** DBImpl::Get at a live snapshot, or at the latest sequence number if none is given: what the updates up to it,
        applied one after the other, make of the key. */
    method Get(k: U, snapshot: Option<nat>) returns (r: Option<V>)
      requires Valid() && (snapshot.Some? ==> snapshot.value in snapshots)
      ensures k !in disturbed ==> ReadsValue(written, k, if snapshot.Some? then snapshot.value else lastSequence, r)
      ensures k !in disturbed ==>
          r == ValueAfter(if snapshot.Some? then history[..snapshot.value] else history, k)
    {
      var s := if snapshot.Some? then snapshot.value else lastSequence;
      var answer := Lookups(ucmp, mem, imm, current, k, s, lastSequence, nextFileNumber);
      r := ValueOf(answer);
      assert ReadsValue(Everything(mem, imm, current), k, s, r);
      assert k !in disturbed ==> SameReads(written, Everything(mem, imm, current), k, horizon);
      RecordedReads(history, written, lastSequence, k, s, r);
    }

    /** A batch is applied with the next sequence numbers. */
    method Write(batch: seq<Update<U, V>>)
      requires Valid() && lastSequence + |batch| < MaxSequence
      modifies this`mem, this`lastSequence, this`history, this`written
      ensures Valid() && history == old(history) + batch
      ensures lastSequence == old(lastSequence) + |batch|
      ensures written == BatchSet(batch, old(lastSequence) + 1) + old(written)
    {
      hide Sound;
      var mem' := InsertBatch(batch);
      WriteSound(ucmp, mem, imm, current, lastSequence, nextFileNumber, written, horizon, disturbed, batch, mem');
      BatchesJoin(history, batch, 1);
      written, history := BatchSet(batch, lastSequence + 1) + written, history + batch;
      mem, lastSequence := mem', lastSequence + |batch|;
    }

    method InsertBatch(batch: seq<Update<U, V>>) returns (mem': Entries<U, V>)
      requires Valid()
      ensures Ordered(ucmp, mem') && SetOf(mem') == SetOf(mem) + BatchSet(batch, lastSequence + 1)
    {
      forall x | x in mem ensures x.0.sequence < lastSequence + 1 { assert x in Everything(mem, imm, current); }
      mem' := InsertInto(ucmp, batch, lastSequence + 1, mem);
    }

    /** MakeRoomForWrite, when the memtable is full and none is waiting to be flushed. */
    method SwitchMemTable()
      requires Valid() && imm.None?
      modifies this`mem, this`imm
      ensures Valid() && mem == [] && imm == Some(old(mem))
    {
      hide Sound;
      SwitchSound(ucmp, mem, current, lastSequence, nextFileNumber, written, horizon, disturbed);
      imm, mem := Some(mem), [];
    }

    /** The immutable memtable becomes a table file, whether a compaction is running or not. */
    method CompactMemTable(size: nat, maxOverlap: nat)
      requires Valid() && imm.Some?
      modifies this`imm, this`current, this`nextFileNumber
      ensures Valid() && imm == None && nextFileNumber == old(nextFileNumber) + 1
      ensures From(current, 0) == old(From(current, 0) + SetOf(imm.value))
      ensures |current| == |old(current)| == NumLevels
      ensures FlushesTo(ucmp, old(current), current, old(nextFileNumber), size, old(imm.value), maxOverlap)
    {
      hide From;
      hide Sound;
      hide Pending;
      hide FlushesTo;
      var v' := FlushImm(size, maxOverlap);
      FlushPending(ucmp, mem, imm.value, current, lastSequence, nextFileNumber, written, horizon, disturbed, v', size,
          maxOverlap, compacting, snapshots);
      FlushSound(ucmp, mem, imm.value, current, lastSequence, nextFileNumber, written, horizon, disturbed, v');
      current, imm, nextFileNumber := v', None, nextFileNumber + 1;
    }

    method FlushImm(size: nat, maxOverlap: nat) returns (v': Version<U, V>)
      requires Valid() && imm.Some?
      ensures Good(ucmp, v') && UniqueNumbers(v') && NumbersBelow(v', nextFileNumber + 1)
      ensures From(v', 0) == From(current, 0) + SetOf(imm.value) && |v'| == |current| == NumLevels
      ensures FlushesTo(ucmp, current, v', nextFileNumber, size, imm.value, maxOverlap)
    {
      hide Pending;
      hide Added;
      FilesBounded(ucmp, current, lastSequence);
      if imm.value != [] { ImmFlushable(ucmp, mem, imm.value, current, lastSequence, nextFileNumber, size); }
      v' := WriteLevel0Table(ucmp, current, nextFileNumber, size, imm.value, maxOverlap);
    }

    /** The oldest sequence number a reader may still ask for. */
    function SmallestSnapshot(): (r: nat)
      requires Valid()
      reads this
      ensures r <= lastSequence && forall i :: 0 <= i < |snapshots| ==> r <= snapshots[i]
      ensures r == lastSequence || r in snapshots
    {
      if snapshots == [] then lastSequence else snapshots[0]
    }

    /** A compaction starts: a file of the given level is picked with all it drags along, and merged.  Readers, writers
        and flushes go on. */
    method BeginCompaction(level: nat, index: nat, limit: nat, maxOverlap: nat)
      requires Valid() && compacting.None?
      requires level + 1 < NumLevels == |current| && index < |current[level]|
      modifies this`compacting, this`nextFileNumber
      ensures Valid() && compacting.Some?
      ensures Begun(ucmp, current, compacting.value, level, index, limit, SmallestSnapshot(), old(nextFileNumber),
          nextFileNumber)
    {
      hide OneEach;
      hide SameReads;
      hide From;
      hide Good;
      hide UniqueNumbers;
      hide CompactsTo;
      hide PicksFor;
      hide Underway;
      hide Sound;
      var job, next := CompactLevel(level, index, limit, maxOverlap);
      OneOfEachNumber(ucmp, mem, imm, current, lastSequence, nextFileNumber, written, horizon, disturbed, history, job);
      StartPending(ucmp, mem, imm, current, lastSequence, nextFileNumber, written, horizon, disturbed, snapshots, job,
          next, SmallestSnapshot());
      compacting, nextFileNumber := Some(job), next;
    }

    method CompactLevel(level: nat, index: nat, limit: nat, maxOverlap: nat) returns (job: Job<U, V>, next: nat)
      requires Valid() && level + 1 < NumLevels == |current| && index < |current[level]|
      ensures Prepared(ucmp, current, job, nextFileNumber, next) && job.level == level
          && job.snapshot == SmallestSnapshot()
      ensures PicksFor(ucmp, current, level, current[level][index], limit, job.in0, job.in1)
    {
      hide Prepared;
      hide PicksFor;
      DistinctParts(Everything(mem, imm, current), From(current, 0));
      job, next := BackgroundCompaction(ucmp, current, level, index, limit, maxOverlap, SmallestSnapshot(),
          nextFileNumber);
    }

    /** Its results are installed in the version that is then the current one.  Reads of a key stay what they were
        unless an old value of it resurfaces; from then on nothing is promised about that key. */
    method FinishCompaction()
      requires Valid() && compacting.Some?
      modifies this`current, this`compacting, this`horizon, this`disturbed
      ensures var job := old(compacting.value);
              && job.level + 1 < |old(current)| && job.level + 1 < |job.input|
              && current == CompactionSteps.Compacted(ucmp, old(current), job.level, job.in0, job.in1, job.outputs)
              && forall k :: k in disturbed <==>
                  k in old(disturbed) || ResurfacesBy(ucmp, old(From(current, 0)), job, k)
      ensures Valid() && compacting == None && horizon == old(compacting.value.snapshot)
    {
      hide SameReads;
      hide From;
      hide Good;
      hide UniqueNumbers;
      hide ResurfacesBy;
      hide Pending;
      hide Sound;
      var job := compacting.value;
      var v' := InstallJob();
      CompactionSound(ucmp, mem, imm, current, lastSequence, nextFileNumber, written, horizon, disturbed, v',
          nextFileNumber, job.snapshot);
      disturbed := disturbed + Disturbed(From(current, 0), From(v', 0), job.snapshot);
      current, horizon, compacting := v', job.snapshot, None;
      NothingPending(ucmp, current, nextFileNumber, snapshots, horizon, lastSequence);
    }

    method InstallJob() returns (v': Version<U, V>)
      requires Valid() && compacting.Some?
      ensures var job := compacting.value;
              && job.level + 1 < |current| && job.level + 1 < |job.input|
              && v' == CompactionSteps.Compacted(ucmp, current, job.level, job.in0, job.in1, job.outputs)
              && Live(snapshots, job.snapshot, lastSequence) && horizon <= job.snapshot
              && forall k :: k in Disturbed(From(current, 0), From(v', 0), job.snapshot) <==>
                  ResurfacesBy(ucmp, From(current, 0), job, k)
      ensures Good(ucmp, v') && UniqueNumbers(v') && NumbersBelow(v', nextFileNumber) && From(v', 0) <= From(current, 0)
    {
      hide Pending;
      hide ResurfacesBy;
      hide SameReads;
      hide CompactionSteps.Compacted;
      DistinctParts(Everything(mem, imm, current), From(current, 0));
      InstallPending(ucmp, current, compacting.value, nextFileNumber, snapshots, horizon, lastSequence);
      v' := Install(ucmp, current, compacting.value);
    }

    /** A whole compaction, with nothing in between. */
    method Compact(level: nat, index: nat, limit: nat, maxOverlap: nat)
      returns (ghost in0: seq<File<U, V>>, ghost in1: seq<File<U, V>>)
      requires Valid() && compacting.None?
      requires level + 1 < NumLevels == |current| && index < |current[level]|
      modifies this`current, this`compacting, this`nextFileNumber, this`horizon, this`disturbed
      ensures Valid() && compacting == None
      ensures CompactsTo(ucmp, old(current), current, level, in0, in1, SmallestSnapshot())
      ensures PicksFor(ucmp, old(current), level, old(current[level][index]), limit, in0, in1)
      ensures OneEach(Contents(in0 + in1))
      ensures forall k :: k in disturbed <==>
          k in old(disturbed) || ResurfacesIn(ucmp, old(current), level, in0, in1, k, SmallestSnapshot())
    {
      hide OneEach;
      hide SameReads;
      hide From;
      hide Resurfaces;
      hide Pending;
      hide PicksFor;
      hide CompactsTo;
      hide Underway;
      hide Sound;
      BeginCompaction(level, index, limit, maxOverlap);
      in0, in1 := compacting.value.in0, compacting.value.in1;
      FinishCompaction();
    }

    method GetSnapshot() returns (s: nat)
      requires Valid()
      modifies this`snapshots
      ensures Valid() && s == lastSequence && snapshots == old(snapshots) + [s]
    {
      s := lastSequence;
      snapshots := snapshots + [s];
    }

    method ReleaseSnapshot(i: nat)
      requires Valid() && i < |snapshots|
      modifies this`snapshots
      ensures Valid() && snapshots == old(snapshots[..i] + snapshots[i + 1..])
    {
      snapshots := snapshots[..i] + snapshots[i + 1..];
    }
  }

  /** The compaction lets an old value of k resurface. */
  ghost predicate ResurfacesIn<U(!new), V(!new)>(ucmp: Comparator<U>, v: Version<U, V>, level: nat,
                                                 in0: seq<File<U, V>>, in1: seq<File<U, V>>, k: U, snapshot: nat)
    requires level + 1 < |v|
  {
    Resurfaces(From(v, 0), Contents(in0 + in1), LeftBehind(v, level, in1), BaseKeys(ucmp, v, level), k, snapshot)
  }

  lemma EmptyVersion<U(!new), V(!new)>(ucmp: Comparator<U>, v: Version<U, V>)
    requires TotalOrder(ucmp) && |v| == NumLevels && forall l :: 0 <= l < NumLevels ==> v[l] == []
    ensures Good(ucmp, v) && UniqueNumbers(v) && NumbersBelow(v, 2) && From(v, 0) == {}
  {
    assert LevelsByAge(v);
    GoodIf(ucmp, v);
    if e :| e in From(v, 0) { var l := FromLevel(v, 0, e); }
  }
}
