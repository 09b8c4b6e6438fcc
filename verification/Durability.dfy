/** Durability (db/db_impl.cc): what a crash leaves on disk, the log files and the tables the manifest
    names, always reads as all the writes that were completely logged. */
module Durability {
  import opened Order
  import opened InternalKeys
  import opened Options
  import opened Tables
  import opened Versions
  import opened Levels
  import opened Flush
  import opened Drops
  import Compactions
  import opened Database
  import opened Background
  import opened Linking
  import opened Picking
  import opened Interleaving
  import CompactionSteps

  // ----------------------------------------------------------------- batches, logs

  /** One log record: the updates of a group of writes, with the sequence number of the first. */
  datatype Batch<U, V> = Batch(sequence: nat, updates: seq<Update<U, V>>)

  /** A log file, by the records a reader gets from it (LogFiles.CutFile: a cut file gives the batches completely
      written before the cut), and how many of them are known to be on the disk itself. */
  datatype LogFile<U, V> = LogFile(number: nat, batches: seq<Batch<U, V>>, synced: nat)

  ghost function EntriesOfBatches<U(!new), V(!new)>(bs: seq<Batch<U, V>>): set<Entry<U, V>> {
    if bs == [] then {} else EntriesOfBatches(bs[..|bs| - 1]) + BatchSet(bs[|bs| - 1].updates, bs[|bs| - 1].sequence)
  }

  /** The batches use sequence numbers above lo and up to hi, each batch's behind those of the one before. */
  ghost predicate Rising<U(!new), V(!new)>(bs: seq<Batch<U, V>>, lo: nat, hi: nat) {
    if bs == [] then lo <= hi
    else
      var last := bs[|bs| - 1];
      last.sequence >= 1 && last.sequence + |last.updates| <= hi + 1
          && Rising(bs[..|bs| - 1], lo, last.sequence - 1)
  }

  /** The last sequence number a batch uses, or that of the end of the batch before if it has no updates. */
  function EndOf<U, V>(b: Batch<U, V>): nat {
    if b.sequence + |b.updates| == 0 then 0 else b.sequence + |b.updates| - 1
  }

  /** The largest sequence number of the batches, and of an earlier record of it. */
  function LastOf<U, V>(bs: seq<Batch<U, V>>, least: nat): nat {
    if bs != [] && EndOf(bs[|bs| - 1]) > least then EndOf(bs[|bs| - 1]) else least
  }

  lemma {:induction false} RisingAppend<U(!new), V(!new)>(a: seq<Batch<U, V>>, b: seq<Batch<U, V>>, lo: nat, mid: nat,
                                                          hi: nat)
    requires Rising(a, lo, mid) && Rising(b, mid, hi)
    ensures Rising(a + b, lo, hi)
  {
    if b == [] {
      assert a + b == a;
      RisingMore(a, lo, mid, hi);
    } else {
      RisingAppend(a, b[..|b| - 1], lo, mid, b[|b| - 1].sequence - 1);
      assert (a + b)[..|a + b| - 1] == a + b[..|b| - 1];
    }
  }

  lemma RisingMore<U(!new), V(!new)>(bs: seq<Batch<U, V>>, lo: nat, hi: nat, hi': nat)
    requires Rising(bs, lo, hi) && hi <= hi'
    ensures Rising(bs, lo, hi')
  {
  }

  lemma {:induction false} RisingSplit<U(!new), V(!new)>(a: seq<Batch<U, V>>, b: seq<Batch<U, V>>, lo: nat, hi: nat)
      returns (mid: nat)
    requires Rising(a + b, lo, hi)
    ensures Rising(a, lo, mid) && Rising(b, mid, hi)
    ensures b != [] ==> mid + 1 == b[0].sequence
    ensures b == [] ==> mid == hi
  {
    if b == [] {
      assert a + b == a;
      mid := hi;
    } else {
      assert (a + b)[..|a + b| - 1] == a + b[..|b| - 1];
      mid := RisingSplit(a, b[..|b| - 1], lo, b[|b| - 1].sequence - 1);
    }
  }

  lemma {:induction false} RisingEnds<U(!new), V(!new)>(bs: seq<Batch<U, V>>, lo: nat, hi: nat)
    requires Rising(bs, lo, hi)
    ensures lo <= hi && (bs != [] ==> lo <= EndOf(bs[|bs| - 1]) <= hi && Rising(bs, lo, EndOf(bs[|bs| - 1])))
  {
    if bs != [] { RisingEnds(bs[..|bs| - 1], lo, bs[|bs| - 1].sequence - 1); }
  }

  lemma {:induction false} BatchesAppend<U(!new), V(!new)>(a: seq<Batch<U, V>>, b: seq<Batch<U, V>>)
    ensures EntriesOfBatches(a + b) == EntriesOfBatches(a) + EntriesOfBatches(b)
  {
    if b == [] {
      assert a + b == a;
    } else {
      BatchesAppend(a, b[..|b| - 1]);
      assert (a + b)[..|a + b| - 1] == a + b[..|b| - 1];
    }
  }

  /** The lower bound may be taken lower. */
  lemma {:induction false} RisingLess<U(!new), V(!new)>(bs: seq<Batch<U, V>>, lo: nat, lo': nat, hi: nat)
    requires Rising(bs, lo, hi) && lo' <= lo
    ensures Rising(bs, lo', hi)
  {
    if bs != [] { RisingLess(bs[..|bs| - 1], lo, lo', bs[|bs| - 1].sequence - 1); }
  }

  /** Entries of rising batches are numbered within the batches' range, and all different. */
  lemma {:induction false} BatchesInRange<U(!new), V(!new)>(bs: seq<Batch<U, V>>, lo: nat, hi: nat)
    requires Rising(bs, lo, hi)
    ensures forall e :: e in EntriesOfBatches(bs) ==> lo < e.0.sequence <= hi
    ensures Distinct(EntriesOfBatches(bs))
  {
    if bs != [] {
      var last := bs[|bs| - 1];
      BatchesInRange(bs[..|bs| - 1], lo, last.sequence - 1);
      RisingEnds(bs[..|bs| - 1], lo, last.sequence - 1);
      BatchSequences(last.updates, last.sequence);
      LaterIsNewer(BatchSet(last.updates, last.sequence), EntriesOfBatches(bs[..|bs| - 1]), last.sequence - 1);
      DistinctTogether(BatchSet(last.updates, last.sequence), EntriesOfBatches(bs[..|bs| - 1]));
      assert EntriesOfBatches(bs) == BatchSet(last.updates, last.sequence) + EntriesOfBatches(bs[..|bs| - 1]);
    }
  }

  // ----------------------------------------------------------------------- log files

  ghost predicate Ascending<U(!new), V(!new)>(logs: seq<LogFile<U, V>>) {
    forall i, j :: 0 <= i < j < |logs| ==> logs[i].number < logs[j].number
  }

  /** The batches in the log files that recovery would read, oldest file first. */
  function Live<U, V>(logs: seq<LogFile<U, V>>, from: nat): seq<Batch<U, V>> {
    if logs == [] then []
    else Live(logs[..|logs| - 1], from) + if logs[|logs| - 1].number >= from then logs[|logs| - 1].batches else []
  }

  /** DeleteObsoleteFiles on log files. */
  function Kept<U, V>(logs: seq<LogFile<U, V>>, from: nat): seq<LogFile<U, V>> {
    if logs == [] then []
    else Kept(logs[..|logs| - 1], from) + if logs[|logs| - 1].number >= from then [logs[|logs| - 1]] else []
  }

  lemma {:induction false} LiveOfKept<U(!new), V(!new)>(logs: seq<LogFile<U, V>>, from: nat)
    ensures Live(Kept(logs, from), from) == Live(logs, from)
    ensures forall f :: f in Kept(logs, from) ==> f in logs && f.number >= from
    ensures Ascending(logs) ==> Ascending(Kept(logs, from))
  {
    if logs != [] {
      var init, last := logs[..|logs| - 1], logs[|logs| - 1];
      LiveOfKept(init, from);
      var kept := Kept(init, from);
      if last.number >= from {
        assert (kept + [last])[..|kept|] == kept;
      } else {
        assert Kept(logs, from) == kept;
      }
      forall f | f in kept ensures Ascending(logs) ==> f.number < last.number {
        var i :| 0 <= i < |init| && init[i] == f;
        assert logs[i] == f;
      }
      KeptAscends(logs, kept, last);
    }
  }

  lemma KeptAscends<U(!new), V(!new)>(logs: seq<LogFile<U, V>>, kept: seq<LogFile<U, V>>, last: LogFile<U, V>)
    requires Ascending(logs) ==> Ascending(kept) && forall f :: f in kept ==> f.number < last.number
    ensures Ascending(logs) ==> Ascending(kept + [last])
  {
  }

  /** If no file is older enough to be skipped, none is. */
  lemma {:induction false} LiveFromLater<U(!new), V(!new)>(logs: seq<LogFile<U, V>>, from: nat)
    requires forall f :: f in logs ==> f.number < from
    ensures Live(logs, from) == []
  {
    if logs != [] { LiveFromLater(logs[..|logs| - 1], from); }
  }

  // ------------------------------------------------------------------------ the state

  datatype Manifest<U, V> = Manifest(version: Version<U, V>, logNumber: nat, nextFile: nat, lastSequence: nat)

  /** What has happened, for the record: the sequence numbers up to which writes have been flushed and
      logged, the smallest snapshot of the last compaction, and the keys of which a compaction has let an old value
      resurface. */
  datatype History<!U(!new)> = History(flushedTo: nat, logged: nat, horizon: nat, disturbed: iset<U>)

  /** What was written and is not in the logs any more. */
  ghost function Flushed<U, V>(written: set<Entry<U, V>>, flushedTo: nat): set<Entry<U, V>> {
    set e | e in written && e.0.sequence <= flushedTo
  }

  ghost predicate PartsSynced<U(!new), V(!new)>(logs: seq<LogFile<U, V>>) {
    forall f :: f in logs ==> f.synced <= |f.batches|
  }

  /** Every table the manifest names is there, with its contents. */
  ghost predicate TablesHold<U(!new), V(!new)>(tables: map<nat, Entries<U, V>>, v: Version<U, V>) {
    forall l, f :: 0 <= l < |v| && f in v[l] ==> f.number in tables && tables[f.number] == f.entries
  }

  /** What recovery would find. */
  ghost function Durable<U(!new), V(!new)>(logs: seq<LogFile<U, V>>, m: Manifest<U, V>): set<Entry<U, V>> {
    EntriesOfBatches(Live(logs, m.logNumber)) + From(m.version, 0)
  }

  /** The disk is in order: the logs hold what was written after the last flush, and the tables read as all that was
      written before. */
  ghost predicate OnDisk<U(!new), V(!new)>(ucmp: Comparator<U>, logs: seq<LogFile<U, V>>,
                                           tables: map<nat, Entries<U, V>>, m: Manifest<U, V>,
                                           written: set<Entry<U, V>>, h: History<U>)
  {
    match h
    case History(flushedTo, logged, horizon, disturbed) =>
      && TotalOrder(ucmp) && logged < MaxSequence
      && Ascending(logs) && PartsSynced(logs) && m.logNumber < m.nextFile
      && Good(ucmp, m.version) && UniqueNumbers(m.version) && NumbersBelow(m.version, m.nextFile)
      && TablesHold(tables, m.version)
      && Rising(Live(logs, m.logNumber), flushedTo, logged) && logged == LastOf(Live(logs, m.logNumber), m.lastSequence)
      && UpTo(From(m.version, 0), flushedTo) && flushedTo <= m.lastSequence
      && Distinct(From(m.version, 0)) && Distinct(written)
      && written == EntriesOfBatches(Live(logs, m.logNumber)) + Flushed(written, flushedTo)
      && Faithful(disturbed, Flushed(written, flushedTo), From(m.version, 0), horizon)
      && Compactions.OneEach(written) && From(m.version, 0) <= Flushed(written, flushedTo)
  }

  /** So it reads as everything that was completely logged. */
  lemma DiskReads<U(!new), V(!new)>(ucmp: Comparator<U>, logs: seq<LogFile<U, V>>, tables: map<nat, Entries<U, V>>,
                                    m: Manifest<U, V>, written: set<Entry<U, V>>, h: History<U>)
    requires OnDisk(ucmp, logs, tables, m, written, h)
    ensures Faithful(h.disturbed, written, Durable(logs, m), h.horizon)
    ensures UpTo(written, h.logged) && UpTo(Durable(logs, m), h.logged)
    ensures Distinct(written) && Distinct(Durable(logs, m))
    ensures h.flushedTo <= m.lastSequence <= h.logged
  {
    hide EntriesOfBatches;
    hide From;
    hide Good;
    var A, W, B := EntriesOfBatches(Live(logs, m.logNumber)), Flushed(written, h.flushedTo), From(m.version, 0);
    BatchesInRange(Live(logs, m.logNumber), h.flushedTo, h.logged);
    RisingEnds(Live(logs, m.logNumber), h.flushedTo, h.logged);
    LaterIsNewer(A, W, h.flushedTo);
    LaterIsNewer(A, B, h.flushedTo);
    DistinctTogether(A, B);
    forall k | k !in h.disturbed ensures SameReads(written, Durable(logs, m), k, h.horizon) {
      assert SameReads(W, B, k, h.horizon);
      OnTop(A, W, B, k, h.horizon);
    }
  }

  /** The batches of the current log that the memtable has. */
  function Applied<U, V>(batches: seq<Batch<U, V>>, appended: bool): seq<Batch<U, V>> {
    if appended && batches != [] then batches[..|batches| - 1] else batches
  }

  /** A running process: mem mirrors the current log, imm the older live ones; appended says that the
      last record of the current log has been written but not yet inserted. */
  ghost predicate InMemory<U(!new), V(!new)>(ucmp: Comparator<U>, logs: seq<LogFile<U, V>>, m: Manifest<U, V>,
                                             h: History<U>, mem: Entries<U, V>, imm: Option<Entries<U, V>>, last: nat,
                                             next: nat, appended: bool)
  {
    match logs
    case _ =>
      && logs != [] && m.logNumber <= logs[|logs| - 1].number < next && m.nextFile <= next && m.lastSequence <= last
      && AllButOne(logs[|logs| - 1].batches, last, h.logged, appended)
      && Ordered(ucmp, mem) && (imm.Some? ==> Ordered(ucmp, imm.value))
      && SetOf(mem) == EntriesOfBatches(Applied(logs[|logs| - 1].batches, appended))
      && ImmSet(imm) == EntriesOfBatches(Live(logs[..|logs| - 1], m.logNumber))
      && Rising(Live(logs[..|logs| - 1], m.logNumber) + Applied(logs[|logs| - 1].batches, appended), h.flushedTo, last)
  }

  /** Everything logged has been applied, but for the batch just appended. */
  ghost predicate AllButOne<U, V>(batches: seq<Batch<U, V>>, last: nat, logged: nat, appended: bool) {
    if appended
    then
      && batches != [] && batches[|batches| - 1].sequence == last + 1
      && logged == last + |batches[|batches| - 1].updates|
    else last == logged
  }

  lemma LiveEndsWithCurrent<U(!new), V(!new)>(logs: seq<LogFile<U, V>>, from: nat)
    requires logs != [] && logs[|logs| - 1].number >= from
    ensures Live(logs, from) == Live(logs[..|logs| - 1], from) + logs[|logs| - 1].batches
  {
  }

  /** The parts of a running store: tables, then the older live logs, then the current one. */
  lemma Layers<U(!new), V(!new)>(ucmp: Comparator<U>, logs: seq<LogFile<U, V>>, tables: map<nat, Entries<U, V>>,
                                 m: Manifest<U, V>, written: set<Entry<U, V>>, h: History<U>, mem: Entries<U, V>,
                                 imm: Option<Entries<U, V>>, last: nat, next: nat, appended: bool) returns (mid: nat)
    requires OnDisk(ucmp, logs, tables, m, written, h) && InMemory(ucmp, logs, m, h, mem, imm, last, next, appended)
    ensures Rising(Live(logs[..|logs| - 1], m.logNumber), h.flushedTo, mid)
    ensures Rising(Applied(logs[|logs| - 1].batches, appended), mid, last)
    ensures Rising(logs[|logs| - 1].batches, mid, h.logged)
    ensures h.flushedTo <= mid <= last <= h.logged
    ensures forall e :: e in ImmSet(imm) ==> h.flushedTo < e.0.sequence <= mid
    ensures forall e :: e in SetOf(mem) ==> mid < e.0.sequence <= last
    ensures Distinct(SetOf(mem)) && Distinct(ImmSet(imm))
  {
    hide EntriesOfBatches;
    var older, cur := Live(logs[..|logs| - 1], m.logNumber), logs[|logs| - 1].batches;
    var applied := Applied(cur, appended);
    mid := RisingSplit(older, applied, h.flushedTo, last);
    RisingEnds(older, h.flushedTo, mid);
    RisingEnds(applied, mid, last);
    BatchesInRange(older, h.flushedTo, mid);
    BatchesInRange(applied, mid, last);
  }

  /** A running store is healthy, and when nothing is in flight its reads are those of all that was logged. */
  lemma RunningIsHealthy<U(!new), V(!new)>(ucmp: Comparator<U>, logs: seq<LogFile<U, V>>,
                                           tables: map<nat, Entries<U, V>>, m: Manifest<U, V>,
                                           written: set<Entry<U, V>>, h: History<U>, mem: Entries<U, V>,
                                           imm: Option<Entries<U, V>>, last: nat, next: nat, appended: bool)
    requires OnDisk(ucmp, logs, tables, m, written, h) && InMemory(ucmp, logs, m, h, mem, imm, last, next, appended)
    ensures Healthy(ucmp, mem, imm, m.version, last, next)
    ensures !appended ==>
        Everything(mem, imm, m.version) == Durable(logs, m) && last == h.logged
        && Faithful(h.disturbed, written, Everything(mem, imm, m.version), h.horizon)
  {
    hide EntriesOfBatches;
    hide Rising;
    hide From;
    hide Good;
    hide Faithful;
    var mid := Layers(ucmp, logs, tables, m, written, h, mem, imm, last, next, appended);
    var M, I, B := SetOf(mem), ImmSet(imm), From(m.version, 0);
    LaterIsNewer(I, B, h.flushedTo);
    DistinctTogether(I, B);
    LaterIsNewer(M, I + B, mid);
    DistinctTogether(M, I + B);
    BelowNext(m.version, m.nextFile, next);
    if !appended {
      LiveEndsWithCurrent(logs, m.logNumber);
      BatchesAppend(Live(logs[..|logs| - 1], m.logNumber), logs[|logs| - 1].batches);
      assert Everything(mem, imm, m.version) == Durable(logs, m);
      DiskReads(ucmp, logs, tables, m, written, h);
    }
  }

  lemma BelowNext<U(!new), V(!new)>(v: Version<U, V>, a: nat, b: nat)
    requires NumbersBelow(v, a) && a <= b
    ensures NumbersBelow(v, b)
  {
  }

  // ------------------------------------------------------------------------ logging

  function AppendTo<U, V>(logs: seq<LogFile<U, V>>, b: Batch<U, V>, sync: bool): seq<LogFile<U, V>>
    requires logs != []
  {
    var n := |logs| - 1;
    var batches := logs[n].batches + [b];
    logs[n := LogFile(logs[n].number, batches, if sync then |batches| else logs[n].synced)]
  }

  lemma AppendToIs<U(!new), V(!new)>(logs: seq<LogFile<U, V>>, b: Batch<U, V>, sync: bool)
    requires logs != []
    ensures var logs' := AppendTo(logs, b, sync);
            && |logs'| == |logs| && logs'[..|logs| - 1] == logs[..|logs| - 1]
            && var was, file := logs[|logs| - 1], logs'[|logs| - 1];
               && file.number == was.number && file.batches == was.batches + [b]
               && file.synced == if sync then |file.batches| else was.synced
  {
  }

  lemma LiveOfAppend<U(!new), V(!new)>(logs: seq<LogFile<U, V>>, b: Batch<U, V>, sync: bool, from: nat)
    requires logs != [] && logs[|logs| - 1].number >= from
    ensures AppendTo(logs, b, sync)[..|logs| - 1] == logs[..|logs| - 1]
    ensures Live(AppendTo(logs, b, sync), from) == Live(logs, from) + [b]
    ensures Ascending(logs) ==> Ascending(AppendTo(logs, b, sync))
    ensures PartsSynced(logs) ==> PartsSynced(AppendTo(logs, b, sync))
  {
    var logs' := AppendTo(logs, b, sync);
    assert logs'[..|logs'| - 1] == logs[..|logs| - 1];
    LiveEndsWithCurrent(logs, from);
    LiveEndsWithCurrent(logs', from);
    assert logs[|logs| - 1] in logs;
    forall f | f in logs' ensures PartsSynced(logs) ==> f.synced <= |f.batches| {
      var i :| 0 <= i < |logs'| && logs'[i] == f;
      if i < |logs| - 1 { assert f == logs[i]; }
    }
  }

  lemma OneMoreBatch<U(!new), V(!new)>(bs: seq<Batch<U, V>>, b: Batch<U, V>, lo: nat, hi: nat, least: nat)
    requires Rising(bs, lo, hi) && b.sequence == hi + 1 && hi == LastOf(bs, least)
    ensures Rising(bs + [b], lo, hi + |b.updates|) && hi + |b.updates| == LastOf(bs + [b], least)
    ensures EntriesOfBatches(bs + [b]) == EntriesOfBatches(bs) + BatchSet(b.updates, b.sequence)
  {
    assert (bs + [b])[..|bs + [b]| - 1] == bs;
  }

  /** A batch appended to the log is part of what recovery finds, whether or not it reaches the memtable. */
  lemma AppendOnDisk<U(!new), V(!new)>(ucmp: Comparator<U>, logs: seq<LogFile<U, V>>, tables: map<nat, Entries<U, V>>,
                                       m: Manifest<U, V>, written: set<Entry<U, V>>, h: History<U>, b: Batch<U, V>,
                                       sync: bool)
    requires OnDisk(ucmp, logs, tables, m, written, h) && logs != [] && logs[|logs| - 1].number >= m.logNumber
    requires b.sequence == h.logged + 1 && h.logged + |b.updates| < MaxSequence
    ensures OnDisk(ucmp, AppendTo(logs, b, sync), tables, m, BatchSet(b.updates, b.sequence) + written,
        h.(logged := h.logged + |b.updates|))
  {
    hide Rising;
    hide EntriesOfBatches;
    hide From;
    hide Good;
    hide UniqueNumbers;
    hide NumbersBelow;
    hide TablesHold;
    hide Faithful;
    hide PartsSynced;
    hide Ascending;
    hide AppendTo;
    hide LastOf;
    var E := BatchSet(b.updates, b.sequence);
    LiveOfAppend(logs, b, sync, m.logNumber);
    OneMoreBatch(Live(logs, m.logNumber), b, h.flushedTo, h.logged, m.lastSequence);
    BatchSequences(b.updates, b.sequence);
    DiskReads(ucmp, logs, tables, m, written, h);
    LaterIsNewer(E, written, h.logged);
    DistinctTogether(E, written);
    assert Flushed(E + written, h.flushedTo) == Flushed(written, h.flushedTo);
  }

  lemma AppendInMemory<U(!new), V(!new)>(ucmp: Comparator<U>, logs: seq<LogFile<U, V>>, m: Manifest<U, V>,
                                         h: History<U>, mem: Entries<U, V>, imm: Option<Entries<U, V>>, last: nat,
                                         next: nat, b: Batch<U, V>, sync: bool)
    requires InMemory(ucmp, logs, m, h, mem, imm, last, next, false) && b.sequence == last + 1
    ensures InMemory(ucmp, AppendTo(logs, b, sync), m, h.(logged := h.logged + |b.updates|), mem, imm, last, next, true)
  {
    LiveOfAppend(logs, b, sync, m.logNumber);
    var cur := logs[|logs| - 1].batches;
    assert (cur + [b])[..|cur|] == cur;
  }

  /** The appended batch reaches the memtable. */
  lemma ApplyInMemory<U(!new), V(!new)>(ucmp: Comparator<U>, logs: seq<LogFile<U, V>>, tables: map<nat, Entries<U, V>>,
                                        m: Manifest<U, V>, written: set<Entry<U, V>>, h: History<U>, mem: Entries<U, V>,
                                        imm: Option<Entries<U, V>>, last: nat, next: nat, mem': Entries<U, V>)
    requires OnDisk(ucmp, logs, tables, m, written, h) && InMemory(ucmp, logs, m, h, mem, imm, last, next, true)
    requires var cur := logs[|logs| - 1].batches;
        Ordered(ucmp, mem') && SetOf(mem') == SetOf(mem) + BatchSet(cur[|cur| - 1].updates, cur[|cur| - 1].sequence)
    ensures InMemory(ucmp, logs, m, h, mem', imm, h.logged, next, false)
  {
    var older, cur := Live(logs[..|logs| - 1], m.logNumber), logs[|logs| - 1].batches;
    var b := cur[|cur| - 1];
    assert cur == cur[..|cur| - 1] + [b];
    LiveEndsWithCurrent(logs, m.logNumber);
    assert EntriesOfBatches(cur) == EntriesOfBatches(cur[..|cur| - 1]) + BatchSet(b.updates, b.sequence);
  }

  // ------------------------------------------------------------- switching and flushing

  lemma NewLog<U(!new), V(!new)>(logs: seq<LogFile<U, V>>, number: nat, from: nat)
    requires Ascending(logs) && forall f :: f in logs ==> f.number < number
    ensures Ascending(logs + [LogFile(number, [], 0)])
    ensures PartsSynced(logs) ==> PartsSynced(logs + [LogFile(number, [], 0)])
    ensures Live(logs + [LogFile(number, [], 0)], from) == Live(logs, from)
    ensures (logs + [LogFile(number, [], 0)])[..|logs|] == logs
  {
    var logs' := logs + [LogFile(number, [], 0)];
    assert logs'[..|logs'| - 1] == logs;
    assert Live(logs, from) + [] == Live(logs, from);
  }

  lemma LogsBelow<U(!new), V(!new)>(logs: seq<LogFile<U, V>>, next: nat)
    requires Ascending(logs) && logs != [] && logs[|logs| - 1].number < next
    ensures forall f :: f in logs ==> f.number < next
  {
    forall f | f in logs ensures f.number < next {
      var i :| 0 <= i < |logs| && logs[i] == f;
    }
  }

  lemma SwitchOnDisk<U(!new), V(!new)>(ucmp: Comparator<U>, logs: seq<LogFile<U, V>>, tables: map<nat, Entries<U, V>>,
                                       m: Manifest<U, V>, written: set<Entry<U, V>>, h: History<U>, number: nat)
    requires OnDisk(ucmp, logs, tables, m, written, h) && forall f :: f in logs ==> f.number < number
    ensures OnDisk(ucmp, logs + [LogFile(number, [], 0)], tables, m, written, h)
  {
    hide Good;
    hide Faithful;
    hide TablesHold;
    NewLog(logs, number, m.logNumber);
  }

  lemma NothingOlder<U(!new), V(!new)>(older: seq<Batch<U, V>>, cur: seq<Batch<U, V>>)
    requires EntriesOfBatches(older) == {}
    ensures EntriesOfBatches(older + cur) == EntriesOfBatches(cur)
  {
    BatchesAppend(older, cur);
  }

  lemma Empties<U(!new), V(!new)>()
    ensures SetOf<U, V>([]) == {} && ImmSet<U, V>(None) == {} && EntriesOfBatches<U, V>([]) == {}
  {
    var none: Entries<U, V> := [];
    assert SetOf(none) == {};
  }

  /** A new log for a new memtable; the full one waits to be flushed. */
  lemma SwitchInMemory<U(!new), V(!new)>(ucmp: Comparator<U>, logs: seq<LogFile<U, V>>, m: Manifest<U, V>,
                                         h: History<U>, mem: Entries<U, V>, last: nat, next: nat)
    requires Ascending(logs) && InMemory(ucmp, logs, m, h, mem, None, last, next, false)
    ensures InMemory(ucmp, logs + [LogFile(next, [], 0)], m, h, [], Some(mem), last, next + 1, false)
  {
    hide EntriesOfBatches;
    hide Rising;
    hide SetOf;
    Empties<U, V>();
    var older, cur := Live(logs[..|logs| - 1], m.logNumber), logs[|logs| - 1].batches;
    var logs' := logs + [LogFile(next, [], 0)];
    LogsBelow(logs, next);
    NewLog(logs, next, m.logNumber);
    LiveEndsWithCurrent(logs, m.logNumber);
    NothingOlder(older, cur);
    assert logs'[|logs'| - 1].batches == [] && logs'[..|logs'| - 1] == logs;
    assert older + cur + [] == older + cur;
  }

  /** The flushed memtable's log is no longer needed, and the current log is all that recovery must read. */
  lemma CurrentOnly<U(!new), V(!new)>(logs: seq<LogFile<U, V>>)
    requires logs != [] && Ascending(logs)
    ensures Live(logs, logs[|logs| - 1].number) == logs[|logs| - 1].batches
    ensures Live(logs[..|logs| - 1], logs[|logs| - 1].number) == []
  {
    forall f | f in logs[..|logs| - 1] ensures f.number < logs[|logs| - 1].number {
      var i :| 0 <= i < |logs| - 1 && logs[..|logs| - 1][i] == f;
    }
    LiveFromLater(logs[..|logs| - 1], logs[|logs| - 1].number);
    LiveEndsWithCurrent(logs, logs[|logs| - 1].number);
    assert [] + logs[|logs| - 1].batches == logs[|logs| - 1].batches;
  }

  /** After the flush recovery reads one log less, and the table instead. */
  lemma InstallOnDisk<U(!new), V(!new)>(ucmp: Comparator<U>, logs: seq<LogFile<U, V>>, tables: map<nat, Entries<U, V>>,
                                        m: Manifest<U, V>, written: set<Entry<U, V>>, h: History<U>, mid: nat,
                                        m': Manifest<U, V>)
    requires OnDisk(ucmp, logs, tables, m, written, h) && logs != []
        && m'.logNumber == logs[|logs| - 1].number >= m.logNumber
    requires m'.logNumber < m'.nextFile
    requires Rising(Live(logs[..|logs| - 1], m.logNumber), h.flushedTo, mid) && mid <= m'.lastSequence
    requires Rising(logs[|logs| - 1].batches, mid, h.logged)
        && h.logged == LastOf(logs[|logs| - 1].batches, m'.lastSequence)
    requires Good(ucmp, m'.version) && UniqueNumbers(m'.version) && NumbersBelow(m'.version, m'.nextFile)
        && TablesHold(tables, m'.version)
    requires From(m'.version, 0) == From(m.version, 0) + EntriesOfBatches(Live(logs[..|logs| - 1], m.logNumber))
    ensures OnDisk(ucmp, logs, tables, m', written, h.(flushedTo := mid))
  {
    hide Rising;
    hide From;
    hide EntriesOfBatches;
    hide Good;
    hide UniqueNumbers;
    hide NumbersBelow;
    hide TablesHold;
    hide LastOf;
    hide SameReads;
    hide Ascending;
    hide PartsSynced;
    var older, cur := Live(logs[..|logs| - 1], m.logNumber), logs[|logs| - 1].batches;
    CurrentOnlyIf(logs);
    LiveEndsWithCurrent(logs, m.logNumber);
    BatchesAppend(older, cur);
    BatchesInRange(older, h.flushedTo, mid);
    BatchesInRange(cur, mid, h.logged);
    RisingEnds(older, h.flushedTo, mid);
    var A, W, B := EntriesOfBatches(older), Flushed(written, h.flushedTo), From(m.version, 0);
    assert Flushed(written, mid) == A + W;
    LaterIsNewer(A, W, h.flushedTo);
    LaterIsNewer(A, B, h.flushedTo);
    DistinctTogether(A, B);
    assert From(m'.version, 0) == A + B;
    forall k | k !in h.disturbed ensures SameReads(A + W, A + B, k, h.horizon) {
      assert SameReads(W, B, k, h.horizon);
      OnTop(A, W, B, k, h.horizon);
    }
  }

  lemma CurrentOnlyIf<U(!new), V(!new)>(logs: seq<LogFile<U, V>>)
    requires logs != []
    ensures Ascending(logs) ==> Live(logs, logs[|logs| - 1].number) == logs[|logs| - 1].batches
  {
    if Ascending(logs) { CurrentOnly(logs); }
  }

  lemma InstallInMemory<U(!new), V(!new)>(ucmp: Comparator<U>, logs: seq<LogFile<U, V>>, m: Manifest<U, V>,
                                          h: History<U>, mem: Entries<U, V>, imm: Option<Entries<U, V>>, last: nat,
                                          next: nat, appended: bool, mid: nat, m': Manifest<U, V>)
    requires Ascending(logs) && InMemory(ucmp, logs, m, h, mem, imm, last, next, appended)
    requires Rising(Applied(logs[|logs| - 1].batches, appended), mid, last)
    requires m'.logNumber == logs[|logs| - 1].number && m'.nextFile <= next && m'.lastSequence <= last
    ensures InMemory(ucmp, logs, m', h.(flushedTo := mid), mem, None, last, next, appended)
  {
    hide Rising;
    hide SetOf;
    Empties<U, V>();
    CurrentOnly(logs);
    assert [] + Applied(logs[|logs| - 1].batches, appended) == Applied(logs[|logs| - 1].batches, appended);
  }

  lemma InstallKeeps<U(!new), V(!new)>(ucmp: Comparator<U>, logs: seq<LogFile<U, V>>, tables: map<nat, Entries<U, V>>,
                                       m: Manifest<U, V>, written: set<Entry<U, V>>, h: History<U>, mem: Entries<U, V>,
                                       imm: Entries<U, V>, last: nat, next: nat, appended: bool, v': Version<U, V>)
    returns (mid: nat)
    requires OnDisk(ucmp, logs, tables, m, written, h)
        && InMemory(ucmp, logs, m, h, mem, Some(imm), last, next, appended)
    requires Good(ucmp, v') && UniqueNumbers(v') && NumbersBelow(v', next) && TablesHold(tables, v')
        && From(v', 0) == From(m.version, 0) + SetOf(imm)
    ensures OnDisk(ucmp, logs, tables, Manifest(v', logs[|logs| - 1].number, next, last), written, h.(flushedTo := mid))
    ensures InMemory(ucmp, logs, Manifest(v', logs[|logs| - 1].number, next, last), h.(flushedTo := mid), mem, None,
        last, next, appended)
  {
    hide Good;
    hide UniqueNumbers;
    hide NumbersBelow;
    hide TablesHold;
    hide Faithful;
    hide EntriesOfBatches;
    hide Rising;
    var m' := Manifest(v', logs[|logs| - 1].number, next, last);
    mid := Layers(ucmp, logs, tables, m, written, h, mem, Some(imm), last, next, appended);
    LastIsLogged(logs[|logs| - 1].batches, mid, last, h.logged, appended);
    InstallOnDisk(ucmp, logs, tables, m, written, h, mid, m');
    InstallInMemory(ucmp, logs, m, h, mem, Some(imm), last, next, appended, mid, m');
  }

  /** With the process's last number in the manifest, the current log gives the rest. */
  lemma LastIsLogged<U(!new), V(!new)>(bs: seq<Batch<U, V>>, lo: nat, last: nat, logged: nat, appended: bool)
    requires Rising(bs, lo, logged) && AllButOne(bs, last, logged, appended)
    ensures LastOf(bs, last) == logged
  {
    RisingEnds(bs, lo, logged);
  }

  // --------------------------------------------------------- compacting, cleaning up

  /** History after a compaction. */
  ghost function HistoryAfter<U(!new), V(!new)>(h: History<U>, v: Version<U, V>, v': Version<U, V>, snapshot: nat):
      History<U>
  {
    h.(horizon := snapshot, disturbed := h.disturbed + Disturbed(From(v, 0), From(v', 0), snapshot))
  }

  lemma CompactOnDisk<U(!new), V(!new)>(ucmp: Comparator<U>, logs: seq<LogFile<U, V>>, tables: map<nat, Entries<U, V>>,
                                        m: Manifest<U, V>, written: set<Entry<U, V>>, h: History<U>, m': Manifest<U, V>,
                                        tables': map<nat, Entries<U, V>>, snapshot: nat)
    requires OnDisk(ucmp, logs, tables, m, written, h) && h.horizon <= snapshot
    requires Good(ucmp, m'.version) && UniqueNumbers(m'.version) && NumbersBelow(m'.version, m'.nextFile)
        && TablesHold(tables', m'.version)
    requires m'.logNumber == m.logNumber < m'.nextFile && m.lastSequence <= m'.lastSequence <= h.logged
    requires From(m'.version, 0) <= From(m.version, 0)
    ensures OnDisk(ucmp, logs, tables', m', written, HistoryAfter(h, m.version, m'.version, snapshot))
  {
    hide Good;
    hide UniqueNumbers;
    hide NumbersBelow;
    hide TablesHold;
    hide From;
    hide EntriesOfBatches;
    hide Rising;
    hide Ascending;
    hide PartsSynced;
    var W, B, B' := Flushed(written, h.flushedTo), From(m.version, 0), From(m'.version, 0);
    DistinctParts(B, B');
    forall k | k !in h.disturbed + Disturbed(B, B', snapshot) ensures SameReads(W, B', k, snapshot) {
      assert SameReads(W, B, k, h.horizon) && SameReads(B, B', k, snapshot);
      SameReadsTrans(W, B, B', k, h.horizon, snapshot);
    }
  }

  lemma CompactInMemory<U(!new), V(!new)>(ucmp: Comparator<U>, logs: seq<LogFile<U, V>>, m: Manifest<U, V>,
                                          h: History<U>, mem: Entries<U, V>, imm: Option<Entries<U, V>>, last: nat,
                                          next: nat, appended: bool, m': Manifest<U, V>, next': nat, snapshot: nat)
    requires InMemory(ucmp, logs, m, h, mem, imm, last, next, appended)
    requires m'.logNumber == m.logNumber && m'.nextFile <= next' && next <= next' && m'.lastSequence <= last
    ensures InMemory(ucmp, logs, m', HistoryAfter(h, m.version, m'.version, snapshot), mem, imm, last, next', appended)
  {
  }

  /** The next file number may be skipped. */
  lemma MoreInMemory<U(!new), V(!new)>(ucmp: Comparator<U>, logs: seq<LogFile<U, V>>, m: Manifest<U, V>, h: History<U>,
                                       mem: Entries<U, V>, imm: Option<Entries<U, V>>, last: nat, next: nat,
                                       appended: bool, next': nat)
    requires InMemory(ucmp, logs, m, h, mem, imm, last, next, appended) && next <= next'
    ensures InMemory(ucmp, logs, m, h, mem, imm, last, next', appended)
  {
  }

  /** What DeleteObsoleteFiles keeps of the tables. */
  ghost predicate KeepsLive<U(!new), V(!new)>(tables: map<nat, Entries<U, V>>, tables': map<nat, Entries<U, V>>,
                                              v: Version<U, V>)
  {
    && tables'.Keys <= tables.Keys && (forall n :: n in tables' ==> tables'[n] == tables[n])
    && forall l, f :: 0 <= l < |v| && f in v[l] && f.number in tables ==> f.number in tables'
  }

  lemma DeleteOnDisk<U(!new), V(!new)>(ucmp: Comparator<U>, logs: seq<LogFile<U, V>>, tables: map<nat, Entries<U, V>>,
                                       m: Manifest<U, V>, written: set<Entry<U, V>>, h: History<U>,
                                       tables': map<nat, Entries<U, V>>)
    requires OnDisk(ucmp, logs, tables, m, written, h) && KeepsLive(tables, tables', m.version)
    ensures OnDisk(ucmp, Kept(logs, m.logNumber), tables', m, written, h)
  {
    LiveOfKept(logs, m.logNumber);
  }

  lemma DeleteInMemory<U(!new), V(!new)>(ucmp: Comparator<U>, logs: seq<LogFile<U, V>>, m: Manifest<U, V>,
                                         h: History<U>, mem: Entries<U, V>, imm: Option<Entries<U, V>>, last: nat,
                                         next: nat, appended: bool)
    requires InMemory(ucmp, logs, m, h, mem, imm, last, next, appended)
    ensures InMemory(ucmp, Kept(logs, m.logNumber), m, h, mem, imm, last, next, appended)
  {
    var n := |logs| - 1;
    var kept := Kept(logs, m.logNumber);
    assert kept == Kept(logs[..n], m.logNumber) + [logs[n]];
    assert kept[..|kept| - 1] == Kept(logs[..n], m.logNumber);
    LiveOfKept(logs[..n], m.logNumber);
  }

  /** A table that the manifest does not name may come, go or change. */
  lemma OtherTables<U(!new), V(!new)>(ucmp: Comparator<U>, logs: seq<LogFile<U, V>>, tables: map<nat, Entries<U, V>>,
                                      m: Manifest<U, V>, written: set<Entry<U, V>>, h: History<U>, number: nat,
                                      es: Entries<U, V>)
    requires OnDisk(ucmp, logs, tables, m, written, h) && m.nextFile <= number
    ensures OnDisk(ucmp, logs, tables[number := es], m, written, h)
  {
  }

  // ------------------------------------------------------------------------ recovery

  /** The version being rebuilt: a good one that holds exactly S, whose sequence numbers end at hi. */
  ghost predicate Rebuilt<U(!new), V(!new)>(ucmp: Comparator<U>, v: Version<U, V>, tables: map<nat, Entries<U, V>>,
                                            next: nat, S: set<Entry<U, V>>, hi: nat)
  {
    match hi
    case _ =>
      && TotalOrder(ucmp) && Good(ucmp, v) && UniqueNumbers(v) && NumbersBelow(v, next) && TablesHold(tables, v)
      && From(v, 0) == S && UpTo(S, hi)
  }

  /** A memtable of later entries goes to level 0. */
  lemma FlushRebuilt<U(!new), V(!new)>(ucmp: Comparator<U>, v: Version<U, V>, tables: map<nat, Entries<U, V>>,
                                       next: nat, S: set<Entry<U, V>>, lo: nat, hi: nat, mem: Entries<U, V>, size: nat)
    requires Rebuilt(ucmp, v, tables, next, S, lo) && Ordered(ucmp, mem) && mem != [] && lo <= hi
    requires forall e :: e in SetOf(mem) ==> lo < e.0.sequence <= hi
    ensures Rebuilt(ucmp, v[0 := Insert(ucmp, TableOf(next, size, mem), v[0])], tables[next := mem], next + 1,
        S + SetOf(mem), hi)
  {
    var f := TableOf(next, size, mem);
    assert EntriesOf(f) == SetOf(mem);
    LaterIsNewer(SetOf(mem), S, lo);
    FlushKeepsGood(ucmp, v, f, 0);
    FlushKeepsNumbers(ucmp, v, f, 0);
    TableAdded(ucmp, v, tables, next, f);
  }

  lemma TableAdded<U(!new), V(!new)>(ucmp: Comparator<U>, v: Version<U, V>, tables: map<nat, Entries<U, V>>, next: nat,
                                     f: File<U, V>)
    requires |v| > 0 && TablesHold(tables, v) && NumbersBelow(v, next) && f.number == next
    ensures TablesHold(tables[next := f.entries], v[0 := Insert(ucmp, f, v[0])])
  {
    var v' := v[0 := Insert(ucmp, f, v[0])];
    forall l, g: File<U, V> | 0 <= l < |v'| && g in v'[l]
      ensures g.number in tables[next := f.entries] && tables[next := f.entries][g.number] == g.entries
    {
      if l == 0 { InsertHas(ucmp, f, v[0], g); }
    }
  }

  /** The tables numbered below next are untouched. */
  ghost predicate Agrees<U(!new), V(!new)>(tables: map<nat, Entries<U, V>>, tables': map<nat, Entries<U, V>>, next: nat)
  {
    forall n :: n in tables && n < next ==> n in tables' && tables'[n] == tables[n]
  }

  /** Level 0 may have more files, the other levels are as they were. */
  ghost predicate OnlyLevel0<U(!new), V(!new)>(v: Version<U, V>, v': Version<U, V>) {
    && |v'| == |v|
    && (forall l :: 0 < l < |v| ==> v'[l] == v[l])
    && (|v| > 0 ==> forall f :: f in v[0] ==> f in v'[0])
  }

  lemma OneMoreAtLevel0<U(!new), V(!new)>(ucmp: Comparator<U>, v: Version<U, V>, f: File<U, V>)
    requires |v| > 0
    ensures OnlyLevel0(v, v[0 := Insert(ucmp, f, v[0])])
  {
    forall g | g in v[0] ensures g in Insert(ucmp, f, v[0]) { InsertHas(ucmp, f, v[0], g); }
  }

  /** WriteLevel0Table without a base version: always to level 0; an empty memtable leaves no table. */
  method WriteToLevel0<U(!new), V(!new)>(ucmp: Comparator<U>, v: Version<U, V>, tables: map<nat, Entries<U, V>>,
                                         next: nat, mem: Entries<U, V>, ghost S: set<Entry<U, V>>, ghost lo: nat,
                                         ghost hi: nat)
    returns (v': Version<U, V>, tables': map<nat, Entries<U, V>>, next': nat)
    requires Rebuilt(ucmp, v, tables, next, S, lo) && Ordered(ucmp, mem) && lo <= hi
    requires forall e :: e in SetOf(mem) ==> lo < e.0.sequence <= hi
    ensures Rebuilt(ucmp, v', tables', next', S + SetOf(mem), hi) && next <= next' && Agrees(tables, tables', next)
    ensures OnlyLevel0(v, v') && tables'.Keys <= tables.Keys + {next}
  {
    v', tables', next' := v, tables, next + 1;
    if mem != [] {
      var size: nat := *;
      FlushRebuilt(ucmp, v, tables, next, S, lo, hi, mem, size);
      HasLevels(ucmp, v, tables, next, S, lo);
      OneMoreAtLevel0(ucmp, v, TableOf(next, size, mem));
      v' := v[0 := Insert(ucmp, TableOf(next, size, mem), v[0])];
      tables' := tables[next := mem];
    } else {
      NothingToFlush(ucmp, v, tables, next, S, lo, hi);
    }
  }

  lemma HasLevels<U(!new), V(!new)>(ucmp: Comparator<U>, v: Version<U, V>, tables: map<nat, Entries<U, V>>, next: nat,
                                    S: set<Entry<U, V>>, lo: nat)
    requires Rebuilt(ucmp, v, tables, next, S, lo)
    ensures |v| == NumLevels && TotalOrder(ucmp)
  {
  }

  lemma NothingToFlush<U(!new), V(!new)>(ucmp: Comparator<U>, v: Version<U, V>, tables: map<nat, Entries<U, V>>,
                                         next: nat, S: set<Entry<U, V>>, lo: nat, hi: nat)
    requires Rebuilt(ucmp, v, tables, next, S, lo) && lo <= hi
    ensures Rebuilt(ucmp, v, tables, next + 1, S + SetOf([]), hi)
  {
    Empties<U, V>();
    assert S + SetOf([]) == S;
  }

  /** Part of a log replayed: S in tables, the rest of its entries in mem. */
  ghost predicate Replaying<U(!new), V(!new)>(ucmp: Comparator<U>, S: set<Entry<U, V>>, mem: Entries<U, V>,
                                              all: set<Entry<U, V>>, lo: nat, hi: nat)
  {
    match hi
    case _ =>
        lo <= hi && S + SetOf(mem) == all && Ordered(ucmp, mem)
        && (forall e :: e in SetOf(mem) ==> lo < e.0.sequence <= hi)
  }

  lemma ReplayOne<U(!new), V(!new)>(ucmp: Comparator<U>, S: set<Entry<U, V>>, mem: Entries<U, V>,
                                    base: set<Entry<U, V>>, bs: seq<Batch<U, V>>, j: nat, lo: nat, hi: nat,
                                    mem': Entries<U, V>)
    requires j < |bs| && Replaying(ucmp, S, mem, base + EntriesOfBatches(bs[..j]), lo, hi) && bs[j].sequence > hi
    requires Ordered(ucmp, mem') && SetOf(mem') == SetOf(mem) + BatchSet(bs[j].updates, bs[j].sequence)
    ensures Replaying(ucmp, S, mem', base + EntriesOfBatches(bs[..j + 1]), lo, EndOf(bs[j]))
  {
    assert bs[..j + 1][..j] == bs[..j];
    BatchSequences(bs[j].updates, bs[j].sequence);
  }

  /** The next batch is numbered beyond those before it. */
  lemma NextBatch<U(!new), V(!new)>(bs: seq<Batch<U, V>>, j: nat, lo: nat, hi: nat, least: nat)
    requires j < |bs| && Rising(bs, lo, hi) && least <= lo
    ensures lo <= LastOf(bs[..j], lo) < bs[j].sequence && LastOf(bs[..j + 1], lo) == EndOf(bs[j])
    ensures LastOf(bs[..j], least) <= LastOf(bs[..j], lo)
    ensures LastOf(bs[..j + 1], least) ==
            if EndOf(bs[j]) > LastOf(bs[..j], least) then EndOf(bs[j]) else LastOf(bs[..j], least)
  {
    assert bs == bs[..j] + bs[j..];
    var mid := RisingSplit(bs[..j], bs[j..], lo, hi);
    RisingEnds(bs[..j], lo, mid);
    assert bs[..j + 1][|bs[..j + 1]| - 1] == bs[j];
  }

  /** RecoverLogFile: replay the log into memtables, each of which becomes a level-0 table. */
  method RecoverLogFile<U(!new), V(!new)>(ucmp: Comparator<U>, v: Version<U, V>, tables: map<nat, Entries<U, V>>,
                                          next: nat, bs: seq<Batch<U, V>>, maxSequence: nat,
                                          ghost base: set<Entry<U, V>>, ghost lo: nat, ghost hi: nat)
    returns (v': Version<U, V>, tables': map<nat, Entries<U, V>>, next': nat, maxSequence': nat)
    requires Rebuilt(ucmp, v, tables, next, base, lo) && Rising(bs, lo, hi)
    requires maxSequence <= lo
    ensures Rebuilt(ucmp, v', tables', next', base + EntriesOfBatches(bs), LastOf(bs, lo)) && next <= next'
        && Agrees(tables, tables', next)
    ensures OnlyLevel0(v, v')
    ensures maxSequence' == LastOf(bs, maxSequence)
  {
    hide Rebuilt;
    hide EntriesOfBatches;
    hide Rising;
    hide LastOf;
    v', tables', next', maxSequence' := v, tables, next, maxSequence;
    var mem: Option<Entries<U, V>> := None;
    ghost var S, from: nat, at: nat := base, lo, lo;
    StartReplay(ucmp, base, bs, lo, maxSequence);
    HasLevels(ucmp, v, tables, next, base, lo);
    for j := 0 to |bs|
      invariant Rebuilt(ucmp, v', tables', next', S, from) && next <= next' && Agrees(tables, tables', next)
      invariant OnlyLevel0(v, v')
      invariant Replaying(ucmp, S, if mem.Some? then mem.value else [], base + EntriesOfBatches(bs[..j]), from, at)
      invariant at == LastOf(bs[..j], lo) && maxSequence' == LastOf(bs[..j], maxSequence)
    {
      NextBatch(bs, j, lo, hi, maxSequence);
      if mem.None? {
        mem := Some([]);
      }
      ghost var before := mem.value;
      MemBelow(ucmp, S, before, base + EntriesOfBatches(bs[..j]), from, at);
      var m := InsertInto(ucmp, bs[j].updates, bs[j].sequence, mem.value);
      ReplayOne(ucmp, S, before, base, bs, j, from, at, m);
      mem := Some(m);
      at := EndOf(bs[j]);
      var lastSeq := bs[j].sequence + |bs[j].updates| - 1;
      if lastSeq > maxSequence' {
        maxSequence' := lastSeq;
      }
      var full: bool := *;
      if full {
        v', tables', next' := FlushReplayed(ucmp, v', tables', next', m, S, from, at,
            base + EntriesOfBatches(bs[..j + 1]));
        S, from, mem := base + EntriesOfBatches(bs[..j + 1]), at, None;
      }
    }
    assert bs[..|bs|] == bs;
    if mem.Some? {
      v', tables', next' := FlushReplayed(ucmp, v', tables', next', mem.value, S, from, at,
          base + EntriesOfBatches(bs));
    } else {
      NothingLeft(ucmp, v', tables', next', S, from, at, base + EntriesOfBatches(bs));
    }
  }

  lemma StartReplay<U(!new), V(!new)>(ucmp: Comparator<U>, base: set<Entry<U, V>>, bs: seq<Batch<U, V>>, lo: nat,
                                      least: nat)
    ensures Replaying(ucmp, base, [], base + EntriesOfBatches(bs[..0]), lo, lo)
    ensures LastOf(bs[..0], lo) == lo && LastOf(bs[..0], least) == least
  {
    Empties<U, V>();
  }

  lemma MemBelow<U(!new), V(!new)>(ucmp: Comparator<U>, S: set<Entry<U, V>>, mem: Entries<U, V>, all: set<Entry<U, V>>,
                                   lo: nat, hi: nat)
    requires Replaying(ucmp, S, mem, all, lo, hi)
    ensures Ordered(ucmp, mem) && forall x :: x in mem ==> x.0.sequence < hi + 1
  {
    forall x | x in mem ensures x.0.sequence < hi + 1 { assert x in SetOf(mem); }
  }

  lemma NothingLeft<U(!new), V(!new)>(ucmp: Comparator<U>, v: Version<U, V>, tables: map<nat, Entries<U, V>>, next: nat,
                                      S: set<Entry<U, V>>, lo: nat, hi: nat, all: set<Entry<U, V>>)
    requires Rebuilt(ucmp, v, tables, next, S, lo) && Replaying(ucmp, S, [], all, lo, hi)
    ensures Rebuilt(ucmp, v, tables, next, all, hi)
  {
    Empties<U, V>();
    assert S + SetOf([]) == S;
  }

  method FlushReplayed<U(!new), V(!new)>(ucmp: Comparator<U>, v: Version<U, V>, tables: map<nat, Entries<U, V>>,
                                         next: nat, mem: Entries<U, V>, ghost S: set<Entry<U, V>>, ghost lo: nat,
                                         ghost hi: nat, ghost all: set<Entry<U, V>>)
    returns (v': Version<U, V>, tables': map<nat, Entries<U, V>>, next': nat)
    requires Rebuilt(ucmp, v, tables, next, S, lo) && Replaying(ucmp, S, mem, all, lo, hi)
    ensures Rebuilt(ucmp, v', tables', next', all, hi) && next <= next' && Agrees(tables, tables', next)
    ensures OnlyLevel0(v, v')
    ensures Replaying(ucmp, all, [], all, hi, hi)
  {
    hide Rebuilt;
    Empties<U, V>();
    v', tables', next' := WriteToLevel0(ucmp, v, tables, next, mem, S, lo, hi);
  }

  /** The loop of DBImpl::Recover over the first count logs, oldest first, but for those known to be flushed. */
  method ReplayLogs<U(!new), V(!new)>(ucmp: Comparator<U>, logs: seq<LogFile<U, V>>, tables: map<nat, Entries<U, V>>,
                                      m: Manifest<U, V>, count: nat, ghost written: set<Entry<U, V>>,
                                      ghost h: History<U>)
    returns (v: Version<U, V>, tables': map<nat, Entries<U, V>>, next: nat, maxSequence: nat)
    requires OnDisk(ucmp, logs, tables, m, written, h) && count <= |logs|
    ensures RecoveredTo(ucmp, logs, m, h, v, tables', next, maxSequence, count)
    ensures m.nextFile <= next && (forall f :: f in logs[..count] && f.number >= m.logNumber ==> f.number < next)
    ensures Agrees(tables, tables', m.nextFile)
    ensures OnlyLevel0(m.version, v)
  {
    hide Rebuilt;
    hide OnDisk;
    hide RecoveredTo;
    hide EntriesOfBatches;
    hide Rising;
    hide Live;
    hide LastOf;
    v, tables', next := m.version, tables, m.nextFile;
    ghost var base := From(m.version, 0);
    RecoveryStarts(ucmp, logs, tables, m, written, h);
    maxSequence := 0;
    for i := 0 to count
      invariant RecoveredTo(ucmp, logs, m, h, v, tables', next, maxSequence, i)
      invariant m.nextFile <= next && forall f :: f in logs[..i] && f.number >= m.logNumber ==> f.number < next
      invariant Agrees(tables, tables', m.nextFile) && OnlyLevel0(m.version, v)
    {
      ghost var lo := LastOf(Live(logs[..i], m.logNumber), h.flushedTo);
      var hi := NextLog(ucmp, logs, m, h, v, tables', next, maxSequence, i);
      if logs[i].number >= m.logNumber {
        ghost var S := EntriesOfBatches(Live(logs[..i], m.logNumber)) + base;
        v, tables', next, maxSequence := RecoverLogFile(ucmp, v, tables', next, logs[i].batches, maxSequence, S, lo,
            hi);
        LogDone(ucmp, logs, m, h, v, tables', next, maxSequence, i, hi);
        // MarkFileNumberUsed
        MoreNumbers(ucmp, logs, m, h, v, tables', next, maxSequence, i + 1,
            if next <= logs[i].number then logs[i].number + 1 else next);
        if next <= logs[i].number {
          next := logs[i].number + 1;
        }
      }
      assert logs[..i + 1] == logs[..i] + [logs[i]];
    }
  }

  /** DBImpl::Recover: replay every log the manifest does not know to be flushed. */
  method RecoverLogs<U(!new), V(!new)>(ucmp: Comparator<U>, logs: seq<LogFile<U, V>>, tables: map<nat, Entries<U, V>>,
                                       m: Manifest<U, V>, ghost written: set<Entry<U, V>>, ghost h: History<U>)
    returns (v: Version<U, V>, tables': map<nat, Entries<U, V>>, next: nat, last: nat)
    requires OnDisk(ucmp, logs, tables, m, written, h)
    ensures Rebuilt(ucmp, v, tables', next, Durable(logs, m), h.logged)
    ensures m.nextFile <= next && (forall f :: f in logs && f.number >= m.logNumber ==> f.number < next)
        && last == h.logged
    ensures Agrees(tables, tables', m.nextFile)
    ensures OnlyLevel0(m.version, v)
  {
    hide Rebuilt;
    hide OnDisk;
    hide RecoveredTo;
    var maxSequence;
    v, tables', next, maxSequence := ReplayLogs(ucmp, logs, tables, m, |logs|, written, h);
    assert logs[..|logs|] == logs;
    last := if m.lastSequence < maxSequence then maxSequence else m.lastSequence;
    RecoveryEnds(ucmp, logs, tables, m, written, h, v, tables', next, maxSequence);
  }

  /** Recovery up to some batch of some log, where its memtable has just been written out. */
  method RecoverPartly<U(!new), V(!new)>(ucmp: Comparator<U>, logs: seq<LogFile<U, V>>,
                                         tables: map<nat, Entries<U, V>>, m: Manifest<U, V>, i: nat, j: nat,
                                         ghost written: set<Entry<U, V>>, ghost h: History<U>)
    returns (tables': map<nat, Entries<U, V>>, next: nat)
    requires OnDisk(ucmp, logs, tables, m, written, h) && i < |logs| && j <= |logs[i].batches|
    ensures m.nextFile <= next && Agrees(tables, tables', m.nextFile)
  {
    hide Rebuilt;
    hide OnDisk;
    hide RecoveredTo;
    hide EntriesOfBatches;
    hide Rising;
    hide Live;
    var v, maxSequence;
    v, tables', next, maxSequence := ReplayLogs(ucmp, logs, tables, m, i, written, h);
    ghost var lo := LastOf(Live(logs[..i], m.logNumber), h.flushedTo);
    var hi := NextLog(ucmp, logs, m, h, v, tables', next, maxSequence, i);
    if logs[i].number >= m.logNumber {
      ghost var S := EntriesOfBatches(Live(logs[..i], m.logNumber)) + From(m.version, 0);
      assert logs[i].batches == logs[i].batches[..j] + logs[i].batches[j..];
      ghost var mid := RisingSplit(logs[i].batches[..j], logs[i].batches[j..], lo, hi);
      v, tables', next, maxSequence := RecoverLogFile(ucmp, v, tables', next, logs[i].batches[..j], maxSequence, S, lo,
          mid);
    }
  }

  /** After the first i logs. */
  ghost predicate RecoveredTo<U(!new), V(!new)>(ucmp: Comparator<U>, logs: seq<LogFile<U, V>>, m: Manifest<U, V>,
                                                h: History<U>, v: Version<U, V>, tables: map<nat, Entries<U, V>>,
                                                next: nat, maxSequence: nat, i: nat)
    requires i <= |logs|
  {
    var done := Live(logs[..i], m.logNumber);
    && Rising(Live(logs, m.logNumber), h.flushedTo, h.logged)
    && Rebuilt(ucmp, v, tables, next, EntriesOfBatches(done) + From(m.version, 0), LastOf(done, h.flushedTo))
    && maxSequence == LastOf(done, 0)
  }

  lemma RecoveryStarts<U(!new), V(!new)>(ucmp: Comparator<U>, logs: seq<LogFile<U, V>>, tables: map<nat, Entries<U, V>>,
                                         m: Manifest<U, V>, written: set<Entry<U, V>>, h: History<U>)
    requires OnDisk(ucmp, logs, tables, m, written, h)
    ensures RecoveredTo(ucmp, logs, m, h, m.version, tables, m.nextFile, 0, 0)
  {
    hide Faithful;
    hide Good;
    var done := Live(logs[..0], m.logNumber);
    assert done == [];
    Empties<U, V>();
    assert EntriesOfBatches(done) + From(m.version, 0) == From(m.version, 0);
  }

  lemma {:induction false} LivePrefix<U(!new), V(!new)>(logs: seq<LogFile<U, V>>, i: nat, from: nat)
      returns (rest: seq<Batch<U, V>>)
    requires i <= |logs|
    ensures Live(logs, from) == Live(logs[..i], from) + rest
  {
    if i == |logs| {
      assert logs[..i] == logs;
      rest := [];
    } else {
      var n := |logs| - 1;
      var r := LivePrefix(logs[..n], i, from);
      assert logs[..n][..i] == logs[..i];
      rest := r + if logs[n].number >= from then logs[n].batches else [];
      assert Live(logs, from) == Live(logs[..i], from) + rest;
    }
  }

  /** The next log's batches are numbered beyond the replayed ones. */
  lemma NextLog<U(!new), V(!new)>(ucmp: Comparator<U>, logs: seq<LogFile<U, V>>, m: Manifest<U, V>, h: History<U>,
                                  v: Version<U, V>, tables: map<nat, Entries<U, V>>, next: nat, maxSequence: nat,
                                  i: nat) returns (hi: nat)
    requires i < |logs| && RecoveredTo(ucmp, logs, m, h, v, tables, next, maxSequence, i)
    ensures Rebuilt(ucmp, v, tables, next, EntriesOfBatches(Live(logs[..i], m.logNumber)) + From(m.version, 0),
        LastOf(Live(logs[..i], m.logNumber), h.flushedTo))
    ensures maxSequence == LastOf(Live(logs[..i], m.logNumber), 0) <= LastOf(Live(logs[..i], m.logNumber), h.flushedTo)
    ensures logs[i].number >= m.logNumber ==>
        Rising(logs[i].batches, LastOf(Live(logs[..i], m.logNumber), h.flushedTo), hi)
    ensures logs[i].number < m.logNumber ==> RecoveredTo(ucmp, logs, m, h, v, tables, next, maxSequence, i + 1)
    ensures Rising(Live(logs, m.logNumber), h.flushedTo, h.logged)
  {
    hide Rebuilt;
    hide EntriesOfBatches;
    hide From;
    var done := Live(logs[..i], m.logNumber);
    hi := 0;
    assert logs[..i + 1][..i] == logs[..i];
    if logs[i].number >= m.logNumber {
      var rest := LivePrefix(logs, i + 1, m.logNumber);
      var bs, both := logs[i].batches, Live(logs[..i + 1], m.logNumber);
      assert both == done + bs;
      hi := RisingSplit(both, rest, h.flushedTo, h.logged);
      var mid := RisingSplit(done, bs, h.flushedTo, hi);
      RisingEnds(done, h.flushedTo, mid);
      RisingLess(bs, mid, LastOf(done, h.flushedTo), hi);
    } else {
      assert Live(logs[..i + 1], m.logNumber) == done + [];
      assert done + [] == done;
    }
  }

  lemma LogDone<U(!new), V(!new)>(ucmp: Comparator<U>, logs: seq<LogFile<U, V>>, m: Manifest<U, V>, h: History<U>,
                                  v: Version<U, V>, tables: map<nat, Entries<U, V>>, next: nat, maxSequence: nat,
                                  i: nat, hi: nat)
    requires i < |logs| && logs[i].number >= m.logNumber && Rising(Live(logs, m.logNumber), h.flushedTo, h.logged)
    requires Rising(logs[i].batches, LastOf(Live(logs[..i], m.logNumber), h.flushedTo), hi)
    requires Rebuilt(ucmp, v, tables, next, EntriesOfBatches(Live(logs[..i], m.logNumber)) + From(m.version, 0)
        + EntriesOfBatches(logs[i].batches), LastOf(logs[i].batches, LastOf(Live(logs[..i], m.logNumber), h.flushedTo)))
    requires maxSequence == LastOf(logs[i].batches, LastOf(Live(logs[..i], m.logNumber), 0))
    ensures RecoveredTo(ucmp, logs, m, h, v, tables, next, maxSequence, i + 1)
  {
    hide Rebuilt;
    hide From;
    hide EntriesOfBatches;
    hide Rising;
    var done, bs := Live(logs[..i], m.logNumber), logs[i].batches;
    assert logs[..i + 1][..i] == logs[..i];
    assert Live(logs[..i + 1], m.logNumber) == done + bs;
    BatchesAppend(done, bs);
    RisingEnds(bs, LastOf(done, h.flushedTo), hi);
    if bs == [] { assert done + bs == done; }
    assert EntriesOfBatches(done) + From(m.version, 0) + EntriesOfBatches(bs) ==
        EntriesOfBatches(done + bs) + From(m.version, 0);
  }

  lemma MoreNumbers<U(!new), V(!new)>(ucmp: Comparator<U>, logs: seq<LogFile<U, V>>, m: Manifest<U, V>, h: History<U>,
                                      v: Version<U, V>, tables: map<nat, Entries<U, V>>, next: nat, maxSequence: nat,
                                      i: nat, next': nat)
    requires i <= |logs| && RecoveredTo(ucmp, logs, m, h, v, tables, next, maxSequence, i) && next <= next'
    ensures RecoveredTo(ucmp, logs, m, h, v, tables, next', maxSequence, i)
  {
    hide Rebuilt;
    var done := Live(logs[..i], m.logNumber);
    RebuiltMore(ucmp, v, tables, next, next', EntriesOfBatches(done) + From(m.version, 0), LastOf(done, h.flushedTo),
        LastOf(done, h.flushedTo));
  }

  lemma RebuiltMore<U(!new), V(!new)>(ucmp: Comparator<U>, v: Version<U, V>, tables: map<nat, Entries<U, V>>, next: nat,
                                      next': nat, S: set<Entry<U, V>>, hi: nat, hi': nat)
    requires Rebuilt(ucmp, v, tables, next, S, hi) && next <= next' && hi <= hi'
    ensures Rebuilt(ucmp, v, tables, next', S, hi')
  {
    BelowNext(v, next, next');
  }

  lemma RecoveryEnds<U(!new), V(!new)>(ucmp: Comparator<U>, logs: seq<LogFile<U, V>>, tables: map<nat, Entries<U, V>>,
                                       m: Manifest<U, V>, written: set<Entry<U, V>>, h: History<U>, v: Version<U, V>,
                                       tables': map<nat, Entries<U, V>>, next: nat, maxSequence: nat)
    requires OnDisk(ucmp, logs, tables, m, written, h)
        && RecoveredTo(ucmp, logs, m, h, v, tables', next, maxSequence, |logs|)
    ensures Rebuilt(ucmp, v, tables', next, Durable(logs, m), h.logged)
    ensures h.logged == if m.lastSequence < maxSequence then maxSequence else m.lastSequence
  {
    hide Rebuilt;
    hide Faithful;
    hide Good;
    assert logs[..|logs|] == logs;
    var done := Live(logs, m.logNumber);
    RebuiltMore(ucmp, v, tables', next, next, Durable(logs, m), LastOf(done, h.flushedTo), h.logged);
  }

  // ----------------------------------------------------------------------- the store

  /** A table is being written for the immutable memtable, and is not yet in the manifest. */
  ghost predicate Building<U(!new), V(!new)>(tables: map<nat, Entries<U, V>>, m: Manifest<U, V>,
                                             imm: Option<Entries<U, V>>, next: nat, building: Option<nat>)
  {
    match building
    case None => true
    case Some(n) => imm.Some? && m.nextFile <= n < next && n in tables && tables[n] == imm.value
  }

  /** The store after recovery: one new, empty log, and tables for everything that was in the old ones. */
  lemma OpenedOnDisk<U(!new), V(!new)>(ucmp: Comparator<U>, logs: seq<LogFile<U, V>>, tables: map<nat, Entries<U, V>>,
                                       m: Manifest<U, V>, written: set<Entry<U, V>>, h: History<U>, v: Version<U, V>,
                                       tables': map<nat, Entries<U, V>>, next: nat)
    requires OnDisk(ucmp, logs, tables, m, written, h) && Rebuilt(ucmp, v, tables', next, Durable(logs, m), h.logged)
    requires m.nextFile <= next && forall f :: f in logs && f.number >= m.logNumber ==> f.number < next
    ensures forall f :: f in logs ==> f.number < next
    ensures OnDisk(ucmp, logs + [LogFile(next, [], 0)], tables', Manifest(v, next, next + 1, h.logged), written,
        h.(flushedTo := h.logged))
    ensures InMemory(ucmp, logs + [LogFile(next, [], 0)], Manifest(v, next, next + 1, h.logged),
        h.(flushedTo := h.logged), [], None, h.logged, next + 1, false)
  {
    hide Live;
    hide PartsSynced;
    hide Good;
    hide UniqueNumbers;
    hide TablesHold;
    hide Faithful;
    var logs', m' := logs + [LogFile(next, [], 0)], Manifest(v, next, next + 1, h.logged);
    NewLog(logs, next, next);
    LiveFromLater(logs, next);
    BelowNext(v, next, next + 1);
    Empties<U, V>();
    assert logs'[..|logs'| - 1] == logs;
    assert Live(logs', next) == [] && Live(logs'[..|logs'| - 1], next) == [];
    DiskReads(ucmp, logs, tables, m, written, h);
    assert Flushed(written, h.logged) == written;
    assert [] + Applied(logs'[|logs'| - 1].batches, false) == [];
  }

  lemma TablesAgree<U(!new), V(!new)>(tables: map<nat, Entries<U, V>>, tables': map<nat, Entries<U, V>>,
                                      v: Version<U, V>, next: nat)
    requires TablesHold(tables, v) && NumbersBelow(v, next) && Agrees(tables, tables', next)
    ensures TablesHold(tables', v)
  {
  }

  /** An interrupted recovery leaves tables nobody names, and perhaps a new, empty log. */
  lemma InterruptedOnDisk<U(!new), V(!new)>(ucmp: Comparator<U>, logs: seq<LogFile<U, V>>,
                                            tables: map<nat, Entries<U, V>>, m: Manifest<U, V>,
                                            written: set<Entry<U, V>>, h: History<U>, tables': map<nat, Entries<U, V>>,
                                            next: nat)
    requires OnDisk(ucmp, logs, tables, m, written, h) && Agrees(tables, tables', m.nextFile)
    requires m.nextFile <= next && forall f :: f in logs && f.number >= m.logNumber ==> f.number < next
    ensures OnDisk(ucmp, logs, tables', m, written, h)
    ensures OnDisk(ucmp, logs + [LogFile(next, [], 0)], tables', m, written, h)
    ensures Durable(logs + [LogFile(next, [], 0)], m) == Durable(logs, m)
  {
    TablesAgree(tables, tables', m.version, m.nextFile);
    SwitchOnDisk(ucmp, logs, tables', m, written, h, next);
    NewLog(logs, next, m.logNumber);
  }

  /** Numbers of all files of a version. */
  function NumbersOf<U, V>(v: Version<U, V>): set<nat> {
    if v == [] then {} else FileNumbers(v[0]) + NumbersOf(v[1..])
  }

  /** Some file of the version has the number. */
  ghost predicate Names<U(!new), V(!new)>(v: Version<U, V>, n: nat) {
    exists l, f :: 0 <= l < |v| && f in v[l] && f.number == n
  }

  lemma {:induction false} NumbersOfHas<U(!new), V(!new)>(v: Version<U, V>, n: nat)
    ensures n in NumbersOf(v) <==> Names(v, n)
  {
    if v != [] {
      NumbersOfHas(v[1..], n);
      if Names(v[1..], n) {
        var l, f: File<U, V> :| 0 <= l < |v[1..]| && f in v[1..][l] && f.number == n;
        assert f in v[l + 1];
      }
      if l, f: File<U, V> :| 0 <= l < |v| && f in v[l] && f.number == n && l > 0 {
        assert f in v[1..][l - 1];
      }
      if n in FileNumbers(v[0]) {
        var f: File<U, V> :| f in v[0] && f.number == n;
      }
    }
  }

  lemma FlushedTables<U(!new), V(!new)>(tables: map<nat, Entries<U, V>>, v: Version<U, V>, v': Version<U, V>,
                                        number: nat, size: nat, mem: Entries<U, V>)
    requires TablesHold(tables, v) && number in tables && tables[number] == mem && |v'| == |v|
    requires forall l, g :: 0 <= l < |v| && g in v'[l] ==> g in v[l] || (mem != [] && g == TableOf(number, size, mem))
    ensures TablesHold(tables, v')
  {
  }

  lemma LiveAreKept<U(!new), V(!new)>(tables: map<nat, Entries<U, V>>, tables': map<nat, Entries<U, V>>,
                                      v: Version<U, V>, live: set<nat>)
    requires NumbersOf(v) <= live && tables'.Keys <= tables.Keys
        && (forall n :: n in tables' ==> tables'[n] == tables[n])
    requires forall n :: n in tables && n in live ==> n in tables'
    ensures KeepsLive(tables, tables', v)
  {
    forall l, f | 0 <= l < |v| && f in v[l] ensures f.number in live { NumbersOfHas(v, f.number); }
  }

  // ---------------------------------------------------------------------- power loss

  /** The machine may lose what was not synced from the end of every log file. */
  ghost predicate MayKeep<U(!new), V(!new)>(logs: seq<LogFile<U, V>>, kept: seq<nat>) {
    |kept| == |logs| && forall i :: 0 <= i < |logs| ==> logs[i].synced <= kept[i] <= |logs[i].batches|
  }

  /** What it then finds on its disk. */
  function Cut<U(!new), V(!new)>(logs: seq<LogFile<U, V>>, kept: seq<nat>): (cut: seq<LogFile<U, V>>)
    requires MayKeep(logs, kept)
    ensures |cut| == |logs|
    ensures forall i :: 0 <= i < |logs| ==> cut[i] == LogFile(logs[i].number, logs[i].batches[..kept[i]], kept[i])
  {
    seq(|logs|, i requires 0 <= i < |logs| => LogFile(logs[i].number, logs[i].batches[..kept[i]], kept[i]))
  }

  lemma CutLast<U(!new), V(!new)>(logs: seq<LogFile<U, V>>, kept: seq<nat>, from: nat)
    requires MayKeep(logs, kept) && logs != []
    ensures var n := |logs| - 1;
            && MayKeep(logs[..n], kept[..n])
            && Live(Cut(logs, kept), from) == Live(Cut(logs[..n], kept[..n]), from)
                + if logs[n].number >= from then logs[n].batches[..kept[n]] else []
  {
    var n := |logs| - 1;
    assert Cut(logs, kept)[..n] == Cut(logs[..n], kept[..n]);
  }

  lemma RisingPart<U(!new), V(!new)>(bs: seq<Batch<U, V>>, k: nat, lo: nat, hi: nat)
    requires k <= |bs| && Rising(bs, lo, hi)
    ensures Rising(bs[..k], lo, hi) && EntriesOfBatches(bs[..k]) <= EntriesOfBatches(bs)
  {
    hide Rising;
    hide EntriesOfBatches;
    assert bs == bs[..k] + bs[k..];
    var mid := RisingSplit(bs[..k], bs[k..], lo, hi);
    RisingEnds(bs[k..], mid, hi);
    RisingMore(bs[..k], lo, mid, hi);
    BatchesAppend(bs[..k], bs[k..]);
  }

  /** What is left is still in order. */
  lemma {:induction false} CutRises<U(!new), V(!new)>(logs: seq<LogFile<U, V>>, kept: seq<nat>, from: nat, lo: nat,
                                                      hi: nat)
    requires MayKeep(logs, kept) && Rising(Live(logs, from), lo, hi)
    ensures Rising(Live(Cut(logs, kept), from), lo, hi)
    ensures EntriesOfBatches(Live(Cut(logs, kept), from)) <= EntriesOfBatches(Live(logs, from))
  {
    hide Rising;
    hide EntriesOfBatches;
    hide MayKeep;
    if logs == [] {
      NoLogs(logs, kept, from);
    } else {
      var n := |logs| - 1;
      CutLast(logs, kept, from);
      LiveLast(logs, from);
      var bs := if logs[n].number >= from then logs[n].batches else [];
      var k := KeptOfLast(logs, kept, bs);
      var mid := RisingSplit(Live(logs[..n], from), bs, lo, hi);
      CutRises(logs[..n], kept[..n], from, lo, mid);
      RisingPart(bs, k, mid, hi);
      RisingAppend(Live(Cut(logs[..n], kept[..n]), from), bs[..k], lo, mid, hi);
      BatchesAppend(Live(logs[..n], from), bs);
      BatchesAppend(Live(Cut(logs[..n], kept[..n]), from), bs[..k]);
    }
  }

  lemma NoLogs<U(!new), V(!new)>(logs: seq<LogFile<U, V>>, kept: seq<nat>, from: nat)
    requires MayKeep(logs, kept) && logs == []
    ensures Live(Cut(logs, kept), from) == Live(logs, from)
  {
  }

  lemma LiveLast<U(!new), V(!new)>(logs: seq<LogFile<U, V>>, from: nat)
    requires logs != []
    ensures var n := |logs| - 1;
            Live(logs, from) == Live(logs[..n], from) + if logs[n].number >= from then logs[n].batches else []
  {
  }

  lemma KeptOfLast<U(!new), V(!new)>(logs: seq<LogFile<U, V>>, kept: seq<nat>, bs: seq<Batch<U, V>>) returns (k: nat)
    requires MayKeep(logs, kept) && logs != [] && (bs == logs[|logs| - 1].batches || bs == [])
    ensures |kept| == |logs| && kept[|logs| - 1] <= |logs[|logs| - 1].batches|
    ensures k <= |bs| && (bs == logs[|logs| - 1].batches ==> k == kept[|logs| - 1])
  {
    k := if bs == logs[|logs| - 1].batches then kept[|logs| - 1] else 0;
  }

  /** Numbers beyond all entries see the same. */
  lemma BeyondAll<U(!new), V(!new)>(S: set<Entry<U, V>>, k: U, s: nat, s': nat, last: nat, x: Option<V>)
    requires UpTo(S, last) && last <= s && last <= s'
    ensures ReadsValue(S, k, s, x) <==> ReadsValue(S, k, s', x)
  {
    forall e | e in S ensures Matches(e, k, s) <==> Matches(e, k, s') { }
    forall e ensures BestOf(S, e, k, s) <==> BestOf(S, e, k, s') { }
    forall r ensures Reads(S, k, s, r) <==> Reads(S, k, s', r) { }
  }

  /** So no snapshot beyond the last number needs to be told from it. */
  lemma HorizonDown<U(!new), V(!new)>(except: iset<U>, W: set<Entry<U, V>>, S: set<Entry<U, V>>, horizon: nat,
                                      last: nat)
    requires Faithful(except, W, S, horizon) && UpTo(W, last) && UpTo(S, last)
    ensures Faithful(except, W, S, if horizon <= last then horizon else last)
  {
    hide ReadsValue;
    hide UpTo;
    if last < horizon {
      forall k | k !in except ensures SameReads(W, S, k, last) {
        assert SameReads(W, S, k, horizon);
        forall s: nat, x | last <= s ensures ReadsValue(W, k, s, x) <==> ReadsValue(S, k, s, x) {
          BeyondAll(W, k, s, s + horizon, last, x);
          BeyondAll(S, k, s, s + horizon, last, x);
        }
      }
    }
  }

  /** What was written and is not lost. */
  ghost function Surviving<U(!new), V(!new)>(logs: seq<LogFile<U, V>>, m: Manifest<U, V>, written: set<Entry<U, V>>,
                                             flushedTo: nat): set<Entry<U, V>>
  {
    EntriesOfBatches(Live(logs, m.logNumber)) + Flushed(written, flushedTo)
  }

  ghost function AfterLoss<U(!new), V(!new)>(h: History<U>, logs: seq<LogFile<U, V>>, m: Manifest<U, V>): History<U> {
    h.(logged := LastOf(Live(logs, m.logNumber), m.lastSequence),
       horizon := if h.horizon <= h.flushedTo then h.horizon else h.flushedTo)
  }

  /** Whatever is lost from the ends of the log files, the disk is in order for what is left. */
  lemma LossOnDisk<U(!new), V(!new)>(ucmp: Comparator<U>, logs: seq<LogFile<U, V>>, tables: map<nat, Entries<U, V>>,
                                     m: Manifest<U, V>, written: set<Entry<U, V>>, h: History<U>, kept: seq<nat>)
    requires OnDisk(ucmp, logs, tables, m, written, h) && MayKeep(logs, kept)
    ensures var logs' := Cut(logs, kept);
            && OnDisk(ucmp, logs', tables, m, Surviving(logs', m, written, h.flushedTo), AfterLoss(h, logs', m))
            && Surviving(logs', m, written, h.flushedTo) <= written
  {
    hide EntriesOfBatches;
    hide Rising;
    hide From;
    hide Good;
    hide UniqueNumbers;
    hide NumbersBelow;
    hide TablesHold;
    hide Faithful;
    hide Live;
    var logs' := Cut(logs, kept);
    var live' := Live(logs', m.logNumber);
    var written' := Surviving(logs', m, written, h.flushedTo);
    CutRises(logs, kept, m.logNumber, h.flushedTo, h.logged);
    RisingEnds(live', h.flushedTo, h.logged);
    if live' != [] {
      RisingMore(live', h.flushedTo, EndOf(live'[|live'| - 1]), LastOf(live', m.lastSequence));
    } else {
      NothingRises(live', h.flushedTo, m.lastSequence);
    }
    DiskReads(ucmp, logs, tables, m, written, h);
    BatchesInRange(live', h.flushedTo, h.logged);
    assert written' <= written;
    assert Flushed(written', h.flushedTo) == Flushed(written, h.flushedTo);
    DistinctParts(written, written');
    HorizonDown(h.disturbed, Flushed(written, h.flushedTo), From(m.version, 0), h.horizon, h.flushedTo);
    CutShape(logs, kept);
  }

  lemma NothingRises<U(!new), V(!new)>(bs: seq<Batch<U, V>>, lo: nat, hi: nat)
    requires bs == [] && lo <= hi
    ensures Rising(bs, lo, hi)
  {
  }

  lemma CutShape<U(!new), V(!new)>(logs: seq<LogFile<U, V>>, kept: seq<nat>)
    requires MayKeep(logs, kept)
    ensures Ascending(logs) ==> Ascending(Cut(logs, kept))
    ensures PartsSynced(Cut(logs, kept))
  {
  }

  /** A batch that is kept can be read again. */
  lemma {:induction false} KeptIsThere<U(!new), V(!new)>(logs: seq<LogFile<U, V>>, kept: seq<nat>, from: nat, i: nat,
                                                         j: nat)
    requires MayKeep(logs, kept) && i < |logs| && logs[i].number >= from && j < kept[i]
    ensures BatchSet(logs[i].batches[j].updates, logs[i].batches[j].sequence) <=
            EntriesOfBatches(Live(Cut(logs, kept), from))
  {
    hide BatchSet;
    hide EntriesOfBatches;
    var n := |logs| - 1;
    CutLast(logs, kept, from);
    var last := if logs[n].number >= from then logs[n].batches[..kept[n]] else [];
    BatchesAppend(Live(Cut(logs[..n], kept[..n]), from), last);
    if i < n {
      KeptIsThere(logs[..n], kept[..n], from, i, j);
    } else {
      OneOfBatches(last, j);
    }
  }

  /** Every batch that was synced, and whose log is still needed, is among these entries. */
  ghost predicate SyncedIn<U(!new), V(!new)>(logs: seq<LogFile<U, V>>, from: nat, written: set<Entry<U, V>>) {
    forall i, j :: 0 <= i < |logs| && logs[i].number >= from && 0 <= j < logs[i].synced && j < |logs[i].batches| ==>
        BatchSet(logs[i].batches[j].updates, logs[i].batches[j].sequence) <= written
  }

  lemma SyncedSurvives<U(!new), V(!new)>(logs: seq<LogFile<U, V>>, kept: seq<nat>, m: Manifest<U, V>,
                                         written: set<Entry<U, V>>, flushedTo: nat)
    requires MayKeep(logs, kept)
    ensures SyncedIn(logs, m.logNumber, Surviving(Cut(logs, kept), m, written, flushedTo))
  {
    hide BatchSet;
    hide EntriesOfBatches;
    forall i, j | 0 <= i < |logs| && logs[i].number >= m.logNumber && 0 <= j < logs[i].synced && j < |logs[i].batches|
      ensures BatchSet(logs[i].batches[j].updates, logs[i].batches[j].sequence) <=
              EntriesOfBatches(Live(Cut(logs, kept), m.logNumber))
    {
      KeptIsThere(logs, kept, m.logNumber, i, j);
    }
  }

  lemma {:induction false} OneOfBatches<U(!new), V(!new)>(bs: seq<Batch<U, V>>, j: nat)
    requires j < |bs|
    ensures BatchSet(bs[j].updates, bs[j].sequence) <= EntriesOfBatches(bs)
  {
    hide BatchSet;
    if j < |bs| - 1 { OneOfBatches(bs[..|bs| - 1], j); }
  }

  /** The loss is of the last writes only: a log that keeps anything has the whole of the earlier ones before it. */
  ghost predicate LosesLast<U(!new), V(!new)>(logs: seq<LogFile<U, V>>, kept: seq<nat>, from: nat)
    requires MayKeep(logs, kept)
  {
    forall i, j :: 0 <= i < j < |logs| && logs[i].number >= from && logs[j].number >= from && kept[j] > 0 ==>
        kept[i] == |logs[i].batches|
  }

  /** Then recovery finds the first batches of those logged, up to some point. */
  lemma {:induction false} LosesLastIsPrefix<U(!new), V(!new)>(logs: seq<LogFile<U, V>>, kept: seq<nat>, from: nat)
    requires MayKeep(logs, kept) && LosesLast(logs, kept, from)
    ensures Live(Cut(logs, kept), from) <= Live(logs, from)
    ensures (forall i :: 0 <= i < |logs| && logs[i].number >= from ==> kept[i] == |logs[i].batches|) ==>
        Live(Cut(logs, kept), from) == Live(logs, from)
  {
    if logs != [] {
      var n := |logs| - 1;
      CutLast(logs, kept, from);
      LosesLastIsPrefix(logs[..n], kept[..n], from);
      if logs[n].number >= from && kept[n] == 0 {
        assert logs[n].batches[..0] == [];
      }
    }
  }

  /** No loss can leave a gap exactly when every log before one that is in use is synced to its end; Append syncs
      only the current log. */
  lemma NoGapIff<U(!new), V(!new)>(logs: seq<LogFile<U, V>>, from: nat)
    requires PartsSynced(logs)
    ensures (forall kept :: MayKeep(logs, kept) ==> LosesLast(logs, kept, from)) <==>
            forall i, j ::
              0 <= i < j < |logs| && logs[i].number >= from && logs[j].number >= from && logs[j].batches != [] ==>
                logs[i].synced == |logs[i].batches|
  {
    if forall kept :: MayKeep(logs, kept) ==> LosesLast(logs, kept, from) {
      forall i, j | 0 <= i < j < |logs| && logs[i].number >= from && logs[j].number >= from && logs[j].batches != []
        ensures logs[i].synced == |logs[i].batches|
      {
        var kept: seq<nat> := seq(|logs|, n requires 0 <= n < |logs| =>
          if n == j then |logs[n].batches| else logs[n].synced);
        forall n | 0 <= n < |logs| ensures logs[n].synced <= kept[n] <= |logs[n].batches| {
          assert logs[n] in logs;
        }
        assert MayKeep(logs, kept);
      }
    }
  }

  // ------------------------------------------------------------- compaction outputs

  function TablesIn<U, V>(files: seq<File<U, V>>): map<nat, Entries<U, V>> {
    if files == [] then map[] else TablesIn(files[..|files| - 1])[files[|files| - 1].number :=
        files[|files| - 1].entries]
  }

  /** Some file has this number and these entries. */
  ghost predicate NamedIn<U(!new), V(!new)>(files: seq<File<U, V>>, n: nat, es: Entries<U, V>) {
    exists f :: f in files && f.number == n && f.entries == es
  }

  lemma {:induction false} TablesInAre<U(!new), V(!new)>(files: seq<File<U, V>>, n: nat)
    ensures n in TablesIn(files) ==> NamedIn(files, n, TablesIn(files)[n])
    ensures forall f :: f in files ==> f.number in TablesIn(files)
  {
    if files != [] {
      var init, last := files[..|files| - 1], files[|files| - 1];
      TablesInAre(init, n);
      assert files == init + [last];
      assert last in files;
      if n in TablesIn(files) && n != last.number {
        var f :| f in init && f.number == n && f.entries == TablesIn(init)[n];
        assert f in files;
      }
    }
  }

  /** A table is there, as written, for every output. */
  ghost predicate OutputsThere<U(!new), V(!new)>(tables: map<nat, Entries<U, V>>, job: Job<U, V>) {
    forall g :: g in job.outputs ==> g.number in tables && tables[g.number] == g.entries
  }

  /** A compaction that runs: it can be installed, and its outputs are there. */
  ghost predicate InProgress<U(!new), V(!new)>(ucmp: Comparator<U>, tables: map<nat, Entries<U, V>>, v: Version<U, V>,
                                               compacting: Option<Job<U, V>>, next: nat, building: Option<nat>,
                                               horizon: nat, last: nat)
  {
    match compacting
    case None => true
    case Some(job) =>
      && Underway(ucmp, v, job) && OutputsThere(tables, job) && horizon <= job.snapshot <= last
      && forall g :: g in job.outputs ==> g.number < next && building != Some(g.number)
  }

  lemma NoneInProgress<U(!new), V(!new)>(ucmp: Comparator<U>, tables: map<nat, Entries<U, V>>, v: Version<U, V>,
                                         next: nat, building: Option<nat>, horizon: nat, last: nat)
    ensures InProgress(ucmp, tables, v, None, next, building, horizon, last)
  {
  }

  lemma LaterInProgress<U(!new), V(!new)>(ucmp: Comparator<U>, tables: map<nat, Entries<U, V>>, v: Version<U, V>,
                                          compacting: Option<Job<U, V>>, next: nat, building: Option<nat>, horizon: nat,
                                          last: nat, next': nat, last': nat)
    requires InProgress(ucmp, tables, v, compacting, next, building, horizon, last) && next <= next' && last <= last'
    ensures InProgress(ucmp, tables, v, compacting, next', building, horizon, last')
    ensures InProgress(ucmp, tables, v, compacting, next', None, horizon, last')
  {
  }

  lemma BuiltInProgress<U(!new), V(!new)>(ucmp: Comparator<U>, tables: map<nat, Entries<U, V>>, v: Version<U, V>,
                                          compacting: Option<Job<U, V>>, next: nat, horizon: nat, last: nat,
                                          es: Entries<U, V>)
    requires InProgress(ucmp, tables, v, compacting, next, None, horizon, last)
    ensures InProgress(ucmp, tables[next := es], v, compacting, next + 1, Some(next), horizon, last)
  {
  }

  /** What a flush does to the version does not get in the way of a compaction. */
  lemma FlushInProgress<U(!new), V(!new)>(ucmp: Comparator<U>, tables: map<nat, Entries<U, V>>, v: Version<U, V>,
                                          v': Version<U, V>, compacting: Option<Job<U, V>>, next: nat, number: nat,
                                          horizon: nat, last: nat, size: nat, imm: Entries<U, V>, maxOverlap: nat)
    requires TotalOrder(ucmp) && Good(ucmp, v) && |v| == NumLevels
    requires InProgress(ucmp, tables, v, compacting, next, Some(number), horizon, last)
    requires imm != [] ==> Flushable(ucmp, v, TableOf(number, size, imm))
    requires FlushesTo(ucmp, v, v', number, size, imm, maxOverlap)
    ensures InProgress(ucmp, tables, v', compacting, next, None, horizon, last)
  {
    hide Underway;
    hide Good;
    hide Added;
    if imm != [] && compacting.Some? {
      AddedKeepsUnderway(ucmp, v, v', TableOf(number, size, imm), maxOverlap, compacting.value);
    }
  }

  lemma DeleteInProgress<U(!new), V(!new)>(ucmp: Comparator<U>, tables: map<nat, Entries<U, V>>,
                                           tables': map<nat, Entries<U, V>>, v: Version<U, V>,
                                           compacting: Option<Job<U, V>>, next: nat, building: Option<nat>,
                                           horizon: nat, last: nat)
    requires InProgress(ucmp, tables, v, compacting, next, building, horizon, last)
    requires forall n :: n in tables && Outputs(compacting, n) ==> n in tables'
    requires forall n :: n in tables' ==> n in tables && tables'[n] == tables[n]
    ensures InProgress(ucmp, tables', v, compacting, next, building, horizon, last)
  {
    hide Underway;
    if compacting.Some? {
      forall g | g in compacting.value.outputs ensures g.number in tables' && tables'[g.number] == g.entries {
        assert Outputs(compacting, g.number);
      }
    }
  }

  /** n is the number of an output of the running compaction. */
  ghost predicate Outputs<U(!new), V(!new)>(compacting: Option<Job<U, V>>, n: nat) {
    compacting.Some? && exists g :: g in compacting.value.outputs && g.number == n
  }

  /** pending_outputs_. */
  function PendingOutputs<U, V>(building: Option<nat>, compacting: Option<Job<U, V>>): set<nat> {
    (if building.Some? then {building.value} else {})
    + (if compacting.Some? then FileNumbers(compacting.value.outputs) else {})
  }

  lemma PendingOutputsHas<U(!new), V(!new)>(building: Option<nat>, compacting: Option<Job<U, V>>, n: nat)
    ensures n in PendingOutputs(building, compacting) <==> building == Some(n) || Outputs(compacting, n)
  {
  }

  /** With the outputs written, no older table has changed. */
  lemma OutputsWritten<U(!new), V(!new)>(ucmp: Comparator<U>, v: Version<U, V>, tables: map<nat, Entries<U, V>>,
                                         job: Job<U, V>, first: nat, next: nat)
    requires TablesHold(tables, v) && NumbersBelow(v, first) && Prepared(ucmp, v, job, first, next)
    ensures OutputsThere(tables + TablesIn(job.outputs), job) && Agrees(tables, tables + TablesIn(job.outputs), first)
    ensures forall n :: n in TablesIn(job.outputs) <==> exists g :: g in job.outputs && g.number == n
    ensures first <= next && forall g :: g in job.outputs ==> g.number < next
  {
    hide CompactsTo;
    hide Linked;
    hide Effect;
    var files := job.outputs;
    forall g | g in files ensures g.number in TablesIn(files) && TablesIn(files)[g.number] == g.entries {
      TablesInAre(files, g.number);
      var f :| f in files && f.number == g.number && f.entries == TablesIn(files)[g.number];
      SameFile(files, f, g);
    }
    forall n ensures n in TablesIn(files) <==> exists g :: g in files && g.number == n { TablesInAre(files, n); }
    forall g | g in files ensures first <= g.number < next || g in v[job.level] { }
  }

  lemma OneOfEachOnDisk<U(!new), V(!new)>(ucmp: Comparator<U>, logs: seq<LogFile<U, V>>,
                                          tables: map<nat, Entries<U, V>>, m: Manifest<U, V>,
                                          written: set<Entry<U, V>>, h: History<U>, job: Job<U, V>)
    requires OnDisk(ucmp, logs, tables, m, written, h)
    requires exists first: nat, next: nat :: Prepared(ucmp, m.version, job, first, next)
    ensures Compactions.OneEach(Contents(job.in0 + job.in1))
  {
    hide Linked;
    hide Good;
    hide Faithful;
    hide EntriesOfBatches;
    hide Rising;
    assert Contents(job.in0 + job.in1) <= From(m.version, 0) <= written;
  }

  lemma StartInProgress<U(!new), V(!new)>(ucmp: Comparator<U>, before: map<nat, Entries<U, V>>,
                                          tables: map<nat, Entries<U, V>>, m: Manifest<U, V>,
                                          imm: Option<Entries<U, V>>, job: Job<U, V>, first: nat, next: nat,
                                          building: Option<nat>, horizon: nat, last: nat)
    requires Prepared(ucmp, m.version, job, first, next) && OutputsThere(tables, job)
    requires Building(before, m, imm, first, building)
    requires NumbersBelow(m.version, m.nextFile) && m.nextFile <= first && horizon <= job.snapshot <= last
    ensures InProgress(ucmp, tables, m.version, Some(job), next, building, horizon, last)
  {
    hide CompactsTo;
    hide Linked;
    hide Effect;
    forall g | g in job.outputs ensures first <= g.number < next || g in m.version[job.level] { }
  }

  lemma SameFile<U(!new), V(!new)>(files: seq<File<U, V>>, f: File<U, V>, g: File<U, V>)
    requires DistinctNumbers(files) && f in files && g in files && f.number == g.number
    ensures f == g
  {
    var i :| 0 <= i < |files| && files[i] == f;
    var j :| 0 <= j < |files| && files[j] == g;
    assert i == j;
  }

  /** So every table of the new version is there. */
  lemma InstalledTables<U(!new), V(!new)>(v: Version<U, V>, v': Version<U, V>, tables: map<nat, Entries<U, V>>,
                                          job: Job<U, V>)
    requires job.level + 1 < |v| == |v'|
    requires CompactionSteps.Replaces(v, v', job.level, job.in0, job.in1, job.outputs)
    requires TablesHold(tables, v) && OutputsThere(tables, job)
    ensures TablesHold(tables, v')
  {
    forall l, f: File<U, V> | 0 <= l < |v'| && f in v'[l]
      ensures f.number in tables && tables[f.number] == f.entries
    {
      if !(l == job.level + 1 && f in job.outputs) { assert f in v[l]; }
    }
  }

  /** What installing a running compaction needs and gives. */
  lemma InstallInProgress<U(!new), V(!new)>(ucmp: Comparator<U>, v: Version<U, V>, tables: map<nat, Entries<U, V>>,
                                            job: Job<U, V>, next: nat, building: Option<nat>, horizon: nat, last: nat)
    requires TotalOrder(ucmp) && Good(ucmp, v) && UniqueNumbers(v) && NumbersBelow(v, next) && Distinct(From(v, 0))
    requires TablesHold(tables, v) && InProgress(ucmp, tables, v, Some(job), next, building, horizon, last)
    ensures job.level + 1 < |v| && job.level + 1 < |job.input| && horizon <= job.snapshot <= last
    ensures var v' := CompactionSteps.Compacted(ucmp, v, job.level, job.in0, job.in1, job.outputs);
            && Good(ucmp, v') && UniqueNumbers(v') && NumbersBelow(v', next) && From(v', 0) <= From(v, 0)
            && TablesHold(tables, v')
            && forall k :: k in Disturbed(From(v, 0), From(v', 0), job.snapshot) <==>
                ResurfacesBy(ucmp, From(v, 0), job, k)
  {
    hide Underway;
    hide Good;
    hide From;
    hide SameReads;
    hide ResurfacesBy;
    UnderwayLevels(ucmp, v, job);
    var v' := CompactionSteps.Compacted(ucmp, v, job.level, job.in0, job.in1, job.outputs);
    UnderwayInstalls(ucmp, v, job);
    InstalledNumbers(ucmp, v, v', job, next);
    InstalledTables(v, v', tables, job);
  }

  lemma VersionFacts<U(!new), V(!new)>(ucmp: Comparator<U>, logs: seq<LogFile<U, V>>, tables: map<nat, Entries<U, V>>,
                                       m: Manifest<U, V>, written: set<Entry<U, V>>, h: History<U>, next: nat)
    requires OnDisk(ucmp, logs, tables, m, written, h) && m.nextFile <= next
    ensures Good(ucmp, m.version) && UniqueNumbers(m.version) && NumbersBelow(m.version, next)
    ensures TablesHold(tables, m.version) && Distinct(From(m.version, 0)) && h.logged < MaxSequence
  {
    BelowNext(m.version, m.nextFile, next);
  }

  /** Tables that the manifest does not name may come and go. */
  lemma UnnamedTables<U(!new), V(!new)>(ucmp: Comparator<U>, logs: seq<LogFile<U, V>>, tables: map<nat, Entries<U, V>>,
                                        m: Manifest<U, V>, written: set<Entry<U, V>>, h: History<U>,
                                        tables': map<nat, Entries<U, V>>, next: nat)
    requires OnDisk(ucmp, logs, tables, m, written, h) && m.nextFile <= next && Agrees(tables, tables', next)
    ensures OnDisk(ucmp, logs, tables', m, written, h)
  {
    TablesAgree(tables, tables', m.version, m.nextFile);
  }

  lemma StillBuilding<U(!new), V(!new)>(tables: map<nat, Entries<U, V>>, tables': map<nat, Entries<U, V>>,
                                        m: Manifest<U, V>, imm: Option<Entries<U, V>>, next: nat, next': nat,
                                        building: Option<nat>)
    requires Building(tables, m, imm, next, building) && Agrees(tables, tables', next) && next <= next'
    ensures Building(tables', m, imm, next', building)
  {
  }

  lemma {:induction false} KeptHas<U(!new), V(!new)>(logs: seq<LogFile<U, V>>, from: nat, f: LogFile<U, V>)
    ensures f in Kept(logs, from) <==> f in logs && f.number >= from
  {
    if logs != [] {
      KeptHas(logs[..|logs| - 1], from, f);
      assert logs == logs[..|logs| - 1] + [logs[|logs| - 1]];
    }
  }

  lemma KeptDurable<U(!new), V(!new)>(logs: seq<LogFile<U, V>>, m: Manifest<U, V>)
    ensures Durable(Kept(logs, m.logNumber), m) == Durable(logs, m)
    ensures forall f :: f in Kept(logs, m.logNumber) <==> f in logs && f.number >= m.logNumber
  {
    LiveOfKept(logs, m.logNumber);
    forall f ensures f in Kept(logs, m.logNumber) <==> f in logs && f.number >= m.logNumber {
      KeptHas(logs, m.logNumber, f);
    }
  }

  /** A database just created: nothing logged, and a manifest that says so. */
  lemma NewOnDisk<U(!new), V(!new)>(ucmp: Comparator<U>, v: Version<U, V>)
    requires TotalOrder(ucmp) && |v| == NumLevels && forall l :: 0 <= l < NumLevels ==> v[l] == []
    ensures OnDisk(ucmp, [], map[], Manifest(v, 0, 2, 0), {}, History(0, 0, 0, iset{}))
  {
    EmptyVersion(ucmp, v);
    var logs: seq<LogFile<U, V>> := [];
    assert Live(logs, 0) == [];
    Empties<U, V>();
  }

  /** Readers from s on find what the updates make of a key, or what they found before if none is about it. */
  ghost predicate Overwrites<U(!new), V(!new)>(before: set<Entry<U, V>>, after: set<Entry<U, V>>,
                                               updates: seq<Update<U, V>>, s: nat)
  {
    forall k, s': nat, x {:trigger ReadsValue(after, k, s', x)} :: s <= s' ==>
        (ReadsValue(after, k, s', x) <==>
            if Mentions(updates, k) then x == ValueAfter(updates, k) else ReadsValue(before, k, s', x))
  }

  lemma UpdatesOverwrite<U(!new), V(!new)>(before: set<Entry<U, V>>, updates: seq<Update<U, V>>, sequence: nat)
    requires sequence > 0 && UpTo(before, sequence - 1) && Distinct(before)
    ensures Overwrites(before, BatchSet(updates, sequence) + before, updates, sequence + |updates| - 1)
  {
    hide ReadsValue;
    hide BatchSet;
    var after := BatchSet(updates, sequence) + before;
    assert updates[..|updates|] == updates;
    forall k, s: nat, x | sequence + |updates| - 1 <= s
      ensures ReadsValue(after, k, s, x) <==>
              if Mentions(updates, k) then x == ValueAfter(updates, k) else ReadsValue(before, k, s, x)
    {
      UpdatesRead(updates, sequence, before, |updates|, k, s, x);
    }
  }

  lemma AppendReads<U(!new), V(!new)>(ucmp: Comparator<U>, logs: seq<LogFile<U, V>>, tables: map<nat, Entries<U, V>>,
                                      m: Manifest<U, V>, written: set<Entry<U, V>>, h: History<U>,
                                      updates: seq<Update<U, V>>)
    requires OnDisk(ucmp, logs, tables, m, written, h)
    ensures Overwrites(written, BatchSet(updates, h.logged + 1) + written, updates, h.logged + |updates|)
  {
    DiskReads(ucmp, logs, tables, m, written, h);
    UpdatesOverwrite(written, updates, h.logged + 1);
  }

  class Store<U(==, !new), V(!new)> {
    const ucmp: Comparator<U>
    // on disk
    var logs: seq<LogFile<U, V>>
    var tables: map<nat, Entries<U, V>>
    var manifest: Manifest<U, V>
    // in the running process, if there is one
    var running: bool
    var mem: Entries<U, V>
    var imm: Option<Entries<U, V>>
    var lastSequence: nat
    var nextFileNumber: nat
    var appended: bool  // the last log record is not in mem yet
    var building: Option<nat>  // pending_outputs_: the table being written for imm
    var compacting: Option<Job<U, V>>  // the compaction that is running; its outputs are pending_outputs_ too
    // for the record
    ghost var written: set<Entry<U, V>>  // the entries of all completely logged batches, in commit order by sequence
    ghost var h: History<U>

    ghost predicate Valid()
      reads this
    {
      && OnDisk(ucmp, logs, tables, manifest, written, h)
      && (running ==>
            && InMemory(ucmp, logs, manifest, h, mem, imm, lastSequence, nextFileNumber, appended)
            && Building(tables, manifest, imm, nextFileNumber, building)
            && InProgress(ucmp, tables, manifest.version, compacting, nextFileNumber, building, h.horizon,
                lastSequence))
    }

    /** NewDB. */
    constructor (ucmp: Comparator<U>)
      requires TotalOrder(ucmp)
      ensures Valid() && !running && written == {} && this.ucmp == ucmp
      ensures logs == [] && h == History(0, 0, 0, iset{})
    {
      this.ucmp, logs, tables := ucmp, [], map[];
      manifest := Manifest(seq(NumLevels, _ => []), 0, 2, 0);
      running, mem, imm, lastSequence, nextFileNumber, appended, building := false, [], None, 0, 2, false, None;
      compacting := None;
      written, h := {}, History(0, 0, 0, iset{});
      new;
      NewOnDisk(ucmp, manifest.version);
    }

    /** log::Writer::AddRecord in DBImpl::Write, and Sync if the writer asks for it: from here on the batch survives
        the process, and if synced the machine. */
    method Append(updates: seq<Update<U, V>>, sync: bool)
      requires Valid() && running && !appended && lastSequence + |updates| < MaxSequence
      modifies this`logs, this`appended, this`written, this`h
      ensures Valid() && appended && old(logs) != []
      ensures logs == AppendTo(old(logs), Batch(lastSequence + 1, updates), sync)
      ensures logs[..|logs| - 1] == old(logs)[..|logs| - 1] && |logs| == |old(logs)|
      ensures var was, file := old(logs[|logs| - 1]), logs[|logs| - 1];
              && file.number == was.number && file.batches == was.batches + [Batch(lastSequence + 1, updates)]
              && file.synced == if sync then |file.batches| else was.synced
      ensures written == BatchSet(updates, old(lastSequence) + 1) + old(written)
      ensures h == old(h).(logged := old(h.logged) + |updates|)
      ensures Overwrites(old(written), written, updates, h.logged)
    {
      hide Overwrites;
      hide BatchSet;
      hide AppendTo;
      hide EntryOf;
      hide Ascending;
      hide Good;
      hide OnDisk;
      hide InMemory;
      hide Building;
      hide InProgress;
      var b := Batch(lastSequence + 1, updates);
      Running(ucmp, logs, tables, manifest, written, h, mem, imm, lastSequence, nextFileNumber, false);
      AppendOnDisk(ucmp, logs, tables, manifest, written, h, b, sync);
      AppendInMemory(ucmp, logs, manifest, h, mem, imm, lastSequence, nextFileNumber, b, sync);
      AppendToIs(logs, b, sync);
      AppendReads(ucmp, logs, tables, manifest, written, h, updates);
      logs := AppendTo(logs, b, sync);
      appended := true;
      written := BatchSet(updates, b.sequence) + written;
      h := h.(logged := h.logged + |updates|);
    }

    /** WriteBatchInternal::InsertInto and SetLastSequence: readers see the batch. */
    method Apply()
      requires Valid() && running && appended
      modifies this`mem, this`appended, this`lastSequence
      ensures Valid() && !appended && lastSequence == h.logged
      ensures Everything(mem, imm, manifest.version) == Durable(logs, manifest)
          && Faithful(h.disturbed, written, Everything(mem, imm, manifest.version), h.horizon)
    {
      hide Everything;
      hide Durable;
      hide SetOf;
      hide SameReads;
      hide Ascending;
      hide Good;
      hide OnDisk;
      hide InMemory;
      hide Building;
      hide InProgress;
      hide Faithful;
      Running(ucmp, logs, tables, manifest, written, h, mem, imm, lastSequence, nextFileNumber, true);
      var current := logs[|logs| - 1].batches;
      var b := current[|current| - 1];
      var mem' := InsertInto(ucmp, b.updates, b.sequence, mem);
      ApplyInMemory(ucmp, logs, tables, manifest, written, h, mem, imm, lastSequence, nextFileNumber, mem');
      LaterInProgress(ucmp, tables, manifest.version, compacting, nextFileNumber, building, h.horizon, lastSequence,
          nextFileNumber, b.sequence + |b.updates| - 1);
      mem, appended, lastSequence := mem', false, b.sequence + |b.updates| - 1;
      RunningIsHealthy(ucmp, logs, tables, manifest, written, h, mem, imm, lastSequence, nextFileNumber, false);
    }

    /** DBImpl::Get, at a sequence number from the last compaction's smallest snapshot on: what was written, and not
        lost
        with the machine, whatever has crashed and been recovered since. */
    method Get(k: U, s: nat) returns (r: Option<V>)
      requires Valid() && running && !appended && h.horizon <= s
      ensures k !in h.disturbed ==> ReadsValue(written, k, s, r)
    {
      hide OnDisk;
      hide InMemory;
      hide Building;
      hide InProgress;
      hide Everything;
      hide Healthy;
      RunningIsHealthy(ucmp, logs, tables, manifest, written, h, mem, imm, lastSequence, nextFileNumber, appended);
      var answer := Lookups(ucmp, mem, imm, manifest.version, k, s, lastSequence, nextFileNumber);
      r := ValueOf(answer);
      assert ReadsValue(Everything(mem, imm, manifest.version), k, s, r);
      assert k !in h.disturbed ==> SameReads(written, Everything(mem, imm, manifest.version), k, h.horizon);
    }

    /** MakeRoomForWrite: a new log file and a new memtable. */
    method SwitchMemTable()
      requires Valid() && running && !appended && imm.None?
      modifies this`logs, this`mem, this`imm, this`nextFileNumber, this`building
      ensures Valid() && mem == [] && imm == Some(old(mem))
      ensures logs == old(logs) + [LogFile(old(nextFileNumber), [], 0)] && manifest.logNumber < old(nextFileNumber)
    {
      hide OnDisk;
      hide InMemory;
      hide InProgress;
      Running(ucmp, logs, tables, manifest, written, h, mem, imm, lastSequence, nextFileNumber, false);
      LaterInProgress(ucmp, tables, manifest.version, compacting, nextFileNumber, building, h.horizon, lastSequence,
          nextFileNumber + 1, lastSequence);
      SwitchOnDisk(ucmp, logs, tables, manifest, written, h, nextFileNumber);
      SwitchInMemory(ucmp, logs, manifest, h, mem, lastSequence, nextFileNumber);
      logs := logs + [LogFile(nextFileNumber, [], 0)];
      imm, mem, nextFileNumber, building := Some(mem), [], nextFileNumber + 1, None;
    }

    /** WriteLevel0Table, up to the finished table file. */
    method BuildTable()
      requires Valid() && running && imm.Some? && building.None?
      modifies this`tables, this`nextFileNumber, this`building
      ensures Valid() && building == Some(old(nextFileNumber)) && nextFileNumber == old(nextFileNumber) + 1
      ensures tables == old(tables)[old(nextFileNumber) := imm.value]
    {
      hide OnDisk;
      hide InMemory;
      hide InProgress;
      Running(ucmp, logs, tables, manifest, written, h, mem, imm, lastSequence, nextFileNumber, appended);
      OtherTables(ucmp, logs, tables, manifest, written, h, nextFileNumber, imm.value);
      MoreInMemory(ucmp, logs, manifest, h, mem, imm, lastSequence, nextFileNumber, appended, nextFileNumber + 1);
      BuiltInProgress(ucmp, tables, manifest.version, compacting, nextFileNumber, h.horizon, lastSequence, imm.value);
      tables := tables[nextFileNumber := imm.value];
      building := Some(nextFileNumber);
      nextFileNumber := nextFileNumber + 1;
    }

    /** CompactMemTable: the manifest names the table and stops needing the old log, in one record, whether a compaction
        is running or not. */
    method InstallTable(size: nat, maxOverlap: nat)
      requires Valid() && running && building.Some?
      modifies this`manifest, this`imm, this`building, this`h
      ensures Valid() && imm.None? && building.None? && Durable(logs, manifest) == old(Durable(logs, manifest))
      ensures old(imm).Some? && |old(manifest.version)| == NumLevels
          && FlushesTo(ucmp, old(manifest.version), manifest.version, old(building.value), size, old(imm.value),
              maxOverlap)
      ensures logs != [] && manifest == Manifest(manifest.version, logs[|logs| - 1].number, nextFileNumber,
          lastSequence)
      ensures h == old(h).(flushedTo := h.flushedTo)
    {
      hide OnDisk;
      hide InMemory;
      hide Good;
      hide UniqueNumbers;
      hide NumbersBelow;
      hide TablesHold;
      hide SetOf;
      hide Durable;
      hide From;
      hide FlushesTo;
      hide InProgress;
      var v' := FlushTable(size, maxOverlap);
      Running(ucmp, logs, tables, manifest, written, h, mem, imm, lastSequence, nextFileNumber, appended);
      ghost var mid := InstallKeeps(ucmp, logs, tables, manifest, written, h, mem, imm.value, lastSequence,
          nextFileNumber, appended, v');
      SameDurable(ucmp, logs, manifest, h, mem, imm.value, lastSequence, nextFileNumber, appended, v');
      manifest := Manifest(v', logs[|logs| - 1].number, nextFileNumber, lastSequence);
      imm, building := None, None;
      h := h.(flushedTo := mid);
    }

    method FlushTable(size: nat, maxOverlap: nat) returns (v': Version<U, V>)
      requires Valid() && running && building.Some?
      ensures imm.Some? && Good(ucmp, v') && UniqueNumbers(v') && NumbersBelow(v', nextFileNumber)
          && TablesHold(tables, v')
      ensures From(v', 0) == From(manifest.version, 0) + SetOf(imm.value)
      ensures |manifest.version| == NumLevels
          && FlushesTo(ucmp, manifest.version, v', building.value, size, imm.value, maxOverlap)
      ensures InProgress(ucmp, tables, v', compacting, nextFileNumber, None, h.horizon, lastSequence)
    {
      FlushFacts(ucmp, logs, tables, manifest, written, h, mem, imm.value, lastSequence, nextFileNumber, appended,
          building.value, size);
      hide OnDisk;
      hide InMemory;
      hide FlushesTo;
      hide InProgress;
      v' := WriteLevel0Table(ucmp, manifest.version, building.value, size, imm.value, maxOverlap);
      FlushedTables(tables, manifest.version, v', building.value, size, imm.value);
      BelowNext(v', building.value + 1, nextFileNumber);
      FlushInProgress(ucmp, tables, manifest.version, v', compacting, nextFileNumber, building.value, h.horizon,
          lastSequence, size, imm.value, maxOverlap);
    }

    /** The compaction of a file of some level, up to the finished outputs: tables that the manifest does not name yet.
        Meanwhile batches are appended and applied, memtables switched and flushed.  The oldest live snapshot is one the
        last compaction did not pass. */
    method BeginCompaction(level: nat, index: nat, limit: nat, maxOverlap: nat, snapshot: nat)
      requires Valid() && running && compacting.None?
      requires level + 1 < NumLevels == |manifest.version| && index < |manifest.version[level]|
      requires h.horizon <= snapshot <= lastSequence
      modifies this`tables, this`nextFileNumber, this`compacting
      ensures Valid() && compacting.Some? && OutputsThere(tables, compacting.value)
      ensures Begun(ucmp, manifest.version, compacting.value, level, index, limit, snapshot, old(nextFileNumber),
          nextFileNumber)
      ensures Agrees(old(tables), tables, old(nextFileNumber))
      ensures forall n :: n in tables <==> n in old(tables) || Outputs(compacting, n)
    {
      hide Compactions.OneEach;
      hide OnDisk;
      hide InMemory;
      hide Building;
      hide Good;
      hide UniqueNumbers;
      hide NumbersBelow;
      hide TablesHold;
      hide Agrees;
      hide From;
      hide Prepared;
      hide PicksFor;
      hide InProgress;
      hide TablesIn;
      hide OutputsThere;
      Running(ucmp, logs, tables, manifest, written, h, mem, imm, lastSequence, nextFileNumber, appended);
      VersionFacts(ucmp, logs, tables, manifest, written, h, nextFileNumber);
      var job, next := BackgroundCompaction(ucmp, manifest.version, level, index, limit, maxOverlap, snapshot,
          nextFileNumber);
      OutputsWritten(ucmp, manifest.version, tables, job, nextFileNumber, next);
      OneOfEachOnDisk(ucmp, logs, tables, manifest, written, h, job);
      var tables' := tables + TablesIn(job.outputs);
      UnnamedTables(ucmp, logs, tables, manifest, written, h, tables', nextFileNumber);
      MoreInMemory(ucmp, logs, manifest, h, mem, imm, lastSequence, nextFileNumber, appended, next);
      StillBuilding(tables, tables', manifest, imm, nextFileNumber, next, building);
      StartInProgress(ucmp, tables, tables', manifest, imm, job, nextFileNumber, next, building, h.horizon,
          lastSequence);
      tables, nextFileNumber, compacting := tables', next, Some(job);
    }

    /** InstallCompactionResults: the manifest takes the outputs in place of the inputs. */
    method FinishCompaction()
      requires Valid() && running && building.None? && compacting.Some?
      modifies this`manifest, this`h, this`compacting
      ensures var job := old(compacting.value);
              && job.level + 1 < |old(manifest.version)| && job.level + 1 < |job.input|
              && manifest == Manifest(CompactionSteps.Compacted(ucmp, old(manifest.version), job.level, job.in0,
                  job.in1,
                                      job.outputs), old(manifest.logNumber), nextFileNumber, lastSequence)
              && h == old(h).(horizon := job.snapshot, disturbed := h.disturbed)
              && forall k :: k in h.disturbed <==>
                  k in old(h.disturbed) || ResurfacesBy(ucmp, old(From(manifest.version, 0)), job, k)
      ensures Valid() && compacting == None
    {
      hide OnDisk;
      hide InMemory;
      hide Good;
      hide SameReads;
      hide From;
      hide UniqueNumbers;
      hide NumbersBelow;
      hide TablesHold;
      hide ResurfacesBy;
      hide InProgress;
      hide CompactionSteps.Compacted;
      var job := compacting.value;
      Running(ucmp, logs, tables, manifest, written, h, mem, imm, lastSequence, nextFileNumber, appended);
      VersionFacts(ucmp, logs, tables, manifest, written, h, nextFileNumber);
      InstallInProgress(ucmp, manifest.version, tables, job, nextFileNumber, building, h.horizon, lastSequence);
      var v' := Install(ucmp, manifest.version, job);
      var m' := Manifest(v', manifest.logNumber, nextFileNumber, lastSequence);
      CompactOnDisk(ucmp, logs, tables, manifest, written, h, m', tables, job.snapshot);
      CompactInMemory(ucmp, logs, manifest, h, mem, imm, lastSequence, nextFileNumber, appended, m', nextFileNumber,
          job.snapshot);
      h := HistoryAfter(h, manifest.version, v', job.snapshot);
      manifest, compacting := m', None;
      NoneInProgress(ucmp, tables, v', nextFileNumber, building, h.horizon, lastSequence);
    }

    /** A whole compaction, with nothing in between: afterwards the disk still reads as all that was logged, but for the
        keys of which, by CompactionKeepsReadsIff, an old value resurfaces. */
    method Compact(level: nat, index: nat, limit: nat, maxOverlap: nat, snapshot: nat)
      returns (ghost in0: seq<File<U, V>>, ghost in1: seq<File<U, V>>)
      requires Valid() && running && building.None? && compacting.None?
      requires level + 1 < NumLevels == |manifest.version| && index < |manifest.version[level]|
      requires h.horizon <= snapshot <= lastSequence
      modifies this`manifest, this`tables, this`nextFileNumber, this`h, this`compacting
      ensures Valid() && h.horizon == snapshot && compacting == None
      ensures CompactsTo(ucmp, old(manifest.version), manifest.version, level, in0, in1, snapshot)
      ensures PicksFor(ucmp, old(manifest.version), level, old(manifest.version[level][index]), limit, in0, in1)
      ensures Compactions.OneEach(Contents(in0 + in1))
      ensures forall k :: k in h.disturbed <==>
          k in old(h.disturbed) || ResurfacesIn(ucmp, old(manifest.version), level, in0, in1, k, snapshot)
    {
      hide Compactions.OneEach;
      hide OnDisk;
      hide InMemory;
      hide InProgress;
      hide Building;
      hide Resurfaces;
      hide CompactsTo;
      hide Underway;
      hide PicksFor;
      hide SameReads;
      hide From;
      BeginCompaction(level, index, limit, maxOverlap, snapshot);
      in0, in1 := compacting.value.in0, compacting.value.in1;
      FinishCompaction();
    }

    /** DeleteObsoleteFiles: logs older than the manifest's, and tables neither live nor being written. */
    method DeleteObsoleteFiles()
      requires Valid()
      modifies this`logs, this`tables
      ensures Valid() && Durable(logs, manifest) == old(Durable(logs, manifest))
      ensures forall f :: f in logs <==> f in old(logs) && f.number >= manifest.logNumber
      ensures forall n :: n in tables <==>
          n in old(tables) && (Names(manifest.version, n)
              || (running && (building == Some(n) || Outputs(compacting, n))))
      ensures forall n :: n in tables ==> tables[n] == old(tables)[n]
    {
      hide OnDisk;
      hide InMemory;
      hide Durable;
      hide NumbersOf;
      hide Names;
      hide InProgress;
      hide Outputs;
      var live := NumbersOf(manifest.version) + if running then PendingOutputs(building, compacting) else {};
      var tables' := map n | n in tables && n in live :: tables[n];
      LiveAreKept(tables, tables', manifest.version, live);
      DeleteOnDisk(ucmp, logs, tables, manifest, written, h, tables');
      forall n ensures n in PendingOutputs(building, compacting) <==> building == Some(n) || Outputs(compacting, n) {
        PendingOutputsHas(building, compacting, n);
      }
      if running {
        DeleteInMemory(ucmp, logs, manifest, h, mem, imm, lastSequence, nextFileNumber, appended);
        DeleteInProgress(ucmp, tables, tables', manifest.version, compacting, nextFileNumber, building, h.horizon,
            lastSequence);
      }
      KeptDurable(logs, manifest);
      forall n ensures n in NumbersOf(manifest.version) <==> Names(manifest.version, n) {
        NumbersOfHas(manifest.version, n);
      }
      logs, tables := Kept(logs, manifest.logNumber), tables';
    }

    /** The process dies, at any point: whatever was in memory is gone. */
    method Crash()
      requires Valid()
      modifies this`running, this`mem, this`imm, this`appended, this`building, this`compacting
      ensures Valid() && !running
    {
      hide OnDisk;
      hide InMemory;
      hide Building;
      hide InProgress;
      running, mem, imm, appended, building, compacting := false, [], None, false, None, None;
    }

    /** The machine stops, at any point: what was not synced may be missing at the end of every log file.  Whatever
        was synced or flushed is there, and nothing else changes. */
    method PowerLoss(kept: seq<nat>)
      requires Valid() && MayKeep(logs, kept)
      modifies this`logs, this`running, this`mem, this`imm, this`appended, this`building, this`compacting,
               this`written, this`h
      ensures Valid() && !running && logs == Cut(old(logs), kept) && h == AfterLoss(old(h), logs, manifest)
      ensures written == Surviving(logs, manifest, old(written), old(h.flushedTo)) <= old(written)
      ensures Flushed(old(written), old(h.flushedTo)) <= written
      ensures SyncedIn(old(logs), manifest.logNumber, written)
    {
      hide OnDisk;
      hide InMemory;
      hide Building;
      hide BatchSet;
      hide EntriesOfBatches;
      LossOnDisk(ucmp, logs, tables, manifest, written, h, kept);
      SyncedSurvives(logs, kept, manifest, written, h.flushedTo);
      running, mem, imm, appended, building, compacting := false, [], None, false, None, None;
      written := Surviving(Cut(logs, kept), manifest, written, h.flushedTo);
      h := AfterLoss(h, Cut(logs, kept), manifest);
      logs := Cut(logs, kept);
    }

    /** DB::Open: after it the store reads as everything that was ever completely logged. */
    method Open()
      requires Valid() && !running
      modifies this
      ensures Valid() && running && !appended && written == old(written)
      ensures h == old(h).(flushedTo := old(h.logged)) && lastSequence == h.logged && imm == None
      ensures logs == old(logs) + [LogFile(manifest.logNumber, [], 0)]
      ensures mem == [] && Everything(mem, imm, manifest.version) == old(Durable(logs, manifest))
      ensures manifest == Manifest(manifest.version, manifest.logNumber, manifest.logNumber + 1, h.logged)
          && nextFileNumber == manifest.nextFile && old(manifest.nextFile) <= manifest.logNumber
      ensures OnlyLevel0(old(manifest.version), manifest.version)
          && Agrees(old(tables), tables, old(manifest.nextFile))
      ensures Faithful(h.disturbed, written, Everything(mem, imm, manifest.version), h.horizon)
    {
      hide SameReads;
      hide TotalOrder;
      hide Good;
      hide OnDisk;
      hide InMemory;
      hide Faithful;
      hide Rebuilt;
      hide Durable;
      hide Everything;
      hide From;
      var v, tables', next, last := RecoverLogs(ucmp, logs, tables, manifest, written, h);
      OpenedOnDisk(ucmp, logs, tables, manifest, written, h, v, tables', next);
      RebuiltIs(ucmp, v, tables', next, Durable(logs, manifest), h.logged);
      logs := logs + [LogFile(next, [], 0)];
      tables, manifest := tables', Manifest(v, next, next + 1, last);
      running, mem, imm, appended, building, compacting := true, [], None, false, None, None;
      lastSequence, nextFileNumber := last, next + 1;
      h := h.(flushedTo := h.logged);
      RunningIsHealthy(ucmp, logs, tables, manifest, written, h, mem, imm, lastSequence, nextFileNumber, false);
      NothingInMemory(v);
    }

    /** DB::Open cut short by another crash, after any number of the tables it writes, the last perhaps in part:
        in log i, after j of its batches. */
    method InterruptedOpen(i: nat, j: nat, partial: Entries<U, V>)
      requires Valid() && !running && i < |logs| && j <= |logs[i].batches|
      modifies this`tables
      ensures Valid() && !running && Durable(logs, manifest) == old(Durable(logs, manifest))
    {
      hide OnDisk;
      hide InMemory;
      var tables', next := RecoverPartly(ucmp, logs, tables, manifest, i, j, written, h);
      UnnamedTables(ucmp, logs, tables, manifest, written, h, tables', manifest.nextFile);
      OtherTables(ucmp, logs, tables', manifest, written, h, next, partial);
      tables := tables'[next := partial];
    }

    /** Or after all of them, and perhaps the new log file, but before the new manifest. */
    method UnfinishedOpen(newLog: bool)
      requires Valid() && !running
      modifies this`logs, this`tables
      ensures Valid() && !running && Durable(logs, manifest) == old(Durable(logs, manifest))
    {
      hide OnDisk;
      hide InMemory;
      hide Rebuilt;
      hide Durable;
      var v, tables', next, last := RecoverLogs(ucmp, logs, tables, manifest, written, h);
      InterruptedOnDisk(ucmp, logs, tables, manifest, written, h, tables', next);
      tables := tables';
      if newLog { logs := logs + [LogFile(next, [], 0)]; }
    }
  }

  function ByValue(a: int, b: int): int { a - b }

  /** Of a first batch in an older log, not synced, and a second in the current one, synced, only the second need be
      there. */
  lemma LostPart(from: nat, next: nat, first: seq<Update<int, int>>, second: seq<Update<int, int>>)
    requires from < next
    ensures var logs := [LogFile(from, [Batch(1, first)], 0), LogFile(next, [Batch(2, second)], 1)];
            MayKeep(logs, [0, 1]) && EntriesOfBatches(Live(Cut(logs, [0, 1]), from)) == BatchSet(second, 2)
  {
    var logs := [LogFile(from, [Batch(1, first)], 0), LogFile(next, [Batch(2, second)], 1)];
    var kept: seq<nat> := [0, 1];
    CutLast(logs, kept, from);
    CutLast(logs[..1], kept[..1], from);
    NoLogs(logs[..1][..0], kept[..1][..0], from);
    assert Live(logs[..1][..0], from) == [];
    var bs := Live(Cut(logs, kept), from);
    assert bs == [Batch(2, second)];
    assert EntriesOfBatches(bs[..0]) == {};
  }

  lemma NoneFlushed(a: seq<Update<int, int>>, b: seq<Update<int, int>>)
    ensures Flushed(BatchSet(b, 2) + (BatchSet(a, 1) + {}), 0) == {}
  {
    BatchSequences(a, 1);
    BatchSequences(b, 2);
  }

  lemma OnlySecond(S: set<Entry<int, int>>, horizon: nat)
    requires Faithful(iset{}, BatchSet([Update(Value, 2, 20)], 2), S, horizon)
    ensures forall s: nat :: s >= horizon && s >= 2 ==> ReadsValue(S, 1, s, None) && ReadsValue(S, 2, s, Some(20))
  {
    var u: Update<int, int> := Update(Value, 2, 20);
    var written := BatchSet([u], 2);
    forall e ensures e in written <==> e == EntryOf(u, 2) {
      if e == EntryOf(u, 2) { assert e == EntryOf([u][0], 2 + 0); }
    }
    assert SameReads(written, S, 1, horizon) && SameReads(written, S, 2, horizon);
    forall s: nat | s >= horizon && s >= 2 ensures ReadsValue(S, 1, s, None) && ReadsValue(S, 2, s, Some(20)) {
      assert BestOf(written, EntryOf(u, 2), 2, s);
      assert ReadsValue(written, 1, s, None) && ReadsValue(written, 2, s, Some(20));
    }
  }

  /** A new store with one write, not synced. */
  method OneWrite(first: seq<Update<int, int>>) returns (store: Store<int, int>)
    requires |first| == 1
    ensures fresh(store) && store.Valid() && store.running && !store.appended && store.imm == None
    ensures store.logs == [LogFile(store.manifest.logNumber, [Batch(1, first)], 0)]
    ensures store.lastSequence == store.h.logged == 1 && store.written == BatchSet(first, 1) + {}
    ensures store.h.flushedTo == store.h.horizon == 0 && store.h.disturbed == iset{}
  {
    hide Store.Valid;
    hide BatchSet;
    hide Everything;
    hide Durable;
    hide Faithful;
    hide Overwrites;
    hide OnlyLevel0;
    hide Agrees;
    store := new Store(ByValue);
    store.Open();
    assert store.logs == [LogFile(store.manifest.logNumber, [], 0)];
    store.Append(first, false);
    assert store.logs == [store.logs[0]] && [] + [Batch(1, first)] == [Batch(1, first)];
    assert store.logs[0] == LogFile(store.manifest.logNumber, [Batch(1, first)], 0);
    store.Apply();
  }

  /** Two writes with a switch of the log between them, the second one synced. */
  method TwoWrites(first: seq<Update<int, int>>, second: seq<Update<int, int>>) returns (store: Store<int, int>)
    requires |first| == |second| == 1
    ensures fresh(store) && store.Valid() && store.running && |store.logs| == 2
    ensures store.logs[0] == LogFile(store.manifest.logNumber, [Batch(1, first)], 0)
    ensures store.logs[1] == LogFile(store.logs[1].number, [Batch(2, second)], 1)
    ensures store.manifest.logNumber < store.logs[1].number
    ensures store.written == BatchSet(second, 2) + (BatchSet(first, 1) + {})
    ensures store.h.flushedTo == store.h.horizon == 0 && store.h.disturbed == iset{}
  {
    hide Store.Valid;
    hide BatchSet;
    hide Everything;
    hide Durable;
    hide Faithful;
    hide Overwrites;
    store := OneWrite(first);
    store.SwitchMemTable();
    store.Append(second, true);
    store.Apply();
  }

  /** A write that has returned can be lost while a later one, which was synced, is there: the log was switched in
      between.  Afterwards key 1 is not found and key 2 is. */
  method OlderWriteLost() returns (store: Store<int, int>)
    ensures store.Valid() && store.running
    ensures forall s: nat :: s >= 2 ==>
        && ReadsValue(Everything(store.mem, store.imm, store.manifest.version), 1, s, None)
        && ReadsValue(Everything(store.mem, store.imm, store.manifest.version), 2, s, Some(20))
  {
    hide Store.Valid;
    hide Faithful;
    hide BatchSet;
    hide EntriesOfBatches;
    hide Everything;
    hide Durable;
    hide ReadsValue;
    hide Flushed;
    hide SyncedIn;
    var first, second := [Update(Value, 1, 10)], [Update(Value, 2, 20)];
    store := TwoWrites(first, second);
    LostPart(store.logs[0].number, store.logs[1].number, first, second);
    assert store.logs == [LogFile(store.logs[0].number, [Batch(1, first)], 0),
                          LogFile(store.logs[1].number, [Batch(2, second)], 1)];
    NoneFlushed(first, second);
    store.PowerLoss([0, 1]);
    assert store.written == BatchSet(second, 2);
    store.Open();
    OnlySecond(Everything(store.mem, store.imm, store.manifest.version), store.h.horizon);
  }

  lemma NothingInMemory<U(!new), V(!new)>(v: Version<U, V>)
    ensures Everything([], None, v) == From(v, 0)
  {
    Empties<U, V>();
  }

  lemma RebuiltIs<U(!new), V(!new)>(ucmp: Comparator<U>, v: Version<U, V>, tables: map<nat, Entries<U, V>>, next: nat,
                                    S: set<Entry<U, V>>, hi: nat)
    requires Rebuilt(ucmp, v, tables, next, S, hi)
    ensures From(v, 0) == S
  {
  }

  /** What the steps of a running store rely on. */
  lemma Running<U(!new), V(!new)>(ucmp: Comparator<U>, logs: seq<LogFile<U, V>>, tables: map<nat, Entries<U, V>>,
                                  m: Manifest<U, V>, written: set<Entry<U, V>>, h: History<U>, mem: Entries<U, V>,
                                  imm: Option<Entries<U, V>>, last: nat, next: nat, appended: bool)
    requires OnDisk(ucmp, logs, tables, m, written, h) && InMemory(ucmp, logs, m, h, mem, imm, last, next, appended)
    ensures TotalOrder(ucmp) && Ascending(logs) && logs != [] && m.logNumber <= logs[|logs| - 1].number < next
        && m.nextFile <= next
    ensures forall f :: f in logs ==> f.number < next
    ensures last <= h.logged && (!appended ==> last == h.logged) && h.flushedTo <= last && m.lastSequence <= last
    ensures Ordered(ucmp, mem) && forall x :: x in mem ==> x.0.sequence <= last
    ensures appended ==> logs[|logs| - 1].batches != [] && var cur := logs[|logs| - 1].batches;
        cur[|cur| - 1].sequence == last + 1 && h.logged == last + |cur[|cur| - 1].updates|
  {
    LogsBelow(logs, next);
    var mid := Layers(ucmp, logs, tables, m, written, h, mem, imm, last, next, appended);
    forall x | x in mem ensures x.0.sequence <= last { assert x in SetOf(mem); }
  }

  lemma FlushFacts<U(!new), V(!new)>(ucmp: Comparator<U>, logs: seq<LogFile<U, V>>, tables: map<nat, Entries<U, V>>,
                                     m: Manifest<U, V>, written: set<Entry<U, V>>, h: History<U>, mem: Entries<U, V>,
                                     imm: Entries<U, V>, last: nat, next: nat, appended: bool, number: nat, size: nat)
    requires OnDisk(ucmp, logs, tables, m, written, h)
        && InMemory(ucmp, logs, m, h, mem, Some(imm), last, next, appended) && m.nextFile <= number
    ensures TotalOrder(ucmp) && Good(ucmp, m.version) && AllBounded(m.version) && UniqueNumbers(m.version)
        && NumbersBelow(m.version, number) && TablesHold(tables, m.version)
    ensures imm != [] ==> Flushable(ucmp, m.version, TableOf(number, size, imm))
  {
    RunningIsHealthy(ucmp, logs, tables, m, written, h, mem, Some(imm), last, next, appended);
    FilesBounded(ucmp, m.version, h.flushedTo);
    BelowNext(m.version, m.nextFile, number);
    if imm != [] { assert EntriesOf(TableOf(number, size, imm)) == ImmSet(Some(imm)); }
  }

  lemma SameDurable<U(!new), V(!new)>(ucmp: Comparator<U>, logs: seq<LogFile<U, V>>, m: Manifest<U, V>, h: History<U>,
                                      mem: Entries<U, V>, imm: Entries<U, V>, last: nat, next: nat, appended: bool,
                                      v': Version<U, V>)
    requires Ascending(logs) && InMemory(ucmp, logs, m, h, mem, Some(imm), last, next, appended)
        && From(v', 0) == From(m.version, 0) + SetOf(imm)
    ensures Durable(logs, Manifest(v', logs[|logs| - 1].number, next, last)) == Durable(logs, m)
  {
    CurrentOnly(logs);
    LiveEndsWithCurrent(logs, m.logNumber);
    BatchesAppend(Live(logs[..|logs| - 1], m.logNumber), logs[|logs| - 1].batches);
  }
}
