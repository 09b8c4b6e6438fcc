/** The log files of a store as bytes: write batches in log records, cut anywhere (db/db_impl.cc Write and
    RecoverLogFile over db/write_batch.cc and db/log_writer.cc). */
module LogFiles {
  import opened Coding
  import opened Options
  import opened Order
  import opened InternalKeys
  import opened Tables
  import opened Varints
  import opened Database
  import opened LogRoundTrip
  import opened Durability
  import F = LogFormat
  import W = WriteBatches

  type Bytes = seq<Byte>

  type Updates = seq<Update<Bytes, Bytes>>

  type Batches = seq<Batch<Bytes, Bytes>>

  // ------------------------------------------------------------------ one record

  function OpOf(u: Update<Bytes, Bytes>): W.Op {
    if u.kind == Value then W.Put(u.key, u.value) else W.Op.Delete(u.key)
  }

  function UpdateOf(op: W.Op): Update<Bytes, Bytes> {
    match op
    case Put(key, value) => Update(Value, key, value)
    case Delete(key) => Update(Deletion, key, [])
  }

  function OpsOf(updates: Updates): (ops: seq<W.Op>)
    ensures |ops| == |updates| && forall i :: 0 <= i < |ops| ==> ops[i] == OpOf(updates[i])
  {
    seq(|updates|, i requires 0 <= i < |updates| => OpOf(updates[i]))
  }

  function UpdatesOf(ops: seq<W.Op>): (updates: Updates)
    ensures |updates| == |ops| && forall i :: 0 <= i < |ops| ==> updates[i] == UpdateOf(ops[i])
  {
    seq(|ops|, i requires 0 <= i < |ops| => UpdateOf(ops[i]))
  }

  /** What a batch that was put together by Put and Delete is like. */
  ghost predicate Loggable(b: Batch<Bytes, Bytes>) {
    && b.sequence < Max64 && |b.updates| < Max32
    && forall u :: u in b.updates ==> W.Storable(OpOf(u)) && (u.kind == Deletion ==> u.value == [])
  }

  function RecordOf(b: Batch<Bytes, Bytes>): Bytes { W.Rep(b.sequence, OpsOf(b.updates)) }

  /** A record taken for a batch, if it is one. */
  function BatchOf(record: Bytes): Option<Batch<Bytes, Bytes>> {
    if |record| < W.HeaderSize then None
    else
      var (ops, ok) := W.ParseBody(record[12..]);
      if ok && FixedValue(record[8..12]) == |ops| then Some(Batch(FixedValue(record[..8]), UpdatesOf(ops))) else None
  }

  lemma RecordIsBatch(b: Batch<Bytes, Bytes>)
    requires Loggable(b)
    ensures BatchOf(RecordOf(b)) == Some(b)
  {
    hide W.Rep;
    hide W.ParseBody;
    hide W.Storable;
    hide FixedValue;
    var ops := OpsOf(b.updates);
    Widths();
    W.HeaderParts(b.sequence, ops);
    forall op | op in ops ensures W.Storable(op) {
      var i :| 0 <= i < |ops| && ops[i] == op;
      assert b.updates[i] in b.updates;
    }
    W.BodyRoundTrip(ops);
    forall i | 0 <= i < |ops| ensures UpdateOf(ops[i]) == b.updates[i] { assert b.updates[i] in b.updates; }
    assert UpdatesOf(ops) == b.updates;
  }

  lemma Widths()
    ensures Pow256(8) == Max64 && Pow256(4) == Max32
  {
    assert Pow256(2) == 0x1_0000 && Pow256(4) == 0x1_0000_0000 && Pow256(6) == 0x1_0000_0000_0000;
  }

  // ------------------------------------------------------------------ one file

  function RecordsOf(bs: Batches): (records: seq<Bytes>)
    ensures |records| == |bs| && forall i :: 0 <= i < |bs| ==> records[i] == RecordOf(bs[i])
  {
    seq(|bs|, i requires 0 <= i < |bs| => RecordOf(bs[i]))
  }

  function FileBytes(bs: Batches): Bytes { F.Written(RecordsOf(bs)) }

  /** The batches of a file up to the first record that is none. */
  function BatchesIn(records: seq<Bytes>): Batches {
    if records == [] then []
    else
      match BatchOf(records[0])
      case None => []
      case Some(b) => [b] + BatchesIn(records[1..])
  }

  /** After a restart what is in a file is on the disk. */
  function ReadFile(number: nat, contents: Bytes): LogFile<Bytes, Bytes> {
    var batches := BatchesIn(ReadAll(contents, 0).0);
    LogFile(number, batches, |batches|)
  }

  lemma {:induction false} RecordsAreBatches(bs: Batches)
    requires forall b :: b in bs ==> Loggable(b)
    ensures BatchesIn(RecordsOf(bs)) == bs
  {
    hide RecordOf;
    hide BatchOf;
    hide Loggable;
    if bs != [] {
      RecordIsBatch(bs[0]);
      assert RecordsOf(bs)[1..] == RecordsOf(bs[1..]);
      RecordsAreBatches(bs[1..]);
      assert bs == [bs[0]] + bs[1..];
    }
  }

  /** A log file cut at any byte holds just the batches that lie before the cut, and nothing is reported. */
  lemma CutFile(number: nat, bs: Batches, n: nat) returns (k: nat)
    requires (forall b :: b in bs ==> Loggable(b)) && n <= |FileBytes(bs)|
    ensures k <= |bs| && ReadFile(number, FileBytes(bs)[..n]) == LogFile(number, bs[..k], k)
    ensures ReadAll(FileBytes(bs)[..n], 0).1 == []
    ensures forall i :: 0 <= i <= |bs| ==> (i <= k <==> |FileBytes(bs[..i])| <= n)
  {
    hide F.Written;
    hide RecordOf;
    hide Loggable;
    hide ReadAll;
    var records := RecordsOf(bs);
    k := Complete(records, n);
    TruncatedLog(records, n);
    assert records[..k] == RecordsOf(bs[..k]);
    RecordsAreBatches(bs[..k]);
    forall i | 0 <= i <= |bs| ensures i <= k <==> |FileBytes(bs[..i])| <= n {
      assert records[..i] == RecordsOf(bs[..i]);
    }
  }

  // ------------------------------------------------------------------ cut files

  /** Each log file cut after some byte, no earlier than the last it was synced to. */
  ghost predicate CutBytes(logs: seq<LogFile<Bytes, Bytes>>, ns: seq<nat>) {
    && |ns| == |logs|
    && forall i :: 0 <= i < |logs| ==>
         && logs[i].synced <= |logs[i].batches| && ns[i] <= |FileBytes(logs[i].batches)|
         && |FileBytes(logs[i].batches[..logs[i].synced])| <= ns[i]
  }

  /** The first k batches are what is read of the first n bytes. */
  ghost predicate ReadsBack(f: LogFile<Bytes, Bytes>, n: nat, k: nat) {
    && f.synced <= k <= |f.batches| && n <= |FileBytes(f.batches)|
    && ReadFile(f.number, FileBytes(f.batches)[..n]) == LogFile(f.number, f.batches[..k], k)
  }

  lemma CutOne(logs: seq<LogFile<Bytes, Bytes>>, ns: seq<nat>, i: nat) returns (k: nat)
    requires CutBytes(logs, ns) && i < |logs| && forall b :: b in logs[i].batches ==> Loggable(b)
    ensures ReadsBack(logs[i], ns[i], k)
  {
    hide FileBytes;
    hide ReadFile;
    hide Loggable;
    k := CutFile(logs[i].number, logs[i].batches, ns[i]);
    assert logs[i].synced <= k;
  }

  /** Reading cut files gives each log up to one of its batches, none of the synced ones missing, and nothing else. */
  lemma CutFiles(logs: seq<LogFile<Bytes, Bytes>>, ns: seq<nat>) returns (kept: seq<nat>)
    requires CutBytes(logs, ns) && forall f, b :: f in logs && b in f.batches ==> Loggable(b)
    ensures MayKeep(logs, kept)
    ensures forall i :: 0 <= i < |logs| ==>
        Cut(logs, kept)[i] == ReadFile(logs[i].number, FileBytes(logs[i].batches)[..ns[i]])
  {
    hide FileBytes;
    hide ReadFile;
    hide Loggable;
    kept := [];
    for i := 0 to |logs|
      invariant |kept| == i && forall j :: 0 <= j < i ==> ReadsBack(logs[j], ns[j], kept[j])
    {
      hide ReadsBack;
      assert logs[i] in logs;
      var k := CutOne(logs, ns, i);
      kept := kept + [k];
    }
    forall i | 0 <= i < |logs| ensures ReadsBack(logs[i], ns[i], kept[i]) { }
  }

  /** So wherever the machine's disk ends, in the middle of a record or of a fragment's header, what it holds is in
      order, and reads as what was written less the batches that are cut. */
  lemma CutDisk(ucmp: Comparator<Bytes>, logs: seq<LogFile<Bytes, Bytes>>, tables: map<nat, Entries<Bytes, Bytes>>,
                m: Manifest<Bytes, Bytes>, written: set<Entry<Bytes, Bytes>>, h: History<Bytes>, ns: seq<nat>)
      returns (logs': seq<LogFile<Bytes, Bytes>>)
    requires OnDisk(ucmp, logs, tables, m, written, h) && CutBytes(logs, ns)
    requires forall f, b :: f in logs && b in f.batches ==> Loggable(b)
    ensures |logs'| == |logs|
    ensures forall i :: 0 <= i < |logs| ==>
        logs'[i] == ReadFile(logs[i].number, FileBytes(logs[i].batches)[..ns[i]])
    ensures OnDisk(ucmp, logs', tables, m, Surviving(logs', m, written, h.flushedTo), AfterLoss(h, logs', m))
    ensures SyncedIn(logs, m.logNumber, Surviving(logs', m, written, h.flushedTo))
  {
    hide OnDisk;
    hide FileBytes;
    hide ReadFile;
    hide Loggable;
    hide Surviving;
    hide SyncedIn;
    var kept := CutFiles(logs, ns);
    LossOnDisk(ucmp, logs, tables, m, written, h, kept);
    SyncedSurvives(logs, kept, m, written, h.flushedTo);
    logs' := Cut(logs, kept);
  }
}
