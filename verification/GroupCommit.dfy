/** Group commit (DBImpl::Write and BuildBatchGroup in db/db_impl.cc): writers queue up, the one at the
    front writes for itself and some of those behind it, and readers look on at any point. */
module GroupCommit {
  import opened Options

  /** A waiting writer: its batch of updates (none asks only for a compaction), the batch's size in bytes,
      and whether it wants the log synced. */
  datatype Writer<T> = Writer(id: nat, batch: Option<seq<T>>, bytes: nat, sync: bool)

  const MaxGroup: nat := 1048576
  const SmallWrite: nat := 131072

  function UpdatesOf<T>(w: Writer<T>): seq<T> {
    if w.batch.Some? then w.batch.value else []
  }

  function UpdatesOfAll<T>(ws: seq<Writer<T>>): seq<T> {
    if ws == [] then [] else UpdatesOfAll(ws[..|ws| - 1]) + UpdatesOf(ws[|ws| - 1])
  }

  function BytesOfAll<T>(ws: seq<Writer<T>>): nat {
    if ws == [] then 0 else BytesOfAll(ws[..|ws| - 1]) + if ws[|ws| - 1].batch.Some? then ws[|ws| - 1].bytes else 0
  }

  function GroupLimit(first: nat): nat {
    if first <= SmallWrite then first + SmallWrite else MaxGroup
  }

  /** The writers a leader may write for: the front of the queue, no sync write under a leader that does
      not sync, and, beyond the leader's own batch, no more bytes than the limit. */
  ghost predicate Group<T>(queue: seq<Writer<T>>, n: nat) {
    && 1 <= n <= |queue| && queue[0].batch.Some?
    && (!queue[0].sync ==> forall i :: 0 <= i < n ==> !queue[i].sync)
    && (n > 1 ==> BytesOfAll(queue[..n]) <= GroupLimit(queue[0].bytes) || forall i :: 1 <= i < n ==>
        queue[i].batch.None?)
  }

  /** The group could not have been longer. */
  ghost predicate Longest<T>(queue: seq<Writer<T>>, n: nat)
    requires 1 <= n <= |queue|
  {
    n < |queue| ==>
      || (queue[n].sync && !queue[0].sync)
      || (queue[n].batch.Some? && BytesOfAll(queue[..n]) + queue[n].bytes > GroupLimit(queue[0].bytes))
  }

  /** BuildBatchGroup: how many writers the group has, and all their updates in queue order. */
  method BuildBatchGroup<T>(queue: seq<Writer<T>>) returns (n: nat, result: seq<T>)
    requires queue != [] && queue[0].batch.Some?
    ensures Group(queue, n) && Longest(queue, n)
    ensures result == UpdatesOfAll(queue[..n])
  {
    var first := queue[0];
    result := first.batch.value;
    var size := first.bytes;
    var maxSize := if size <= SmallWrite then size + SmallWrite else MaxGroup;
    n := 1;
    assert queue[..1][..0] == [] && UpdatesOfAll(queue[..1]) == [] + result;
    while n < |queue|
      invariant 1 <= n <= |queue|
      invariant !first.sync ==> forall i :: 0 <= i < n ==> !queue[i].sync
      invariant size == BytesOfAll(queue[..n]) && result == UpdatesOfAll(queue[..n])
      invariant size <= maxSize || forall i :: 1 <= i < n ==> queue[i].batch.None?
    {
      var w := queue[n];
      assert queue[..n + 1][..n] == queue[..n];
      if w.sync && !first.sync {
        // Do not include a sync write into a batch handled by a non-sync write.
        break;
      }
      if w.batch.Some? {
        if size + w.bytes > maxSize {
          // Do not make batch too big
          break;
        }
        size := size + w.bytes;
        result := result + w.batch.value;
      }
      n := n + 1;
    }
  }

  // ---------------------------------------------------------------- numbered updates

  /** A record of the log: the group's updates under the sequence number of the first. */
  datatype Batch<T> = Batch(sequence: nat, updates: seq<T>)

  /** An update with its own sequence number. */
  datatype Entry<T> = Entry(sequence: nat, update: T)

  function Numbered<T>(first: nat, updates: seq<T>): (r: seq<Entry<T>>)
    ensures |r| == |updates|
  {
    seq(|updates|, i requires 0 <= i < |updates| => Entry(first + i, updates[i]))
  }

  function EntriesOf<T>(batch: Batch<T>): seq<Entry<T>> {
    Numbered(batch.sequence, batch.updates)
  }

  function EntriesIn<T>(log: seq<Batch<T>>): seq<Entry<T>> {
    if log == [] then [] else EntriesIn(log[..|log| - 1]) + EntriesOf(log[|log| - 1])
  }

  lemma NumberedAppend<T>(first: nat, a: seq<T>, b: seq<T>)
    ensures Numbered(first, a + b) == Numbered(first, a) + Numbered(first + |a|, b)
  {
  }

  lemma OneMoreRecord<T>(log: seq<Batch<T>>, batch: Batch<T>)
    ensures EntriesIn(log + [batch]) == EntriesIn(log) + EntriesOf(batch)
  {
    assert (log + [batch])[..|log|] == log;
  }

  // ---------------------------------------------------------------- the state machine

  /** What the leader is doing: nothing yet, logging its group's batch, or inserting its updates one by one; last is
      the leader's own copy of the last sequence number. */
  datatype Phase<T> = Waiting
                    | Logging(n: nat, batch: Batch<T>, last: nat)
                    | Inserting(n: nat, batch: Batch<T>, last: nat, done: nat)

  /** The log's records, and the updates inserted into the memtable, in order.  submitted and finished are the
      writers that ever entered the queue and those that have left it; synced is how many records are on disk for
      certain. */
  datatype State<T> = State(queue: seq<Writer<T>>, phase: Phase<T>, log: seq<Batch<T>>, mem: seq<Entry<T>>,
                            lastSequence: nat, submitted: seq<Writer<T>>, finished: seq<Writer<T>>, synced: nat)

  ghost predicate Init<T>(s: State<T>) {
    s == State([], Waiting, [], [], 0, [], [], 0)
  }

  function Submit<T>(s: State<T>, w: Writer<T>): State<T> {
    s.(queue := s.queue + [w], submitted := s.submitted + [w])
  }

  ghost predicate CanLead<T>(s: State<T>, n: nat) {
    s.phase == Waiting && s.queue != [] && s.queue[0].batch.Some? && Group(s.queue, n)
  }

  /** The leader takes its group: SetSequence with the next number, and the last number moved by the count. */
  function Lead<T>(s: State<T>, n: nat): State<T>
    requires n <= |s.queue|
  {
    var updates := UpdatesOfAll(s.queue[..n]);
    s.(phase := Logging(n, Batch(s.lastSequence + 1, updates), s.lastSequence + |updates|))
  }

  /** A writer without a batch at the front has nothing to log. */
  function Skip<T>(s: State<T>): State<T>
    requires s.queue != []
  {
    s.(queue := s.queue[1..], finished := s.finished + [s.queue[0]])
  }

  /** log_->AddRecord, and a sync if the leader asked for one: the whole group is one record. */
  function LogGroup<T>(s: State<T>): State<T>
    requires s.phase.Logging? && s.queue != []
  {
    s.(log := s.log + [s.phase.batch], synced := if s.queue[0].sync then |s.log| + 1 else s.synced,
       phase := Inserting(s.phase.n, s.phase.batch, s.phase.last, 0))
  }

  /** MemTableInserter adds one update under the batch's sequence number plus those before it; readers may look
      between any two. */
  function InsertOne<T>(s: State<T>): State<T>
    requires s.phase.Inserting? && s.phase.done < |s.phase.batch.updates|
  {
    var entry := Entry(s.phase.batch.sequence + s.phase.done, s.phase.batch.updates[s.phase.done]);
    s.(mem := s.mem + [entry], phase := s.phase.(done := s.phase.done + 1))
  }

  /** SetLastSequence, and the group's writers leave the queue. */
  function Finish<T>(s: State<T>): State<T>
    requires s.phase.Inserting? && s.phase.n <= |s.queue|
  {
    s.(lastSequence := s.phase.last, queue := s.queue[s.phase.n..],
       finished := s.finished + s.queue[..s.phase.n], phase := Waiting)
  }

  ghost predicate Next<T(!new)>(s: State<T>, s': State<T>) {
    || (exists w :: s' == Submit(s, w))
    || (exists n :: CanLead(s, n) && s' == Lead(s, n))
    || (s.phase == Waiting && s.queue != [] && s.queue[0].batch.None? && s' == Skip(s))
    || (s.phase.Logging? && s.queue != [] && s' == LogGroup(s))
    || (s.phase.Inserting? && s.phase.done < |s.phase.batch.updates| && s' == InsertOne(s))
    || (s.phase.Inserting? && s.phase.done == |s.phase.batch.updates| && s.phase.n <= |s.queue| && s' == Finish(s))
  }

  // -------------------------------------------------------------------- the invariant

  /** Every writer is finished or still queued, in the order submitted; log and memtable hold the updates of the
      finished ones, numbered from 1 without a gap, and what there is of the group being written. */
  ghost predicate Invariant<T>(s: State<T>) {
    && s.submitted == s.finished + s.queue
    && s.lastSequence == |UpdatesOfAll(s.finished)|
    && Stored(s.phase, s.log, s.mem, Numbered(1, UpdatesOfAll(s.finished)))
    && match s.phase
       case Waiting => true
       case Logging(n, batch, last) => Takes(s.queue, n, batch, last, s.lastSequence)
       case Inserting(n, batch, last, done) =>
         Takes(s.queue, n, batch, last, s.lastSequence) && (s.queue[0].sync ==> s.synced == |s.log|)
  }

  /** What the leader of this group has made of it. */
  ghost predicate Takes<T>(queue: seq<Writer<T>>, n: nat, batch: Batch<T>, last: nat, lastSequence: nat) {
    && Group(queue, n)
    && batch == Batch(lastSequence + 1, UpdatesOfAll(queue[..n])) && last == lastSequence + |batch.updates|
  }

  /** The finished entries are in the log and the memtable; of the current batch, what the phase says. */
  ghost predicate Stored<T>(phase: Phase<T>, log: seq<Batch<T>>, mem: seq<Entry<T>>, finished: seq<Entry<T>>) {
    match phase
    case Inserting(_, batch, _, done) =>
      && EntriesIn(log) == finished + EntriesOf(batch)
      && done <= |batch.updates| && mem == finished + EntriesOf(batch)[..done]
    case _ => EntriesIn(log) == mem == finished
  }

  lemma NoUpdates<T>()
    ensures UpdatesOfAll<T>([]) == []
  {
  }

  lemma LastUpdates<T>(ws: seq<Writer<T>>)
    requires ws != []
    ensures UpdatesOfAll(ws) == UpdatesOfAll(ws[..|ws| - 1]) + UpdatesOf(ws[|ws| - 1])
  {
  }

  lemma {:induction false} UpdatesAppend<T>(a: seq<Writer<T>>, b: seq<Writer<T>>)
    ensures UpdatesOfAll(a + b) == UpdatesOfAll(a) + UpdatesOfAll(b)
  {
    hide UpdatesOf;
    hide UpdatesOfAll;
    if b == [] {
      assert a + b == a;
      NoUpdates<T>();
    } else {
      var init, last := b[..|b| - 1], b[|b| - 1];
      UpdatesAppend(a, init);
      LastUpdates(a + b);
      LastUpdates(b);
      assert (a + b)[..|a + b| - 1] == a + init;
      assert UpdatesOfAll(a) + UpdatesOfAll(init) + UpdatesOf(last) ==
          UpdatesOfAll(a) + (UpdatesOfAll(init) + UpdatesOf(last));
    }
  }

  /** A longer queue has the same groups at its front. */
  lemma GroupStays<T>(queue: seq<Writer<T>>, w: Writer<T>, n: nat)
    requires Group(queue, n)
    ensures Group(queue + [w], n) && (queue + [w])[..n] == queue[..n]
  {
    assert (queue + [w])[..n] == queue[..n];
  }

  lemma SubmitKeeps<T>(s: State<T>, w: Writer<T>)
    requires Invariant(s)
    ensures Invariant(Submit(s, w))
  {
    hide UpdatesOfAll;
    hide Group;
    hide Stored;
    if !s.phase.Waiting? {
      GroupStays(s.queue, w, s.phase.n);
      GroupNotEmpty(s.queue, s.phase.n);
    }
    assert s.finished + (s.queue + [w]) == s.finished + s.queue + [w];
  }

  lemma GroupNotEmpty<T>(queue: seq<Writer<T>>, n: nat)
    requires Group(queue, n)
    ensures 1 <= n <= |queue|
  {
  }

  lemma SkipKeeps<T>(s: State<T>)
    requires Invariant(s) && s.phase == Waiting && s.queue != [] && s.queue[0].batch.None?
    ensures Invariant(Skip(s))
  {
    var first := s.queue[0];
    assert s.queue == [first] + s.queue[1..];
    assert s.finished + ([first] + s.queue[1..]) == s.finished + [first] + s.queue[1..];
    UpdatesAppend(s.finished, [first]);
    assert [first][..0] == [];
    assert UpdatesOfAll([first]) == [];
    assert UpdatesOfAll(s.finished) + [] == UpdatesOfAll(s.finished);
  }

  lemma LogKeeps<T>(s: State<T>)
    requires Invariant(s) && s.phase.Logging? && s.queue != []
    ensures Invariant(LogGroup(s))
  {
    hide UpdatesOfAll;
    hide Group;
    hide EntriesIn;
    hide Numbered;
    OneMoreRecord(s.log, s.phase.batch);
    assert s.mem + EntriesOf(s.phase.batch)[..0] == s.mem;
  }

  lemma InsertKeeps<T>(s: State<T>)
    requires Invariant(s) && s.phase.Inserting? && s.phase.done < |s.phase.batch.updates|
    ensures Invariant(InsertOne(s))
  {
    hide UpdatesOfAll;
    hide Group;
    hide EntriesIn;
    var entries, done := EntriesOf(s.phase.batch), s.phase.done;
    assert entries[..done + 1] == entries[..done] + [entries[done]];
  }

  lemma FinishKeeps<T>(s: State<T>)
    requires Invariant(s) && s.phase.Inserting? && s.phase.done == |s.phase.batch.updates|
    ensures s.phase.n <= |s.queue| && Invariant(Finish(s))
  {
    hide UpdatesOfAll;
    hide Group;
    hide EntriesIn;
    hide Numbered;
    var n := s.phase.n;
    GroupNotEmpty(s.queue, n);
    assert s.queue == s.queue[..n] + s.queue[n..];
    assert s.finished + (s.queue[..n] + s.queue[n..]) == s.finished + s.queue[..n] + s.queue[n..];
    UpdatesAppend(s.finished, s.queue[..n]);
    NumberedAppend(1, UpdatesOfAll(s.finished), s.phase.batch.updates);
    assert EntriesOf(s.phase.batch)[..s.phase.done] == EntriesOf(s.phase.batch);
  }

  lemma LeadKeeps<T>(s: State<T>, n: nat)
    requires Invariant(s) && CanLead(s, n)
    ensures Invariant(Lead(s, n))
  {
    hide UpdatesOfAll;
    hide EntriesIn;
    hide Numbered;
  }

  /** Every step keeps the invariant. */
  lemma StepKeeps<T(!new)>(s: State<T>, s': State<T>)
    requires Invariant(s) && Next(s, s')
    ensures Invariant(s')
  {
    hide Invariant;
    if w :| s' == Submit(s, w) {
      SubmitKeeps(s, w);
    } else if n :| CanLead(s, n) && s' == Lead(s, n) {
      LeadKeeps(s, n);
    } else if s.phase == Waiting && s.queue != [] && s.queue[0].batch.None? && s' == Skip(s) {
      SkipKeeps(s);
    } else if s.phase.Logging? && s.queue != [] && s' == LogGroup(s) {
      LogKeeps(s);
    } else if s.phase.Inserting? && s.phase.done < |s.phase.batch.updates| && s' == InsertOne(s) {
      InsertKeeps(s);
    } else {
      FinishKeeps(s);
    }
  }

  ghost predicate Run<T(!new)>(run: seq<State<T>>) {
    run != [] && Init(run[0]) && forall i :: 0 <= i < |run| - 1 ==> Next(run[i], run[i + 1])
  }

  lemma {:induction false} RunKeeps<T(!new)>(run: seq<State<T>>, i: nat)
    requires Run(run) && i < |run|
    ensures Invariant(run[i])
  {
    hide Invariant;
    hide Next;
    if i > 0 {
      RunKeeps(run, i - 1);
      StepKeeps(run[i - 1], run[i]);
    } else {
      InitKeeps(run[0]);
    }
  }

  lemma InitKeeps<T>(s: State<T>)
    requires Init(s)
    ensures Invariant(s)
  {
  }

  // --------------------------------------------------------------------- what it means

  /** The writers whose updates the log holds: the finished ones, then the group being inserted, if any. */
  function Logged<T>(s: State<T>): seq<Writer<T>> {
    s.finished + if s.phase.Inserting? && s.phase.n <= |s.queue| then s.queue[..s.phase.n] else []
  }

  lemma LogIs<T>(s: State<T>)
    requires Invariant(s)
    ensures EntriesIn(s.log) == Numbered(1, UpdatesOfAll(Logged(s)))
  {
    hide UpdatesOfAll;
    hide EntriesIn;
    hide Numbered;
    hide Group;
    if s.phase.Inserting? {
      var n := s.phase.n;
      GroupNotEmpty(s.queue, n);
      UpdatesAppend(s.finished, s.queue[..n]);
      NumberedAppend(1, UpdatesOfAll(s.finished), s.phase.batch.updates);
    } else {
      assert Logged(s) == s.finished;
    }
  }

  /** In every run the log holds the updates of the writers in the order they queued up, none lost and none twice:
      those of the finished writers, then the group being written.  The numbers the leaders gave them are 1, 2, 3
      and so on without a gap. */
  lemma LoggedInOrder<T(!new)>(run: seq<State<T>>, i: nat)
    requires Run(run) && i < |run|
    ensures var s := run[i];
            && s.submitted == s.finished + s.queue && s.finished <= Logged(s) <= s.submitted
            && EntriesIn(s.log) == Numbered(1, UpdatesOfAll(Logged(s)))
            && EntriesIn(s.log) <= Numbered(1, UpdatesOfAll(s.submitted))
  {
    hide UpdatesOfAll;
    hide EntriesIn;
    hide Group;
    RunKeeps(run, i);
    var s := run[i];
    LogIs(s);
    var n := |Logged(s)| - |s.finished|;
    assert s.submitted == Logged(s) + s.queue[n..];
    UpdatesAppend(Logged(s), s.queue[n..]);
    NumberedAppend(1, UpdatesOfAll(Logged(s)), UpdatesOfAll(s.queue[n..]));
  }

  /** A reader that takes the last sequence number at any point sees exactly the updates of the finished
      writers: all of each batch, or nothing of it. */
  lemma AllOrNothing<T(!new)>(run: seq<State<T>>, i: nat, e: Entry<T>)
    requires Run(run) && i < |run|
    ensures e in run[i].mem && e.sequence <= run[i].lastSequence <==>
            e in Numbered(1, UpdatesOfAll(run[i].finished))
  {
    hide UpdatesOfAll;
    hide EntriesIn;
    hide Group;
    RunKeeps(run, i);
    var s := run[i];
    var finished := Numbered(1, UpdatesOfAll(s.finished));
    if s.phase.Inserting? {
      var batch, done := s.phase.batch, s.phase.done;
      forall x | x in EntriesOf(batch)[..done] ensures x.sequence > s.lastSequence {
        var k :| 0 <= k < done && EntriesOf(batch)[..done][k] == x;
      }
      assert s.mem == finished + EntriesOf(batch)[..done];
    }
  }

  /** When a writer that asked for a sync leaves the queue, everything up to its batch has been synced. */
  lemma SyncedWhenFinished<T(!new)>(run: seq<State<T>>, i: nat, k: nat)
    requires Run(run) && i + 1 < |run| && run[i].phase.Inserting?
        && run[i].phase.done == |run[i].phase.batch.updates| && run[i].phase.n <= |run[i].queue|
    requires run[i + 1] == Finish(run[i]) && k < run[i].phase.n && run[i].queue[k].sync
    ensures run[i + 1].synced == |run[i + 1].log| && run[i + 1].lastSequence == |EntriesIn(run[i + 1].log)|
  {
    RunKeeps(run, i);
    RunKeeps(run, i + 1);
  }
}
