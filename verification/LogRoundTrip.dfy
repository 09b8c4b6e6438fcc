/** What a reader gets from a log, whole or cut short anywhere: exactly the records that are wholly
    there, in order, with nothing reported as corrupt. */
module LogRoundTrip {
  import opened Coding
  import opened LogFormat

  // --------------------------------------------------------------- one fragment

  /** A physical record lies at q, as far as the file goes. */
  ghost predicate LiesAt(contents: seq<Byte>, q: nat, record: seq<Byte>) {
    if q > |contents| then true
    else if |contents| < q + |record| then contents[q..] == record[..|contents| - q]
    else contents[q..q + |record|] == record
  }

  lemma HeaderParts(buffer: seq<Byte>, t: Byte, payload: seq<Byte>)
    requires |payload| <= 0xffff && HeaderSize <= |buffer| && LiesAt(buffer, 0, Physical(t, payload))
    ensures LengthAt(buffer, 0) == |payload| && buffer[6] == t
  {
    hide ChecksumField;
    var r := Physical(t, payload);
    PhysicalParts(t, payload);
    var m := if |buffer| < |r| then |buffer| else |r|;
    assert buffer[0..m] == r[..m];
    forall i | 0 <= i < m ensures buffer[i] == r[i] {
      assert buffer[0..m][i] == r[..m][i];
    }
  }

  lemma WholeFragment(buffer: seq<Byte>, eof: bool, t: Byte, payload: seq<Byte>)
    requires |payload| <= 0xffff && t != ZeroType
    requires HeaderSize + |payload| <= |buffer| && LiesAt(buffer, 0, Physical(t, payload))
    ensures ParseBuffer(buffer, eof) == (Fragment(t, payload), buffer[HeaderSize + |payload|..])
  {
    hide ChecksumField;
    hide ChecksumMatches;
    var n, r := |payload|, Physical(t, payload);
    HeaderParts(buffer, t, payload);
    PhysicalParts(t, payload);
    ChecksumRoundTrip(t, payload);
    var s := buffer[0..HeaderSize + n];
    assert s == r;
    assert buffer[..4] == s[..4];
    assert buffer[6..HeaderSize + n] == s[6..];
    assert buffer[HeaderSize..HeaderSize + n] == s[7..];
  }

  /** Looking at q through the buffer is looking at it in the file. */
  lemma LiesInBuffer(contents: seq<Byte>, q: nat, end: nat, record: seq<Byte>)
    requires q <= end <= |contents| && LiesAt(contents, q, record)
    requires end == |contents| || q + |record| <= end
    ensures LiesAt(contents[q..end], 0, record)
  {
    if q + |record| <= end {
      assert contents[q..end][..|record|] == contents[q..q + |record|];
    } else {
      assert contents[q..end] == contents[q..];
    }
  }

  lemma BufferHolds(contents: seq<Byte>, q: nat, n: nat)
    requires q <= |contents| && q % BlockSize + n <= BlockSize
    ensures var end := BufferEnd(contents, q);
            && q <= end && (end == |contents| || q + n <= end)
            && (q + n <= |contents| ==> q + n <= end)
            && (|contents| < q + n ==> |contents| < q - q % BlockSize + BlockSize)
  {
  }

  lemma FragmentIsRead(contents: seq<Byte>, p: nat, t: Byte, payload: seq<Byte>)
    requires p <= |contents| && |payload| <= 0xffff && t != ZeroType
    requires HeaderAt(p) + HeaderSize + |payload| <= |contents|
        && HeaderAt(p) % BlockSize + HeaderSize + |payload| <= BlockSize
    requires LiesAt(contents, HeaderAt(p), Physical(t, payload))
    ensures NextPhysical(contents, p) == (Fragment(t, payload), HeaderAt(p) + HeaderSize + |payload|)
  {
    hide ParseBuffer;
    hide Physical;
    hide LiesAt;
    var q := HeaderAt(p);
    var end := BufferEnd(contents, q);
    BufferHolds(contents, q, HeaderSize + |payload|);
    LiesInBuffer(contents, q, end, Physical(t, payload));
    WholeFragment(contents[q..end], |contents| < q - q % BlockSize + BlockSize, t, payload);
  }

  lemma CutFragmentIsEof(contents: seq<Byte>, p: nat, t: Byte, payload: seq<Byte>)
    requires p <= |contents| && |payload| <= 0xffff
    requires |contents| < HeaderAt(p) + HeaderSize + |payload|
        && HeaderAt(p) % BlockSize + HeaderSize + |payload| <= BlockSize
    requires LiesAt(contents, HeaderAt(p), Physical(t, payload))
    ensures NextPhysical(contents, p) == (Eof, |contents|)
  {
    hide Physical;
    hide LiesAt;
    hide ChecksumMatches;
    var q := HeaderAt(p);
    if q + HeaderSize <= |contents| {
      var end := BufferEnd(contents, q);
      BufferHolds(contents, q, HeaderSize + |payload|);
      LiesInBuffer(contents, q, end, Physical(t, payload));
      if end - q >= HeaderSize { HeaderParts(contents[q..end], t, payload); }
    }
  }

  // ------------------------------------------------------------------ one record

  /** Block offset and file position agree. */
  ghost predicate At(p: nat, offset: nat) {
    offset <= BlockSize && p % BlockSize == offset % BlockSize
  }

  lemma HeaderFollowsTrailer(p: nat, offset: nat)
    requires At(p, offset)
    ensures HeaderAt(p) == p + |Trailer(offset)| && HeaderAt(p) % BlockSize == FragmentOffset(offset) % BlockSize
    ensures FragmentOffset(offset) + HeaderSize <= BlockSize
  {
    if BlockSize - offset < HeaderSize && offset < BlockSize {
      assert p - p % BlockSize + BlockSize == BlockSize * (p / BlockSize + 1);
      assert (BlockSize * (p / BlockSize + 1)) % BlockSize == 0;
    }
  }

  lemma FragmentFits(p: nat, offset: nat, left: nat)
    requires At(p, offset)
    ensures var n := FragmentLength(offset, left);
            && HeaderAt(p) % BlockSize + HeaderSize + n <= BlockSize
            && At(HeaderAt(p) + HeaderSize + n, FragmentOffset(offset) + HeaderSize + n)
            && (n < left ==> FragmentOffset(offset) + HeaderSize + n == BlockSize)
  {
    HeaderFollowsTrailer(p, offset);
    var q, n, o := HeaderAt(p), FragmentLength(offset, left), FragmentOffset(offset);
    assert q % BlockSize == o;
    SamePlace(q, o, HeaderSize + n);
  }

  lemma SamePlace(q: nat, o: nat, k: nat)
    requires q % BlockSize == o % BlockSize
    ensures (q + k) % BlockSize == (o + k) % BlockSize
  {
    assert q == BlockSize * (q / BlockSize) + q % BlockSize;
    assert o == BlockSize * (o / BlockSize) + o % BlockSize;
    assert q + k == (o + k) + BlockSize * (q / BlockSize - o / BlockSize);
    ModShift(o + k, q / BlockSize - o / BlockSize);
  }

  lemma ModShift(x: nat, k: int)
    requires x + BlockSize * k >= 0
    ensures (x + BlockSize * k) % BlockSize == x % BlockSize
  {
  }

  /** The three pieces of an emission: trailer, first fragment, rest. */
  lemma EmitParts(offset: nat, data: seq<Byte>, begin: bool)
    requires offset <= BlockSize
    ensures var n := FragmentLength(offset, |data|);
            var rest := if n < |data| then Emit(FragmentOffset(offset) + HeaderSize + n, data[n..], false) else [];
            && Emit(offset, data, begin) == Trailer(offset) + Physical(TypeOf(begin, n == |data|), data[..n]) + rest
  {
  }

  lemma SliceOfTwo(contents: seq<Byte>, p: nat, a: seq<Byte>, b: seq<Byte>)
    requires LiesAt(contents, p, a + b)
    ensures LiesAt(contents, p, a) && LiesAt(contents, p + |a|, b)
  {
    var e := a + b;
    if p <= |contents| {
      var m := if |contents| - p < |e| then |contents| - p else |e|;
      var s := contents[p..p + m];
      assert s == e[..m];
      if |a| <= m {
        assert s[..|a|] == a && contents[p..p + |a|] == s[..|a|];
        assert contents[p + |a|..p + m] == s[|a|..] && e[..m][|a|..] == b[..m - |a|];
        assert m < |e| ==> contents[p + |a|..] == contents[p + |a|..p + m];
      } else {
        assert e[..m] == a[..m];
      }
    }
  }

  lemma SliceOfSum(contents: seq<Byte>, p: nat, a: seq<Byte>, b: seq<Byte>, c: seq<Byte>)
    requires LiesAt(contents, p, a + b + c)
    ensures LiesAt(contents, p + |a|, b) && LiesAt(contents, p + |a| + |b|, c)
  {
    hide LiesAt;
    SliceOfTwo(contents, p, a + b, c);
    SliceOfTwo(contents, p, a, b);
  }

  /** What reading a record that lies at p gives: all of it, or nothing if the file was cut inside it. */
  function Expected(contents: seq<Byte>, p: nat, emitted: seq<Byte>, bytes: seq<Byte>): Read {
    if p + |emitted| <= |contents| then Read(Just(bytes), p + |emitted|, []) else Read(Nothing, |contents|, [])
  }

  /** What one fragment contributes to Assemble, when nothing is wrong. */
  lemma FragmentStep(contents: seq<Byte>, p: nat, begin: bool, end: bool, payload: seq<Byte>, next: nat,
                     scratch: seq<Byte>)
    requires p <= |contents| && NextPhysical(contents, p) == (Fragment(TypeOf(begin, end), payload), next)
        && (begin ==> scratch == [])
    ensures next <= |contents|
    ensures Assemble(contents, p, !begin, scratch) == if end then Read(Just(scratch + payload), next, [])
        else Assemble(contents, next, true, scratch + payload)
  {
    hide NextPhysical;
    assert begin ==> scratch + payload == payload;
    if !end {
      var rest := Assemble(contents, next, true, scratch + payload);
      assert [] + [] + rest.dropped == rest.dropped;
    }
  }

  lemma TypeNotZero(begin: bool, end: bool)
    ensures TypeOf(begin, end) != ZeroType
  {
  }

  lemma CutAssemble(contents: seq<Byte>, p: nat, inFragment: bool, scratch: seq<Byte>)
    requires p <= |contents| && NextPhysical(contents, p) == (Eof, |contents|)
    ensures Assemble(contents, p, inFragment, scratch) == Read(Nothing, |contents|, [])
  {
    hide NextPhysical;
  }

  lemma {:induction false} RecordIsRead(contents: seq<Byte>, p: nat, offset: nat, data: seq<Byte>, begin: bool,
                                        scratch: seq<Byte>)
    requires p <= |contents| && At(p, offset) && (begin ==> scratch == [])
    requires LiesAt(contents, p, Emit(offset, data, begin))
    ensures Assemble(contents, p, !begin, scratch) == Expected(contents, p, Emit(offset, data, begin), scratch + data)
    decreases |data|, if offset == BlockSize - HeaderSize then 1 else 0
  {
    hide Emit;
    hide NextPhysical;
    hide Physical;
    hide LiesAt;
    hide Assemble;
    hide TypeOf;
    hide HeaderAt;
    hide Trailer;
    var n := FragmentLength(offset, |data|);
    var q, end, o := HeaderAt(p), n == |data|, FragmentOffset(offset) + HeaderSize + n;
    TypeNotZero(begin, end);
    var t, fragment := TypeOf(begin, end), Physical(TypeOf(begin, end), data[..n]);
    var rest := if n < |data| then Emit(o, data[n..], false) else [];
    EmitParts(offset, data, begin);
    HeaderFollowsTrailer(p, offset);
    FragmentFits(p, offset, |data|);
    SliceOfSum(contents, p, Trailer(offset), fragment, rest);
    if q + |fragment| <= |contents| {
      FragmentIsRead(contents, p, t, data[..n]);
      FragmentStep(contents, p, begin, end, data[..n], q + |fragment|, scratch);
      if n < |data| {
        RecordIsRead(contents, q + |fragment|, o, data[n..], false, scratch + data[..n]);
        assert scratch + data[..n] + data[n..] == scratch + data;
      } else {
        assert data[..n] == data;
      }
    } else {
      CutFragmentIsEof(contents, p, t, data[..n]);
      CutAssemble(contents, p, !begin, scratch);
    }
  }

  // ------------------------------------------------------------------ a whole file

  lemma {:induction false} EndsAt(p: nat, offset: nat, data: seq<Byte>, begin: bool)
    requires At(p, offset)
    ensures At(p + |Emit(offset, data, begin)|, OffsetAfter(offset, data))
    decreases |data|, if offset == BlockSize - HeaderSize then 1 else 0
  {
    hide Physical;
    var n := FragmentLength(offset, |data|);
    EmitParts(offset, data, begin);
    HeaderFollowsTrailer(p, offset);
    FragmentFits(p, offset, |data|);
    if n < |data| {
      EndsAt(HeaderAt(p) + HeaderSize + n, FragmentOffset(offset) + HeaderSize + n, data[n..], false);
    }
  }

  /** Emitting at the end of a block and at the start of the next come to the same. */
  lemma BlockEndIsStart(left: nat)
    ensures FragmentLength(BlockSize, left) == FragmentLength(0, left) && FragmentOffset(BlockSize) == FragmentOffset(0)
    ensures Trailer(BlockSize) == Trailer(0)
  {
  }

  lemma SameEmission(offset: nat, data: seq<Byte>, begin: bool)
    requires offset <= BlockSize
    ensures Emit(offset % BlockSize, data, begin) == Emit(offset, data, begin)
  {
    assert offset % BlockSize == if offset == BlockSize then 0 else offset;
    BlockEndIsStart(|data|);
    hide *;
    if offset == BlockSize {
      EmitParts(0, data, begin);
      EmitParts(BlockSize, data, begin);
    }
  }

  lemma WrittenNothing()
    ensures Written([]) == []
  {
  }

  lemma WrittenStep(records: seq<seq<Byte>>, i: nat)
    requires i < |records|
    ensures Written(records[..i + 1]) == Written(records[..i])
        + Emit(|Written(records[..i])| % BlockSize, records[i], true)
  {
    hide Emit;
    assert records[..i + 1][..i] == records[..i] && records[..i + 1][i] == records[i];
  }

  lemma {:induction false} WrittenPrefix(records: seq<seq<Byte>>, i: nat)
    requires i <= |records|
    ensures |Written(records[..i])| <= |Written(records)|
        && Written(records)[..|Written(records[..i])|] == Written(records[..i])
    decreases |records| - i
  {
    hide Emit;
    hide Written;
    if i < |records| {
      WrittenPrefix(records, i + 1);
      WrittenStep(records, i);
      var here, next := Written(records[..i]), Written(records[..i + 1]);
      assert Written(records)[..|here|] == next[..|here|];
    } else {
      assert records[..i] == records;
    }
  }

  /** How many of the records lie wholly within the first n bytes of their log. */
  function Complete(records: seq<seq<Byte>>, n: nat): (k: nat)
    ensures k <= |records|
  {
    if records == [] then 0
    else if |Written(records)| <= n then |records|
    else Complete(records[..|records| - 1], n)
  }

  lemma {:induction false} CompleteIs(records: seq<seq<Byte>>, n: nat, i: nat)
    requires i <= |records|
    ensures i <= Complete(records, n) <==> |Written(records[..i])| <= n
  {
    WrittenNothing();
    hide Written;
    assert records[..|records|] == records;
    if i < |records| {
      CompleteIs(records[..|records| - 1], n, i);
      assert records[..|records| - 1][..i] == records[..i];
      WrittenPrefix(records, i);
    }
  }

  /** All records a reader gets from position p on, and all drops it reports. */
  function ReadAll(contents: seq<Byte>, p: nat): (seq<seq<Byte>>, seq<nat>)
    requires p <= |contents|
    decreases |contents| - p
  {
    var r := Assemble(contents, p, false, []);
    AssembleAdvances(contents, p, false, []);
    match r.record
    case Nothing => ([], r.dropped)
    case Just(bytes) =>
      var rest := ReadAll(contents, r.position);
      ([bytes] + rest.0, r.dropped + rest.1)
  }

  lemma {:induction false} AssembleAdvances(contents: seq<Byte>, p: nat, inFragment: bool, scratch: seq<Byte>)
    requires p <= |contents|
    ensures var r := Assemble(contents, p, inFragment, scratch);
            p <= r.position <= |contents| && (r.record.Just? ==> p < r.position)
    decreases |contents| - p
  {
    hide NextPhysical;
    hide TurnOf;
    var (outcome, next) := NextPhysical(contents, p);
    var turn := TurnOf(outcome, inFragment, scratch);
    if turn.Go? { AssembleAdvances(contents, next, turn.inFragment, turn.scratch); }
  }

  /** The i-th record lies where its predecessors end, as far as the cut file goes. */
  lemma RecordLies(records: seq<seq<Byte>>, n: nat, i: nat)
    requires n <= |Written(records)| && i < |records| && |Written(records[..i])| <= n
    ensures var p := |Written(records[..i])|;
            && LiesAt(Written(records)[..n], p, Emit(p % BlockSize, records[i], true))
            && |Written(records[..i + 1])| == p + |Emit(p % BlockSize, records[i], true)|
  {
    hide Written;
    hide Emit;
    var p, all := |Written(records[..i])|, Written(records);
    var e := Emit(p % BlockSize, records[i], true);
    WrittenStep(records, i);
    WrittenPrefix(records, i + 1);
    assert all[..p + |e|][p..] == e;
    assert all[p..p + |e|] == e;
    if n < p + |e| {
      assert all[..n][p..] == all[p..n];
      assert all[p..p + |e|][..n - p] == all[p..n];
    } else {
      assert all[..n][p..p + |e|] == all[p..p + |e|];
    }
  }

  /** From the i-th record on, a cut log reads as the records that are wholly there. */
  lemma {:induction false} CutLogReads(records: seq<seq<Byte>>, n: nat, i: nat)
    requires n <= |Written(records)| && i <= Complete(records, n)
    requires |Written(records[..i])| <= n
    ensures ReadAll(Written(records)[..n], |Written(records[..i])|) == (records[i..Complete(records, n)], [])
    decreases |records| - i
  {
    hide Assemble;
    hide Written;
    hide Emit;
    hide LiesAt;
    hide Complete;
    var contents, p, k := Written(records)[..n], |Written(records[..i])|, Complete(records, n);
    CompleteIs(records, n, i);
    AssembleAdvances(contents, p, false, []);
    if i < |records| {
      RecordLies(records, n, i);
      var e := Emit(p % BlockSize, records[i], true);
      RecordIsRead(contents, p, p % BlockSize, records[i], true, []);
      assert [] + records[i] == records[i];
      CompleteIs(records, n, i + 1);
      if p + |e| <= n {
        CutLogReads(records, n, i + 1);
        assert Assemble(contents, p, false, []) == Read(Just(records[i]), p + |e|, []);
        var rest := ReadAll(contents, p + |e|);
        assert rest == (records[i + 1..k], []);
        assert ReadAll(contents, p) == ([records[i]] + rest.0, [] + rest.1);
        assert [] + rest.1 == [];
        assert records[i..k] == [records[i]] + records[i + 1..k];
      } else {
        assert Assemble(contents, p, false, []) == Read(Nothing, n, []);
        assert k == i;
      }
    } else {
      assert records[..i] == records;
      assert contents == Written(records)[..n] && p == |contents|;
      EndIsEof(contents);
    }
  }

  lemma EndIsEof(contents: seq<Byte>)
    ensures Assemble(contents, |contents|, false, []) == Read(Nothing, |contents|, [])
  {
  }

  /** Reading a log cut anywhere from its start gives exactly the records wholly written before the
      cut, and reports nothing. */
  lemma TruncatedLog(records: seq<seq<Byte>>, n: nat)
    requires n <= |Written(records)|
    ensures ReadAll(Written(records)[..n], 0) == (records[..Complete(records, n)], [])
    ensures forall i :: 0 <= i <= |records| ==> (i <= Complete(records, n) <==> |Written(records[..i])| <= n)
  {
    assert records[..0] == [];
    CutLogReads(records, n, 0);
    forall i | 0 <= i <= |records| ensures i <= Complete(records, n) <==> |Written(records[..i])| <= n {
      CompleteIs(records, n, i);
    }
  }

  /** The uncut log gives back all records. */
  lemma WholeLog(records: seq<seq<Byte>>)
    ensures ReadAll(Written(records), 0) == (records, [])
  {
    hide Written;
    hide ReadAll;
    var all := Written(records);
    TruncatedLog(records, |all|);
    assert all[..|all|] == all;
    CompleteIs(records, |all|, |records|);
    assert records[..|records|] == records;
  }
}
