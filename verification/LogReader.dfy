/** log::Reader (db/log_reader.cc), reading with checksums from the start of a file. */
module LogReader {
  import opened Coding
  import opened LogFormat
  import opened LogRoundTrip
  /** What the reader has buffered: the unread end of the last block read. */
  ghost predicate Buffered(contents: seq<Byte>, filePos: nat, buffer: seq<Byte>, eof: bool) {
    && |buffer| <= filePos <= |contents|
    && buffer == contents[filePos - |buffer|..filePos]
    && if eof then filePos == |contents| && |buffer| <= filePos % BlockSize else
        filePos % BlockSize == 0
        && |buffer| <= BlockSize
  }

  lemma Bounds(contents: seq<Byte>, filePos: nat, buffer: seq<Byte>, eof: bool)
    requires Buffered(contents, filePos, buffer, eof)
    ensures |buffer| <= filePos <= |contents|
  {
  }

  lemma ReadBlock(contents: seq<Byte>, filePos: nat, buffer: seq<Byte>)
    requires Buffered(contents, filePos, buffer, false) && |buffer| < HeaderSize
    ensures var n := if |contents| - filePos < BlockSize then |contents| - filePos else BlockSize;
            && Buffered(contents, filePos + n, contents[filePos..filePos + n], n < BlockSize)
            && filePos + n <= |contents|
            && NextPhysical(contents, filePos - |buffer|) == NextPhysical(contents, filePos)
  {
    hide ChecksumMatches;
    var p := filePos - |buffer|;
    if buffer != [] {
      assert filePos == BlockSize * (filePos / BlockSize);
      ModShift(BlockSize - |buffer|, filePos / BlockSize - 1);
      assert p % BlockSize == BlockSize - |buffer|;
    }
    assert HeaderAt(p) == HeaderAt(filePos) == filePos;
    ReadCount(contents, filePos);
  }

  lemma ReadCount(contents: seq<Byte>, filePos: nat)
    requires filePos <= |contents| && filePos % BlockSize == 0
    ensures |contents| - filePos < BlockSize ==> |contents| % BlockSize == |contents| - filePos
  {
    assert filePos == BlockSize * (filePos / BlockSize);
    if |contents| - filePos < BlockSize { ModShift(|contents| - filePos, filePos / BlockSize); }
  }

  /** With less than a header left at the end of the file, there is nothing more to read. */
  lemma TailIsEof(contents: seq<Byte>, filePos: nat, buffer: seq<Byte>)
    requires Buffered(contents, filePos, buffer, true) && |buffer| < HeaderSize
    ensures NextPhysical(contents, filePos - |buffer|) == (Eof, |contents|)
    ensures filePos == |contents| && Buffered(contents, filePos, [], true)
  {
    hide ChecksumMatches;
    var p := filePos - |buffer|;
    PlaceInTail(filePos, |buffer|);
  }

  lemma PlaceInTail(filePos: nat, n: nat)
    requires n <= filePos % BlockSize && n <= filePos
    ensures (filePos - n) % BlockSize == filePos % BlockSize - n
  {
    assert filePos == BlockSize * (filePos / BlockSize) + filePos % BlockSize;
    ModShift(filePos % BlockSize - n, filePos / BlockSize);
  }

  /** With a header in the buffer, it is where the next physical record is, and the buffer ends where its block does. */
  lemma HeaderInBuffer(contents: seq<Byte>, filePos: nat, buffer: seq<Byte>, eof: bool)
    requires Buffered(contents, filePos, buffer, eof) && |buffer| >= HeaderSize
    ensures var p := filePos - |buffer|;
            && HeaderAt(p) == p && BufferEnd(contents, p) == filePos
            && (|contents| < p - p % BlockSize + BlockSize <==> eof)
  {
    var p := filePos - |buffer|;
    if eof {
      PlaceInTail(filePos, |buffer|);
    } else if |buffer| < BlockSize {
      assert filePos == BlockSize * (filePos / BlockSize);
      ModShift(BlockSize - |buffer|, filePos / BlockSize - 1);
    } else {
      ModShift(p, 1);
    }
  }

  lemma ParseBufferIs(contents: seq<Byte>, filePos: nat, buffer: seq<Byte>, eof: bool)
    requires Buffered(contents, filePos, buffer, eof) && |buffer| >= HeaderSize
    ensures var (outcome, rest) := ParseBuffer(buffer, eof);
            NextPhysical(contents, filePos - |buffer|) == (outcome, filePos - |rest|)
  {
    hide ParseBuffer;
    HeaderInBuffer(contents, filePos, buffer, eof);
  }

  lemma RestBuffered(contents: seq<Byte>, filePos: nat, buffer: seq<Byte>, eof: bool)
    requires Buffered(contents, filePos, buffer, eof) && |buffer| >= HeaderSize
    ensures Buffered(contents, filePos, ParseBuffer(buffer, eof).1, eof)
  {
    hide ChecksumMatches;
    hide HeaderAt;
    var rest := ParseBuffer(buffer, eof).1;
    assert rest == buffer[|buffer| - |rest|..];
    assert rest == contents[filePos - |rest|..filePos];
  }

  class Reader {
    const contents: seq<Byte>
    var filePos: nat  // how much of the file has been read
    var buffer: seq<Byte>
    var eof: bool
    var drops: seq<nat>  // the sizes reported to the reporter

    ghost predicate Valid()
      reads this
    { Buffered(contents, filePos, buffer, eof) }

    ghost function Position(): nat
      reads this
      requires Valid()
    { filePos - |buffer| }

    constructor (contents: seq<Byte>)
      ensures Valid() && this.contents == contents && Position() == 0 && drops == []
    {
      this.contents, filePos, buffer, eof, drops := contents, 0, [], false, [];
    }

    /** ReadPhysicalRecord is one physical read of the file's bytes, however they were buffered. */
    method ReadPhysicalRecord() returns (outcome: Outcome)
      requires Valid()
      modifies this
      ensures Valid() && (outcome, Position()) == NextPhysical(contents, old(Position()))
      ensures drops == old(drops) + Reported(outcome)
    {
      hide NextPhysical;
      hide Buffered;
      hide ParseBuffer;
      Bounds(contents, filePos, buffer, eof);
      var more := FillBuffer();
      if !more {
        return Eof;
      }
      ParseBufferIs(contents, filePos, buffer, eof);
      RestBuffered(contents, filePos, buffer, eof);
      outcome := ParseHeader();
    }

    /** Reads on until the buffer holds a header, or the file is at its end. */
    method FillBuffer() returns (more: bool)
      requires Valid()
      modifies this`buffer, this`filePos, this`eof
      ensures Valid() && Position() <= |contents|
      ensures if more then |buffer| >= HeaderSize
          && NextPhysical(contents, Position()) == NextPhysical(contents, old(Position()))
              else (Eof, Position()) == NextPhysical(contents, old(Position()))
    {
      hide NextPhysical;
      hide Buffered;
      Bounds(contents, filePos, buffer, eof);
      while |buffer| < HeaderSize
        invariant Valid() && Position() <= |contents| && filePos <= |contents|
        invariant NextPhysical(contents, Position()) == NextPhysical(contents, old(Position()))
        decreases !eof, |contents| - filePos
      {
        if !eof {
          // last read was a full read, so this is a trailer to skip
          ReadBlock(contents, filePos, buffer);
          var n := if |contents| - filePos < BlockSize then |contents| - filePos else BlockSize;
          buffer := contents[filePos..filePos + n];
          filePos := filePos + n;
          eof := n < BlockSize;
        } else {
          TailIsEof(contents, filePos, buffer);
          buffer := [];
          return false;
        }
      }
      more := true;
    }

    method ParseHeader() returns (outcome: Outcome)
      requires |buffer| >= HeaderSize
      modifies this`buffer, this`drops
      ensures (outcome, buffer) == ParseBuffer(old(buffer), eof)
      ensures drops == old(drops) + Reported(outcome)
    {
      hide ChecksumMatches;
      var length := (buffer[4] as nat) + 256 * (buffer[5] as nat);
      var kind := buffer[6];
      if HeaderSize + length > |buffer| {
        var dropSize := |buffer|;
        buffer := [];
        if !eof {
          drops := drops + [dropSize];
          return Bad(dropSize);
        }
        return Eof;
      }
      if kind == ZeroType && length == 0 {
        buffer := [];
        return Bad(0);
      }
      if !ChecksumMatches(buffer[..4], buffer[6..HeaderSize + length]) {
        var dropSize := |buffer|;
        buffer := [];
        drops := drops + [dropSize];
        return Bad(dropSize);
      }
      var payload := buffer[HeaderSize..HeaderSize + length];
      buffer := buffer[HeaderSize + length..];
      outcome := Fragment(kind, payload);
    }

    /** ReadRecord puts fragments together, and reports what it had to drop. */
    method ReadRecord() returns (found: bool, record: seq<Byte>)
      requires Valid()
      modifies this
      ensures Valid()
      ensures var r := Assemble(contents, old(Position()), false, []);
              && (r.record == if found then Just(record) else Nothing)
              && Position() == r.position && drops == old(drops) + r.dropped
    {
      hide NextPhysical;
      hide Buffered;
      hide TurnOf;
      Bounds(contents, filePos, buffer, eof);
      var scratch, inFragmentedRecord := [], false;
      ghost var start, before := Position(), drops;
      while true
        invariant Valid() && Remains(contents, start, before, Position(), inFragmentedRecord, scratch, drops)
        invariant start <= |contents|
        decreases |contents| - Position()
      {
        ghost var p, d, f, s := Position(), drops, inFragmentedRecord, scratch;
        var outcome := ReadPhysicalRecord();
        var done;
        done, found, record, inFragmentedRecord, scratch := HandleOutcome(outcome, inFragmentedRecord, scratch);
        RemainsStep(contents, start, before, p, f, s, d);
        if done {
          return;
        }
      }
    }

    /** The switch over the outcome; inFragmentedRecord says whether scratch holds the start of a record. */
    method HandleOutcome(outcome: Outcome, inFragmentedRecord: bool, scratch: seq<Byte>)
      returns (done: bool, found: bool, record: seq<Byte>, inFragment: bool, scratch': seq<Byte>)
      modifies this`drops
      ensures var turn := TurnOf(outcome, inFragmentedRecord, scratch);
              && drops == old(drops) + turn.reported
              && turn == if done then Stop(if found then Just(record) else Nothing, turn.reported)
                  else Go(inFragment, scratch', turn.reported)
    {
      done, found, record, inFragment, scratch' := false, false, [], inFragmentedRecord, scratch;
      match outcome {
        case Eof =>
          done := true;
        case Bad(_) =>
          if inFragmentedRecord {
            drops := drops + [|scratch|];
            inFragment, scratch' := false, [];
          }
        case Fragment(kind, fragment) =>
          if kind == FullType {
            if inFragmentedRecord && scratch != [] { drops := drops + [|scratch|]; }
            done, found, record := true, true, fragment;
          } else if kind == FirstType {
            if inFragmentedRecord && scratch != [] { drops := drops + [|scratch|]; }
            inFragment, scratch' := true, fragment;
          } else if kind == MiddleType {
            if !inFragmentedRecord {
              drops := drops + [|fragment|];
            } else {
              scratch' := scratch + fragment;
            }
          } else if kind == LastType {
            if !inFragmentedRecord {
              drops := drops + [|fragment|];
            } else {
              done, found, record := true, true, scratch + fragment;
            }
          } else {
            drops := drops + [|fragment| + if inFragmentedRecord then |scratch| else 0];
            inFragment, scratch' := false, [];
          }
      }
    }
  }

  /** Going on from p with this much put together gives what was to be read from the start. */
  ghost predicate Remains(contents: seq<Byte>, start: nat, before: seq<nat>, p: nat, inFragment: bool,
                          scratch: seq<Byte>, drops: seq<nat>)
  {
    && start <= |contents| && p <= |contents|
    && var all, rest := Assemble(contents, start, false, []), Assemble(contents, p, inFragment, scratch);
       && all.record == rest.record && all.position == rest.position
       && before + all.dropped == drops + rest.dropped
  }

  lemma RemainsStep(contents: seq<Byte>, start: nat, before: seq<nat>, p: nat, inFragment: bool, scratch: seq<Byte>,
                    drops: seq<nat>)
    requires Remains(contents, start, before, p, inFragment, scratch, drops)
    ensures var (outcome, next) := NextPhysical(contents, p);
            var turn := TurnOf(outcome, inFragment, scratch);
            var all := Assemble(contents, start, false, []);
            var drops' := drops + Reported(outcome) + turn.reported;
            if turn.Stop? then all.record == turn.record && all.position == next && before + all.dropped == drops'
            else Remains(contents, start, before, next, turn.inFragment, turn.scratch, drops')
  {
    hide NextPhysical;
    hide TurnOf;
    var (outcome, next) := NextPhysical(contents, p);
    var turn := TurnOf(outcome, inFragment, scratch);
    if turn.Stop? {
      assert drops + (Reported(outcome) + turn.reported) == drops + Reported(outcome) + turn.reported;
    } else {
      var rest := Assemble(contents, next, turn.inFragment, turn.scratch);
      assert drops + (Reported(outcome) + turn.reported + rest.dropped) ==
          drops + Reported(outcome) + turn.reported + rest.dropped;
    }
  }

  /** These records and drops, with what is still to be read from p on, are all of the file's. */
  ghost predicate Partly(contents: seq<Byte>, records: seq<seq<Byte>>, drops: seq<nat>, p: nat) {
    && p <= |contents|
    && ReadAll(contents, 0).0 == records + ReadAll(contents, p).0
    && ReadAll(contents, 0).1 == drops + ReadAll(contents, p).1
  }

  lemma PartlyStarts(contents: seq<Byte>)
    ensures Partly(contents, [], [], 0)
  {
    hide ReadAll;
  }

  lemma PartlyStep(contents: seq<Byte>, records: seq<seq<Byte>>, drops: seq<nat>, p: nat)
    requires Partly(contents, records, drops, p)
    ensures var r := Assemble(contents, p, false, []);
            match r.record
            case Nothing => ReadAll(contents, 0) == (records, drops + r.dropped)
            case Just(bytes) =>
                p < r.position <= |contents|
                && Partly(contents, records + [bytes], drops + r.dropped, r.position)
  {
    hide Assemble;
    AssembleAdvances(contents, p, false, []);
    var r := Assemble(contents, p, false, []);
    if r.record.Just? {
      var rest := ReadAll(contents, r.position);
      assert records + ([r.record.bytes] + rest.0) == records + [r.record.bytes] + rest.0;
      assert drops + (r.dropped + rest.1) == drops + r.dropped + rest.1;
    } else {
      assert records + [] == records;
      var all := ReadAll(contents, 0);
      assert all == (all.0, all.1);
    }
  }

  /** RecoverLogFile's loop: read records until there are no more. */
  method ReadLog(contents: seq<Byte>) returns (records: seq<seq<Byte>>, drops: seq<nat>)
    ensures (records, drops) == ReadAll(contents, 0)
  {
    hide Assemble;
    hide Buffered;
    hide Partly;
    var reader := new Reader(contents);
    records := [];
    PartlyStarts(contents);
    while true
      invariant reader.contents == contents && reader.Valid()
          && Partly(contents, records, reader.drops, reader.Position())
      decreases |contents| - reader.Position()
    {
      PartlyStep(contents, records, reader.drops, reader.Position());
      var found, record := reader.ReadRecord();
      if !found {
        return records, reader.drops;
      }
      records := records + [record];
    }
  }
}
