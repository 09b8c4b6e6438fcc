/** The log format (db/log_format.h, db/log_writer.cc, db/log_reader.cc): records cut into
    checksummed fragments that never cross a block boundary. */
module LogFormat {
  import opened Coding
  import Crc32c

  const BlockSize: nat := 32768
  const HeaderSize: nat := 7

  const ZeroType: Byte := 0  // reserved for preallocated files
  const FullType: Byte := 1
  const FirstType: Byte := 2
  const MiddleType: Byte := 3
  const LastType: Byte := 4

  // ------------------------------------------------------------ physical records

  /** What the header stores: the masked checksum, extended from that of the type byte. */
  function ChecksumField(t: Byte, payload: seq<Byte>): (r: seq<Byte>)
    ensures |r| == 4
  {
    EncodeFixed32(Crc32c.Mask(Crc32c.Crc(Crc32c.Value([t]), payload)))
  }

  /** What the reader compares: the checksum of type and payload in one piece. */
  predicate ChecksumMatches(field: seq<Byte>, covered: seq<Byte>)
    requires |field| == 4
  {
    Crc32c.Unmask(DecodeFixed32(field)) == Crc32c.Value(covered)
  }

  lemma ChecksumRoundTrip(t: Byte, payload: seq<Byte>)
    ensures ChecksumMatches(ChecksumField(t, payload), [t] + payload)
  {
    hide Crc32c.Crc;
    hide Crc32c.Mask;
    hide Crc32c.Unmask;
    hide DecodeFixed32;
    hide EncodeFixed32;
    Crc32c.CrcAppend(0, [t], payload);
    var crc := Crc32c.Value([t] + payload);
    Fixed32RoundTrip(Crc32c.Mask(crc));
    Crc32c.MaskRoundTrip(crc);
  }

  function Physical(t: Byte, payload: seq<Byte>): (r: seq<Byte>)
    requires |payload| <= 0xffff
    ensures |r| == HeaderSize + |payload|
  {
    ChecksumField(t, payload) + [(|payload| % 256) as Byte, (|payload| / 256) as Byte, t] + payload
  }

  /** The length in a header. */
  function LengthAt(contents: seq<Byte>, q: nat): nat
    requires q + HeaderSize <= |contents|
  {
    (contents[q + 4] as nat) + 256 * (contents[q + 5] as nat)
  }

  lemma PhysicalParts(t: Byte, payload: seq<Byte>)
    requires |payload| <= 0xffff
    ensures var r := Physical(t, payload);
            && r[..4] == ChecksumField(t, payload)
            && LengthAt(r, 0) == |payload|
            && r[6] == t && r[6..] == [t] + payload && r[7..] == payload
  {
    hide ChecksumField;
    var r, n := Physical(t, payload), |payload|;
    assert r[4] == (n % 256) as Byte && r[5] == (n / 256) as Byte;
  }

  // ------------------------------------------------------------------- writing

  function Zeros(n: nat): (r: seq<Byte>)
    ensures |r| == n
  {
    seq(n, _ => 0)
  }

  /** The offset at which the next fragment goes: a block's last bytes are left when no header fits. */
  function FragmentOffset(offset: nat): nat
    requires offset <= BlockSize
  {
    if BlockSize - offset < HeaderSize then 0 else offset
  }

  function Trailer(offset: nat): seq<Byte>
    requires offset <= BlockSize
  {
    if BlockSize - offset < HeaderSize then Zeros(BlockSize - offset) else []
  }

  function FragmentLength(offset: nat, left: nat): (n: nat)
    requires offset <= BlockSize
    ensures n <= left && n <= 0xffff
  {
    var avail := BlockSize - FragmentOffset(offset) - HeaderSize;
    if left < avail then left else avail
  }

  function TypeOf(begin: bool, end: bool): Byte {
    if begin && end then FullType else if begin then FirstType else if end then LastType else MiddleType
  }

  /** The bytes that data becomes when written from this offset of a block on. */
  function Emit(offset: nat, data: seq<Byte>, begin: bool): seq<Byte>
    requires offset <= BlockSize
    decreases |data|, if offset == BlockSize - HeaderSize then 1 else 0
  {
    var n := FragmentLength(offset, |data|);
    Trailer(offset) + Physical(TypeOf(begin, n == |data|), data[..n])
    + if n < |data| then Emit(FragmentOffset(offset) + HeaderSize + n, data[n..], false) else []
  }

  /** The block offset after writing. */
  function OffsetAfter(offset: nat, data: seq<Byte>): (r: nat)
    requires offset <= BlockSize
    ensures r <= BlockSize
    decreases |data|, if offset == BlockSize - HeaderSize then 1 else 0
  {
    var n := FragmentLength(offset, |data|);
    var next := FragmentOffset(offset) + HeaderSize + n;
    if n < |data| then OffsetAfter(next, data[n..]) else next
  }

  /** A log file that holds these records. */
  function Written(records: seq<seq<Byte>>): seq<Byte> {
    if records == [] then []
    else
      var before := Written(records[..|records| - 1]);
      before + Emit(|before| % BlockSize, records[|records| - 1], true)
  }

  // ------------------------------------------------------------------- reading

  /** One physical read: a fragment, the end of the file, or bytes that had to be dropped. */
  datatype Outcome = Fragment(kind: Byte, payload: seq<Byte>) | Eof | Bad(dropped: nat)

  /** Where the next header is looked for. */
  function HeaderAt(p: nat): nat {
    p - p % BlockSize + (if BlockSize - p % BlockSize < HeaderSize then BlockSize else p % BlockSize)
  }

  /** The end of the buffer that holds position q: its block, or what the file has of it. */
  function BufferEnd(contents: seq<Byte>, q: nat): nat {
    var blockEnd := q - q % BlockSize + BlockSize;
    if |contents| < blockEnd then |contents| else blockEnd
  }

  /** The header at the start of the buffer: the outcome, and what is left of the buffer. */
  function ParseBuffer(buffer: seq<Byte>, eof: bool): (r: (Outcome, seq<Byte>))
    requires |buffer| >= HeaderSize
    ensures r.0 != Eof ==> |r.1| < |buffer|
    ensures r.0 == Eof ==> eof && r.1 == []
  {
    var length := LengthAt(buffer, 0);
    if HeaderSize + length > |buffer| then (if eof then Eof else Bad(|buffer|), [])
    else if buffer[6] == ZeroType && length == 0 then (Bad(0), [])
    else if !ChecksumMatches(buffer[..4], buffer[6..HeaderSize + length]) then (Bad(|buffer|), [])
    else (Fragment(buffer[6], buffer[HeaderSize..HeaderSize + length]), buffer[HeaderSize + length..])
  }

  /** ReadPhysicalRecord from position p of a file: the outcome and the position after it. */
  function NextPhysical(contents: seq<Byte>, p: nat): (r: (Outcome, nat))
    requires p <= |contents|
    ensures r.0 != Eof ==> p < r.1 <= |contents|
    ensures r.0 == Eof ==> r.1 == |contents|
  {
    var q := HeaderAt(p);
    var end := BufferEnd(contents, q);
    if q > |contents| || end - q < HeaderSize then (Eof, |contents|)
    else
      var eof := |contents| < q - q % BlockSize + BlockSize;
      var (outcome, rest) := ParseBuffer(contents[q..end], eof);
      (outcome, if outcome == Eof then |contents| else end - |rest|)
  }

  datatype Read = Read(record: Maybe, position: nat, dropped: seq<nat>)

  datatype Maybe = Nothing | Just(bytes: seq<Byte>)

  /** What ReadRecord does with one outcome: it has a record or none, or goes on; and what it reports. */
  datatype Turn = Stop(record: Maybe, reported: seq<nat>) | Go(inFragment: bool, scratch: seq<Byte>, reported: seq<nat>)

  function TurnOf(outcome: Outcome, inFragment: bool, scratch: seq<Byte>): (r: Turn)
    ensures outcome == Eof ==> r.Stop?
    ensures outcome.Bad? ==> r.Go?
    ensures r.Stop? && r.record.Just? ==> outcome.Fragment?
  {
    match outcome
    case Eof => Stop(Nothing, [])
    case Bad(_) => Go(false, if inFragment then [] else scratch, if inFragment then [|scratch|] else [])
    case Fragment(kind, payload) =>
      var partial := if inFragment && scratch != [] then [|scratch|] else [];
      if kind == FullType then Stop(Just(payload), partial)
      else if kind == FirstType then Go(true, payload, partial)
      else if kind == MiddleType then
        if inFragment then Go(true, scratch + payload, []) else Go(false, scratch, [|payload|])
      else if kind == LastType then
        if inFragment then Stop(Just(scratch + payload), []) else Go(false, scratch, [|payload|])
      else Go(false, [], [|payload| + if inFragment then |scratch| else 0])
  }

  /** The drop a physical read reports itself. */
  function Reported(outcome: Outcome): seq<nat> {
    if outcome.Bad? && outcome.dropped > 0 then [outcome.dropped] else []
  }

  /** ReadRecord from position p, with what has been put together so far: the record if there is one,
      the position after it, and the sizes of the drops reported on the way. */
  function Assemble(contents: seq<Byte>, p: nat, inFragment: bool, scratch: seq<Byte>): Read
    requires p <= |contents|
    decreases |contents| - p
  {
    var (outcome, next) := NextPhysical(contents, p);
    match TurnOf(outcome, inFragment, scratch)
    case Stop(record, reported) => Read(record, next, Reported(outcome) + reported)
    case Go(f, s, reported) =>
      var rest := Assemble(contents, next, f, s);
      rest.(dropped := Reported(outcome) + reported + rest.dropped)
  }
}
