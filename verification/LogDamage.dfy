/** What damage to a log costs (db/log_reader.cc): up to four bytes changed in one fragment lose the records of which a
    fragment lies in the rest of its block, and no other. */
module LogDamage {
  import opened Coding
  import opened LogFormat
  import opened LogRoundTrip
  import opened Corruption

  // ------------------------------------------------------------------- the damaged fragment

  /** A fragment at q of which at most four bytes in a row, of type and payload, are not what was written. */
  ghost predicate Damaged(contents: seq<Byte>, q: nat, t: Byte, payload: seq<Byte>, lo: nat, hi: nat) {
    && |payload| <= 0xffff && q + HeaderSize + |payload| <= |contents|
    && contents[q..q + 6] == Physical(t, payload)[..6]
    && contents[q + 6..q + HeaderSize + |payload|] != [t] + payload
    && Burst([t] + payload, contents[q + 6..q + HeaderSize + |payload|], lo, hi)
  }

  lemma SliceOfSlice(s: seq<Byte>, a: nat, b: nat, c: nat, d: nat)
    requires a <= b <= |s| && c <= d <= b - a
    ensures s[a..b][c..d] == s[a + c..a + d]
  {
    var x, y := s[a..b][c..d], s[a + c..a + d];
    assert |x| == |y| && forall i :: 0 <= i < |x| ==> x[i] == s[a + c + i] && y[i] == s[a + c + i];
  }

  /** It is read as bad, and the rest of its block with it. */
  lemma DamagedIsBad(contents: seq<Byte>, p: nat, t: Byte, payload: seq<Byte>, lo: nat, hi: nat)
    requires p <= |contents| && Damaged(contents, HeaderAt(p), t, payload, lo, hi)
    requires HeaderAt(p) % BlockSize + HeaderSize + |payload| <= BlockSize
    ensures var (outcome, next) := NextPhysical(contents, p);
            && outcome.Bad? && next == BufferEnd(contents, HeaderAt(p))
            && (outcome.dropped == 0 ==> payload == [] && contents[HeaderAt(p) + 6] == ZeroType)
  {
    hide Physical;
    hide Burst;
    hide ParseBuffer;
    hide ChecksumField;
    var q, n := HeaderAt(p), |payload|;
    var end := BufferEnd(contents, q);
    BufferHolds(contents, q, HeaderSize + n);
    var buffer := contents[q..end];
    SliceOfSlice(contents, q, end, 0, 6);
    SliceOfSlice(contents, q, end, 6, HeaderSize + n);
    CorruptFragmentIsBad(buffer, |contents| < q - q % BlockSize + BlockSize, t, payload, lo, hi);
  }

  // ----------------------------------------------------------------------- reading over it

  /** The same record and position, with at least as many drops reported. */
  ghost predicate Alike(a: Read, b: Read) {
    a.record == b.record && a.position == b.position && |a.dropped| >= |b.dropped|
  }

  lemma AlikeTrans(a: Read, b: Read, c: Read)
    requires Alike(a, b) && Alike(b, c)
    ensures Alike(a, c)
  {
  }

  lemma GoesOn(contents: seq<Byte>, p: nat, inFragment: bool, scratch: seq<Byte>)
    requires p <= |contents| && TurnOf(NextPhysical(contents, p).0, inFragment, scratch).Go?
    ensures var (outcome, next) := NextPhysical(contents, p);
            var turn := TurnOf(outcome, inFragment, scratch);
            && next <= |contents|
            && Assemble(contents, p, inFragment, scratch).dropped == Reported(outcome) + turn.reported
                + Assemble(contents, next, turn.inFragment, turn.scratch).dropped
            && Alike(Assemble(contents, p, inFragment, scratch),
                Assemble(contents, next, turn.inFragment, turn.scratch))
  {
    hide NextPhysical;
    hide TurnOf;
  }

  /** Outside a record its middle and last fragments are passed over. */
  lemma {:induction false} RestIsSkipped(contents: seq<Byte>, p: nat, offset: nat, data: seq<Byte>, scratch: seq<Byte>)
    requires p <= |contents| && At(p, offset) && LiesAt(contents, p, Emit(offset, data, false))
    requires p + |Emit(offset, data, false)| <= |contents|
    ensures Alike(Assemble(contents, p, false, scratch),
        Assemble(contents, p + |Emit(offset, data, false)|, false, scratch))
    decreases |data|, if offset == BlockSize - HeaderSize then 1 else 0
  {
    hide Emit;
    hide NextPhysical;
    hide Physical;
    hide LiesAt;
    hide Assemble;
    hide HeaderAt;
    hide Trailer;
    hide Alike;
    var n := FragmentLength(offset, |data|);
    var q, end, o := HeaderAt(p), n == |data|, FragmentOffset(offset) + HeaderSize + n;
    var t, fragment := TypeOf(false, end), Physical(TypeOf(false, end), data[..n]);
    var rest := if n < |data| then Emit(o, data[n..], false) else [];
    EmitParts(offset, data, false);
    HeaderFollowsTrailer(p, offset);
    FragmentFits(p, offset, |data|);
    SliceOfSum(contents, p, Trailer(offset), fragment, rest);
    FragmentIsRead(contents, p, t, data[..n]);
    GoesOn(contents, p, false, scratch);
    if n < |data| {
      RestIsSkipped(contents, q + |fragment|, o, data[n..], scratch);
      AlikeTrans(Assemble(contents, p, false, scratch), Assemble(contents, q + |fragment|, false, scratch),
          Assemble(contents, p + |Emit(offset, data, false)|, false, scratch));
    }
  }

  /** The fragment that the emission has at h, if it has one. */
  function FragmentAt(p: nat, offset: nat, data: seq<Byte>, begin: bool, h: nat): (r: Fragment)
    requires offset <= BlockSize
    decreases |data|, if offset == BlockSize - HeaderSize then 1 else 0
  {
    var n := FragmentLength(offset, |data|);
    if h == HeaderAt(p) then Piece(TypeOf(begin, n == |data|), data[..n])
    else if n == |data| then NoFragment
    else FragmentAt(HeaderAt(p) + HeaderSize + n, FragmentOffset(offset) + HeaderSize + n, data[n..], false, h)
  }

  datatype Fragment = NoFragment | Piece(kind: Byte, payload: seq<Byte>)

  /** It lies there, whole, in the emission. */
  lemma {:induction false} FragmentInEmission(p: nat, offset: nat, data: seq<Byte>, begin: bool, h: nat)
    requires At(p, offset) && FragmentAt(p, offset, data, begin, h).Piece?
    ensures var f := FragmentAt(p, offset, data, begin, h);
            && |f.payload| <= 0xffff && HeaderAt(p) <= h
            && h + HeaderSize + |f.payload| <= p + |Emit(offset, data, begin)|
            && h % BlockSize + HeaderSize + |f.payload| <= BlockSize
            && HeaderAt(h) == h
    decreases |data|, if offset == BlockSize - HeaderSize then 1 else 0
  {
    hide Emit;
    hide Physical;
    hide Trailer;
    var n := FragmentLength(offset, |data|);
    EmitParts(offset, data, begin);
    HeaderFollowsTrailer(p, offset);
    FragmentFits(p, offset, |data|);
    if h != HeaderAt(p) {
      FragmentInEmission(HeaderAt(p) + HeaderSize + n, FragmentOffset(offset) + HeaderSize + n, data[n..], false, h);
    }
  }

  /** The bytes before a fragment's covered part are as they were emitted, and so are those behind it. */
  ghost predicate SameBut(contents: seq<Byte>, written: seq<Byte>, a: nat, b: nat) {
    a <= b <= |contents| == |written| && contents[..a] == written[..a] && contents[b..] == written[b..]
  }

  lemma LiesBefore(contents: seq<Byte>, written: seq<Byte>, a: nat, b: nat, q: nat, record: seq<Byte>)
    requires SameBut(contents, written, a, b) && LiesAt(written, q, record) && q + |record| <= a
    ensures LiesAt(contents, q, record)
  {
    assert contents[q..q + |record|] == contents[..a][q..q + |record|] == written[..a][q..q + |record|];
  }

  lemma LiesBehind(contents: seq<Byte>, written: seq<Byte>, a: nat, b: nat, q: nat, record: seq<Byte>)
    requires SameBut(contents, written, a, b) && LiesAt(written, q, record) && b <= q && q + |record| <= |contents|
    ensures LiesAt(contents, q, record)
  {
    assert contents[q..q + |record|] == contents[b..][q - b..q - b + |record|] == written[b..][q - b..q - b + |record|];
  }

  /** Bytes changed in the covered part of a fragment damage just that fragment. */
  lemma ChangedIsDamaged(contents: seq<Byte>, written: seq<Byte>, a: nat, b: nat, q: nat, t: Byte, payload: seq<Byte>)
    requires |payload| <= 0xffff && LiesAt(written, q, Physical(t, payload))
    requires q + HeaderSize + |payload| <= |written| && SameBut(contents, written, a, b) && contents != written
    requires q + 6 <= a && b <= q + HeaderSize + |payload| && a <= b <= a + 4 && |contents| == |written|
    ensures Damaged(contents, q, t, payload, a - (q + 6), b - (q + 6))
  {
    hide ChecksumField;
    hide SameBut;
    hide LiesAt;
    var n, r, end := |payload|, Physical(t, payload), q + HeaderSize + |payload|;
    PhysicalParts(t, payload);
    WrittenThere(written, q, r);
    SamePart(contents, written, a, b, q, q + 6);
    SamePart(contents, written, a, b, q + 6, a);
    SamePart(contents, written, a, b, b, end);
    SliceOfSlice(written, q, end, 0, 6);
    SliceOfSlice(written, q, end, 6, HeaderSize + n);
    SliceOfSlice(written, q + 6, end, 0, a - (q + 6));
    SliceOfSlice(written, q + 6, end, b - (q + 6), n + 1);
    SliceOfSlice(contents, q + 6, end, 0, a - (q + 6));
    SliceOfSlice(contents, q + 6, end, b - (q + 6), n + 1);
    assert contents[q + 6..end][b - (q + 6)..n + 1] == contents[q + 6..end][b - (q + 6)..];
    assert written[q + 6..end][b - (q + 6)..n + 1] == written[q + 6..end][b - (q + 6)..];
    SomethingChanged(contents, written, a, b, q + 6, q + HeaderSize + n);
  }

  lemma WrittenThere(written: seq<Byte>, q: nat, r: seq<Byte>)
    requires LiesAt(written, q, r) && q + |r| <= |written|
    ensures written[q..q + |r|] == r
  {
  }

  lemma SamePart(contents: seq<Byte>, written: seq<Byte>, a: nat, b: nat, x: nat, y: nat)
    requires SameBut(contents, written, a, b) && |contents| == |written| && x <= y <= |contents| && (y <= a || b <= x)
    ensures contents[x..y] == written[x..y]
  {
    if y <= a {
      SliceOfSlice(contents, 0, a, x, y);
      SliceOfSlice(written, 0, a, x, y);
      assert contents[0..a] == contents[..a] && written[0..a] == written[..a];
    } else {
      SliceOfSlice(contents, b, |contents|, x - b, y - b);
      SliceOfSlice(written, b, |contents|, x - b, y - b);
      assert contents[b..|contents|] == contents[b..] && written[b..|contents|] == written[b..];
    }
  }

  lemma SameOutside(contents: seq<Byte>, written: seq<Byte>, a: nat, b: nat, i: nat)
    requires SameBut(contents, written, a, b) && i < |contents| && (i < a || b <= i)
    ensures contents[i] == written[i]
  {
    SamePart(contents, written, a, b, i, i + 1);
    assert contents[i..i + 1][0] == contents[i] && written[i..i + 1][0] == written[i];
  }

  lemma SomethingChanged(contents: seq<Byte>, written: seq<Byte>, a: nat, b: nat, x: nat, y: nat)
    requires SameBut(contents, written, a, b) && x <= a && b <= y <= |contents| && contents != written
    ensures contents[x..y] != written[x..y]
  {
    forall i: nat | i < |contents| && (i < a || b <= i) ensures contents[i] == written[i] {
      SameOutside(contents, written, a, b, i);
    }
    var i: nat :| i < |contents| && contents[i] != written[i];
    assert contents[x..y][i - x] != written[x..y][i - x];
  }

  lemma DamagedFirst(contents: seq<Byte>, written: seq<Byte>, a: nat, b: nat, p: nat, t: Byte, payload: seq<Byte>,
                     inFragment: bool, scratch: seq<Byte>)
    requires p <= |contents| && |payload| <= 0xffff && (!inFragment ==> scratch == []) && |contents| == |written|
    requires SameBut(contents, written, a, b) && contents != written && a <= b <= a + 4
    requires var q := HeaderAt(p);
             && LiesAt(written, q, Physical(t, payload)) && q + HeaderSize + |payload| <= |written|
             && q % BlockSize + HeaderSize + |payload| <= BlockSize
             && q + 6 <= a && b <= q + HeaderSize + |payload|
    ensures var end := BufferEnd(contents, HeaderAt(p));
            && end <= |contents|
            && Alike(Assemble(contents, p, inFragment, scratch), Assemble(contents, end, false, []))
            && ((payload == [] && contents[HeaderAt(p) + 6] == ZeroType)
                || Assemble(contents, p, inFragment, scratch).dropped != [])
  {
    hide LiesAt;
    hide NextPhysical;
    hide Physical;
    hide Assemble;
    hide HeaderAt;
    hide Damaged;
    hide SameBut;
    hide Alike;
    var q := HeaderAt(p);
    ChangedIsDamaged(contents, written, a, b, q, t, payload);
    DamagedIsBad(contents, p, t, payload, a - (q + 6), b - (q + 6));
    GoesOn(contents, p, inFragment, scratch);
  }

  /** A record is read up to its damaged fragment; what was put together of it is dropped, and reading goes on behind
      the
      block. */
  lemma {:induction false} DamagedRecord(contents: seq<Byte>, written: seq<Byte>, a: nat, b: nat, p: nat, offset: nat,
                                         data: seq<Byte>, begin: bool, scratch: seq<Byte>, h: nat)
    requires p <= |contents| && At(p, offset) && (begin ==> scratch == [])
    requires SameBut(contents, written, a, b) && contents != written && a <= b <= a + 4 && |contents| == |written|
    requires LiesAt(written, p, Emit(offset, data, begin)) && p + |Emit(offset, data, begin)| <= |written|
    requires var f := FragmentAt(p, offset, data, begin, h);
             f.Piece? && h + 6 <= a && b <= h + HeaderSize + |f.payload|
    ensures h < |contents|
    ensures var end := BufferEnd(contents, h);
            && end <= |contents|
            && Alike(Assemble(contents, p, !begin, scratch), Assemble(contents, end, false, []))
            && ((FragmentAt(p, offset, data, begin, h).payload == [] && contents[h + 6] == ZeroType)
                || Assemble(contents, p, !begin, scratch).dropped != [])
    decreases |data|, if offset == BlockSize - HeaderSize then 1 else 0
  {
    hide Emit;
    hide NextPhysical;
    hide Physical;
    hide LiesAt;
    hide Assemble;
    hide TypeOf;
    hide HeaderAt;
    hide Trailer;
    hide Alike;
    hide Damaged;
    hide SameBut;
    var n := FragmentLength(offset, |data|);
    var q, end, o := HeaderAt(p), n == |data|, FragmentOffset(offset) + HeaderSize + n;
    TypeNotZero(begin, end);
    var t, fragment := TypeOf(begin, end), Physical(TypeOf(begin, end), data[..n]);
    var rest := if n < |data| then Emit(o, data[n..], false) else [];
    FragmentInEmission(p, offset, data, begin, h);
    EmitParts(offset, data, begin);
    HeaderFollowsTrailer(p, offset);
    FragmentFits(p, offset, |data|);
    SliceOfSum(written, p, Trailer(offset), fragment, rest);
    if h == q {
      DamagedFirst(contents, written, a, b, p, t, data[..n], !begin, scratch);
    } else {
      FragmentInEmission(q + HeaderSize + n, o, data[n..], false, h);
      HeaderFollowsTrailer(q + HeaderSize + n, o);
      LiesBefore(contents, written, a, b, q, fragment);
      FragmentIsRead(contents, p, t, data[..n]);
      FragmentStep(contents, p, begin, end, data[..n], q + |fragment|, scratch);
      DamagedRecord(contents, written, a, b, q + |fragment|, o, data[n..], false, scratch + data[..n], h);
    }
  }

  // --------------------------------------------------------------- going on behind the block

  /** A block that begins inside an emission begins with what is left of it. */
  lemma {:induction false} EmissionGoesOn(written: seq<Byte>, p: nat, offset: nat, data: seq<Byte>, begin: bool, e: nat)
      returns (left: seq<Byte>)
    requires At(p, offset) && LiesAt(written, p, Emit(offset, data, begin))
    requires p + |Emit(offset, data, begin)| <= |written|
    requires e % BlockSize == 0 && HeaderAt(p) < e < p + |Emit(offset, data, begin)|
    ensures LiesAt(written, e, Emit(BlockSize, left, false))
    ensures e + |Emit(BlockSize, left, false)| == p + |Emit(offset, data, begin)|
    decreases |data|, if offset == BlockSize - HeaderSize then 1 else 0
  {
    hide Emit;
    hide Physical;
    hide LiesAt;
    hide HeaderAt;
    hide Trailer;
    var n := FragmentLength(offset, |data|);
    var q, o := HeaderAt(p), FragmentOffset(offset) + HeaderSize + n;
    var fragment := Physical(TypeOf(begin, n == |data|), data[..n]);
    var rest := if n < |data| then Emit(o, data[n..], false) else [];
    EmitParts(offset, data, begin);
    HeaderFollowsTrailer(p, offset);
    FragmentFits(p, offset, |data|);
    SliceOfSum(written, p, Trailer(offset), fragment, rest);
    NextBlock(q, HeaderSize + n, e);
    left := data[n..];
    if e > q + |fragment| {
      AtBlock(q + |fragment|);
      left := EmissionGoesOn(written, q + |fragment|, o, data[n..], false, e);
    }
  }

  /** No block begins inside a fragment. */
  lemma NextBlock(q: nat, n: nat, e: nat)
    requires q % BlockSize + n <= BlockSize && e % BlockSize == 0 && q < e
    ensures q + n <= e
  {
    var b := q / BlockSize;
    assert q == BlockSize * b + q % BlockSize && e == BlockSize * (e / BlockSize);
    assert e / BlockSize > b;
    assert e >= BlockSize * (b + 1);
  }

  lemma AtBlock(e: nat)
    requires e % BlockSize == 0
    ensures HeaderAt(e) == e
  {
  }

  /** The records from one on, where all of them lie as written, are read. */
  lemma {:induction false} TailReads(records: seq<seq<Byte>>, contents: seq<Byte>, j: nat)
    requires |contents| == |Written(records)| && j <= |records| && |Written(records[..j])| <= |contents|
    requires forall k :: j <= k < |records| ==> RecordAt(records, contents, k)
    ensures ReadAll(contents, |Written(records[..j])|).0 == records[j..]
    decreases |records| - j
  {
    hide Assemble;
    hide Written;
    hide Emit;
    hide LiesAt;
    var p := |Written(records[..j])|;
    AssembleAdvances(contents, p, false, []);
    if j < |records| {
      assert RecordAt(records, contents, j);
      WrittenStep(records, j);
      WrittenPrefix(records, j + 1);
      RecordIsRead(contents, p, p % BlockSize, records[j], true, []);
      assert [] + records[j] == records[j];
      TailReads(records, contents, j + 1);
      assert records[j..] == [records[j]] + records[j + 1..];
    } else {
      assert records[..j] == records;
      EndIsEof(contents);
    }
  }

  /** The k-th record lies where its predecessors end. */
  ghost predicate RecordAt(records: seq<seq<Byte>>, contents: seq<Byte>, k: nat)
    requires k < |records|
  {
    var p := |Written(records[..k])|;
    LiesAt(contents, p, Emit(p % BlockSize, records[k], true))
  }

  /** The records before one, where all of them lie as written, are read first. */
  lemma {:induction false} HeadReads(records: seq<seq<Byte>>, contents: seq<Byte>, i: nat)
    requires |contents| == |Written(records)| && i <= |records| && |Written(records[..i])| <= |contents|
    requires forall k :: 0 <= k < i ==> RecordAt(records, contents, k)
    ensures ReadAll(contents, 0).0 == records[..i] + ReadAll(contents, |Written(records[..i])|).0
    ensures ReadAll(contents, 0).1 == ReadAll(contents, |Written(records[..i])|).1
  {
    hide Assemble;
    hide Written;
    hide Emit;
    hide LiesAt;
    if i == 0 {
      assert records[..0] == [];
      WrittenNothing();
    } else {
      var p := |Written(records[..i - 1])|;
      WrittenStep(records, i - 1);
      HeadReads(records, contents, i - 1);
      assert RecordAt(records, contents, i - 1);
      AssembleAdvances(contents, p, false, []);
      RecordIsRead(contents, p, p % BlockSize, records[i - 1], true, []);
      assert [] + records[i - 1] == records[i - 1];
      var rest := ReadAll(contents, |Written(records[..i])|);
      assert ReadAll(contents, p) == ([records[i - 1]] + rest.0, [] + rest.1);
      assert records[..i] == records[..i - 1] + [records[i - 1]];
    }
  }

  // --------------------------------------------------------------------- the whole file

  lemma HeadersAscend(p: nat, q: nat)
    requires p <= q
    ensures HeaderAt(p) <= HeaderAt(q) && p <= HeaderAt(p)
  {
    assert p == BlockSize * (p / BlockSize) + p % BlockSize && q == BlockSize * (q / BlockSize) + q % BlockSize;
    assert p / BlockSize <= q / BlockSize;
  }

  /** Where the k-th record's first header is looked for. */
  function HeaderOf(records: seq<seq<Byte>>, k: nat): nat
    requires k <= |records|
  {
    HeaderAt(|Written(records[..k])|)
  }

  /** j is the first record behind the i-th whose header is at end or beyond. */
  ghost predicate FirstFrom(records: seq<seq<Byte>>, i: nat, end: nat, j: nat) {
    && i < j <= |records|
    && forall k :: i < k < |records| ==> (j <= k <==> end <= HeaderOf(records, k))
  }

  lemma {:induction false} OffsetsAscend(records: seq<seq<Byte>>, i: nat, k: nat)
    requires i <= k <= |records|
    ensures |Written(records[..i])| <= |Written(records[..k])| <= |Written(records)|
  {
    hide Written;
    WrittenPrefix(records, k);
    WrittenPrefix(records[..k], i);
    assert records[..k][..i] == records[..i];
  }

  lemma {:induction false} FindFirst(records: seq<seq<Byte>>, i: nat, end: nat, from: nat) returns (j: nat)
    requires i < from <= |records| && forall k :: i < k < from ==> HeaderOf(records, k) < end
    ensures FirstFrom(records, i, end, j) && from <= j
    decreases |records| - from
  {
    hide HeaderAt;
    hide Written;
    if from == |records| {
      j := from;
    } else if end <= HeaderOf(records, from) {
      j := from;
      forall k | from <= k < |records| ensures end <= HeaderOf(records, k) {
        OffsetsAscend(records, from, k);
        HeadersAscend(|Written(records[..from])|, |Written(records[..k])|);
      }
    } else {
      j := FindFirst(records, i, end, from + 1);
    }
  }

  /** A record as it was written lies in its file. */
  lemma WrittenLies(records: seq<seq<Byte>>, k: nat)
    requires k < |records|
    ensures RecordAt(records, Written(records), k)
    ensures var p := |Written(records[..k])|;
            |Written(records[..k + 1])| == p + |Emit(p % BlockSize, records[k], true)| <= |Written(records)|
    ensures HeaderOf(records, k) + HeaderSize <= |Written(records[..k + 1])|
  {
    hide Written;
    hide Emit;
    hide LiesAt;
    hide HeaderAt;
    var p, all := |Written(records[..k])|, Written(records);
    OffsetsAscend(records, k, |records|);
    assert records[..|records|] == records;
    RecordLies(records, |all|, k);
    assert all[..|all|] == all;
    OffsetsAscend(records, k + 1, |records|);
    HeaderInEmission(p, p % BlockSize, records[k]);
  }

  lemma HeaderInEmission(p: nat, offset: nat, data: seq<Byte>)
    requires At(p, offset)
    ensures HeaderAt(p) + HeaderSize <= p + |Emit(offset, data, true)|
  {
    hide Physical;
    hide HeaderAt;
    hide Trailer;
    EmitParts(offset, data, true);
    HeaderFollowsTrailer(p, offset);
  }

  /** From a block's start, reading goes on with the first record that begins there or later. */
  lemma GoesOnFrom(records: seq<seq<Byte>>, contents: seq<Byte>, a: nat, b: nat, i: nat, e: nat, j: nat)
    requires SameBut(contents, Written(records), a, b) && i < |records| && FirstFrom(records, i, e, j)
    requires e % BlockSize == 0 && b <= e <= |contents| == |Written(records)| && HeaderOf(records, i) < e
    ensures |Written(records[..j])| <= |contents|
    ensures Alike(Assemble(contents, e, false, []), Assemble(contents, |Written(records[..j])|, false, []))
  {
    hide Assemble;
    hide Written;
    hide Emit;
    hide LiesAt;
    hide HeaderAt;
    hide SameBut;
    hide NextPhysical;
    var written, p, q := Written(records), |Written(records[..j - 1])|, |Written(records[..j])|;
    OffsetsAscend(records, j, |records|);
    assert HeaderOf(records, j - 1) < e;
    WrittenLies(records, j - 1);
    var emitted := Emit(p % BlockSize, records[j - 1], true);
    if e < q {
      var left := EmissionGoesOn(written, p, p % BlockSize, records[j - 1], true, e);
      LiesBehind(contents, written, a, b, e, Emit(BlockSize, left, false));
      RestIsSkipped(contents, e, BlockSize, left, []);
    } else if e > q {
      assert records[..|records|] == records;
      assert e <= HeaderOf(records, j);
      SameHeader(contents, q, e);
    }
  }

  /** The last bytes of a block and the start of the next are the same place to a reader. */
  lemma SameHeader(contents: seq<Byte>, q: nat, e: nat)
    requires q < e <= |contents| && e % BlockSize == 0 && e <= HeaderAt(q)
    ensures Assemble(contents, q, false, []) == Assemble(contents, e, false, [])
  {
    AtBlock(e);
    assert q == BlockSize * (q / BlockSize) + q % BlockSize && e == BlockSize * (e / BlockSize);
    assert HeaderAt(q) == e;
    assert NextPhysical(contents, q) == NextPhysical(contents, e);
  }

  /** Where reading goes on behind the damaged fragment's block, or at the end of the file. */
  lemma GoesOnBehind(records: seq<seq<Byte>>, contents: seq<Byte>, a: nat, b: nat, i: nat, h: nat, j: nat)
    requires SameBut(contents, Written(records), a, b) && i < |records| && |contents| == |Written(records)|
    requires FirstFrom(records, i, h - h % BlockSize + BlockSize, j) && HeaderOf(records, i) <= h < |contents|
    requires b <= BufferEnd(contents, h)
    ensures BufferEnd(contents, h) <= |contents| && |Written(records[..j])| <= |contents|
    ensures Alike(Assemble(contents, BufferEnd(contents, h), false, []),
        Assemble(contents, |Written(records[..j])|, false, []))
  {
    hide Written;
    hide Assemble;
    hide SameBut;
    hide HeaderAt;
    var end := h - h % BlockSize + BlockSize;
    if end <= |contents| {
      assert end == BlockSize * (h / BlockSize + 1);
      assert (BlockSize * (h / BlockSize + 1)) % BlockSize == 0;
      GoesOnFrom(records, contents, a, b, i, end, j);
    } else {
      if j < |records| { WrittenLies(records, j); }
      assert j == |records| && records[..j] == records;
    }
  }

  /** The bytes from a up to b are of the type and payload of a fragment that the i-th record has at h. */
  ghost predicate InFragment(records: seq<seq<Byte>>, i: nat, h: nat, a: nat, b: nat)
    requires i < |records|
  {
    var p := |Written(records[..i])|;
    var f := FragmentAt(p, p % BlockSize, records[i], true, h);
    f.Piece? && h + 6 <= a && b <= h + HeaderSize + |f.payload|
  }

  /** Up to four bytes in a row changed in the covered part of a fragment of the i-th record: the records before it are
      read, it is not, nor are those behind it that begin in the same block, and all others are.  That is reported, but
      for one case: an empty fragment whose type becomes zero looks preallocated. */
  lemma DamageIsLocal(records: seq<seq<Byte>>, contents: seq<Byte>, a: nat, b: nat, i: nat, h: nat) returns (j: nat)
    requires SameBut(contents, Written(records), a, b) && contents != Written(records) && a <= b <= a + 4
    requires i < |records| && |contents| == |Written(records)|
    requires InFragment(records, i, h, a, b)
    ensures FirstFrom(records, i, h - h % BlockSize + BlockSize, j)
    ensures ReadAll(contents, 0).0 == records[..i] + records[j..]
    ensures ReadAll(contents, 0).1 != [] || (h + 6 < |contents| && contents[h + 6] == ZeroType)
  {
    hide Written;
    hide Emit;
    hide Assemble;
    hide LiesAt;
    hide HeaderAt;
    hide SameBut;
    hide ReadAll;
    hide FragmentAt;
    hide Alike;
    var written, p := Written(records), |Written(records[..i])|;
    var f := FragmentAt(p, p % BlockSize, records[i], true, h);
    WrittenLies(records, i);
    FragmentInEmission(p, p % BlockSize, records[i], true, h);
    HeadersAscend(p, p);
    j := FindFirst(records, i, h - h % BlockSize + BlockSize, i + 1);
    OffsetsAscend(records, i + 1, j);
    RecordsAround(records, contents, a, b, i, j, h);
    HeadReads(records, contents, i);
    DamagedRecord(contents, written, a, b, p, p % BlockSize, records[i], true, [], h);
    GoesOnBehind(records, contents, a, b, i, h, j);
    var q := |Written(records[..j])|;
    AlikeTrans(Assemble(contents, p, false, []), Assemble(contents, BufferEnd(contents, h), false, []),
        Assemble(contents, q, false, []));
    TailReads(records, contents, j);
    ReadsAlike(contents, p, q);
  }

  lemma RecordsAround(records: seq<seq<Byte>>, contents: seq<Byte>, a: nat, b: nat, i: nat, j: nat, h: nat)
    requires SameBut(contents, Written(records), a, b) && i < j <= |records| && |contents| == |Written(records)|
    requires |Written(records[..i])| <= h <= a && b <= |Written(records[..j])|
    ensures forall k :: 0 <= k < i ==> RecordAt(records, contents, k)
    ensures forall k :: j <= k < |records| ==> RecordAt(records, contents, k)
  {
    hide Written;
    hide Emit;
    hide LiesAt;
    hide SameBut;
    forall k | 0 <= k < i ensures RecordAt(records, contents, k) {
      var p := |Written(records[..k])|;
      WrittenLies(records, k);
      OffsetsAscend(records, k + 1, i);
      LiesBefore(contents, Written(records), a, b, p, Emit(p % BlockSize, records[k], true));
    }
    forall k | j <= k < |records| ensures RecordAt(records, contents, k) {
      var p := |Written(records[..k])|;
      WrittenLies(records, k);
      OffsetsAscend(records, j, k);
      LiesBehind(contents, Written(records), a, b, p, Emit(p % BlockSize, records[k], true));
    }
  }

  /** Reading on from two places where the next record is the same. */
  lemma ReadsAlike(contents: seq<Byte>, p: nat, q: nat)
    requires p <= |contents| && q <= |contents|
    requires Alike(Assemble(contents, p, false, []), Assemble(contents, q, false, []))
    ensures ReadAll(contents, p).0 == ReadAll(contents, q).0
    ensures Assemble(contents, p, false, []).dropped != [] ==> ReadAll(contents, p).1 != []
  {
    hide Assemble;
    AssembleAdvances(contents, p, false, []);
    AssembleAdvances(contents, q, false, []);
  }
}
