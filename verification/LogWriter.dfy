/** log::Writer (db/log_writer.cc). */
module LogWriter {
  import opened Coding
  import Crc32c
  import opened LogFormat
  import opened LogRoundTrip

  /** What AddRecord has appended so far, and what it still has to. */
  ghost predicate Emitting(total: seq<Byte>, appended: seq<Byte>, offset: nat, left: seq<Byte>, begin: bool, more: bool)
  {
    && offset <= BlockSize
    && total == appended + if more then Emit(offset, left, begin) else []
  }

  lemma EmittingStep(total: seq<Byte>, appended: seq<Byte>, offset: nat, left: seq<Byte>, begin: bool)
    requires Emitting(total, appended, offset, left, begin, true)
    ensures var n := FragmentLength(offset, |left|);
            Emitting(total, appended + Trailer(offset) + Physical(TypeOf(begin, n == |left|), left[..n]),
                     FragmentOffset(offset) + HeaderSize + n, left[n..], false, n < |left|)
  {
    hide Physical;
    hide Emit;
    EmitParts(offset, left, begin);
  }

  class Writer {
    var dest: seq<Byte>
    var blockOffset: nat
    const typeCrc: seq<bv32>
    ghost var records: seq<seq<Byte>>

    ghost predicate Valid()
      reads this
    {
      && At(|dest|, blockOffset)
      && dest == Written(records)
      && TypeCrcs(typeCrc)
    }

    constructor ()
      ensures Valid() && records == [] && dest == []
    {
      dest, blockOffset, records := [], 0, [];
      typeCrc := InitTypeCrc();
    }

    /** Goes on with a file that already holds records. */
    constructor Append(contents: seq<Byte>, ghost existing: seq<seq<Byte>>)
      requires contents == Written(existing)
      ensures Valid() && records == existing && dest == contents
    {
      dest, blockOffset, records := contents, |contents| % BlockSize, existing;
      typeCrc := InitTypeCrc();
    }

    method AddRecord(record: seq<Byte>)
      requires Valid()
      modifies this
      ensures Valid() && records == old(records) + [record]
      ensures dest == old(dest) + Emit(old(blockOffset), record, true)
    {
      hide Emit;
      hide Physical;
      var left, begin, more := record, true, true;
      ghost var total := dest + Emit(blockOffset, record, true);
      EndsAt(|dest|, blockOffset, record, true);
      SameEmission(blockOffset, record, true);
      WrittenGrows(records, record);
      while more
        modifies this`dest, this`blockOffset
        invariant Emitting(total, dest, blockOffset, left, begin, more)
        invariant At(|dest|, blockOffset)
        invariant TypeCrcs(typeCrc)
        decreases more, |left|, if blockOffset == BlockSize - HeaderSize then 1 else 0
      {
        EmittingStep(total, dest, blockOffset, left, begin);
        var fragmentLength := EmitFragment(left, begin);
        left := left[fragmentLength..];
        begin := false;
        more := |left| > 0;
      }
      records := records + [record];
    }

    /** One turn of the loop: a new block if no header fits, then as much of the record as fits. */
    method EmitFragment(left: seq<Byte>, begin: bool) returns (fragmentLength: nat)
      requires At(|dest|, blockOffset) && TypeCrcs(typeCrc)
      modifies this`dest, this`blockOffset
      ensures fragmentLength == FragmentLength(old(blockOffset), |left|)
      ensures dest == old(dest) + Trailer(old(blockOffset))
          + Physical(TypeOf(begin, fragmentLength == |left|), left[..fragmentLength])
      ensures blockOffset == FragmentOffset(old(blockOffset)) + HeaderSize + fragmentLength
      ensures At(|dest|, blockOffset) && (fragmentLength < |left| ==> blockOffset == BlockSize)
    {
      hide Physical;
      HeaderFollowsTrailer(|dest|, blockOffset);
      FragmentFits(|dest|, blockOffset, |left|);
      var leftover := BlockSize - blockOffset;
      if leftover < HeaderSize {
        // switch to a new block
        dest := dest + Zeros(leftover);
        blockOffset := 0;
      }
      var avail := BlockSize - blockOffset - HeaderSize;
      fragmentLength := if |left| < avail then |left| else avail;
      var end := |left| == fragmentLength;
      EmitPhysicalRecord(TypeOf(begin, end), left[..fragmentLength]);
    }

    method EmitPhysicalRecord(t: Byte, payload: seq<Byte>)
      requires |payload| <= 0xffff && blockOffset + HeaderSize + |payload| <= BlockSize
      requires t <= LastType && TypeCrcs(typeCrc)
      modifies this`dest, this`blockOffset
      ensures dest == old(dest) + Physical(t, payload)
      ensures blockOffset == old(blockOffset) + HeaderSize + |payload|
    {
      var address: nat := *;
      TypeIndex(t);
      var crc := Crc32c.Extend(typeCrc[t as nat], payload, address);
      var header := EncodeFixed32(Crc32c.Mask(crc)) + [(|payload| % 256) as Byte, (|payload| / 256) as Byte, t];
      hide Crc32c.Crc;
      hide Crc32c.Mask;
      hide EncodeFixed32;
      dest := dest + header;
      dest := dest + payload;
      assert dest == old(dest) + (header + payload);
      blockOffset := blockOffset + HeaderSize + |payload|;
    }
  }

  ghost predicate TypeCrcs(crcs: seq<bv32>) {
    |crcs| == 5 && forall t: nat :: t < 5 ==> crcs[t] == Crc32c.Value([t as Byte])
  }

  function InitTypeCrc(): (r: seq<bv32>)
    ensures TypeCrcs(r)
  {
    seq(5, t requires 0 <= t < 5 => Crc32c.Value([t as Byte]))
  }

  lemma TypeIndex(t: Byte)
    requires t <= LastType
    ensures (t as nat) < 5 && (t as nat) as Byte == t
  {
  }

  lemma WrittenGrows(records: seq<seq<Byte>>, record: seq<Byte>)
    ensures Written(records + [record]) == Written(records) + Emit(|Written(records)| % BlockSize, record, true)
  {
    assert (records + [record])[..|records|] == records;
  }
}
