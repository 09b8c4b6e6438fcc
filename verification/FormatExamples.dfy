/** The file formats, byte for byte (db/log_writer.cc, db/write_batch.cc, db/version_edit.cc, table/block_builder.cc,
    table/filter_block.cc, table/format.cc): what any other reader of these files relies on. */
module FormatExamples {
  import opened Options
  import opened Coding
  import Crc32c
  import opened Varints
  import opened LogFormat
  import W = WriteBatches
  import V = VersionEdits
  import B = Blocks
  import T = TableBuilders
  import F = FilterBlocks
  import Separators

  type Bytes = seq<Byte>

  lemma SmallVarint(n: nat)
    requires n < 128
    ensures Varint(n) == [n as Byte]
  {
  }

  lemma LargerVarint(n: nat)
    requires 128 <= n < 16384
    ensures Varint(n) == [(n % 128 + 128) as Byte, (n / 128) as Byte]
  {
  }

  lemma Word32(n: nat)
    requires n < 256
    ensures Fixed(n, 4) == [n as Byte, 0, 0, 0]
  {
    assert Fixed(n / 256, 3) == [0, 0, 0] by {
      assert Fixed(0, 0) == [] && Fixed(0, 1) == [0] && Fixed(0, 2) == [0, 0];
    }
  }

  lemma Word64(n: nat)
    requires n < 256
    ensures Fixed(n, 8) == [n as Byte, 0, 0, 0, 0, 0, 0, 0]
  {
    assert Fixed(0, 0) == [] && Fixed(0, 1) == [0] && Fixed(0, 2) == [0, 0] && Fixed(0, 3) == [0, 0, 0];
    assert Fixed(0, 4) == [0, 0, 0, 0] && Fixed(0, 5) == [0, 0, 0, 0, 0] && Fixed(0, 6) == [0, 0, 0, 0, 0, 0];
    assert Fixed(0, 7) == [0, 0, 0, 0, 0, 0, 0];
  }

  /** A batch that puts a to b and deletes c, numbered from 5. */
  lemma Batch()
    ensures W.Rep(5, [W.Put([97], [98]), W.Op.Delete([99])]) ==
        [5, 0, 0, 0, 0, 0, 0, 0] + [2, 0, 0, 0] + [1, 1, 97, 1, 98] + [0, 1, 99]
  {
    var ops := [W.Put([97], [98]), W.Op.Delete([99])];
    Word64(5);
    Word32(2);
    SmallVarint(1);
    assert W.Record(ops[0]) == [1, 1, 97, 1, 98] && W.Record(ops[1]) == [0, 1, 99];
    assert ops[1..] == [ops[1]] && ops[1..][1..] == [];
    assert W.Body(ops[1..]) == [0, 1, 99];
  }

  /** The fields of a version edit, with their tags. */
  lemma EditFields()
    ensures V.FieldBytes(V.Comparator([97, 98])) == [1, 2, 97, 98]
    ensures V.FieldBytes(V.LogNumber(300)) == [2, 0xac, 2]
    ensures V.FieldBytes(V.NextFileNumber(7)) == [3, 7]
    ensures V.FieldBytes(V.LastSequence(9)) == [4, 9]
    ensures V.FieldBytes(V.CompactPointer(1, [120])) == [5, 1, 1, 120]
    ensures V.FieldBytes(V.DeletedFile(2, 5)) == [6, 2, 5]
    ensures V.FieldBytes(V.NewFile(3, V.FileMetaData(6, 300, [97], [98, 99]))) == [7, 3, 6, 0xac, 2, 1, 97, 2, 98, 99]
    ensures V.FieldBytes(V.PrevLogNumber(0)) == [9, 0]
  {
    LargerVarint(300);
    forall n: nat | n < 10 ensures Varint(n) == [n as Byte] { SmallVarint(n); }
    hide Varint;
    assert V.Payload(V.NewFile(3, V.FileMetaData(6, 300, [97], [98, 99]))) == [3, 6, 0xac, 2, 1, 97, 2, 98, 99];
  }

  /** A block of three entries with a restart point every two: the second key shares its first byte with the one before,
      the third is stored whole. */
  lemma BlockOfThree()
    ensures B.BlockBytes([([97, 98], [120]), ([97, 99], [121]), ([97, 100], [])], 2) ==
        [0, 2, 1, 97, 98, 120] + [1, 1, 1, 99, 121] + [0, 2, 0, 97, 100] + [0, 0, 0, 0] + [11, 0, 0, 0] + [2, 0, 0, 0]
  {
    var es: B.Entries := [([97, 98], [120]), ([97, 99], [121]), ([97, 100], [])];
    forall n: nat | n < 10 ensures Varint(n) == [n as Byte] { SmallVarint(n); }
    hide Varint;
    assert B.Counter(0, 2) == 0 && B.Counter(1, 2) == 1 && B.Counter(2, 2) == 2;
    CommonOne();
    assert B.Shared(es, 2, 0) == 0 && B.Shared(es, 2, 1) == 1 && B.Shared(es, 2, 2) == 0;
    assert B.EntryBytes(0, [97, 98], [120]) == [0, 2, 1, 97, 98, 120];
    assert B.EntryBytes(1, [97, 99], [121]) == [1, 1, 1, 99, 121];
    assert B.EntryBytes(0, [97, 100], []) == [0, 2, 0, 97, 100];
    assert B.Buffer(es, 2, 0) == [];
    assert B.Buffer(es, 2, 1) == [0, 2, 1, 97, 98, 120];
    assert B.Buffer(es, 2, 2) == [0, 2, 1, 97, 98, 120] + [1, 1, 1, 99, 121];
    assert B.Buffer(es, 2, 3) == [0, 2, 1, 97, 98, 120] + [1, 1, 1, 99, 121] + [0, 2, 0, 97, 100];
    assert B.Restarts(es, 2, 0) == [0] && B.Restarts(es, 2, 1) == [0] && B.Restarts(es, 2, 2) == [0];
    assert B.Restarts(es, 2, 3) == [0, 11];
    Word32(0);
    Word32(11);
    Word32(2);
    hide Fixed;
    TwoWords();
  }

  lemma CommonOne()
    ensures Separators.Common([97, 98], [97, 99]) == 1 && Separators.Common([], [97, 98]) == 0
  {
    var a: Bytes, b: Bytes := [97, 98], [97, 99];
    assert a[1..] == [98] && b[1..] == [99];
    assert Separators.Common(a[1..], b[1..]) == 0;
  }

  lemma TwoWords()
    ensures FixedAll([0, 11]) == [0, 0, 0, 0, 11, 0, 0, 0]
  {
    var ns: seq<nat> := [0, 11];
    Word32(0);
    Word32(11);
    hide Fixed;
    assert ns[..1] == [0] && ns[..1][..0] == [];
    assert FixedAll(ns[..1]) == [0, 0, 0, 0];
  }

  /** A table's footer: the handles of the metaindex and index blocks, and the magic number. */
  lemma Footer()
    ensures T.FooterBytes(T.Handle(1, 2), T.Handle(300, 4)) ==
        [1, 2, 0xac, 2, 4] + T.Padding(35) + [0x57, 0xfb, 0x80, 0x8b, 0x24, 0x75, 0x47, 0xdb]
  {
    forall n: nat | n < 10 ensures Varint(n) == [n as Byte] { SmallVarint(n); }
    LargerVarint(300);
    hide Varint;
    var handles := T.HandleBytes(T.Handle(1, 2)) + T.HandleBytes(T.Handle(300, 4));
    assert handles == [1, 2, 0xac, 2, 4];
    assert (handles + T.Padding(40))[..40] == handles + T.Padding(35);
    Magic();
  }

  lemma Magic()
    ensures Fixed(T.MagicLow, 4) == [0x57, 0xfb, 0x80, 0x8b] && Fixed(T.MagicHigh, 4) == [0x24, 0x75, 0x47, 0xdb]
  {
    assert Fixed(0x8b, 1) == [0x8b] && Fixed(0x8b80, 2) == [0x80, 0x8b] && Fixed(0x8b80fb, 3) == [0xfb, 0x80, 0x8b];
    assert Fixed(0xdb, 1) == [0xdb] && Fixed(0xdb47, 2) == [0x47, 0xdb] && Fixed(0xdb4775, 3) == [0x75, 0x47, 0xdb];
  }

  function SevenEight(): F.Policy { F.Policy((keys: seq<Bytes>) => [7, 8], (key: Bytes, filter: Bytes) => true) }

  lemma FilterData(p: F.Policy, a: seq<Bytes>, b: seq<Bytes>)
    requires p.create(a) == [7, 8] && p.create(b) == [7, 8] && a != [] && b != []
    ensures F.Data(p, [a, [], b]) == [7, 8] + [7, 8] && F.FilterOffsets(p, [a, [], b]) == [0, 2, 2]
  {
    var g: seq<seq<Bytes>> := [a, [], b];
    assert g[..2][..1] == g[..1] && g[..1][..0] == [] && g[1] == [];
    assert F.Data(p, g[..1][..0]) == [] && F.Data(p, g[..1]) == [7, 8];
    assert F.Data(p, g[..2]) == [7, 8] && F.Data(p, g) == [7, 8] + [7, 8];
    assert F.FilterOffsets(p, g[..1]) == [0] && F.FilterOffsets(p, g[..2]) == [0, 2];
  }

  /** The filters of two groups of keys, with an empty group between them. */
  lemma FilterBlockOfThree()
    ensures F.FilterBlock(SevenEight(), [[[97]], [], [[98], [99]]]) ==
        [7, 8] + [7, 8] + [0, 0, 0, 0] + [2, 0, 0, 0] + [2, 0, 0, 0] + [4, 0, 0, 0] + [11]
  {
    hide Fixed;
    hide F.Data;
    hide F.FilterOffsets;
    FilterData(SevenEight(), [[97]], [[98], [99]]);
    ThreeWords();
    Word32(4);
  }

  lemma ThreeWords()
    ensures FixedAll([0, 2, 2]) == [0, 0, 0, 0, 2, 0, 0, 0, 2, 0, 0, 0]
  {
    var ns: seq<nat> := [0, 2, 2];
    Word32(0);
    Word32(2);
    hide Fixed;
    assert ns[..2] == [0, 2] && ns[..2][..1] == [0] && ns[..2][..1][..0] == [];
    assert FixedAll(ns[..2][..1]) == [0, 0, 0, 0] && FixedAll(ns[..2]) == [0, 0, 0, 0, 2, 0, 0, 0];
  }

  // --------------------------------------------------------------------------- checksums

  lemma ChecksumOfZero()
    ensures Crc32c.Value([0]) == 0x527d5351
  {
    Crc32c.ZeroByteBits(0xffff_ffff);
    assert Crc32c.Divide(0xffff_ffff, [0][..0]) == 0xffff_ffff;
    assert Crc32c.EightBits(0xffff_ffff) == 0xad82acae;
    assert Bits(0) as bv32 == 0;
  }

  lemma ChecksumOfFragment()
    ensures Crc32c.Crc(Crc32c.Value([1]), [97]) == 0x716effc4
  {
    Crc32c.CrcAppend(0, [1], [97]);
    assert [1] + [97] == [1, 97] && [1, 97][..1] == [1] && [1, 97][..0] == [];
    hide Bits;
    Crc32c.DivideNothing(0xffff_ffff, [1, 97]);
    FirstByte();
    SecondByte();
  }

  lemma FirstByte()
    ensures Crc32c.ZeroByte(Crc32c.Xor(0xffff_ffff, Bits(1) as bv32)) == 0x5fe92fad
  {
    Crc32c.ZeroByteBits(0xffff_fffe);
    assert Crc32c.EightBits(0xffff_fffe) == 0x5fe92fad && Bits(1) as bv32 == 1;
  }

  lemma SecondByte()
    ensures Crc32c.ZeroByte(Crc32c.Xor(0x5fe92fad, Bits(97) as bv32)) == 0x8e91003b
  {
    Crc32c.ZeroByteBits(0x5fe92fcc);
    assert Crc32c.EightBits(0x5fe92fcc) == 0x8e91003b && Bits(97) as bv32 == 0x61;
  }

  lemma WordBytes(a: bv8, b: bv8, c: bv8, d: bv8)
    ensures EncodeFixed32(Word(a, b, c, d)) == [OfBits(a), OfBits(b), OfBits(c), OfBits(d)]
  {
    hide OfBits;
    hide Word;
    BytesOfWord(a, b, c, d);
  }

  /** What follows the contents of an empty block: no compression, and the masked checksum of that. */
  lemma BlockTrailer()
    ensures T.Trailer([]) == [0] + [0xd2, 0x8f, 0x25, 0x49]
  {
    ChecksumOfZero();
    assert [] + [0] == [0];
    assert Crc32c.Mask(0x527d5351) == 0x49258fd2 == Word(0xd2, 0x8f, 0x25, 0x49);
    WordBytes(0xd2, 0x8f, 0x25, 0x49);
  }

  /** A log record of one byte: masked checksum of type and payload, length, type, payload. */
  lemma LogRecord()
    ensures Written([[97]]) == [0xb5, 0xcd, 0x0b, 0xa2] + [1, 0] + [1] + [97]
  {
    ChecksumOfFragment();
    assert Crc32c.Mask(0x716effc4) == 0xa20bcdb5 == Word(0xb5, 0xcd, 0x0b, 0xa2);
    WordBytes(0xb5, 0xcd, 0x0b, 0xa2);
    hide Crc32c.Crc;
    hide Crc32c.Mask;
    hide EncodeFixed32;
    assert Physical(FullType, [97]) == [0xb5, 0xcd, 0x0b, 0xa2] + [1, 0] + [1] + [97];
    assert [[97]][..0] == [] && Written([]) == [];
    var data: Bytes := [97];
    assert data[..1] == data && Trailer(0) == [];
    assert Emit(0, data, true) == Physical(FullType, data);
  }
}
