/** Test vectors of appendix B.4 of RFC 3720. */
module Crc32cVectors {
  import opened Coding
  import opened Crc32c

  /** One byte more, given the state before and after it. */
  lemma OneByte(data: seq<Byte>, p: nat, b: bv32, x: bv32, y: bv32)
    requires p < |data| && Divide(AllOnes, data[..p]) == x && Bits(data[p]) as bv32 == b
    requires EightBits(Xor(x, b)) == y
    ensures Divide(AllOnes, data[..p + 1]) == y
  {
    hide Xor;
    hide EightBits;
    hide ZeroBytes;
    hide Bits;
    assert data[..p + 1][..p] == data[..p];
    ZeroByteBits(Xor(x, b));
  }

  lemma ThirtyTwoZeros0(data: seq<Byte>)
    requires |data| == 32 && (forall i :: 0 <= i < 32 ==> data[i] == 0) && Divide(AllOnes, data[..0]) == 0xffffffff
    ensures Divide(AllOnes, data[..8]) == 0x73d74d75
  {
    hide Divide;
    OneByte(data, 0, 0x00, 0xffffffff, 0xad82acae);
    OneByte(data, 1, 0x00, 0xad82acae, 0x0e9e882d);
    OneByte(data, 2, 0x00, 0x0e9e882d, 0x9f9b5c85);
    OneByte(data, 3, 0x00, 0x9f9b5c85, 0xb798b438);
    OneByte(data, 4, 0x00, 0xb798b438, 0xba8d89ca);
    OneByte(data, 5, 0x00, 0xba8d89ca, 0xa8d58375);
    OneByte(data, 6, 0x00, 0xa8d58375, 0x44c19592);
    OneByte(data, 7, 0x00, 0x44c19592, 0x73d74d75);
  }

  lemma ThirtyTwoZeros8(data: seq<Byte>)
    requires |data| == 32 && (forall i :: 0 <= i < 32 ==> data[i] == 0) && Divide(AllOnes, data[..8]) == 0x73d74d75
    ensures Divide(AllOnes, data[..16]) == 0xbd8f6515
  {
    hide Divide;
    OneByte(data, 8, 0x00, 0x73d74d75, 0x441a975c);
    OneByte(data, 9, 0x00, 0x441a975c, 0x1c220f94);
    OneByte(data, 10, 0x00, 0x1c220f94, 0x552e4907);
    OneByte(data, 11, 0x00, 0x552e4907, 0xd49f4aa2);
    OneByte(data, 12, 0x00, 0xd49f4aa2, 0x43a45a1b);
    OneByte(data, 13, 0x00, 0x43a45a1b, 0x8994c80e);
    OneByte(data, 14, 0x00, 0x8994c80e, 0xacf12bef);
    OneByte(data, 15, 0x00, 0xacf12bef, 0xbd8f6515);
  }

  lemma ThirtyTwoZeros16(data: seq<Byte>)
    requires |data| == 32 && (forall i :: 0 <= i < 32 ==> data[i] == 0) && Divide(AllOnes, data[..16]) == 0xbd8f6515
    ensures Divide(AllOnes, data[..24]) == 0x7b041311
  {
    hide Divide;
    OneByte(data, 16, 0x00, 0xbd8f6515, 0x25125c16);
    OneByte(data, 17, 0x00, 0x25125c16, 0x36da32db);
    OneByte(data, 18, 0x00, 0x36da32db, 0x4a6c90a2);
    OneByte(data, 19, 0x00, 0x4a6c90a2, 0x433aa9c1);
    OneByte(data, 20, 0x00, 0x433aa9c1, 0x31a59f6e);
    OneByte(data, 21, 0x00, 0x31a59f6e, 0xcd8f89da);
    OneByte(data, 22, 0x00, 0xcd8f89da, 0xb8fc461a);
    OneByte(data, 23, 0x00, 0xb8fc461a, 0x7b041311);
  }

  lemma ThirtyTwoZeros24(data: seq<Byte>)
    requires |data| == 32 && (forall i :: 0 <= i < 32 ==> data[i] == 0) && Divide(AllOnes, data[..24]) == 0x7b041311
    ensures Divide(AllOnes, data[..32]) == 0x756ec955
  {
    hide Divide;
    OneByte(data, 24, 0x00, 0x7b041311, 0xe24e407f);
    OneByte(data, 25, 0x00, 0xe24e407f, 0x2f692669);
    OneByte(data, 26, 0x00, 0x2f692669, 0x195b2188);
    OneByte(data, 27, 0x00, 0x195b2188, 0x08363896);
    OneByte(data, 28, 0x00, 0x08363896, 0xb4012dc7);
    OneByte(data, 29, 0x00, 0xb4012dc7, 0x17f34302);
    OneByte(data, 30, 0x00, 0x17f34302, 0xe12c83b4);
    OneByte(data, 31, 0x00, 0xe12c83b4, 0x756ec955);
  }

  /** Thirty-two bytes of zeros. */
  lemma ThirtyTwoZeros(data: seq<Byte>)
    requires |data| == 32 && forall i :: 0 <= i < 32 ==> data[i] == 0
    ensures Value(data) == 0x8a9136aa
  {
    hide Divide;
    DivideNothing(AllOnes, data);
    ThirtyTwoZeros0(data);
    ThirtyTwoZeros8(data);
    ThirtyTwoZeros16(data);
    ThirtyTwoZeros24(data);
    assert data[..32] == data;
  }

  lemma Incrementing0(data: seq<Byte>)
    requires |data| == 32 && (forall i :: 0 <= i < 32 ==> data[i] == i as Byte)
        && Divide(AllOnes, data[..0]) == 0xffffffff
    ensures Divide(AllOnes, data[..8]) == 0x75d343c4
  {
    hide Divide;
    OneByte(data, 0, 0x00, 0xffffffff, 0xad82acae);
    OneByte(data, 1, 0x01, 0xad82acae, 0xfcf50b2e);
    OneByte(data, 2, 0x02, 0xfcf50b2e, 0x6d02b405);
    OneByte(data, 3, 0x03, 0x6d02b405, 0x26cce55c);
    OneByte(data, 4, 0x04, 0x26cce55c, 0xdbda4ef9);
    OneByte(data, 5, 0x05, 0xdbda4ef9, 0xbef67aeb);
    OneByte(data, 6, 0x06, 0xbef67aeb, 0x5ca612b3);
    OneByte(data, 7, 0x07, 0x5ca612b3, 0x75d343c4);
  }

  lemma Incrementing8(data: seq<Byte>)
    requires |data| == 32 && (forall i :: 0 <= i < 32 ==> data[i] == i as Byte)
        && Divide(AllOnes, data[..8]) == 0x75d343c4
    ensures Divide(AllOnes, data[..16]) == 0x2636f714
  {
    hide Divide;
    OneByte(data, 8, 0x08, 0x75d343c4, 0x8ebb3a57);
    OneByte(data, 9, 0x09, 0x8ebb3a57, 0xfdd3dece);
    OneByte(data, 10, 0x0a, 0xfdd3dece, 0x04ea6205);
    OneByte(data, 11, 0x0b, 0x04ea6205, 0xac7c5545);
    OneByte(data, 12, 0x0c, 0xac7c5545, 0x3965ba25);
    OneByte(data, 13, 0x0d, 0x3965ba25, 0xaa5db3ab);
    OneByte(data, 14, 0x0e, 0xaa5db3ab, 0x9710fc09);
    OneByte(data, 15, 0x0f, 0x9710fc09, 0x2636f714);
  }

  lemma Incrementing16(data: seq<Byte>)
    requires |data| == 32 && (forall i :: 0 <= i < 32 ==> data[i] == i as Byte)
        && Divide(AllOnes, data[..16]) == 0x2636f714
    ensures Divide(AllOnes, data[..24]) == 0xd643786a
  {
    hide Divide;
    OneByte(data, 16, 0x10, 0x2636f714, 0xc7bca1e8);
    OneByte(data, 17, 0x11, 0xc7bca1e8, 0x8b1b0818);
    OneByte(data, 18, 0x12, 0x8b1b0818, 0x6b693330);
    OneByte(data, 19, 0x13, 0x6b693330, 0x33861419);
    OneByte(data, 20, 0x14, 0x33861419, 0xbf1bcac7);
    OneByte(data, 21, 0x15, 0xbf1bcac7, 0x32578a96);
    OneByte(data, 22, 0x16, 0x32578a96, 0x82c46cf2);
    OneByte(data, 23, 0x17, 0x82c46cf2, 0xd643786a);
  }

  lemma Incrementing24(data: seq<Byte>)
    requires |data| == 32 && (forall i :: 0 <= i < 32 ==> data[i] == i as Byte)
        && Divide(AllOnes, data[..24]) == 0xd643786a
    ensures Divide(AllOnes, data[..32]) == 0xb92286b1
  {
    hide Divide;
    OneByte(data, 24, 0x18, 0xd643786a, 0x90756782);
    OneByte(data, 25, 0x19, 0x90756782, 0x0bb1224b);
    OneByte(data, 26, 0x1a, 0x0bb1224b, 0xa345e8f2);
    OneByte(data, 27, 0x1b, 0xa345e8f2, 0x9b21363e);
    OneByte(data, 28, 0x1c, 0x9b21363e, 0xc11ddf1f);
    OneByte(data, 29, 0x1d, 0xc11ddf1f, 0xe1fa6d28);
    OneByte(data, 30, 0x1e, 0xe1fa6d28, 0x16a35434);
    OneByte(data, 31, 0x1f, 0x16a35434, 0xb92286b1);
  }

  /** The bytes 0 to 31 in order. */
  lemma Incrementing(data: seq<Byte>)
    requires |data| == 32 && forall i :: 0 <= i < 32 ==> data[i] == i as Byte
    ensures Value(data) == 0x46dd794e
  {
    hide Divide;
    DivideNothing(AllOnes, data);
    Incrementing0(data);
    Incrementing8(data);
    Incrementing16(data);
    Incrementing24(data);
    assert data[..32] == data;
  }
}
