/** Bitmaps stored in bytes, least significant bit first. */
module Bits {

  type byte = bv8

  function BitOf(b: byte, k: nat): bool
    requires k < 8
  {
    (b >> k) & 1 == 1
  }

  function WithBit(b: byte, k: nat, value: bool): byte
    requires k < 8
  {
    var mask: byte := 1 << k;
    if value then b | mask else b & !mask
  }

  function GetBit(bitmap: seq<byte>, bit: nat): bool
    requires bit / 8 < |bitmap|
  {
    BitOf(bitmap[bit / 8], bit % 8)
  }

  function SetBit(bitmap: seq<byte>, bit: nat, value: bool): (r: seq<byte>)
    requires bit / 8 < |bitmap|
    ensures |r| == |bitmap|
  {
    bitmap[bit / 8 := WithBit(bitmap[bit / 8], bit % 8, value)]
  }

  lemma LowBits(b: byte, i: nat, value: bool, k: nat)
    requires i < 3 && k < 8
    ensures BitOf(WithBit(b, i, value), k) == if i == k then value else BitOf(b, k)
  {
    assert i == 0 || i == 1 || i == 2;
    assert k == 0 || k == 1 || k == 2 || k == 3 || k == 4 || k == 5 || k == 6 || k == 7;
  }

  lemma MiddleBits(b: byte, i: nat, value: bool, k: nat)
    requires 3 <= i < 6 && k < 8
    ensures BitOf(WithBit(b, i, value), k) == if i == k then value else BitOf(b, k)
  {
    assert i == 3 || i == 4 || i == 5;
    assert k == 0 || k == 1 || k == 2 || k == 3 || k == 4 || k == 5 || k == 6 || k == 7;
  }

  lemma HighBits(b: byte, i: nat, value: bool, k: nat)
    requires 6 <= i < 8 && k < 8
    ensures BitOf(WithBit(b, i, value), k) == if i == k then value else BitOf(b, k)
  {
    assert i == 6 || i == 7;
    assert k == 0 || k == 1 || k == 2 || k == 3 || k == 4 || k == 5 || k == 6 || k == 7;
  }

  lemma ByteBits(b: byte, i: nat, value: bool, k: nat)
    requires i < 8 && k < 8
    ensures BitOf(WithBit(b, i, value), k) == if i == k then value else BitOf(b, k)
  {
    hide BitOf, WithBit;
    if i < 3 {
      LowBits(b, i, value, k);
    } else if i < 6 {
      MiddleBits(b, i, value, k);
    } else {
      HighBits(b, i, value, k);
    }
  }

  /** Setting one bit gives that bit its value and leaves every other bit alone. */
  lemma SetThenGet(bitmap: seq<byte>, bit: nat, value: bool, other: nat)
    requires bit / 8 < |bitmap| && other / 8 < |bitmap|
    ensures GetBit(SetBit(bitmap, bit, value), other) == if other == bit then value else GetBit(bitmap, other)
  {
    if other / 8 == bit / 8 {
      var i, k := bit % 8, other % 8;
      ByteBits(bitmap[bit / 8], i, value, k);
      assert i == k <==> other == bit;
    }
  }

  lemma ByteIsItsBits(a: byte, b: byte)
    requires forall k :: 0 <= k < 8 ==> BitOf(a, k) == BitOf(b, k)
    ensures a == b
  {
    assert BitOf(a, 0) == BitOf(b, 0) && BitOf(a, 1) == BitOf(b, 1);
    assert BitOf(a, 2) == BitOf(b, 2) && BitOf(a, 3) == BitOf(b, 3);
    assert BitOf(a, 4) == BitOf(b, 4) && BitOf(a, 5) == BitOf(b, 5);
    assert BitOf(a, 6) == BitOf(b, 6) && BitOf(a, 7) == BitOf(b, 7);
  }

  /** Two bitmaps with the same bits are the same bytes. */
  lemma BitmapIsItsBits(a: seq<byte>, b: seq<byte>)
    requires |a| == |b|
    requires forall i: nat :: i < 8 * |a| ==> GetBit(a, i) == GetBit(b, i)
    ensures a == b
  {
    forall n | 0 <= n < |a| ensures a[n] == b[n] {
      forall k | 0 <= k < 8 ensures BitOf(a[n], k) == BitOf(b[n], k) {
        assert (8 * n + k) / 8 == n && (8 * n + k) % 8 == k;
        assert GetBit(a, 8 * n + k) == GetBit(b, 8 * n + k);
      }
      ByteIsItsBits(a[n], b[n]);
    }
  }

  lemma ZeroByte(k: nat)
    requires k < 8
    ensures !BitOf(0, k)
  {
    assert k == 0 || k == 1 || k == 2 || k == 3 || k == 4 || k == 5 || k == 6 || k == 7;
  }
}
