/**
 * Bytes and fixed-width integers as a bytes message stores them: every
 * multi-byte field is big-endian, signed fields are two's complement.
 */
module Bytes {

  type byte = x: int | 0 <= x < 256

  type i8 = x: int | -0x80 <= x < 0x80
  type i16 = x: int | -0x8000 <= x < 0x8000
  type i32 = x: int | -0x8000_0000 <= x < 0x8000_0000
  type i64 = x: int | -0x8000_0000_0000_0000 <= x < 0x8000_0000_0000_0000
  type u32 = x: int | 0 <= x < 0x1_0000_0000
  type u64 = x: int | 0 <= x < 0x1_0000_0000_0000_0000

  const INT32_MAX: int := 0x7FFF_FFFF

  function Pow256(n: nat): (r: nat)
    ensures r >= 1
  {
    if n == 0 then 1 else 256 * Pow256(n - 1)
  }

  lemma Pow256Values()
    ensures Pow256(1) == 0x100
    ensures Pow256(2) == 0x1_0000
    ensures Pow256(4) == 0x1_0000_0000
    ensures Pow256(8) == 0x1_0000_0000_0000_0000
  {
    assert Pow256(1) == 256 * Pow256(0);
    assert Pow256(2) == 256 * Pow256(1);
    assert Pow256(3) == 256 * Pow256(2);
    assert Pow256(4) == 256 * Pow256(3);
    assert Pow256(5) == 256 * Pow256(4);
    assert Pow256(6) == 256 * Pow256(5);
    assert Pow256(7) == 256 * Pow256(6);
    assert Pow256(8) == 256 * Pow256(7);
  }

  /** `x` as `n` bytes, most significant first. */
  function EncodeBE(x: nat, n: nat): (r: seq<byte>)
    requires x < Pow256(n)
    ensures |r| == n
  {
    if n == 0 then []
    else EncodeBE(x / 256, n - 1) + [(x % 256) as byte]
  }

  /** The unsigned number a big-endian byte string denotes. */
  function DecodeBE(bs: seq<byte>): (r: nat)
    ensures r < Pow256(|bs|)
  {
    if |bs| == 0 then 0
    else
      var hi := DecodeBE(bs[..|bs| - 1]);
      assert hi * 256 + bs[|bs| - 1] < Pow256(|bs|) by {
        assert hi <= Pow256(|bs| - 1) - 1;
        assert hi * 256 <= Pow256(|bs| - 1) * 256 - 256;
      }
      hi * 256 + bs[|bs| - 1]
  }

  lemma {:induction false} DecodeEncodeBE(x: nat, n: nat)
    requires x < Pow256(n)
    ensures DecodeBE(EncodeBE(x, n)) == x
  {
    if n > 0 {
      var e := EncodeBE(x / 256, n - 1);
      assert EncodeBE(x, n) == e + [(x % 256) as byte];
      assert (e + [(x % 256) as byte])[..n - 1] == e;
      DecodeEncodeBE(x / 256, n - 1);
    }
  }

  lemma {:induction false} EncodeDecodeBE(bs: seq<byte>)
    ensures EncodeBE(DecodeBE(bs), |bs|) == bs
  {
    if |bs| > 0 {
      var init := bs[..|bs| - 1];
      var x := DecodeBE(bs);
      assert x / 256 == DecodeBE(init) && x % 256 == bs[|bs| - 1];
      EncodeDecodeBE(init);
      assert bs == init + [bs[|bs| - 1]];
    }
  }

  /** Half the range of an `n`-byte field: the bound of its signed values. */
  function Half(n: nat): int
  {
    Pow256(n) / 2
  }

  /** Two's complement: the unsigned pattern of a signed `n`-byte value. */
  function ToUnsigned(x: int, n: nat): (u: nat)
    requires n >= 1 && -Half(n) <= x < Half(n)
    ensures u < Pow256(n)
  {
    assert Pow256(n) == 2 * Half(n) by {
      assert Pow256(n) == 256 * Pow256(n - 1);
    }
    if x < 0 then x + Pow256(n) else x
  }

  /** Two's complement: the signed value of an unsigned `n`-byte pattern. */
  function ToSigned(u: nat, n: nat): (x: int)
    requires n >= 1 && u < Pow256(n)
    ensures -Half(n) <= x < Half(n)
  {
    assert Pow256(n) == 2 * Half(n) by {
      assert Pow256(n) == 256 * Pow256(n - 1);
    }
    if u >= Half(n) then u - Pow256(n) else u
  }

  lemma SignedUnsigned(x: int, n: nat)
    requires n >= 1 && -Half(n) <= x < Half(n)
    ensures ToSigned(ToUnsigned(x, n), n) == x
  {
    assert Pow256(n) == 256 * Pow256(n - 1);
  }

  /** Java int arithmetic: reduce a mathematical integer to 32-bit two's complement. */
  function Wrap32(x: int): (r: i32)
    ensures -0x8000_0000 <= x <= INT32_MAX ==> r == x
    ensures (r - x) % 0x1_0000_0000 == 0
  {
    var m := x % 0x1_0000_0000;
    if m > INT32_MAX then m - 0x1_0000_0000 else m
  }

  function Int8Bytes(x: i8): (r: seq<byte>)
    ensures |r| == 1
  {
    Pow256Values();
    EncodeBE(ToUnsigned(x, 1), 1)
  }

  function Int16Bytes(x: i16): (r: seq<byte>)
    ensures |r| == 2
  {
    Pow256Values();
    EncodeBE(ToUnsigned(x, 2), 2)
  }

  function Int32Bytes(x: i32): (r: seq<byte>)
    ensures |r| == 4
  {
    Pow256Values();
    EncodeBE(ToUnsigned(x, 4), 4)
  }

  function Int64Bytes(x: i64): (r: seq<byte>)
    ensures |r| == 8
  {
    Pow256Values();
    EncodeBE(ToUnsigned(x, 8), 8)
  }

  function ReadInt8(bs: seq<byte>): (x: i8)
    requires |bs| == 1
  {
    Pow256Values();
    ToSigned(DecodeBE(bs), 1)
  }

  function ReadInt16(bs: seq<byte>): (x: i16)
    requires |bs| == 2
  {
    Pow256Values();
    ToSigned(DecodeBE(bs), 2)
  }

  function ReadInt32(bs: seq<byte>): (x: i32)
    requires |bs| == 4
  {
    Pow256Values();
    ToSigned(DecodeBE(bs), 4)
  }

  function ReadInt64(bs: seq<byte>): (x: i64)
    requires |bs| == 8
  {
    Pow256Values();
    ToSigned(DecodeBE(bs), 8)
  }

  /** A signed field reads back as the value written, for each of the four widths. */
  lemma SignedRoundTrips(b: i8, s: i16, i: i32, l: i64)
    ensures ReadInt8(Int8Bytes(b)) == b
    ensures ReadInt16(Int16Bytes(s)) == s
    ensures ReadInt32(Int32Bytes(i)) == i
    ensures ReadInt64(Int64Bytes(l)) == l
  {
    Pow256Values();
    DecodeEncodeBE(ToUnsigned(b, 1), 1);
    SignedUnsigned(b, 1);
    DecodeEncodeBE(ToUnsigned(s, 2), 2);
    SignedUnsigned(s, 2);
    DecodeEncodeBE(ToUnsigned(i, 4), 4);
    SignedUnsigned(i, 4);
    DecodeEncodeBE(ToUnsigned(l, 8), 8);
    SignedUnsigned(l, 8);
  }

  /** An opaque bit pattern (float or double payload) reads back unchanged. */
  lemma BitsRoundTrip(f: u32, d: u64)
    ensures DecodeBE(EncodeBE(f, 4)) == f
    ensures DecodeBE(EncodeBE(d, 8)) == d
  {
    Pow256Values();
    DecodeEncodeBE(f, 4);
    DecodeEncodeBE(d, 8);
  }
}
