/**
 * Strings on the wire, in the format of java.io.DataOutput.writeUTF: an
 * unsigned 16-bit byte count followed by the string's UTF-16 code units in
 * "modified UTF-8" (U+0000 and the surrogate halves of supplementary
 * characters take the multi-byte forms).
 */
module Utf {
  import opened Bytes
  import opened Wrappers

  /** One UTF-16 code unit: what a Java `char` holds. */
  type unit16 = x: int | 0 <= x < 0x1_0000

  /** The longest byte count the 16-bit length prefix can state. */
  const MAX_UTF_LENGTH: int := 0xFFFF

  predicate IsSurrogate(u: int) {
    0xD800 <= u < 0xE000
  }

  /** The code units Java stores for one character: one, or a surrogate pair. */
  function CharUnits(c: char): (us: seq<unit16>)
    ensures 1 <= |us| <= 2
  {
    var v := c as int;
    if v < 0x1_0000 then [v]
    else [0xD800 + (v - 0x1_0000) / 0x400, 0xDC00 + (v - 0x1_0000) % 0x400]
  }

  /** The UTF-16 form of a string. */
  function ToUnits(s: string): (us: seq<unit16>)
    ensures |us| >= |s|
  {
    if |s| == 0 then [] else CharUnits(s[0]) + ToUnits(s[1..])
  }

  /**
   * The string that UTF-16 code units spell; None when a surrogate half
   * stands alone (such a Java string has no counterpart among these strings).
   */
  function FromUnits(us: seq<unit16>): (r: Option<string>)
    decreases |us|
  {
    if |us| == 0 then Some([])
    else if !IsSurrogate(us[0]) then
      match FromUnits(us[1..])
      case Some(t) => Some([us[0] as char] + t)
      case None => None
    else if us[0] < 0xDC00 && |us| >= 2 && 0xDC00 <= us[1] < 0xE000 then
      var v: int := 0x1_0000 + (us[0] as int - 0xD800) * 0x400 + (us[1] as int - 0xDC00);
      match FromUnits(us[2..])
      case Some(t) => Some([v as char] + t)
      case None => None
    else None
  }

  lemma {:induction false} FromToUnits(s: string)
    ensures FromUnits(ToUnits(s)) == Some(s)
  {
    if |s| > 0 {
      var us := ToUnits(s);
      var v := s[0] as int;
      FromToUnits(s[1..]);
      assert us == CharUnits(s[0]) + ToUnits(s[1..]);
      if v < 0x1_0000 {
        assert us[1..] == ToUnits(s[1..]);
        assert us[0] as char == s[0];
        assert [s[0]] + s[1..] == s;
      } else {
        var q := (v - 0x1_0000) / 0x400;
        var r := (v - 0x1_0000) % 0x400;
        assert v - 0x1_0000 == q * 0x400 + r;
        assert us[2..] == ToUnits(s[1..]);
        assert [s[0]] + s[1..] == s;
      }
    }
  }

  /** The modified UTF-8 bytes of one code unit (DataOutputStream.writeUTF). */
  function UnitBytes(u: unit16): (bs: seq<byte>)
    ensures 1 <= |bs| <= 3
  {
    if 1 <= u <= 0x7F then [u]
    else if u <= 0x7FF then [0xC0 + u / 64, 0x80 + u % 64]
    else [0xE0 + u / 4096, 0x80 + (u / 64) % 64, 0x80 + u % 64]
  }

  function EncodeUnits(us: seq<unit16>): (bs: seq<byte>)
    ensures |bs| >= |us|
  {
    if |us| == 0 then [] else UnitBytes(us[0]) + EncodeUnits(us[1..])
  }

  /**
   * Modified UTF-8 back to code units (DataInputStream.readUTF): the high
   * nibble of each lead byte selects a one-, two- or three-byte form, and
   * every continuation byte must have the form 10xxxxxx; None when the
   * input is malformed or ends inside a character.
   */
  function DecodeUnits(bs: seq<byte>): (r: Option<seq<unit16>>)
    decreases |bs|
  {
    if |bs| == 0 then Some([])
    else
      var c: int := bs[0];
      if c / 16 <= 7 then
        match DecodeUnits(bs[1..])
        case Some(t) => Some([c] + t)
        case None => None
      else if c / 16 == 12 || c / 16 == 13 then
        if |bs| < 2 || bs[1] / 64 != 2 then None
        else
          match DecodeUnits(bs[2..])
          case Some(t) => Some([(c % 32) * 64 + bs[1] as int % 64] + t)
          case None => None
      else if c / 16 == 14 then
        if |bs| < 3 || bs[1] / 64 != 2 || bs[2] / 64 != 2 then None
        else
          match DecodeUnits(bs[3..])
          case Some(t) => Some([(c % 16) * 4096 + (bs[1] as int % 64) * 64 + bs[2] as int % 64] + t)
          case None => None
      else None
  }

  lemma ThreeByteDigits(u: int)
    requires 0 <= u < 0x1_0000
    ensures (u / 4096) * 4096 + ((u / 64) % 64) * 64 + u % 64 == u
  {
    assert u == 64 * (u / 64) + u % 64;
    assert u / 64 == 64 * (u / 4096) + (u / 64) % 64;
  }

  /** Decoding consumes exactly the bytes of one encoded code unit. */
  lemma DecodeOneUnit(u: unit16, tail: seq<byte>, t: seq<unit16>)
    requires DecodeUnits(tail) == Some(t)
    ensures DecodeUnits(UnitBytes(u) + tail) == Some([u] + t)
  {
    if 1 <= u <= 0x7F {
      var bs := UnitBytes(u) + tail;
      assert bs[1..] == tail;
    } else if u <= 0x7FF {
      DecodeTwoBytes(u, tail, t);
    } else {
      DecodeThreeBytes(u, tail, t);
    }
  }

  lemma DecodeTwoBytes(u: unit16, tail: seq<byte>, t: seq<unit16>)
    requires DecodeUnits(tail) == Some(t) && (u == 0 || 0x80 <= u <= 0x7FF)
    ensures DecodeUnits(UnitBytes(u) + tail) == Some([u] + t)
  {
    var bs := UnitBytes(u) + tail;
    assert bs[0] as int / 16 == 12 || bs[0] as int / 16 == 13;
    assert bs[1] as int / 64 == 2;
    assert (bs[0] as int % 32) * 64 + bs[1] as int % 64 == u;
    assert bs[2..] == tail;
  }

  lemma DecodeThreeBytes(u: unit16, tail: seq<byte>, t: seq<unit16>)
    requires DecodeUnits(tail) == Some(t) && 0x800 <= u
    ensures DecodeUnits(UnitBytes(u) + tail) == Some([u] + t)
  {
    var bs := UnitBytes(u) + tail;
    assert bs[0] as int / 16 == 14;
    assert bs[1] as int / 64 == 2 && bs[2] as int / 64 == 2;
    ThreeByteDigits(u);
    assert (bs[0] as int % 16) * 4096 + (bs[1] as int % 64) * 64 + bs[2] as int % 64 == u;
    assert bs[3..] == tail;
  }

  lemma {:induction false} DecodeEncodeUnits(us: seq<unit16>)
    ensures DecodeUnits(EncodeUnits(us)) == Some(us)
  {
    if |us| > 0 {
      DecodeEncodeUnits(us[1..]);
      DecodeOneUnit(us[0], EncodeUnits(us[1..]), us[1..]);
      assert [us[0]] + us[1..] == us;
    }
  }

  datatype UtfError =
    | Truncated        // the stream ends before the stated byte count
    | Malformed        // a lead or continuation byte of the wrong form
    | LoneSurrogate    // decodes to a Java string with an unpaired surrogate

  /** The bytes writeUTF emits, or None when the encoding exceeds 65535 bytes. */
  function WriteUtf(s: string): (r: Option<seq<byte>>)
    ensures r.Some? ==> 2 <= |r.value|
  {
    var body := EncodeUnits(ToUnits(s));
    if |body| > MAX_UTF_LENGTH then None
    else
      Pow256Values();
      Some(EncodeBE(|body|, 2) + body)
  }

  /** readUTF: a 16-bit count, then that many bytes of modified UTF-8. */
  function ReadUtf(bs: seq<byte>): (r: Result<(string, seq<byte>), UtfError>)
    ensures r.Success? ==> |r.value.1| <= |bs| - 2
  {
    if |bs| < 2 then Failure(Truncated)
    else
      var n := DecodeBE(bs[..2]);
      if |bs| < 2 + n then Failure(Truncated)
      else
        match DecodeUnits(bs[2..2 + n])
        case None => Failure(Malformed)
        case Some(us) =>
          match FromUnits(us)
          case None => Failure(LoneSurrogate)
          case Some(s) => Success((s, bs[2 + n..]))
  }

  /** Every string writeUTF accepts is read back unchanged, and exactly its bytes are consumed. */
  lemma ReadWriteUtf(s: string, rest: seq<byte>)
    requires WriteUtf(s).Some?
    ensures ReadUtf(WriteUtf(s).value + rest) == Success((s, rest))
  {
    var body := EncodeUnits(ToUnits(s));
    var bs := WriteUtf(s).value + rest;
    Pow256Values();
    DecodeEncodeBE(|body|, 2);
    assert bs[..2] == EncodeBE(|body|, 2);
    assert bs[2..2 + |body|] == body;
    assert bs[2 + |body|..] == rest;
    DecodeEncodeUnits(ToUnits(s));
    FromToUnits(s);
  }

  /** The byte count writeUTF checks against 65535 grows with the number of characters. */
  lemma ShortStringsWrite(s: string)
    requires |s| * 6 <= MAX_UTF_LENGTH
    ensures WriteUtf(s).Some?
  {
    UnitsBound(s);
    EncodedBound(ToUnits(s));
  }

  lemma {:induction false} UnitsBound(s: string)
    ensures |ToUnits(s)| <= 2 * |s|
  {
    if |s| > 0 {
      UnitsBound(s[1..]);
    }
  }

  lemma {:induction false} EncodedBound(us: seq<unit16>)
    ensures |EncodeUnits(us)| <= 3 * |us|
  {
    if |us| > 0 {
      EncodedBound(us[1..]);
    }
  }
}
