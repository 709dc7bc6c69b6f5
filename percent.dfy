/**
 * Percent-decoding as the `urlencoding` crate's `decode` does it (section 2.1
 * of RFC 3986): each `%` followed by two hexadecimal digits, in either case,
 * becomes the byte they spell; any other `%` stays as it is; `+` is not
 * touched.  The decoded bytes must then be UTF-8.
 */
module PercentEncoding {
  import opened Wrappers
  import Utf8
  import Strings

  type Byte = Utf8.Byte

  const PERCENT: Byte := 0x25

  /** The value of an ASCII hexadecimal digit. */
  function HexValue(b: Byte): (r: Option<nat>)
    ensures r.Some? ==> r.value < 16
  {
    if 0x30 <= b <= 0x39 then Some(b - 0x30)
    else if 0x41 <= b <= 0x46 then Some(b - 0x41 + 10)
    else if 0x61 <= b <= 0x66 then Some(b - 0x61 + 10)
    else None
  }

  /** `urlencoding::decode_binary`. */
  function DecodeBytes(bs: seq<Byte>): (r: seq<Byte>)
    ensures |r| <= |bs|
    decreases |bs|
  {
    if |bs| >= 3 && bs[0] == PERCENT && HexValue(bs[1]).Some? && HexValue(bs[2]).Some? then
      [HexValue(bs[1]).value * 16 + HexValue(bs[2]).value] + DecodeBytes(bs[3..])
    else if bs == [] then []
    else [bs[0]] + DecodeBytes(bs[1..])
  }

  /** `urlencoding::decode`: `None` stands for its `FromUtf8Error`. */
  function Decode(s: string): Option<string>
  {
    Utf8.Decode(DecodeBytes(Utf8.Encode(s)))
  }

  /** Upper-case hexadecimal digit, as encoders write it. */
  function HexDigit(d: nat): (b: Byte)
    requires d < 16
    ensures HexValue(b) == Some(d)
  {
    if d < 10 then 0x30 + d else 0x41 + d - 10
  }

  /** Every byte written as `%XX`: the reference encoding that decoding must undo. */
  function EncodeAll(bs: seq<Byte>): (r: seq<Byte>)
    ensures |r| == 3 * |bs|
  {
    if bs == [] then [] else [PERCENT, HexDigit(bs[0] / 16), HexDigit(bs[0] % 16)] + EncodeAll(bs[1..])
  }

  /** Decoding undoes percent-encoding of any bytes. */
  lemma {:induction false} DecodeEncodeAll(bs: seq<Byte>)
    ensures DecodeBytes(EncodeAll(bs)) == bs
    decreases |bs|
  {
    if bs != [] {
      var e := EncodeAll(bs);
      assert e[3..] == EncodeAll(bs[1..]);
      DecodeEncodeAll(bs[1..]);
      assert HexValue(e[1]).value * 16 + HexValue(e[2]).value == bs[0];
    }
  }

  /** Bytes without `%` are left as they are. */
  lemma {:induction false} DecodeBytesNoPercent(bs: seq<Byte>)
    requires PERCENT !in bs
    ensures DecodeBytes(bs) == bs
    decreases |bs|
  {
    if bs != [] {
      assert bs[1..] == bs[1..];
      assert forall x :: x in bs[1..] ==> x in bs;
      DecodeBytesNoPercent(bs[1..]);
    }
  }

  /** A run of bytes without `%` is passed through, and decoding carries on after it. */
  lemma {:induction false} DecodeBytesPlainPrefix(p: seq<Byte>, rest: seq<Byte>)
    requires PERCENT !in p
    ensures DecodeBytes(p + rest) == p + DecodeBytes(rest)
    decreases |p|
  {
    if p != [] {
      assert (p + rest)[0] == p[0];
      assert (p + rest)[1..] == p[1..] + rest;
      assert forall x :: x in p[1..] ==> x in p;
      DecodeBytesPlainPrefix(p[1..], rest);
      assert p + rest == [p[0]] + (p[1..] + rest);
    } else {
      assert p + rest == rest;
    }
  }

  /** Text without `%` decodes to itself. */
  lemma DecodeNoPercent(s: string)
    requires '%' !in s
    ensures Decode(s) == Some(s)
  {
    if PERCENT in Utf8.Encode(s) {
      var i :| 0 <= i < |Utf8.Encode(s)| && Utf8.Encode(s)[i] == PERCENT;
      Utf8.EncodeNoAsciiInside(s, i, PERCENT);
    }
    DecodeBytesNoPercent(Utf8.Encode(s));
    Utf8.DecodeEncode(s);
  }
}
