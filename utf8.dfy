/**
 * UTF-8 as Rust's `str::as_bytes` produces it and `String::from_utf8`
 * accepts it: overlong forms, surrogates and code points above U+10FFFF are
 * rejected (the well-formed byte sequences of table 3-7 of the Unicode
 * standard).
 */
module Utf8 {
  import opened Wrappers
  import Strings

  type Byte = b: int | 0 <= b < 256

  predicate IsContinuation(b: Byte)
  {
    0x80 <= b <= 0xBF
  }

  /** The encoding of one scalar value. */
  function EncodeChar(c: char): (bs: seq<Byte>)
    ensures |bs| == Strings.CharUtf8Len(c)
  {
    var n := c as int;
    if n < 0x80 then [n]
    else if n < 0x800 then [0xC0 + n / 64, 0x80 + n % 64]
    else if n < 0x10000 then [0xE0 + n / 4096, 0x80 + (n / 64) % 64, 0x80 + n % 64]
    else [0xF0 + n / 262144, 0x80 + (n / 4096) % 64, 0x80 + (n / 64) % 64, 0x80 + n % 64]
  }

  /** `str::as_bytes`. */
  function Encode(s: string): (bs: seq<Byte>)
    ensures |bs| == Strings.Utf8Len(s)
  {
    if s == [] then [] else EncodeChar(s[0]) + Encode(s[1..])
  }

  /**
   * Decodes the character at the front of `bs`, with the number of bytes it
   * takes; `None` when the front is not a well-formed sequence.
   */
  function DecodeChar(bs: seq<Byte>): (r: Option<(char, nat)>)
    ensures r.Some? ==> 1 <= r.value.1 <= |bs| && r.value.1 == Strings.CharUtf8Len(r.value.0)
  {
    if bs == [] then None
    else
      var b0 := bs[0] as int;
      if b0 < 0x80 then Some((b0 as char, 1))
      else if 0xC2 <= b0 <= 0xDF then
        if |bs| < 2 || !IsContinuation(bs[1]) then None
        else Some((((b0 - 0xC0) * 64 + (bs[1] as int - 0x80)) as char, 2))
      else if 0xE0 <= b0 <= 0xEF then
        var lo := if b0 == 0xE0 then 0xA0 else 0x80;
        var hi := if b0 == 0xED then 0x9F else 0xBF;
        if |bs| < 3 || !(lo <= bs[1] <= hi) || !IsContinuation(bs[2]) then None
        else
          var n := (b0 - 0xE0) * 4096 + (bs[1] as int - 0x80) * 64 + (bs[2] as int - 0x80);
          assert 0x800 <= n < 0x10000 && !(0xD800 <= n < 0xE000);
          Some((n as char, 3))
      else if 0xF0 <= b0 <= 0xF4 then
        var lo := if b0 == 0xF0 then 0x90 else 0x80;
        var hi := if b0 == 0xF4 then 0x8F else 0xBF;
        if |bs| < 4 || !(lo <= bs[1] <= hi) || !IsContinuation(bs[2]) || !IsContinuation(bs[3]) then None
        else
          var n := (b0 - 0xF0) * 262144 + (bs[1] as int - 0x80) * 4096 + (bs[2] as int - 0x80) * 64 + (bs[3] as int - 0x80);
          assert 0x10000 <= n < 0x110000;
          Some((n as char, 4))
      else None
  }

  /** `String::from_utf8`: the text the bytes encode, or `None` when they are not UTF-8. */
  function Decode(bs: seq<Byte>): Option<string>
    decreases |bs|
  {
    if bs == [] then Some([])
    else match DecodeChar(bs)
      case None => None
      case Some((c, k)) =>
        match Decode(bs[k..])
        case None => None
        case Some(rest) => Some([c] + rest)
  }

  /** Decoding reads back the character that was encoded, whatever follows it. */
  lemma DecodeEncodeChar(c: char, rest: seq<Byte>)
    ensures DecodeChar(EncodeChar(c) + rest) == Some((c, |EncodeChar(c)|))
  {
    var n := c as int;
    if n < 0x80 {
    } else if n < 0x800 {
      DecodeTwo(c, rest);
    } else if n < 0x10000 {
      DecodeThree(c, rest);
    } else {
      DecodeFour(c, rest);
    }
  }

  lemma DecodeTwo(c: char, rest: seq<Byte>)
    requires 0x80 <= c as int < 0x800
    ensures DecodeChar(EncodeChar(c) + rest) == Some((c, 2))
  {
    var n := c as int;
    var hi, lo := n / 64, n % 64;
    assert n == hi * 64 + lo;
    var bs := EncodeChar(c) + rest;
    assert bs[0] == 0xC0 + hi && bs[1] == 0x80 + lo;
    assert 2 <= hi < 32;
  }

  lemma DecodeThree(c: char, rest: seq<Byte>)
    requires 0x800 <= c as int < 0x10000
    ensures DecodeChar(EncodeChar(c) + rest) == Some((c, 3))
  {
    var n := c as int;
    var q, m, l := n / 4096, (n / 64) % 64, n % 64;
    var k := n / 64;
    assert n == k * 64 + l;
    assert k == q * 64 + m;
    assert n == q * 4096 + m * 64 + l;
    var bs := EncodeChar(c) + rest;
    assert bs[0] == 0xE0 + q && bs[1] == 0x80 + m && bs[2] == 0x80 + l;
    assert q == 0 ==> m >= 32;
    assert q == 0xD ==> m < 32;
  }

  lemma DecodeFour(c: char, rest: seq<Byte>)
    requires 0x10000 <= c as int
    ensures DecodeChar(EncodeChar(c) + rest) == Some((c, 4))
  {
    var n := c as int;
    var k1 := n / 64;
    var k2 := k1 / 64;
    var q, m2, m1, l := n / 262144, (n / 4096) % 64, (n / 64) % 64, n % 64;
    assert n == k1 * 64 + l;
    assert k1 == k2 * 64 + m1;
    assert n / 4096 == k2;
    assert k2 == q * 64 + m2;
    assert n == q * 262144 + m2 * 4096 + m1 * 64 + l;
    var bs := EncodeChar(c) + rest;
    assert bs[0] == 0xF0 + q && bs[1] == 0x80 + m2 && bs[2] == 0x80 + m1 && bs[3] == 0x80 + l;
    assert q == 0 ==> m2 >= 16;
    assert q <= 4;
    assert q == 4 ==> m2 < 16;
  }

  /** `String::from_utf8(s.as_bytes())` gives back `s`. */
  lemma {:induction false} DecodeEncode(s: string)
    ensures Decode(Encode(s)) == Some(s)
    decreases |s|
  {
    if s != [] {
      var e := EncodeChar(s[0]);
      DecodeEncodeChar(s[0], Encode(s[1..]));
      assert (e + Encode(s[1..]))[|e|..] == Encode(s[1..]);
      DecodeEncode(s[1..]);
      assert [s[0]] + s[1..] == s;
    }
  }

  /** The encoding of a concatenation is the concatenation of the encodings. */
  lemma {:induction false} EncodeAppend(a: string, b: string)
    ensures Encode(a + b) == Encode(a) + Encode(b)
    decreases |a|
  {
    if a != [] {
      assert (a + b)[0] == a[0];
      assert (a + b)[1..] == a[1..] + b;
      EncodeAppend(a[1..], b);
    } else {
      assert a + b == b;
    }
  }

  /** A character below U+0080 is the one byte with its code. */
  lemma EncodeAsciiChar(c: char)
    requires c as int < 0x80
    ensures EncodeChar(c) == [c as int]
  {
  }

  /** A byte below 0x80 only ever starts the encoding of the ASCII character with that code. */
  lemma {:induction false} EncodeNoAsciiInside(s: string, i: nat, b: Byte)
    requires b < 0x80 && i < |Encode(s)| && Encode(s)[i] == b
    ensures (b as char) in s
    decreases |s|
  {
    var e := EncodeChar(s[0]);
    if i < |e| {
      assert s[0] as int < 0x80;
    } else {
      assert Encode(s)[i] == Encode(s[1..])[i - |e|];
      EncodeNoAsciiInside(s[1..], i - |e|, b);
    }
  }
}
