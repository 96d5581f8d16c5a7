/**
 * UTF-8 as section 3 of RFC 3629 defines it: a Unicode scalar value becomes
 * one to four octets, the leading octet says how many, and every following
 * octet is `10xxxxxx`. The password guard counts these octets, not characters.
 */
module Utf8 {
  import opened Common

  /** Number of octets RFC 3629 section 3 uses for a scalar value. */
  function Width(c: char): nat {
    var cp := c as int;
    if cp < 0x80 then 1 else if cp < 0x800 then 2 else if cp < 0x10000 then 3 else 4
  }

  /** `10xxxxxx` carrying the six bits `v % 64`. */
  function Cont(v: int): byte
    requires v >= 0
  {
    (0x80 + v % 64) as byte
  }

  /** The encoding of one scalar value. */
  function EncodeChar(c: char): (b: seq<byte>)
    ensures |b| == Width(c)
  {
    var cp := c as int;
    if cp < 0x80 then [cp as byte]
    else if cp < 0x800 then [(0xC0 + cp / 64) as byte, Cont(cp)]
    else if cp < 0x10000 then [(0xE0 + cp / 4096) as byte, Cont(cp / 64), Cont(cp)]
    else [(0xF0 + cp / 262144) as byte, Cont(cp / 4096), Cont(cp / 64), Cont(cp)]
  }

  /** `s.encode("utf-8")` */
  function Encode(s: string): (b: seq<byte>)
    ensures |b| == EncodedLength(s)
    decreases |s|
  {
    if |s| == 0 then [] else EncodeChar(s[0]) + Encode(s[1..])
  }

  /** The sum of the widths of the characters. */
  function EncodedLength(s: string): nat
    decreases |s|
  {
    if |s| == 0 then 0 else Width(s[0]) + EncodedLength(s[1..])
  }

  predicate IsCont(b: byte) {
    0x80 <= b < 0xC0
  }

  /** A code point that is a Unicode scalar value (not a surrogate, at most U+10FFFF). */
  predicate IsScalar(cp: int) {
    0 <= cp < 0xD800 || 0xE000 <= cp < 0x110000
  }

  /**
   * The first character of an octet string and how many octets it took, or
   * `None` for a malformed sequence: a bad leading octet, a missing or bad
   * continuation octet, an over-long form, a surrogate or a value past U+10FFFF.
   */
  function DecodeFirst(b: seq<byte>): (r: Option<(char, nat)>)
    ensures r.Some? ==> 1 <= r.value.1 <= |b| && r.value.1 == Width(r.value.0)
  {
    if |b| == 0 then None
    else
      var b0 := b[0] as int;
      if b0 < 0x80 then Some((b0 as char, 1))
      else if 0xC0 <= b0 < 0xE0 && |b| >= 2 && IsCont(b[1]) then
        var cp := (b0 - 0xC0) * 64 + (b[1] as int - 0x80);
        if cp < 0x80 then None else Some((cp as char, 2))
      else if 0xE0 <= b0 < 0xF0 && |b| >= 3 && IsCont(b[1]) && IsCont(b[2]) then
        var cp := ((b0 - 0xE0) * 64 + (b[1] as int - 0x80)) * 64 + (b[2] as int - 0x80);
        if cp < 0x800 || !IsScalar(cp) then None else Some((cp as char, 3))
      else if 0xF0 <= b0 < 0xF8 && |b| >= 4 && IsCont(b[1]) && IsCont(b[2]) && IsCont(b[3]) then
        var cp := (((b0 - 0xF0) * 64 + (b[1] as int - 0x80)) * 64 + (b[2] as int - 0x80)) * 64 + (b[3] as int - 0x80);
        if cp < 0x10000 || !IsScalar(cp) then None else Some((cp as char, 4))
      else None
  }

  /** `b.decode("utf-8")`, `None` where Python raises `UnicodeDecodeError`. */
  function Decode(b: seq<byte>): Option<string>
    decreases |b|
  {
    if |b| == 0 then Some("")
    else
      match DecodeFirst(b)
      case None => None
      case Some(p) =>
        match Decode(b[p.1..])
        case None => None
        case Some(rest) => Some([p.0] + rest)
  }

  /** Splitting a value into six-bit groups and back. */
  lemma Groups(cp: int)
    requires 0 <= cp
    ensures cp == (cp / 64) * 64 + cp % 64
    ensures cp / 64 == (cp / 4096) * 64 + (cp / 64) % 64
    ensures cp / 4096 == (cp / 262144) * 64 + (cp / 4096) % 64
  {
  }

  /** Each character's octets decode back to it, whatever follows. */
  lemma DecodeEncodeChar(c: char, rest: seq<byte>)
    ensures DecodeFirst(EncodeChar(c) + rest) == Some((c, Width(c)))
  {
    var cp := c as int;
    if cp < 0x80 {
    } else if cp < 0x800 {
      DecodeTwo(c, rest);
    } else if cp < 0x10000 {
      DecodeThree(c, rest);
    } else {
      DecodeFour(c, rest);
    }
  }

  lemma DecodeTwo(c: char, rest: seq<byte>)
    requires 0x80 <= c as int < 0x800
    ensures DecodeFirst(EncodeChar(c) + rest) == Some((c, 2))
  {
    var cp := c as int;
    var b := EncodeChar(c) + rest;
    Groups(cp);
    assert b[0] as int == 0xC0 + cp / 64 && b[1] as int == 0x80 + cp % 64;
  }

  lemma DecodeThree(c: char, rest: seq<byte>)
    requires 0x800 <= c as int < 0x10000
    ensures DecodeFirst(EncodeChar(c) + rest) == Some((c, 3))
  {
    var cp := c as int;
    var b := EncodeChar(c) + rest;
    Groups(cp);
    assert b[0] as int == 0xE0 + cp / 4096;
    assert b[1] as int == 0x80 + (cp / 64) % 64 && b[2] as int == 0x80 + cp % 64;
  }

  lemma DecodeFour(c: char, rest: seq<byte>)
    requires 0x10000 <= c as int
    ensures DecodeFirst(EncodeChar(c) + rest) == Some((c, 4))
  {
    var cp := c as int;
    var b := EncodeChar(c) + rest;
    Groups(cp);
    assert b[0] as int == 0xF0 + cp / 262144;
    assert b[1] as int == 0x80 + (cp / 4096) % 64;
    assert b[2] as int == 0x80 + (cp / 64) % 64 && b[3] as int == 0x80 + cp % 64;
  }

  /** Decoding the encoding of a string gives the string back. */
  lemma {:induction false} DecodeEncode(s: string)
    ensures Decode(Encode(s)) == Some(s)
    decreases |s|
  {
    if |s| > 0 {
      var e := Encode(s);
      DecodeEncodeChar(s[0], Encode(s[1..]));
      assert e[Width(s[0])..] == Encode(s[1..]);
      DecodeEncode(s[1..]);
      assert s == [s[0]] + s[1..];
    }
  }

  /** Octet counts add up over concatenation. */
  lemma {:induction false} LengthAppend(s: string, t: string)
    ensures EncodedLength(s + t) == EncodedLength(s) + EncodedLength(t)
    decreases |s|
  {
    if |s| == 0 {
      assert s + t == t;
    } else {
      assert (s + t)[1..] == s[1..] + t;
      LengthAppend(s[1..], t);
    }
  }

  /** At least one and at most four octets per character. */
  lemma {:induction false} LengthBounds(s: string)
    ensures |s| <= EncodedLength(s) <= 4 * |s|
    decreases |s|
  {
    if |s| > 0 { LengthBounds(s[1..]); }
  }

  /** A string of `n` copies of one character takes `n` times its width. */
  lemma {:induction false} LengthRepeat(c: char, n: nat)
    ensures EncodedLength(seq(n, _ => c)) == n * Width(c)
    decreases n
  {
    if n > 0 {
      var s := seq(n, _ => c);
      assert s[1..] == seq(n - 1, _ => c);
      LengthRepeat(c, n - 1);
    }
  }
}
