/**
 * UTF-8 (RFC 3629), the encoding `quote_plus` applies to a `str` before it
 * percent-encodes the bytes. `Encode` is what Python's `str.encode("utf-8")`
 * produces for a string of Unicode scalar values; `Decode` is its strict
 * inverse, used to state that a search query can be read back.
 */
module Utf8 {
  import opened Wrappers

  newtype byte = x: int | 0 <= x < 256

  /** A byte that can only continue a multi-byte sequence (10xxxxxx). */
  predicate IsContinuation(b: byte) {
    0x80 <= b < 0xC0
  }

  /** The one to four bytes UTF-8 gives one scalar value. ASCII maps to its own
      code. */
  function EncodeChar(c: char): (r: seq<byte>)
    ensures 1 <= |r| <= 4
    ensures c as int < 0x80 ==> r == [c as int as byte]
  {
    var n := c as int;
    if n < 0x80 then
      [n as byte]
    else if n < 0x800 then
      [(0xC0 + n / 64) as byte, (0x80 + n % 64) as byte]
    else if n < 0x10000 then
      var q := n / 64;
      [(0xE0 + q / 64) as byte, (0x80 + q % 64) as byte, (0x80 + n % 64) as byte]
    else
      var q := n / 64;
      var q2 := q / 64;
      [(0xF0 + q2 / 64) as byte, (0x80 + q2 % 64) as byte, (0x80 + q % 64) as byte, (0x80 + n % 64) as byte]
  }

  /** No byte of a non-ASCII character's encoding is an ASCII code, so a byte
      below 0x80 in an encoded string always stands for that ASCII character. */
  lemma EncodeCharNonAscii(c: char)
    requires c as int >= 0x80
    ensures forall k :: 0 <= k < |EncodeChar(c)| ==> EncodeChar(c)[k] >= 0x80
  {
  }

  /** `s.encode("utf-8")`: the characters' encodings, one after another. */
  function Encode(s: string): (r: seq<byte>)
    ensures |r| >= |s|
  {
    if s == [] then [] else EncodeChar(s[0]) + Encode(s[1..])
  }

  /** ASCII text encodes byte for byte, each byte its character's code. */
  lemma {:induction false} EncodeAscii(s: string)
    requires forall k :: 0 <= k < |s| ==> s[k] as int < 0x80
    ensures |Encode(s)| == |s|
    ensures forall k :: 0 <= k < |s| ==> Encode(s)[k] == s[k] as int as byte
  {
    if s != [] {
      EncodeAscii(s[1..]);
      assert Encode(s) == [s[0] as int as byte] + Encode(s[1..]);
    }
  }

  /** A string without a space has no 0x20 byte in its encoding: the only
      byte 0x20 comes from the character ' '. */
  lemma {:induction false} EncodeNoSpace(s: string)
    requires ' ' !in s
    ensures 0x20 !in Encode(s)
  {
    if s != [] {
      assert s == [s[0]] + s[1..];
      EncodeNoSpace(s[1..]);
      if s[0] as int >= 0x80 {
        EncodeCharNonAscii(s[0]);
      }
    }
  }

  /** The scalar value a well-formed sequence starting at `bs[0]` stands for,
      with the number of bytes it takes; None for an ill-formed lead, a missing
      or wrong continuation byte, an overlong form, a surrogate or a value past
      U+10FFFF. */
  function DecodeFirst(bs: seq<byte>): (r: Option<(char, nat)>)
    requires bs != []
    ensures r.Some? ==> 1 <= r.value.1 <= |bs|
  {
    var b0 := bs[0] as int;
    if b0 < 0x80 then
      Some((b0 as char, 1))
    else if 0xC0 <= b0 < 0xE0 then
      if |bs| < 2 || !IsContinuation(bs[1]) then None
      else
        var n := (b0 - 0xC0) * 64 + (bs[1] as int - 0x80);
        if n < 0x80 then None else Some((n as char, 2))
    else if 0xE0 <= b0 < 0xF0 then
      if |bs| < 3 || !IsContinuation(bs[1]) || !IsContinuation(bs[2]) then None
      else
        var n := ((b0 - 0xE0) * 64 + (bs[1] as int - 0x80)) * 64 + (bs[2] as int - 0x80);
        if n < 0x800 || 0xD800 <= n < 0xE000 then None else Some((n as char, 3))
    else if 0xF0 <= b0 < 0xF8 then
      if |bs| < 4 || !IsContinuation(bs[1]) || !IsContinuation(bs[2]) || !IsContinuation(bs[3]) then None
      else
        var n := (((b0 - 0xF0) * 64 + (bs[1] as int - 0x80)) * 64 + (bs[2] as int - 0x80)) * 64 + (bs[3] as int - 0x80);
        if n < 0x10000 || n > 0x10FFFF then None else Some((n as char, 4))
    else
      None
  }

  /** `bs.decode("utf-8")` with strict error handling: None on any ill-formed
      sequence. */
  function Decode(bs: seq<byte>): (r: Option<string>)
    ensures r.Some? ==> |r.value| <= |bs|
    decreases |bs|
  {
    if bs == [] then Some([])
    else match DecodeFirst(bs)
      case None => None
      case Some((c, len)) =>
        match Decode(bs[len..])
        case None => None
        case Some(rest) => Some([c] + rest)
  }

  /** Decoding the encoding of one character yields that character and consumes
      exactly its bytes, whatever follows them. */
  lemma DecodeFirstEncodeChar(c: char, tail: seq<byte>)
    ensures DecodeFirst(EncodeChar(c) + tail) == Some((c, |EncodeChar(c)|))
  {
    var e := EncodeChar(c);
    var bs := e + tail;
    assert bs[..|e|] == e;
    var n := c as int;
    if n < 0x80 {
    } else if n < 0x800 {
      assert bs[0] == e[0] && bs[1] == e[1];
    } else if n < 0x10000 {
      assert bs[0] == e[0] && bs[1] == e[1] && bs[2] == e[2];
    } else {
      assert bs[0] == e[0] && bs[1] == e[1] && bs[2] == e[2] && bs[3] == e[3];
    }
  }

  /** Round trip: decoding the UTF-8 encoding of any string gives the string back. */
  lemma {:induction false} DecodeEncode(s: string)
    ensures Decode(Encode(s)) == Some(s)
  {
    if s != [] {
      var e := EncodeChar(s[0]);
      var bs := Encode(s);
      assert bs == e + Encode(s[1..]);
      DecodeFirstEncodeChar(s[0], Encode(s[1..]));
      assert bs[|e|..] == Encode(s[1..]);
      DecodeEncode(s[1..]);
      assert s == [s[0]] + s[1..];
    }
  }

  /** Different strings have different encodings. */
  lemma EncodeInjective(s: string, t: string)
    requires Encode(s) == Encode(t)
    ensures s == t
  {
    DecodeEncode(s);
    DecodeEncode(t);
  }

  /** The encoding of a string is its first character's bytes followed by the
      encoding of the rest. */
  lemma EncodeCons(c: char, s: string)
    ensures Encode([c] + s) == EncodeChar(c) + Encode(s)
  {
    assert ([c] + s)[1..] == s;
  }

  /** Encoding is character by character: the encoding of a concatenation is
      the concatenation of the encodings. */
  lemma {:induction false} EncodeAppend(a: string, b: string)
    ensures Encode(a + b) == Encode(a) + Encode(b)
  {
    if a == [] {
      assert a + b == b;
    } else {
      var c, rest := a[0], a[1..];
      assert a == [c] + rest;
      assert a + b == [c] + (rest + b);
      EncodeCons(c, rest + b);
      EncodeAppend(rest, b);
      EncodeCons(c, rest);
    }
  }
}
