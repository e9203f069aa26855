/**
 * `urllib.parse.quote_plus(s)` with its default `safe=''`: percent-encoding
 * (section 2.1 of RFC 3986) of the UTF-8 bytes of `s`. The unreserved bytes of
 * section 2.3 of RFC 3986 (letters, digits, `-`, `.`, `_`, `~`) stay literal, a
 * space becomes `+`, and every other byte becomes `%XX` with upper-case
 * hexadecimal digits. This is not the WHATWG URL Standard's urlencoded
 * serializer: that one keeps `*` literal and escapes `~`, while here `*`
 * becomes `%2A` and `~` stays. `FormDecode` is the matching strict decoder.
 */
module UrlParse {
  import opened Wrappers
  import Utf8

  type byte = Utf8.byte

  /** ALPHA / DIGIT / "-" / "." / "_" / "~": the bytes `quote` never escapes. */
  predicate IsUnreserved(b: byte) {
    || (0x41 <= b <= 0x5A)                  // A-Z
    || (0x61 <= b <= 0x7A)                  // a-z
    || (0x30 <= b <= 0x39)                  // 0-9
    || b == 0x2D || b == 0x2E || b == 0x5F || b == 0x7E   // - . _ ~
  }

  /** The same set, as characters of the encoded text. */
  predicate IsUnreservedChar(c: char) {
    c as int < 0x80 && IsUnreserved(c as int as byte)
  }

  /** A character the encoder may emit: unreserved, `+` (for a space) or `%`. */
  predicate IsFormChar(c: char) {
    IsUnreservedChar(c) || c == '+' || c == '%'
  }

  /** The upper-case hexadecimal digit for `n`, as `quote` writes it. */
  function HexDigit(n: int): (c: char)
    requires 0 <= n < 16
    ensures IsUnreservedChar(c)
    ensures HexValue(c) == Some(n)
  {
    if n < 10 then (0x30 + n) as char else (0x41 + n - 10) as char
  }

  /** The value of a hexadecimal digit of either case. */
  function HexValue(c: char): (r: Option<int>)
    ensures r.Some? ==> 0 <= r.value < 16
  {
    if '0' <= c <= '9' then Some(c as int - 0x30)
    else if 'A' <= c <= 'F' then Some(c as int - 0x41 + 10)
    else if 'a' <= c <= 'f' then Some(c as int - 0x61 + 10)
    else None
  }

  /** The text one byte becomes: `+`, the byte itself, or `%XX`. */
  function EncodeByte(b: byte): (r: string)
    ensures |r| == 1 || |r| == 3
    ensures forall k :: 0 <= k < |r| ==> IsFormChar(r[k])
    ensures r[0] == '+' <==> b == 0x20
    ensures r[0] == '%' <==> |r| == 3
  {
    if b == 0x20 then "+"
    else if IsUnreserved(b) then [b as int as char]
    else ['%', HexDigit(b as int / 16), HexDigit(b as int % 16)]
  }

  /** A byte is written as the character of its own code exactly when it is
      unreserved: a space becomes `+` and every other byte a `%XX` escape. */
  lemma LiteralExactlyWhenUnreserved(b: byte)
    ensures IsUnreserved(b) <==> EncodeByte(b) == [b as int as char]
  {
    if b == 0x20 {
      assert EncodeByte(b)[0] == '+' != b as int as char;
    }
  }

  /** The form-urlencoded serialization of a byte string. Its output consists of
      unreserved characters, `+` and `%` only, so it holds no space, `/`, `&`,
      `=`, `?` or `#`. */
  function FormEncode(bs: seq<byte>): (r: string)
    ensures |bs| <= |r| <= 3 * |bs|
    ensures forall k :: 0 <= k < |r| ==> IsFormChar(r[k])
  {
    if bs == [] then "" else EncodeByte(bs[0]) + FormEncode(bs[1..])
  }

  /** `quote_plus(s)`: encode `s` as UTF-8, then form-urlencode the bytes. */
  function QuotePlus(s: string): (r: string)
    ensures |s| <= |r|
    ensures forall k :: 0 <= k < |r| ==> IsFormChar(r[k])
  {
    FormEncode(Utf8.Encode(s))
  }

  function Prepend(b: byte, rest: Option<seq<byte>>): Option<seq<byte>> {
    match rest
    case None => None
    case Some(bs) => Some([b] + bs)
  }

  /** Strict form decoding: `+` is a space, `%` with two hexadecimal digits is
      that byte, an unreserved character is itself; anything else is None. */
  function FormDecode(s: string): (r: Option<seq<byte>>)
    ensures r.Some? ==> |r.value| <= |s|
    decreases |s|
  {
    if s == [] then Some([])
    else if s[0] == '+' then Prepend(0x20, FormDecode(s[1..]))
    else if s[0] == '%' then
      if |s| < 3 then None
      else match (HexValue(s[1]), HexValue(s[2]))
        case (Some(hi), Some(lo)) => Prepend((hi * 16 + lo) as byte, FormDecode(s[3..]))
        case _ => None
    else if IsUnreservedChar(s[0]) then Prepend(s[0] as int as byte, FormDecode(s[1..]))
    else None
  }

  /** `unquote_plus` on what `quote_plus` produced: form-decode, then decode the
      bytes as UTF-8. */
  function UnquotePlus(s: string): (r: Option<string>)
  {
    match FormDecode(s)
    case None => None
    case Some(bs) => Utf8.Decode(bs)
  }

  /** Decoding the text of one byte yields that byte and then whatever the rest
      of the text decodes to. */
  lemma FormDecodeEncodeByte(b: byte, tail: string)
    ensures FormDecode(EncodeByte(b) + tail) == Prepend(b, FormDecode(tail))
  {
    var e := EncodeByte(b);
    var s := e + tail;
    assert s[0] == e[0];
    if b == 0x20 {
      assert s[1..] == tail;
    } else if IsUnreserved(b) {
      assert s[1..] == tail;
    } else {
      assert s[1] == e[1] && s[2] == e[2] && s[3..] == tail;
    }
  }

  /** Round trip over bytes: form-decoding the form encoding gives the bytes back. */
  lemma {:induction false} FormDecodeEncode(bs: seq<byte>)
    ensures FormDecode(FormEncode(bs)) == Some(bs)
  {
    if bs != [] {
      FormDecodeEncodeByte(bs[0], FormEncode(bs[1..]));
      FormDecodeEncode(bs[1..]);
      assert bs == [bs[0]] + bs[1..];
    }
  }

  /** Round trip over text: `unquote_plus(quote_plus(s)) == s` for every string. */
  lemma UnquotePlusQuotePlus(s: string)
    ensures UnquotePlus(QuotePlus(s)) == Some(s)
  {
    FormDecodeEncode(Utf8.Encode(s));
    Utf8.DecodeEncode(s);
  }

  /** `quote_plus` is injective: two strings that encode alike are equal. */
  lemma QuotePlusInjective(s: string, t: string)
    requires QuotePlus(s) == QuotePlus(t)
    ensures s == t
  {
    UnquotePlusQuotePlus(s);
    UnquotePlusQuotePlus(t);
  }

  /** The encoded text never holds a space or any of the characters that would
      end or split a query value: `/`, `&`, `=`, `?`, `#`. A `+` or `/` of the
      input therefore always arrives escaped. */
  lemma QuotePlusHasNoDelimiters(s: string)
    ensures var q := QuotePlus(s);
      forall c :: c in q ==> c !in " /&=?#"
  {
  }

  /** Form encoding is byte by byte: it distributes over concatenation. */
  lemma {:induction false} FormEncodeAppend(a: seq<byte>, b: seq<byte>)
    ensures FormEncode(a + b) == FormEncode(a) + FormEncode(b)
  {
    if a == [] {
      assert a + b == b;
    } else {
      assert (a + b)[0] == a[0] && (a + b)[1..] == a[1..] + b;
      calc {
        FormEncode(a + b);
        EncodeByte(a[0]) + FormEncode(a[1..] + b);
        { FormEncodeAppend(a[1..], b); }
        EncodeByte(a[0]) + (FormEncode(a[1..]) + FormEncode(b));
        FormEncode(a) + FormEncode(b);
      }
    }
  }

  /** `quote_plus(a + b) == quote_plus(a) + quote_plus(b)`: no character's
      encoding depends on its neighbours. */
  lemma QuotePlusAppend(a: string, b: string)
    ensures QuotePlus(a + b) == QuotePlus(a) + QuotePlus(b)
  {
    Utf8.EncodeAppend(a, b);
    FormEncodeAppend(Utf8.Encode(a), Utf8.Encode(b));
  }

  /** Text made only of unreserved characters is its own encoding. */
  lemma {:induction false} QuotePlusUnreserved(s: string)
    requires forall k :: 0 <= k < |s| ==> IsUnreservedChar(s[k])
    ensures QuotePlus(s) == s
  {
    if s != [] {
      QuotePlusUnreserved(s[1..]);
      assert s == [s[0]] + s[1..];
      QuotePlusAppend([s[0]], s[1..]);
    }
  }

  /** Bytes without 0x20 encode without a `+`: hex digits and unreserved
      characters are never `+`. */
  lemma {:induction false} FormEncodeNoPlus(bs: seq<byte>)
    requires 0x20 !in bs
    ensures '+' !in FormEncode(bs)
  {
    if bs != [] {
      assert bs == [bs[0]] + bs[1..];
      FormEncodeNoPlus(bs[1..]);
    }
  }

  /** A `+` in the encoded query always stands for a space of the input: a `+`
      typed by the user arrives as `%2B`. */
  lemma QuotePlusPlusMeansSpace(s: string)
    ensures '+' in QuotePlus(s) ==> ' ' in s
  {
    if ' ' !in s {
      Utf8.EncodeNoSpace(s);
      FormEncodeNoPlus(Utf8.Encode(s));
    }
  }
}
