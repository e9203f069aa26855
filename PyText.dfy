/**
 * The three pieces of Python's `str` that the address-bar classifier relies on:
 * `str.isspace` (per character), `str.strip()` with no argument, and the
 * substring test `sub in s`.
 */
module PyText {

  /** Python's `str.isspace` for one character: the characters CPython treats as
      whitespace (bidirectional class WS, B or S, or category Zs). */
  predicate IsSpace(c: char) {
    || ('\t' <= c <= '\r')                  // TAB, LF, VT, FF, CR
    || ('\U{1C}' <= c <= '\U{1F}')          // FS, GS, RS, US
    || c == ' '
    || c == '\U{85}'                        // NEL
    || c == '\U{A0}'                        // NO-BREAK SPACE
    || c == '\U{1680}'
    || ('\U{2000}' <= c <= '\U{200A}')
    || c == '\U{2028}' || c == '\U{2029}'
    || c == '\U{202F}' || c == '\U{205F}' || c == '\U{3000}'
  }

  /** Below 0x80 the whitespace characters are exactly CPython's ASCII
      whitespace table: space, TAB, LF, VT, FF, CR and FS, GS, RS, US. */
  lemma AsciiSpaces(c: char)
    requires c < '\U{80}'
    ensures IsSpace(c) <==> c in " \t\n\U{0B}\U{0C}\r\U{1C}\U{1D}\U{1E}\U{1F}"
  {
  }

  /** Every character of `s` is whitespace (in particular, the empty string). */
  predicate AllSpace(s: string) {
    forall k :: 0 <= k < |s| ==> IsSpace(s[k])
  }

  /** How many whitespace characters `s` starts with: the index where
      `s.lstrip()` begins. */
  function LeadingSpace(s: string): (n: nat)
    ensures n <= |s|
    ensures forall k :: 0 <= k < n ==> IsSpace(s[k])
    ensures n < |s| ==> !IsSpace(s[n])
  {
    if s != [] && IsSpace(s[0]) then 1 + LeadingSpace(s[1..]) else 0
  }

  /** How many whitespace characters `s` ends with: `s.rstrip()` keeps the
      first `|s| - n`. */
  function TrailingSpace(s: string): (n: nat)
    ensures n <= |s|
    ensures forall k :: |s| - n <= k < |s| ==> IsSpace(s[k])
    ensures n < |s| ==> !IsSpace(s[|s| - n - 1])
  {
    if s != [] && IsSpace(s[|s| - 1]) then 1 + TrailingSpace(s[..|s| - 1]) else 0
  }

  /** `s.strip()`: `s` without its leading and trailing whitespace. The result
      is empty exactly when `s` is all whitespace, and otherwise starts and ends
      with a non-whitespace character. */
  function Strip(s: string): (r: string)
    ensures |r| <= |s|
    ensures r == [] <==> AllSpace(s)
    ensures r != [] ==> !IsSpace(r[0]) && !IsSpace(r[|r| - 1])
  {
    var i := LeadingSpace(s);
    var j := |s| - TrailingSpace(s[i..]);
    assert i == |s| || !IsSpace(s[i..][0]);
    s[i..j]
  }

  /** The stripped text is the slice of `s` between an all-whitespace prefix and
      an all-whitespace suffix: strip removes whitespace at the two ends only. */
  lemma StripIsSlice(s: string)
    ensures exists i, j :: 0 <= i <= j <= |s| && Strip(s) == s[i..j]
                          && AllSpace(s[..i]) && AllSpace(s[j..])
  {
    var i := LeadingSpace(s);
    var j := |s| - TrailingSpace(s[i..]);
    assert AllSpace(s[j..]) by {
      forall k | 0 <= k < |s| - j ensures IsSpace(s[j..][k]) {
        assert s[j..][k] == s[i..][k + j - i];
      }
    }
    assert AllSpace(s[..i]);
    assert Strip(s) == s[i..j];
  }

  /** Stripping twice is stripping once. */
  lemma StripIdempotent(s: string)
    ensures Strip(Strip(s)) == Strip(s)
  {
    var r := Strip(s);
    if r != [] {
      assert LeadingSpace(r) == 0;
      assert r[0..] == r;
      assert TrailingSpace(r) == 0;
    }
  }

  /** Leading whitespace followed by text that does not start with whitespace
      is counted exactly. */
  lemma {:induction false} LeadingSpaceOfPadded(pre: string, rest: string)
    requires AllSpace(pre)
    requires rest == [] || !IsSpace(rest[0])
    ensures LeadingSpace(pre + rest) == |pre|
  {
    if pre == [] {
      assert pre + rest == rest;
    } else {
      assert (pre + rest)[0] == pre[0];
      assert (pre + rest)[1..] == pre[1..] + rest;
      LeadingSpaceOfPadded(pre[1..], rest);
    }
  }

  /** Text that does not end with whitespace, followed by trailing whitespace,
      has exactly that trailing whitespace counted. */
  lemma {:induction false} TrailingSpaceOfPadded(rest: string, post: string)
    requires AllSpace(post)
    requires rest == [] || !IsSpace(rest[|rest| - 1])
    ensures TrailingSpace(rest + post) == |post|
  {
    if post == [] {
      assert rest + post == rest;
    } else {
      var s := rest + post;
      assert s[|s| - 1] == post[|post| - 1];
      assert s[..|s| - 1] == rest + post[..|post| - 1];
      TrailingSpaceOfPadded(rest, post[..|post| - 1]);
    }
  }

  /** Strip removes exactly the whitespace padding around a text that neither
      starts nor ends with whitespace. */
  lemma StripPadded(pre: string, s: string, post: string)
    requires AllSpace(pre) && AllSpace(post)
    requires s == [] || (!IsSpace(s[0]) && !IsSpace(s[|s| - 1]))
    ensures Strip(pre + s + post) == s
  {
    var t := pre + s + post;
    if s == [] {
      assert t == pre + post;
      assert AllSpace(t) by {
        forall k | 0 <= k < |t| ensures IsSpace(t[k]) {
          if k < |pre| { assert t[k] == pre[k]; } else { assert t[k] == post[k - |pre|]; }
        }
      }
    } else {
      assert t == pre + (s + post);
      LeadingSpaceOfPadded(pre, s + post);
      assert t[|pre|..] == s + post;
      TrailingSpaceOfPadded(s, post);
      assert t[|pre|..|pre| + |s|] == s;
    }
  }

  /** The texts `strip()` leaves as they are: exactly the empty text and the
      texts that neither start nor end with whitespace. */
  lemma StripFixed(s: string)
    ensures Strip(s) == s <==> s == [] || (!IsSpace(s[0]) && !IsSpace(s[|s| - 1]))
  {
    if s == [] || (!IsSpace(s[0]) && !IsSpace(s[|s| - 1])) {
      assert "" + s + "" == s;
      StripPadded("", s, "");
    }
  }

  /** Python's `sub in s` on strings: `sub` occurs in `s` as a contiguous run. */
  predicate Contains(s: string, sub: string)
    decreases |s|
  {
    |sub| <= |s| && (s[..|sub|] == sub || Contains(s[1..], sub))
  }

  /** For a one-character needle, `[c] in s` is plain membership of `c`. */
  lemma {:induction false} ContainsChar(s: string, c: char)
    ensures Contains(s, [c]) <==> c in s
  {
    if s != [] {
      ContainsChar(s[1..], c);
      assert s == [s[0]] + s[1..];
    }
  }

  /** A substring found in `s` is still found after text is added around `s`. */
  lemma {:induction false} ContainsInside(pre: string, s: string, post: string, sub: string)
    requires Contains(s, sub)
    ensures Contains(pre + s + post, sub)
  {
    if pre == [] {
      assert pre + s + post == s + post;
      ContainsExtendEnd(s, post, sub);
    } else {
      ContainsInside(pre[1..], s, post, sub);
      assert (pre + s + post)[1..] == pre[1..] + s + post;
    }
  }

  lemma {:induction false} ContainsExtendEnd(s: string, post: string, sub: string)
    requires Contains(s, sub)
    ensures Contains(s + post, sub)
  {
    assert (s + post)[..|sub|] == s[..|sub|];
    if s[..|sub|] != sub {
      ContainsExtendEnd(s[1..], post, sub);
      assert (s + post)[1..] == s[1..] + post;
    }
  }

  /** Every character of a substring found in `s` occurs in `s`; so a string
      without `/` cannot contain "://". */
  lemma {:induction false} ContainsOnlyFrom(s: string, sub: string)
    requires Contains(s, sub)
    ensures forall k :: 0 <= k < |sub| ==> sub[k] in s
  {
    if s[..|sub|] == sub {
      forall k | 0 <= k < |sub| ensures sub[k] in s {
        assert sub[k] == s[k];
      }
    } else {
      ContainsOnlyFrom(s[1..], sub);
      forall k | 0 <= k < |sub| ensures sub[k] in s {
        assert sub[k] in s[1..];
      }
    }
  }
}
