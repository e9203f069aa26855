/**
 * The classifier's result for the inputs of tests/test_utils.py and for a few
 * edge cases of rule 3 and of the query encoder. Each input is a parameter
 * fixed by a requires clause, so the verifier does not unfold `Strip` or
 * `QuotePlus` on a literal, which is slow and unstable; the proofs go through
 * the general lemmas instead. The parser stays abstract, so each result is
 * stated under a hypothesis on the parser's answer for that text (that it fails
 * rule 2's test, or is a given URL).
 */
module UtilsExamples {
  import opened Wrappers
  import PyText
  import UrlParse
  import opened Utils

  /** A text with no "/" does not contain "://". */
  lemma NoSchemeSeparator(s: string)
    requires '/' !in s
    ensures !PyText.Contains(s, "://")
  {
    if PyText.Contains(s, "://") {
      assert "://"[1] == '/';
      PyText.ContainsOnlyFrom(s, "://");
      assert false;
    }
  }

  /** Three words that `quote_plus` leaves as they are, joined by single spaces,
      are joined by "+" in the encoding. */
  lemma QuoteThreeWords(a: string, b: string, c: string)
    requires UrlParse.QuotePlus(a) == a && UrlParse.QuotePlus(b) == b && UrlParse.QuotePlus(c) == c
    ensures UrlParse.QuotePlus(a + " " + b + " " + c) == a + "+" + b + "+" + c
  {
    assert UrlParse.QuotePlus(" ") == "+";
    UrlParse.QuotePlusAppend(a + " " + b + " ", c);
    UrlParse.QuotePlusAppend(a + " " + b, " ");
    UrlParse.QuotePlusAppend(a + " ", b);
    UrlParse.QuotePlusAppend(a, " ");
  }

  /** Three words of unreserved characters. */
  lemma QuoteUnreservedWords(a: string, b: string, c: string)
    requires forall k :: 0 <= k < |a| ==> UrlParse.IsUnreservedChar(a[k])
    requires forall k :: 0 <= k < |b| ==> UrlParse.IsUnreservedChar(b[k])
    requires forall k :: 0 <= k < |c| ==> UrlParse.IsUnreservedChar(c[k])
    ensures UrlParse.QuotePlus(a + " " + b + " " + c) == a + "+" + b + "+" + c
  {
    UrlParse.QuotePlusUnreserved(a);
    UrlParse.QuotePlusUnreserved(b);
    UrlParse.QuotePlusUnreserved(c);
    QuoteThreeWords(a, b, c);
  }

  /** The query of test_query_becomes_google_search. */
  lemma TutorialQuery(text: string)
    requires text == "pyqt5 webengine tutorial"
    ensures UrlParse.QuotePlus(text) == "pyqt5+webengine+tutorial"
  {
    var a, b, c := "pyqt5", "webengine", "tutorial";
    assert text == a + " " + b + " " + c;
    assert a + "+" + b + "+" + c == "pyqt5+webengine+tutorial";
    QuoteUnreservedWords(a, b, c);
  }

  /** The query of `SpacedTextWithDotIsSearched`, kept apart from the
      classifier so that the literal is not unfolded next to it. */
  lemma FileNameQuery(text: string)
    requires text == "my file.txt name"
    ensures UrlParse.QuotePlus(text) == "my+file.txt+name"
  {
    var a, b, c := "my", "file.txt", "name";
    assert text == a + " " + b + " " + c;
    assert a + "+" + b + "+" + c == "my+file.txt+name";
    QuoteUnreservedWords(a, b, c);
  }

  /** Each "+" is escaped. */
  lemma PlusesQuery(text: string)
    requires text == "c++"
    ensures UrlParse.QuotePlus(text) == "c%2B%2B"
  {
    assert "c" + ("%2B" + "%2B") == "c%2B%2B";
    assert UrlParse.QuotePlus("c") == "c";
    assert UrlParse.QuotePlus("+") == "%2B";
    assert text == "c" + ("+" + "+");
    UrlParse.QuotePlusAppend("+", "+");
    UrlParse.QuotePlusAppend("c", "+" + "+");
  }

  /** A space becomes "+" and "/" is escaped. */
  lemma SlashQuery(text: string)
    requires text == " a/b"
    ensures UrlParse.QuotePlus(text) == "+a%2Fb"
  {
    assert "+" + ("a" + ("%2F" + "b")) == "+a%2Fb";
    assert UrlParse.QuotePlus(" ") == "+";
    assert UrlParse.QuotePlus("a") == "a";
    assert UrlParse.QuotePlus("/") == "%2F";
    assert UrlParse.QuotePlus("b") == "b";
    assert text == " " + ("a" + ("/" + "b"));
    UrlParse.QuotePlusAppend("/", "b");
    UrlParse.QuotePlusAppend("a", "/" + "b");
    UrlParse.QuotePlusAppend(" ", "a" + ("/" + "b"));
  }

  /** `*` is escaped and `~` is kept, unlike the WHATWG urlencoded serializer,
      which keeps `*` and escapes `~`. */
  lemma StarTildeQuery(text: string)
    requires text == "*~"
    ensures UrlParse.QuotePlus(text) == "%2A~"
  {
    assert "%2A" + "~" == "%2A~";
    assert UrlParse.QuotePlus("*") == "%2A";
    assert UrlParse.QuotePlus("~") == "~";
    assert text == "*" + "~";
    UrlParse.QuotePlusAppend("*", "~");
  }

  /** "+" and "/" are escaped, a space becomes "+". */
  lemma ReservedQuery(text: string)
    requires text == "c++ a/b"
    ensures UrlParse.QuotePlus(text) == "c%2B%2B+a%2Fb"
  {
    var x, y := "c++", " a/b";
    assert text == x + y;
    assert "c%2B%2B" + "+a%2Fb" == "c%2B%2B+a%2Fb";
    PlusesQuery(x);
    SlashQuery(y);
    UrlParse.QuotePlusAppend(x, y);
  }

  /** A text already stripped that rule 3 turns away (it holds a " ", lacks a
      "." or holds "://") is searched for, unless the parser's answer passes
      rule 2. */
  lemma SearchesFor(text: string, query: string, fromUserInput: string -> QtUrl)
    requires text != [] && !PyText.IsSpace(text[0]) && !PyText.IsSpace(text[|text| - 1])
    requires ' ' in text || '.' !in text || PyText.Contains(text, "://")
    requires UrlParse.QuotePlus(text) == query
    ensures !IsDottedUrl(fromUserInput(text)) ==>
      UrlFromUserInput(Some(text), fromUserInput) == Address(GoogleQueryPrefix + query)
  {
    PyText.StripFixed(text);
    assert Trimmed(Some(text)) == text;
    if !IsDottedUrl(fromUserInput(text)) {
      OtherwiseSearch(Some(text), fromUserInput);
    }
  }

  /** A dotted text without spaces or slashes, padded with whitespace, gets
      "https://" put in front of it, unless the parser's answer passes rule 2. */
  lemma GetsHttps(pre: string, t: string, post: string, fromUserInput: string -> QtUrl)
    requires PyText.AllSpace(pre) && PyText.AllSpace(post)
    requires t != [] && !PyText.IsSpace(t[0]) && !PyText.IsSpace(t[|t| - 1])
    requires ' ' !in t && '.' in t && '/' !in t
    ensures !IsDottedUrl(fromUserInput(t)) ==>
      UrlFromUserInput(Some(pre + t + post), fromUserInput) == Address(HttpsPrefix + t)
  {
    PyText.StripPadded(pre, t, post);
    NoSchemeSeparator(t);
    if !IsDottedUrl(fromUserInput(t)) {
      BareDomainGetsHttps(Some(pre + t + post), fromUserInput);
    }
  }

  /** test_empty_defaults_to_google: "" gives a URL starting "https://www.google.". */
  lemma EmptyDefaultsToGoogle(text: string, fromUserInput: string -> QtUrl)
    requires text == ""
    ensures var r := UrlFromUserInput(Some(text), fromUserInput);
      r.Address? && |r.text| >= 19 && r.text[..19] == "https://www.google."
  {
    EmptyInputGoesHome(Some(text), fromUserInput);
  }

  /** test_plain_domain_adds_scheme, for a parser whose answer fails rule 2. */
  lemma PlainDomainAddsScheme(text: string, fromUserInput: string -> QtUrl)
    requires text == "example.com"
    ensures !IsDottedUrl(fromUserInput(text)) ==>
      UrlFromUserInput(Some(text), fromUserInput) == Address("https://" + text)
  {
    assert ' ' !in text && '.' in text && '/' !in text;
    assert text[0] == 'e' && text[|text| - 1] == 'm';
    assert "" + text + "" == text;
    GetsHttps("", text, "", fromUserInput);
  }

  /** The host of test_full_url_passes_through has a "." and holds "python.org".
      A separate lemma, so that the literal is not unfolded next to the
      classifier. */
  lemma PythonOrgHost(host: string)
    requires host == "www.python.org"
    ensures '.' in host && PyText.Contains(host, "python.org")
  {
    assert host == "www." + "python.org" + "";
    assert PyText.Contains("python.org", "python.org");
    PyText.ContainsInside("www.", "python.org", "", "python.org");
    assert host[3] == '.';
  }

  /** test_full_url_passes_through, for a parser that reads the URL as written. */
  lemma FullUrlPassesThrough(text: string, fromUserInput: string -> QtUrl)
    requires text == "https://www.python.org/"
    ensures fromUserInput(text) == QtUrl(true, "https", "www.python.org", text) ==>
      var r := UrlFromUserInput(Some(text), fromUserInput);
      r.Parsed? && r.url.scheme == "https" && PyText.Contains(r.url.host, "python.org")
  {
    assert "" + text + "" == text;
    PyText.StripPadded("", text, "");
    PythonOrgHost("www.python.org");
    if fromUserInput(text) == QtUrl(true, "https", "www.python.org", text) {
      DottedParseWins(Some(text), fromUserInput);
    }
  }

  /** test_query_becomes_google_search, with the exact URL produced. */
  lemma QueryBecomesGoogleSearch(text: string, fromUserInput: string -> QtUrl)
    requires text == "pyqt5 webengine tutorial"
    ensures !IsDottedUrl(fromUserInput(text)) ==>
      UrlFromUserInput(Some(text), fromUserInput) == Address(GoogleQueryPrefix + "pyqt5+webengine+tutorial")
  {
    assert ' ' in text && text[0] == 'p' && text[|text| - 1] == 'l';
    TutorialQuery(text);
    SearchesFor(text, "pyqt5+webengine+tutorial", fromUserInput);
  }

  /** A single-label host has no ".", so it is searched for, not visited. */
  lemma LocalhostIsSearched(text: string, fromUserInput: string -> QtUrl)
    requires text == "localhost"
    ensures !IsDottedUrl(fromUserInput(text)) ==>
      UrlFromUserInput(Some(text), fromUserInput) == Address(GoogleQueryPrefix + "localhost")
  {
    assert '.' !in text && text[0] == 'l' && text[|text| - 1] == 't';
    UrlParse.QuotePlusUnreserved(text);
    SearchesFor(text, text, fromUserInput);
  }

  /** Rule 3 looks for the ASCII space only: an interior tab survives the strip
      and does not stop the bare-domain rule. */
  lemma InteriorTabStillBareDomain(text: string, fromUserInput: string -> QtUrl)
    requires text == " my\tsite.com\n"
    ensures !IsDottedUrl(fromUserInput("my\tsite.com")) ==>
      UrlFromUserInput(Some(text), fromUserInput) == Address("https://" + "my\tsite.com")
  {
    var t := "my\tsite.com";
    assert ' ' !in t && '.' in t && '/' !in t;
    assert t[0] == 'm' && t[|t| - 1] == 'm';
    assert text == " " + t + "\n";
    GetsHttps(" ", t, "\n", fromUserInput);
  }

  /** Text with a space and a dot is searched for, not taken as a domain. */
  lemma SpacedTextWithDotIsSearched(text: string, fromUserInput: string -> QtUrl)
    requires text == "my file.txt name"
    ensures !IsDottedUrl(fromUserInput(text)) ==>
      UrlFromUserInput(Some(text), fromUserInput) == Address(GoogleQueryPrefix + "my+file.txt+name")
  {
    assert ' ' in text && text[0] == 'm' && text[|text| - 1] == 'e';
    FileNameQuery(text);
    SearchesFor(text, "my+file.txt+name", fromUserInput);
  }

  /** "ftp://x.y" holds the scheme separator "://". A separate lemma, so that
      the literal is not unfolded next to the classifier. */
  lemma FtpHasSchemeSeparator(text: string)
    requires text == "ftp://x.y"
    ensures PyText.Contains(text, "://")
  {
    assert text == "ftp" + "://" + "x.y";
    assert PyText.Contains("://", "://");
    PyText.ContainsInside("ftp", "://", "x.y", "://");
  }

  /** A dotted text without spaces is still searched for when it holds "://":
      rule 3 leaves URLs with a scheme to the parser. */
  lemma SchemeTextIsSearched(text: string, fromUserInput: string -> QtUrl)
    requires text == "ftp://x.y"
    ensures !IsDottedUrl(fromUserInput(text)) ==>
      UrlFromUserInput(Some(text), fromUserInput) == Address(GoogleQueryPrefix + UrlParse.QuotePlus(text))
  {
    assert text[0] == 'f' && text[|text| - 1] == 'y';
    FtpHasSchemeSeparator(text);
    SearchesFor(text, UrlParse.QuotePlus(text), fromUserInput);
  }

  /** "+" and "/" in a query are escaped, a space becomes "+". */
  lemma ReservedCharactersEscaped(text: string, fromUserInput: string -> QtUrl)
    requires text == "c++ a/b"
    ensures !IsDottedUrl(fromUserInput(text)) ==>
      UrlFromUserInput(Some(text), fromUserInput) == Address(GoogleQueryPrefix + "c%2B%2B+a%2Fb")
  {
    assert ' ' in text && text[0] == 'c' && text[|text| - 1] == 'b';
    ReservedQuery(text);
    SearchesFor(text, "c%2B%2B+a%2Fb", fromUserInput);
  }
}
