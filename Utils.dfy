/**
 * `url_from_user_input`, the address-bar classifier of the browser: it turns
 * free text into the URL to load by four rules tried in order, the first that
 * applies deciding.
 *
 *  1. Empty input: the text, `None` read as "", is stripped; if nothing is left
 *     the result is the home URL.
 *  2. Parsed URL: if Qt's lenient parse of the text is valid, has a scheme and
 *     a host with a ".", that parsed URL is returned unchanged.
 *  3. Bare domain: text with no " ", some "." and no "://" gets "https://" put
 *     in front of it.
 *  4. Search: anything else becomes a Google search for the text.
 *
 * Qt's `QUrl.fromUserInput` is foreign code: it is a parameter here, and only
 * the parts of its result the classifier reads are kept. The URLs that rules 1,
 * 3 and 4 build are kept as the strings handed to `QUrl(...)`.
 */
module Utils {
  import opened Wrappers
  import PyText
  import UrlParse

  /** What is kept of a `QUrl` from `QUrl.fromUserInput`: `isValid()`,
      `scheme()` and `host()`, which rule 2 reads, and the text form
      `toString()`, which stands for the returned URL in the tests. */
  datatype QtUrl = QtUrl(valid: bool, scheme: string, host: string, display: string)

  /** The returned URL: the parsed `QUrl` itself (rule 2), or a `QUrl` built from
      an address string (rules 1, 3 and 4). */
  datatype Resolved = Parsed(url: QtUrl) | Address(text: string)

  /** The home URL returned for empty input. */
  const HomeUrl: string := "https://www.google.com"

  /** `_GOOGLE_QUERY_URL`, the search template. */
  const GoogleQueryTemplate: string := "https://www.google.com/search?q={query}"

  /** `_GOOGLE_QUERY_URL` up to its `{query}` placeholder, which ends it. */
  const GoogleQueryPrefix: string := "https://www.google.com/search?q="

  /** The scheme and separator rule 3 puts in front of a bare domain. */
  const HttpsPrefix: string := "https://"

  /** Rule 2's test of the parsed value: valid, a scheme, and a "." in the host. */
  predicate IsDottedUrl(u: QtUrl) {
    u.valid && u.scheme != [] && '.' in u.host
  }

  /** Rule 3's test of the stripped text. Only the ASCII space is looked for. */
  predicate LooksLikeDomain(text: string) {
    ' ' !in text && '.' in text && !PyText.Contains(text, "://")
  }

  /** The template's only replacement field, `{query}`, is at its end, so
      formatting it appends the query to `GoogleQueryPrefix`. */
  lemma QueryTemplateSplit()
    ensures GoogleQueryTemplate == GoogleQueryPrefix + "{query}"
  {
  }

  /** The home URL of rule 1 is the host the search URLs of rule 4 go to. */
  lemma HomeIsSearchHost()
    ensures GoogleQueryPrefix == HomeUrl + "/search?q="
  {
  }

  /** Rule 2 as the source writes it: `"." in url.host()` is a substring test,
      which for a one-character needle is membership. */
  lemma RuleTwoTest(u: QtUrl)
    ensures IsDottedUrl(u) <==> u.valid && u.scheme != [] && PyText.Contains(u.host, ".")
  {
    assert "." == ['.'];
    PyText.ContainsChar(u.host, '.');
  }

  /** Rule 3 as the source writes it, with three substring tests. */
  lemma RuleThreeTest(text: string)
    ensures LooksLikeDomain(text) <==>
      !PyText.Contains(text, " ") && PyText.Contains(text, ".") && !PyText.Contains(text, "://")
  {
    assert " " == [' '] && "." == ['.'];
    PyText.ContainsChar(text, ' ');
    PyText.ContainsChar(text, '.');
  }

  /** `_GOOGLE_QUERY_URL.format(query=quote_plus(text))`. The query value is all
      that follows the fixed prefix, and it decodes back to `text`. */
  function SearchUrl(text: string): (r: string)
    ensures |GoogleQueryPrefix| <= |r| && r[..|GoogleQueryPrefix|] == GoogleQueryPrefix
    ensures UrlParse.UnquotePlus(r[|GoogleQueryPrefix|..]) == Some(text)
    ensures forall k :: |GoogleQueryPrefix| <= k < |r| ==> UrlParse.IsFormChar(r[k])
  {
    var q := UrlParse.QuotePlus(text);
    UrlParse.UnquotePlusQuotePlus(text);
    assert (GoogleQueryPrefix + q)[|GoogleQueryPrefix|..] == q;
    GoogleQueryPrefix + q
  }

  /** The text the rules look at: the input, `None` read as "", stripped. */
  function Trimmed(input: Option<string>): (t: string)
    ensures t == [] <==> input.None? || PyText.AllSpace(input.value)
  {
    PyText.Strip(match input case None => "" case Some(s) => s)
  }

  /** `url_from_user_input(text)`, with `fromUserInput` standing for
      `QUrl.fromUserInput`. The result is never absent: it is a parsed URL that
      passed rule 2's test, or an https address. */
  function UrlFromUserInput(input: Option<string>, fromUserInput: string -> QtUrl): (r: Resolved)
    ensures r.Parsed? ==> IsDottedUrl(r.url)
    ensures r.Address? ==> IsHttpsAddress(r.text)
  {
    var text := Trimmed(input);
    HttpsAddresses(text);
    if text == [] then
      Address(HomeUrl)
    else
      var url := fromUserInput(text);
      if IsDottedUrl(url) then
        Parsed(url)
      else if LooksLikeDomain(text) then
        Address(HttpsPrefix + text)
      else
        Address(SearchUrl(text))
  }

  /** A string that starts with "https://" and has more after it. */
  predicate IsHttpsAddress(s: string) {
    |s| > |HttpsPrefix| && s[..|HttpsPrefix|] == HttpsPrefix
  }

  /** The home URL, a prefixed non-empty text and every search URL are https
      addresses. */
  lemma HttpsAddresses(text: string)
    ensures IsHttpsAddress(HomeUrl)
    ensures text != [] ==> IsHttpsAddress(HttpsPrefix + text)
    ensures IsHttpsAddress(SearchUrl(text))
  {
    assert HomeUrl[..|HttpsPrefix|] == HttpsPrefix;
    assert GoogleQueryPrefix[..|HttpsPrefix|] == HttpsPrefix;
    var s := SearchUrl(text);
    assert s[..|HttpsPrefix|] == s[..|GoogleQueryPrefix|][..|HttpsPrefix|];
    assert (HttpsPrefix + text)[..|HttpsPrefix|] == HttpsPrefix;
  }

  /** A URL built from the search template. */
  predicate IsSearchUrl(s: string) {
    |GoogleQueryPrefix| <= |s| && s[..|GoogleQueryPrefix|] == GoogleQueryPrefix
  }

  /** Rule 1: `None`, "" and whitespace-only input give exactly the home URL,
      which is not a search URL. */
  lemma EmptyInputGoesHome(input: Option<string>, fromUserInput: string -> QtUrl)
    requires input.None? || PyText.AllSpace(input.value)
    ensures UrlFromUserInput(input, fromUserInput) == Address(HomeUrl)
    ensures !IsSearchUrl(HomeUrl)
  {
  }

  /** Rule 2: when the parse of the stripped text passes the test, that parsed
      value is the result, whatever rules 3 and 4 would say. */
  lemma DottedParseWins(input: Option<string>, fromUserInput: string -> QtUrl)
    requires Trimmed(input) != []
    requires IsDottedUrl(fromUserInput(Trimmed(input)))
    ensures UrlFromUserInput(input, fromUserInput) == Parsed(fromUserInput(Trimmed(input)))
  {
  }

  /** Rule 3: when rule 2 fails and the stripped text has no " ", has a "." and
      has no "://", the result is exactly "https://" followed by that text. */
  lemma BareDomainGetsHttps(input: Option<string>, fromUserInput: string -> QtUrl)
    requires Trimmed(input) != []
    requires !IsDottedUrl(fromUserInput(Trimmed(input)))
    requires ' ' !in Trimmed(input) && '.' in Trimmed(input) && !PyText.Contains(Trimmed(input), "://")
    ensures UrlFromUserInput(input, fromUserInput) == Address(HttpsPrefix + Trimmed(input))
  {
  }

  /** Rule 4: when rule 2 fails and the stripped text holds a " ", lacks a "."
      or holds "://", rule 3 is skipped and the result is the search URL, whose
      query value decodes back to the stripped text. */
  lemma OtherwiseSearch(input: Option<string>, fromUserInput: string -> QtUrl)
    requires Trimmed(input) != []
    requires !IsDottedUrl(fromUserInput(Trimmed(input)))
    requires ' ' in Trimmed(input) || '.' !in Trimmed(input) || PyText.Contains(Trimmed(input), "://")
    ensures UrlFromUserInput(input, fromUserInput)
         == Address(GoogleQueryPrefix + UrlParse.QuotePlus(Trimmed(input)))
    ensures var r := UrlFromUserInput(input, fromUserInput).text;
      IsSearchUrl(r) && UrlParse.UnquotePlus(r[|GoogleQueryPrefix|..]) == Some(Trimmed(input))
  {
  }

  /** The four rules, in the order the classifier tries them. */
  datatype Rule = EmptyInput | DottedUrl | BareDomain | SearchQuery

  const RuleOrder: seq<Rule> := [EmptyInput, DottedUrl, BareDomain, SearchQuery]

  /** Whether `rule` applies to the stripped text and its parse. */
  predicate Applies(rule: Rule, text: string, url: QtUrl) {
    match rule
    case EmptyInput => text == []
    case DottedUrl => IsDottedUrl(url)
    case BareDomain => LooksLikeDomain(text)
    case SearchQuery => true
  }

  /** The URL each rule returns. */
  function Outcome(rule: Rule, text: string, url: QtUrl): Resolved {
    match rule
    case EmptyInput => Address(HomeUrl)
    case DottedUrl => Parsed(url)
    case BareDomain => Address(HttpsPrefix + text)
    case SearchQuery => Address(SearchUrl(text))
  }

  /** The index of the first rule in `rules` that applies, if any. */
  function FirstApplicable(rules: seq<Rule>, text: string, url: QtUrl): (r: Option<nat>)
    ensures r.Some? ==> r.value < |rules| && Applies(rules[r.value], text, url)
    ensures r.Some? ==> forall j :: 0 <= j < r.value ==> !Applies(rules[j], text, url)
    ensures r.None? <==> forall j :: 0 <= j < |rules| ==> !Applies(rules[j], text, url)
  {
    if rules == [] then None
    else if Applies(rules[0], text, url) then Some(0)
    else match FirstApplicable(rules[1..], text, url)
      case None => None
      case Some(i) => Some(i + 1)
  }

  /** A rule that applies, with none before it applying, is the one found. */
  lemma FirstApplicableIs(rules: seq<Rule>, text: string, url: QtUrl, k: nat)
    requires k < |rules| && Applies(rules[k], text, url)
    requires forall j :: 0 <= j < k ==> !Applies(rules[j], text, url)
    ensures FirstApplicable(rules, text, url) == Some(k)
  {
  }

  /** The classifier's result is what the first applicable rule returns. */
  predicate FollowsFirstRule(input: Option<string>, fromUserInput: string -> QtUrl) {
    var t := Trimmed(input);
    var i := FirstApplicable(RuleOrder, t, fromUserInput(t));
    i.Some? && UrlFromUserInput(input, fromUserInput) == Outcome(RuleOrder[i.value], t, fromUserInput(t))
  }

  /** Empty text: rule 1 is the first that applies. */
  lemma FirstMatchEmpty(input: Option<string>, fromUserInput: string -> QtUrl)
    requires Trimmed(input) == []
    ensures FollowsFirstRule(input, fromUserInput)
  {
    var t := Trimmed(input);
    assert RuleOrder[0] == EmptyInput;
    FirstApplicableIs(RuleOrder, t, fromUserInput(t), 0);
  }

  /** Rule 1 fails and rule 2 applies. */
  lemma FirstMatchDotted(input: Option<string>, fromUserInput: string -> QtUrl)
    requires Trimmed(input) != [] && IsDottedUrl(fromUserInput(Trimmed(input)))
    ensures FollowsFirstRule(input, fromUserInput)
  {
    var t := Trimmed(input);
    assert RuleOrder[0] == EmptyInput && RuleOrder[1] == DottedUrl;
    FirstApplicableIs(RuleOrder, t, fromUserInput(t), 1);
  }

  /** Rules 1 and 2 fail and rule 3 applies. */
  lemma FirstMatchDomain(input: Option<string>, fromUserInput: string -> QtUrl)
    requires Trimmed(input) != [] && !IsDottedUrl(fromUserInput(Trimmed(input)))
    requires LooksLikeDomain(Trimmed(input))
    ensures FollowsFirstRule(input, fromUserInput)
  {
    var t := Trimmed(input);
    assert RuleOrder[0] == EmptyInput && RuleOrder[1] == DottedUrl && RuleOrder[2] == BareDomain;
    FirstApplicableIs(RuleOrder, t, fromUserInput(t), 2);
  }

  /** Rules 1 to 3 fail: the search rule, which always applies, decides. */
  lemma FirstMatchSearch(input: Option<string>, fromUserInput: string -> QtUrl)
    requires Trimmed(input) != [] && !IsDottedUrl(fromUserInput(Trimmed(input)))
    requires !LooksLikeDomain(Trimmed(input))
    ensures FollowsFirstRule(input, fromUserInput)
  {
    var t := Trimmed(input);
    assert RuleOrder == [EmptyInput, DottedUrl, BareDomain, SearchQuery];
    FirstApplicableIs(RuleOrder, t, fromUserInput(t), 3);
  }

  /** First match wins: every input reaches some rule, and the classifier returns
      what the first applicable rule in `RuleOrder` returns. */
  lemma FirstMatchWins(input: Option<string>, fromUserInput: string -> QtUrl)
    ensures var t := Trimmed(input);
      var i := FirstApplicable(RuleOrder, t, fromUserInput(t));
      i.Some? && UrlFromUserInput(input, fromUserInput) == Outcome(RuleOrder[i.value], t, fromUserInput(t))
  {
    var t := Trimmed(input);
    if t == [] {
      FirstMatchEmpty(input, fromUserInput);
    } else if IsDottedUrl(fromUserInput(t)) {
      FirstMatchDotted(input, fromUserInput);
    } else if LooksLikeDomain(t) {
      FirstMatchDomain(input, fromUserInput);
    } else {
      FirstMatchSearch(input, fromUserInput);
    }
  }
}
