# Address-bar classifier of the PyQt Web Browser, in Dafny

This project models `url_from_user_input`, the function behind the browser's
address bar (`src/pyqt_web_browser/utils.py`). It also models the
`urllib.parse.quote_plus` encoder that the function uses for search queries.

The classifier turns free text into the URL to load. It tries four rules in
order, and the first that applies decides:

1. **Empty input.** `None` counts as `""`. The text is stripped of whitespace,
   and if nothing is left the result is `https://www.google.com`.
2. **Parsed URL.** Qt's lenient parse `QUrl.fromUserInput(text)` is returned
   unchanged when it is valid, has a scheme, and has a `.` in its host.
3. **Bare domain.** Text with no `" "`, some `"."` and no `"://"` becomes
   `"https://" + text`.
4. **Search.** Anything else becomes
   `https://www.google.com/search?q=` + `quote_plus(text)`.

Modules:

- `Wrappers` holds `Option`.
- `PyText` models Python's `str.isspace`, `str.strip()` and the substring test
  `sub in s`.
- `Utf8` models `str.encode("utf-8")`, with a strict decoder as its partner.
- `UrlParse` models `quote_plus` with `safe=''`: percent-encoding (section 2.1
  of RFC 3986) of the UTF-8 bytes. The unreserved set of section 2.3 of
  RFC 3986 (letters, digits, `-`, `.`, `_`, `~`) stays literal, and a space is
  written as `+`. This differs from the WHATWG URL Standard's urlencoded
  serializer on `*`, which is escaped here as `%2A`, and on `~`, which is kept
  here. It comes with a strict form decoder as its partner.
- `Utils` holds the classifier, its four rules as lemmas, and "first match
  wins".
- `UtilsExamples` states the classifier's result for the inputs of
  `tests/test_utils.py` and for a few edge cases.

`QUrl.fromUserInput` is foreign code. It is a parameter
`fromUserInput: string -> QtUrl`. Of its result the model keeps `isValid()`,
`scheme()` and `host()`, which rule 2 reads (`utils.py:53`), and the text form
`toString()`, which stands for the returned URL in the tests. Rule 2
returns that parsed value (`Parsed`). Rules 1, 3 and 4 return the string handed
to `QUrl(...)` (`Address`).

Two points where a reading of the code needs care:

- Rule 3 looks only for the ASCII space (`" " not in text`, `utils.py:57`),
  although the comment above it (`utils.py:56`) says "no spaces". A stripped
  text with an interior tab can therefore still take the bare-domain branch
  (`UtilsExamples.InteriorTabStillBareDomain`).
- `tests/test_utils.py:26-28` expects `"example.com"` to give
  `https://example.com` with no condition. In the code that result comes only
  from rule 3, so only when the parse fails rule 2's test. Qt documents that
  `fromUserInput` reads `example.com` as `http://example.com`, which passes
  rule 2. So `UtilsExamples.PlainDomainAddsScheme` carries the hypothesis that
  the parse fails rule 2.

## Model

| member | source | states |
|---|---|---|
| Utils.UrlFromUserInput | src/pyqt_web_browser/utils.py:30-61 | The result is never absent: either a parsed URL that passed rule 2's test (valid, a scheme, a "." in the host), or an address that starts with "https://" and has more after it |
| Utils.Trimmed | src/pyqt_web_browser/utils.py:46 | `(text or "").strip()` is empty exactly when the input is None or all whitespace |
| Utils.SearchUrl | src/pyqt_web_browser/utils.py:61 | The search URL starts with the template's fixed prefix `https://www.google.com/search?q=`; what follows is made only of form characters and decodes back to the text |
| Utils.HttpsAddresses | src/pyqt_web_browser/utils.py:47-61 | The home URL, "https://" + a non-empty text, and every search URL all start with "https://" and have more after it |
| Utils.EmptyInputGoesHome | src/pyqt_web_browser/utils.py:46-48 | None, "" or whitespace-only input gives exactly the home URL `https://www.google.com`, whatever the parser says; the home URL is not a search URL |
| Utils.DottedParseWins | src/pyqt_web_browser/utils.py:50-54 | When the parse of the stripped text is valid, has a scheme and has a dotted host, that parse is returned unchanged, whatever rules 3 and 4 would say |
| Utils.BareDomainGetsHttps | src/pyqt_web_browser/utils.py:57-58 | When rule 2 fails and the stripped text has no ' ', has a '.' and has no "://", the result is exactly "https://" + the stripped text |
| Utils.OtherwiseSearch | src/pyqt_web_browser/utils.py:57-61 | When rule 2 fails and the stripped text has a ' ', lacks a '.' or has "://", the result is exactly the search prefix + quote_plus(stripped text), and its query decodes back to the stripped text |
| Utils.QueryTemplateSplit | src/pyqt_web_browser/utils.py:27 | The search template `https://www.google.com/search?q={query}` is `GoogleQueryPrefix` followed by its only field `{query}`, so formatting it appends the query to that prefix |
| Utils.HomeIsSearchHost | src/pyqt_web_browser/utils.py:48 | The home URL `https://www.google.com` of rule 1 is the host of the search URLs: the search prefix is the home URL + "/search?q=" |
| Utils.IsDottedUrl | src/pyqt_web_browser/utils.py:53 | Rule 2's test of the parse: valid, a non-empty scheme, and a '.' in the host |
| Utils.RuleTwoTest | src/pyqt_web_browser/utils.py:53 | Rule 2's test holds exactly when the parse is valid, has a scheme, and the substring test `"." in host` holds |
| Utils.LooksLikeDomain | src/pyqt_web_browser/utils.py:57 | Rule 3's test of the stripped text: no ' ', some '.', and no "://" |
| Utils.RuleThreeTest | src/pyqt_web_browser/utils.py:57 | Rule 3's test holds exactly when the three substring tests of the source hold: `" " not in text`, `"." in text`, `"://" not in text` |
| Utils.FirstApplicable | src/pyqt_web_browser/utils.py:46-61 | The index found is of a rule that applies, with no earlier rule applying; None exactly when no rule applies |
| Utils.FirstMatchWins | src/pyqt_web_browser/utils.py:46-61 | Every input reaches one of the four rules, and the classifier returns what the first applicable rule, in source order, returns |
| PyText.IsSpace | src/pyqt_web_browser/utils.py:46 | The characters CPython's `str.isspace` accepts, which `strip()` removes: TAB to CR, FS to US, space, NEL, NO-BREAK SPACE and the Unicode space separators |
| PyText.AsciiSpaces | src/pyqt_web_browser/utils.py:46 | Below 0x80, whitespace is exactly CPython's ASCII table: space, TAB, LF, VT, FF, CR, FS, GS, RS, US |
| PyText.LeadingSpace | src/pyqt_web_browser/utils.py:46 | Counts exactly the leading whitespace: all characters before the count are whitespace, the one at the count is not |
| PyText.TrailingSpace | src/pyqt_web_browser/utils.py:46 | Counts exactly the trailing whitespace, in the same sense from the end |
| PyText.Strip | src/pyqt_web_browser/utils.py:46 | `strip()` is empty exactly when the text is all whitespace; otherwise it starts and ends with a non-whitespace character; it is never longer |
| PyText.StripIsSlice | src/pyqt_web_browser/utils.py:46 | The stripped text is the slice of the input between an all-whitespace prefix and an all-whitespace suffix |
| PyText.StripIdempotent | src/pyqt_web_browser/utils.py:46 | Stripping twice is stripping once |
| PyText.StripFixed | src/pyqt_web_browser/utils.py:46 | `strip()` leaves a text unchanged exactly when it is empty or neither starts nor ends with whitespace |
| PyText.StripPadded | src/pyqt_web_browser/utils.py:46 | Stripping whitespace padding from around a text that neither starts nor ends with whitespace gives exactly that text |
| PyText.LeadingSpaceOfPadded | src/pyqt_web_browser/utils.py:46 | Leading whitespace in front of a text that starts with a non-space is counted exactly |
| PyText.TrailingSpaceOfPadded | src/pyqt_web_browser/utils.py:46 | Trailing whitespace after a text that ends with a non-space is counted exactly |
| PyText.Contains | src/pyqt_web_browser/utils.py:53-57 | Python's substring test `sub in s`: `sub` occurs at some position of `s` |
| PyText.ContainsChar | src/pyqt_web_browser/utils.py:53-57 | For a one-character needle, the substring test `c in s` is membership of that character, which is how rules 2 and 3 are stated |
| PyText.ContainsInside | src/pyqt_web_browser/utils.py:53 | A substring of a text is still found after text is added on both sides |
| PyText.ContainsOnlyFrom | src/pyqt_web_browser/utils.py:57 | Every character of a found substring occurs in the text, so text without "/" never contains "://" |
| Utf8.EncodeChar | src/pyqt_web_browser/utils.py:61 | One character encodes to one to four bytes; an ASCII character to its own code |
| Utf8.EncodeCharNonAscii | src/pyqt_web_browser/utils.py:61 | Every byte of a non-ASCII character's encoding is at least 0x80 |
| Utf8.Encode | src/pyqt_web_browser/utils.py:61 | The encoding has at least one byte per character |
| Utf8.EncodeAscii | src/pyqt_web_browser/utils.py:61 | ASCII text encodes byte for byte, each byte its character's code |
| Utf8.EncodeNoSpace | src/pyqt_web_browser/utils.py:61 | Text without ' ' has no 0x20 byte in its encoding |
| Utf8.DecodeFirstEncodeChar | src/pyqt_web_browser/utils.py:61 | Decoding the start of a character's encoding gives that character and consumes exactly its bytes, whatever follows |
| Utf8.DecodeEncode | src/pyqt_web_browser/utils.py:61 | Round trip: strict UTF-8 decoding of the encoding of any string gives the string back |
| Utf8.EncodeInjective | src/pyqt_web_browser/utils.py:61 | Different strings have different encodings |
| Utf8.EncodeCons | src/pyqt_web_browser/utils.py:61 | The encoding of c followed by s is the bytes of c followed by the encoding of s |
| Utf8.EncodeAppend | src/pyqt_web_browser/utils.py:61 | The encoding of a concatenation is the concatenation of the encodings |
| UrlParse.IsUnreserved | src/pyqt_web_browser/utils.py:61 | The bytes `quote` always leaves literal: A-Z, a-z, 0-9, '-', '.', '_', '~' |
| UrlParse.LiteralExactlyWhenUnreserved | src/pyqt_web_browser/utils.py:61 | A byte is written as its own character exactly when it is unreserved; a space and every other byte are rewritten |
| UrlParse.HexDigit | src/pyqt_web_browser/utils.py:61 | The digit written for 0..15 is an unreserved character that reads back as the same value |
| UrlParse.EncodeByte | src/pyqt_web_browser/utils.py:61 | A byte becomes one or three form characters; '+' exactly for the space; a '%' escape exactly when three characters long |
| UrlParse.FormEncode | src/pyqt_web_browser/utils.py:61 | The serialization is one to three characters per byte, all unreserved, '+' or '%' |
| UrlParse.QuotePlus | src/pyqt_web_browser/utils.py:61 | `quote_plus(s)` is at least as long as s and made of unreserved characters, '+' and '%' only |
| UrlParse.FormDecodeEncodeByte | src/pyqt_web_browser/utils.py:61 | Decoding the text of one byte gives that byte, then whatever the rest decodes to |
| UrlParse.FormDecodeEncode | src/pyqt_web_browser/utils.py:61 | Round trip over bytes: form-decoding the form encoding gives the bytes back |
| UrlParse.UnquotePlusQuotePlus | src/pyqt_web_browser/utils.py:61 | Round trip over text: decoding `quote_plus(s)` ('+' to space, %XX to byte, then UTF-8) gives back s, for every s |
| UrlParse.QuotePlusInjective | src/pyqt_web_browser/utils.py:61 | Two different queries never give the same search URL |
| UrlParse.QuotePlusHasNoDelimiters | src/pyqt_web_browser/utils.py:61 | The encoded query never holds a space, '/', '&', '=', '?' or '#' |
| UrlParse.FormEncodeNoPlus | src/pyqt_web_browser/utils.py:61 | Bytes without 0x20 encode without any '+' |
| UrlParse.QuotePlusPlusMeansSpace | src/pyqt_web_browser/utils.py:61 | A '+' in the encoded query appears only when the text had a space: a typed '+' always arrives escaped |
| UrlParse.FormEncodeAppend | src/pyqt_web_browser/utils.py:61 | Form encoding distributes over concatenation of byte strings |
| UrlParse.QuotePlusAppend | src/pyqt_web_browser/utils.py:61 | `quote_plus(a + b) == quote_plus(a) + quote_plus(b)`: no character's encoding depends on its neighbours |
| UrlParse.QuotePlusUnreserved | src/pyqt_web_browser/utils.py:61 | Text made only of unreserved characters is its own encoding |
| UtilsExamples.NoSchemeSeparator | src/pyqt_web_browser/utils.py:57 | A text with no '/' passes the "no ://" part of rule 3 |
| UtilsExamples.SearchesFor | src/pyqt_web_browser/utils.py:57-61 | A stripped text that rule 3 turns away (a ' ', no '.', or a "://"), with a parse that fails rule 2, gives the search prefix followed by its encoding |
| UtilsExamples.GetsHttps | src/pyqt_web_browser/utils.py:46-58 | A dotted text with no space or '/', padded with whitespace, gives "https://" + the text when its parse fails rule 2 |
| UtilsExamples.EmptyDefaultsToGoogle | tests/test_utils.py:21-23 | "" gives an address starting "https://www.google." |
| UtilsExamples.PlainDomainAddsScheme | tests/test_utils.py:26-28 | "example.com" gives exactly "https://example.com" when its parse fails rule 2 |
| UtilsExamples.FullUrlPassesThrough | tests/test_utils.py:31-34 | "https://www.python.org/", read by the parser as written, is returned as parsed, with scheme "https" and a host containing "python.org" |
| UtilsExamples.TutorialQuery | tests/test_utils.py:37-39 | quote_plus("pyqt5 webengine tutorial") is "pyqt5+webengine+tutorial" |
| UtilsExamples.QueryBecomesGoogleSearch | tests/test_utils.py:37-39 | "pyqt5 webengine tutorial" gives exactly https://www.google.com/search?q=pyqt5+webengine+tutorial when its parse fails rule 2 |
| UtilsExamples.LocalhostIsSearched | src/pyqt_web_browser/utils.py:57-61 | "localhost" has no '.', so it gives a search for "localhost" rather than an https address |
| UtilsExamples.InteriorTabStillBareDomain | src/pyqt_web_browser/utils.py:46-58 | " my\tsite.com\n" is stripped to "my\tsite.com", and the interior tab does not stop rule 3: the result is "https://my\tsite.com" |
| UtilsExamples.SpacedTextWithDotIsSearched | src/pyqt_web_browser/utils.py:57-61 | "my file.txt name" has a dot but also a space, so it is searched for as "my+file.txt+name" |
| UtilsExamples.QuoteThreeWords | src/pyqt_web_browser/utils.py:61 | Three words that encode to themselves, joined by single spaces, encode to the words joined by '+' |
| UtilsExamples.StarTildeQuery | src/pyqt_web_browser/utils.py:61 | quote_plus("*~") is "%2A~": '*' is escaped and '~' kept, unlike the WHATWG urlencoded serializer |
| UtilsExamples.PlusesQuery | src/pyqt_web_browser/utils.py:61 | quote_plus("c++") is "c%2B%2B" |
| UtilsExamples.SlashQuery | src/pyqt_web_browser/utils.py:61 | quote_plus(" a/b") is "+a%2Fb" |
| UtilsExamples.ReservedQuery | src/pyqt_web_browser/utils.py:61 | quote_plus("c++ a/b") is "c%2B%2B+a%2Fb" |
| UtilsExamples.SchemeTextIsSearched | src/pyqt_web_browser/utils.py:57-61 | "ftp://x.y" has a '.' and no space, but its "://" turns rule 3 away, so it gives the search URL for it when its parse fails rule 2 |
| UtilsExamples.ReservedCharactersEscaped | src/pyqt_web_browser/utils.py:57-61 | "c++ a/b" gives the search URL ending in "c%2B%2B+a%2Fb" when its parse fails rule 2 |

## Left out

- `QUrl.fromUserInput`, `isValid`, `scheme` and `host` are foreign Qt code. The parse is a parameter, and the model does not know what Qt returns for any text. Qt's parser usually reads a text like `example.com` as `http://example.com`, which passes rule 2. So every lemma about rules 3 and 4 carries the hypothesis that the parse fails rule 2's test.
- Qt's normalisation and `toString()` of the URLs built by rules 1, 3 and 4 are not modelled. Those results are kept as the strings handed to `QUrl(...)`.
- `UtilsExamples.FullUrlPassesThrough` is stated for a parser that reads "https://www.python.org/" as written. It does not model Qt's actual parse.
- Feeding rule 2's result back in (its `toString()` as the new input) gives the same URL only if Qt parses a URL's own text form back to that URL. Qt's parser is not modelled, so this idempotence is not stated.
- Python strings may hold lone surrogates, on which `quote_plus` raises `UnicodeEncodeError`. A Dafny `char` is a Unicode scalar value, so that error path cannot occur in the model.
- `UrlParse.UnquotePlus` is a strict decoder, used only to state the round trip. Python's `unquote_plus` is more lenient: it passes through malformed escapes and replaces invalid UTF-8. That leniency is not modelled.
- `quote_plus` arguments other than the default `safe=''`, and `quote_plus` on bytes, are not used by the code and are not modelled.
- The Qt window, tab, toolbar and settings code (`ui/main_window.py`), the web view wrapper with its floating-point zoom (`browser.py`), and the application bootstrap (`app.py`, `main.py`) are not part of this model. They are widget wiring around Qt.
