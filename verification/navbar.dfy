/** The top navigation bar: the scroll threshold, the search overlay whose
    text query becomes a catalog URL through encodeURIComponent (section
    19.2.6.4 of ECMA-262), and the visual search whose keywords do the same.
    The catalog page reads the query back as URLSearchParams does
    (application/x-www-form-urlencoded parsing, section 5.1 of the WHATWG
    URL standard). */
module NavbarComponent {
  import opened Prelude
  import ProductListPage

  // ---------------------------------------------------------------------
  // encodeURIComponent
  // ---------------------------------------------------------------------

  /** The characters encodeURIComponent leaves alone: ASCII letters and
      digits and - _ . ! ~ * ' ( ). */
  predicate Unreserved(c: char)
  {
    ('A' <= c <= 'Z') || ('a' <= c <= 'z') || ('0' <= c <= '9')
    || c == '-' || c == '_' || c == '.' || c == '!' || c == '~' || c == '*' || c == '\'' || c == '(' || c == ')'
  }

  predicate IsHexDigit(c: char)
  {
    ('0' <= c <= '9') || ('A' <= c <= 'F') || ('a' <= c <= 'f')
  }

  function HexValue(c: char): (n: int)
    requires IsHexDigit(c)
    ensures 0 <= n < 16
  {
    if '0' <= c <= '9' then c as int - '0' as int
    else if 'A' <= c <= 'F' then c as int - 'A' as int + 10
    else c as int - 'a' as int + 10
  }

  /** An upper-case hexadecimal digit. */
  function HexDigit(n: int): (c: char)
    requires 0 <= n < 16
    ensures IsHexDigit(c) && HexValue(c) == n
    ensures ('0' <= c <= '9') || ('A' <= c <= 'F')
  {
    if n < 10 then ('0' as int + n) as char else ('A' as int + n - 10) as char
  }

  /** The UTF-8 bytes of a code point. */
  function Utf8(c: char): (bytes: seq<int>)
    ensures 1 <= |bytes| <= 4
    ensures forall i :: 0 <= i < |bytes| ==> 0 <= bytes[i] < 256
    ensures (c as int) < 0x80 ==> bytes == [c as int]
    ensures (c as int) >= 0x80 ==> forall i :: 0 <= i < |bytes| ==> bytes[i] >= 0x80
  {
    var cp := c as int;
    if cp < 0x80 then [cp]
    else if cp < 0x800 then [0xC0 + cp / 64, 0x80 + cp % 64]
    else if cp < 0x10000 then [0xE0 + cp / 4096, 0x80 + (cp / 64) % 64, 0x80 + cp % 64]
    else [0xF0 + cp / 262144, 0x80 + (cp / 4096) % 64, 0x80 + (cp / 64) % 64, 0x80 + cp % 64]
  }

  /** The characters an encoded string may contain. */
  predicate UrlSafe(c: char)
  {
    Unreserved(c) || c == '%'
  }

  /** `%XY` for every byte. */
  function PercentBytes(bytes: seq<int>): (r: string)
    requires forall i :: 0 <= i < |bytes| ==> 0 <= bytes[i] < 256
    ensures |r| == 3 * |bytes|
    ensures forall i :: 0 <= i < |r| ==> UrlSafe(r[i])
  {
    if bytes == [] then []
    else ['%', HexDigit(bytes[0] / 16), HexDigit(bytes[0] % 16)] + PercentBytes(bytes[1..])
  }

  function EncodeChar(c: char): (r: string)
    ensures forall i :: 0 <= i < |r| ==> UrlSafe(r[i])
  {
    if Unreserved(c) then [c] else PercentBytes(Utf8(c))
  }

  /** encodeURIComponent. Dafny strings hold no lone surrogates, so the
      URIError case of the standard cannot arise. */
  function EncodeURIComponent(s: string): (r: string)
    ensures forall i :: 0 <= i < |r| ==> UrlSafe(r[i])
    ensures (forall i :: 0 <= i < |s| ==> Unreserved(s[i])) ==> r == s
    ensures |s| <= |r|
  {
    if s == [] then [] else EncodeChar(s[0]) + EncodeURIComponent(s[1..])
  }

  // ---------------------------------------------------------------------
  // URLSearchParams
  // ---------------------------------------------------------------------

  /** Form decoding: `+` is a space and `%XY` is the byte XY. Each byte
      becomes one character, which is exact for ASCII. */
  function FormDecode(s: string): (r: string)
    decreases |s|
  {
    if s == [] then []
    else if s[0] == '+' then " " + FormDecode(s[1..])
    else if s[0] == '%' && |s| >= 3 && IsHexDigit(s[1]) && IsHexDigit(s[2]) then
      [(HexValue(s[1]) * 16 + HexValue(s[2])) as char] + FormDecode(s[3..])
    else [s[0]] + FormDecode(s[1..])
  }

  predicate IsAscii(s: string)
  {
    forall i :: 0 <= i < |s| ==> (s[i] as int) < 0x80
  }

  /** Decoding undoes the encoding of one ASCII character. */
  lemma DecodeEncodedChar(c: char, rest: string)
    requires (c as int) < 0x80
    ensures FormDecode(EncodeChar(c) + rest) == [c] + FormDecode(rest)
  {
    var s := EncodeChar(c) + rest;
    if Unreserved(c) {
      assert s[0] == c && s[1..] == rest;
    } else {
      var b := c as int;
      assert Utf8(c) == [b];
      assert PercentBytes([b]) == ['%', HexDigit(b / 16), HexDigit(b % 16)] + PercentBytes([]);
      assert s == ['%', HexDigit(b / 16), HexDigit(b % 16)] + rest;
      assert s[3..] == rest;
      assert HexValue(s[1]) * 16 + HexValue(s[2]) == b;
    }
  }

  /** Form decoding recovers any ASCII text from its encodeURIComponent form. */
  lemma {:induction false} DecodeEncodeAscii(s: string)
    requires IsAscii(s)
    ensures FormDecode(EncodeURIComponent(s)) == s
    decreases |s|
  {
    if s != [] {
      assert IsAscii(s[1..]) by {
        forall i | 0 <= i < |s[1..]| ensures (s[1..][i] as int) < 0x80 {
          assert s[1..][i] == s[i + 1];
        }
      }
      DecodeEncodeAscii(s[1..]);
      DecodeEncodedChar(s[0], EncodeURIComponent(s[1..]));
    }
  }

  /** A name=value pair split at its first `=`; a pair without one has an
      empty value. */
  function SplitPair(p: string): (r: (string, string))
    ensures '=' !in p ==> r == (p, "")
    ensures forall i :: 0 <= i < |r.0| ==> r.0[i] != '='
  {
    if p == [] then ("", "")
    else if p[0] == '=' then ("", p[1..])
    else
      var rest := SplitPair(p[1..]);
      assert '=' !in p ==> '=' !in p[1..];
      assert [p[0]] + p[1..] == p;
      ([p[0]] + rest.0, rest.1)
  }

  /** The pairs of a query string, decoded; empty pairs are skipped and the
      first pair with a name gives that name's value, as `get` returns. */
  function ParsePairs(pairs: seq<string>): ProductListPage.Params
    decreases |pairs|
  {
    if pairs == [] then map[]
    else
      var rest := ParsePairs(pairs[1..]);
      if pairs[0] == "" then rest
      else
        var kv := SplitPair(pairs[0]);
        rest[FormDecode(kv.0) := FormDecode(kv.1)]
  }

  /** `new URLSearchParams(search)` for the part of a URL after `?`. */
  function SearchParams(search: string): ProductListPage.Params
  {
    ParsePairs(Split(search, '&'))
  }

  // ---------------------------------------------------------------------
  // The bar
  // ---------------------------------------------------------------------

  datatype Navbar = Navbar(isScrolled: bool, isSearchOpen: bool, searchQuery: string, isVisualSearching: bool)

  const InitialNavbar := Navbar(false, false, "", false)

  /** The scroll handler: the compact bar from 30 pixels down. */
  function Scroll(n: Navbar, scrollY: real): (r: Navbar)
    ensures r.isScrolled <==> scrollY > 30.0
    ensures r.(isScrolled := n.isScrolled) == n
  {
    n.(isScrolled := scrollY > 30.0)
  }

  /** The catalog URL for a search text. */
  function SearchUrl(query: string): (r: string)
    ensures StartsWith(r, "/products?q=") && |r| >= |"/products?q="| + |query|
    ensures forall i :: |"/products?q="| <= i < |r| ==> UrlSafe(r[i])
  {
    "/products?q=" + EncodeURIComponent(query)
  }

  /** handleSearchSubmit: a query of white space only does nothing; any
      other closes the overlay, clears the field and navigates with the
      untrimmed text. */
  function SubmitSearch(n: Navbar): (r: (Navbar, Option<string>))
    ensures r.1.None? <==> forall i :: 0 <= i < |n.searchQuery| ==> IsJsSpace(n.searchQuery[i])
    ensures r.1.None? ==> r.0 == n
    ensures r.1.Some? ==> (r.1.value == SearchUrl(n.searchQuery)
      && !r.0.isSearchOpen && r.0.searchQuery == "" && r.0.isVisualSearching == n.isVisualSearching)
  {
    TrimEmptyIffBlank(n.searchQuery);
    if Trim(n.searchQuery) != "" then
      (n.(isSearchOpen := false, searchQuery := ""), Some(SearchUrl(n.searchQuery)))
    else (n, None)
  }

  lemma SplitPairOfQ(e: string)
    ensures SplitPair("q=" + e) == ("q", e)
  {
    var p := "q=" + e;
    assert ("=" + e)[0] == '=' && ("=" + e)[1..] == e;
    assert SplitPair("=" + e) == ("", e);
    assert p[0] == 'q' && p[1..] == "=" + e;
    assert SplitPair(p) == ([p[0]] + "", e);
    assert [p[0]] + "" == "q";
  }

  /** The catalog page reads back exactly the ASCII text that was searched
      for: the encoding introduces no `&`, so the URL has the one pair `q`. */
  lemma SearchRoundTrip(query: string)
    requires IsAscii(query)
    ensures var url := SearchUrl(query);
      StartsWith(url, "/products?")
      && ProductListPage.SearchQuery(SearchParams(url[|"/products?"|..])) == query
  {
    var e := EncodeURIComponent(query);
    var url := SearchUrl(query);
    assert url[..10] == "/products?";
    var search := url[10..];
    assert search == "q=" + e;
    assert '&' !in search by {
      forall i | 0 <= i < |search| ensures search[i] != '&' {
        if i >= 2 {
          assert search[i] == e[i - 2];
        }
      }
    }
    SplitNone(search, '&');
    SplitPairOfQ(e);
    assert SearchParams(search) == ParsePairs([search]);
    assert ParsePairs([search][1..]) == map[];
    assert FormDecode("q") == "q";
    DecodeEncodeAscii(query);
  }

  /** What the visual search service answers: an object whose keyword list
      may be missing, null, or a rejection. */
  datatype VisualOutcome = Answer(keywords: Option<seq<string>>) | NullAnswer | Rejected

  /** `result.keywords?.join(' ') || ''`. */
  function KeywordQuery(keywords: Option<seq<string>>): (q: string)
    ensures keywords.None? ==> q == ""
    ensures keywords.Some? ==> q == Join(keywords.value, " ")
  {
    if keywords.Some? then Join(keywords.value, " ") else ""
  }

  /** Keywords without spaces are recovered from the query by splitting on
      spaces: the join puts exactly one space between neighbours. */
  lemma {:induction false} KeywordsRoundTrip(keywords: seq<string>)
    requires |keywords| > 0
    requires forall i :: 0 <= i < |keywords| ==> ' ' !in keywords[i]
    ensures Split(KeywordQuery(Some(keywords)), ' ') == keywords
    decreases |keywords|
  {
    if |keywords| == 1 {
      SplitNone(keywords[0], ' ');
    } else {
      var rest := keywords[1..];
      assert forall i :: 0 <= i < |rest| ==> ' ' !in rest[i] by {
        forall i | 0 <= i < |rest| ensures ' ' !in rest[i] {
          assert rest[i] == keywords[i + 1];
        }
      }
      KeywordsRoundTrip(rest);
      assert Join(keywords, " ") == keywords[0] + [' '] + Join(rest, " ");
      SplitCons(keywords[0], ' ', Join(rest, " "));
    }
  }

  /** Choosing a photo for the visual search: the upload button is disabled
      while the service works. */
  function StartVisualSearch(n: Navbar): (r: Navbar)
    ensures r.isVisualSearching && r.(isVisualSearching := n.isVisualSearching) == n
  {
    n.(isVisualSearching := true)
  }

  /** The end of a visual search as written: an answer navigates and closes
      the overlay; the flag is cleared after a null answer too, but a
      rejection escapes the handler before the flag is cleared. */
  function VisualSearchDoneAsWritten(n: Navbar, outcome: VisualOutcome): (r: (Navbar, Option<string>))
    ensures outcome.Answer? ==> r.1 == Some(SearchUrl(KeywordQuery(outcome.keywords))) && !r.0.isSearchOpen
    ensures !outcome.Answer? ==> r.1.None? && r.0.isSearchOpen == n.isSearchOpen
    ensures r.0.isVisualSearching <==> outcome.Rejected? && n.isVisualSearching
  {
    match outcome
    case Answer(k) => (n.(isSearchOpen := false, isVisualSearching := false), Some(SearchUrl(KeywordQuery(k))))
    case NullAnswer => (n.(isVisualSearching := false), None)
    case Rejected => (n, None)
  }

  /** A rejected visual search leaves the upload button disabled, and no
      later event of the bar clears the flag. */
  lemma RejectedVisualSearchStaysDisabled(n: Navbar, query: string, scrollY: real)
    ensures var r := VisualSearchDoneAsWritten(StartVisualSearch(n), Rejected).0;
      r.isVisualSearching
      && SubmitSearch(r.(searchQuery := query)).0.isVisualSearching
      && Scroll(r, scrollY).isVisualSearching
  {
  }

  /** The end of a visual search with the flag cleared in every outcome,
      as the other AI-backed handlers of the application do. */
  function VisualSearchDone(n: Navbar, outcome: VisualOutcome): (r: (Navbar, Option<string>))
    ensures outcome.Answer? ==> r.1 == Some(SearchUrl(KeywordQuery(outcome.keywords))) && !r.0.isSearchOpen
    ensures !outcome.Answer? ==> r.1.None? && r.0.isSearchOpen == n.isSearchOpen
    ensures !r.0.isVisualSearching
  {
    match outcome
    case Answer(k) => (n.(isSearchOpen := false, isVisualSearching := false), Some(SearchUrl(KeywordQuery(k))))
    case NullAnswer => (n.(isVisualSearching := false), None)
    case Rejected => (n.(isVisualSearching := false), None)
  }

  /** The corrected handler agrees with the one as written except that a
      rejection re-enables the upload button. */
  lemma VisualSearchDoneAgrees(n: Navbar, outcome: VisualOutcome)
    ensures !outcome.Rejected? ==> VisualSearchDone(n, outcome) == VisualSearchDoneAsWritten(n, outcome)
    ensures outcome.Rejected? ==> VisualSearchDone(n, outcome).0 == VisualSearchDoneAsWritten(n, outcome).0.(isVisualSearching := false)
  {
  }
}
