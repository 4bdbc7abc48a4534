/** The web adapter `URLScraper`: arXiv helpers, the whitespace cleanup of extracted page text,
    and the defaulting of page metadata. Fetching and HTML parsing are outside the model: the page
    arrives as the handful of lookups the adapter makes on the parsed document. */
module UrlScraping {
  import opened Wrappers
  import opened Text
  import opened Scanning
  import opened Records
  import opened Seqs

  // ---------------------------------------------------------------------------------------------
  // arXiv helpers

  /** `is_arxiv_url`: `'arxiv.org' in url.lower()`. */
  predicate IsArxivUrl(url: string) {
    Contains(Lower(url), "arxiv.org")
  }

  /** An arXiv identifier as the extraction expression captures it: `\d+\.\d+`. */
  ghost predicate IsArxivId(id: string) {
    exists p :: 0 < p < |id| - 1 && id[p] == '.' && AllDigits(id[..p]) && AllDigits(id[p + 1..])
  }

  predicate AllDigits(s: string) {
    forall k :: 0 <= k < |s| ==> IsDigit(s[k])
  }

  /** `get_arxiv_pdf_url`. */
  function PdfUrl(id: string): (r: string)
    ensures |r| == |id| + 26
  {
    "https://arxiv.org/pdf/" + id + ".pdf"
  }

  /** The expression `arxiv\.org/(?:abs|pdf)/(\d+\.\d+)` tried at position `i`; the group if it matches.
      Each item's characters are disjoint from the next item's, so the greedy scan is the only match. */
  function ArxivIdAt(url: string, i: nat): (r: Option<string>)
    requires i <= |url|
    ensures r.Some? ==> OccursAt(url, i, "arxiv.org") && IsArxivId(r.value) && OccursAt(url, i + 14, r.value)
  {
    if OccursAt(url, i, "arxiv.org") && i + 9 < |url| && url[i + 9] == '/'
       && (OccursAt(url, i + 10, "abs/") || OccursAt(url, i + 10, "pdf/")) then
      var k := i + 14;
      var d := RunEnd(url, k, Digit);
      if d > k && d < |url| && url[d] == '.' then
        var e := RunEnd(url, d + 1, Digit);
        if e > d + 1 then
          IdFromRuns(url, k, d, e);
          Some(url[k..e])
        else None
      else None
    else None
  }

  /** Two digit runs joined by a dot form an identifier. */
  lemma IdFromRuns(url: string, k: nat, d: nat, e: nat)
    requires k < d < |url| && d == RunEnd(url, k, Digit) && url[d] == '.'
    requires d + 1 < e && e == RunEnd(url, d + 1, Digit)
    ensures IsArxivId(url[k..e])
  {
    var id := url[k..e];
    var p := d - k;
    assert id[p] == url[d];
    var head, tail := id[..p], id[p + 1..];
    forall m | 0 <= m < |head|
      ensures IsDigit(head[m])
    {
      assert head[m] == url[k + m] && InClass(url[k + m], Digit);
    }
    forall m | 0 <= m < |tail|
      ensures IsDigit(tail[m])
    {
      assert tail[m] == url[d + 1 + m] && InClass(url[d + 1 + m], Digit);
    }
    assert AllDigits(id[..p]) && AllDigits(id[p + 1..]);
  }

  /** `re.search` from position `i`: the group of the leftmost match at or after `i`. */
  function ArxivSearch(url: string, i: nat): (r: Option<string>)
    requires i <= |url|
    ensures r.Some? ==> Contains(url, "arxiv.org") && IsArxivId(r.value) && Contains(url, r.value)
    decreases |url| - i
  {
    match ArxivIdAt(url, i)
    case Some(id) => Some(id)
    case None => if i == |url| then None else ArxivSearch(url, i + 1)
  }

  /** `extract_arxiv_id`: the captured identifier of the first match, or None. */
  function ExtractArxivId(url: string): Option<string> {
    ArxivSearch(url, 0)
  }

  /** Whatever is extracted is a well-formed identifier taken from the URL, and the URL is one that
      `is_arxiv_url` accepts. */
  lemma ArxivIdSound(url: string)
    requires ExtractArxivId(url).Some?
    ensures IsArxivId(ExtractArxivId(url).value) && Contains(url, ExtractArxivId(url).value)
    ensures IsArxivUrl(url)
  {
    assert NoUpper("arxiv.org");
    ContainsLower(url, "arxiv.org");
  }

  /** Positions where no match starts do not change the search. */
  lemma {:induction false} ArxivSearchSkips(url: string, i: nat, j: nat)
    requires i <= j <= |url|
    requires forall m :: i <= m < j ==> ArxivIdAt(url, m).None?
    ensures ArxivSearch(url, i) == ArxivSearch(url, j)
    decreases j - i
  {
    if i < j {
      assert ArxivIdAt(url, i).None?;
      assert ArxivSearch(url, i) == ArxivSearch(url, i + 1);
      ArxivSearchSkips(url, i + 1, j);
    }
  }

  /** The digit runs of a well-formed identifier end where the identifier's parts end. */
  lemma IdRuns(s: string, k: nat, id: string, p: nat)
    requires k + |id| <= |s| && s[k..k + |id|] == id
    requires 0 < p < |id| - 1 && id[p] == '.' && AllDigits(id[..p]) && AllDigits(id[p + 1..])
    requires k + |id| == |s| || !IsDigit(s[k + |id|])
    ensures RunEnd(s, k, Digit) == k + p
    ensures RunEnd(s, k + p + 1, Digit) == k + |id|
  {
    assert forall m :: k <= m < k + |id| ==> s[m] == id[m - k];
    assert forall m :: k <= m < k + p ==> IsDigit(s[m]) by {
      assert forall m :: 0 <= m < p ==> id[..p][m] == id[m];
    }
    assert forall m :: k + p + 1 <= m < k + |id| ==> IsDigit(s[m]) by {
      assert forall m :: p + 1 <= m < |id| ==> id[p + 1..][m - p - 1] == id[m];
    }
    RunEndExact(s, k, k + p);
    RunEndExact(s, k + p + 1, k + |id|);
  }

  /** A digit run from `i` that stops at a non-digit `j` ends at `j`. */
  lemma {:induction false} RunEndExact(s: string, i: nat, j: nat)
    requires i <= j <= |s|
    requires forall m :: i <= m < j ==> IsDigit(s[m])
    requires j == |s| || !IsDigit(s[j])
    ensures RunEnd(s, i, Digit) == j
    decreases j - i
  {
    if i < j {
      RunEndExact(s, i + 1, j);
    }
  }

  /** A word cannot occur where its first character does not. */
  lemma OccursAtHead(s: string, m: nat, w: string)
    requires w != []
    ensures OccursAt(s, m, w) ==> m < |s| && s[m] == w[0]
  {
    if OccursAt(s, m, w) {
      assert s[m..m + |w|][0] == s[m];
    }
  }

  /** A match can only start at an `a`. */
  lemma ArxivIdAtHead(url: string, i: nat)
    requires i <= |url|
    ensures ArxivIdAt(url, i).Some? ==> i < |url| && url[i] == 'a'
  {
    OccursAtHead(url, i, "arxiv.org");
  }

  /** The address built for an identifier starts with the host, the `pdf/` path and the identifier. */
  lemma PdfUrlShape(id: string)
    ensures OccursAt(PdfUrl(id), 8, "arxiv.org") && PdfUrl(id)[17] == '/' && OccursAt(PdfUrl(id), 18, "pdf/")
    ensures PdfUrl(id)[22..22 + |id|] == id && PdfUrl(id)[22 + |id|] == '.'
    ensures forall m :: 0 <= m < 8 ==> PdfUrl(id)[m] != 'a'
  {
    var u := PdfUrl(id);
    var host := "arxiv.org";
    var path := "pdf/";
    assert u == "https://" + host + "/" + path + id + ".pdf";
    assert forall m :: 0 <= m < 9 ==> u[8 + m] == host[m];
    assert u[8..17] == host;
    assert forall m :: 0 <= m < 4 ==> u[18 + m] == path[m];
    assert u[18..22] == path;
  }

  /** Round trip: the identifier of the PDF address built for a well-formed identifier is that identifier. */
  lemma PdfUrlRoundTrip(id: string)
    requires IsArxivId(id)
    ensures ExtractArxivId(PdfUrl(id)) == Some(id)
  {
    var p :| 0 < p < |id| - 1 && id[p] == '.' && AllDigits(id[..p]) && AllDigits(id[p + 1..]);
    PdfUrlShape(id);
    ExtractFromPdfShape(PdfUrl(id), id, p);
  }

  /** An address whose first eight characters hold no `a`, followed by the host, a slash, `pdf/`, the
      identifier and a dot, yields that identifier. */
  lemma ExtractFromPdfShape(u: string, id: string, p: nat)
    requires 0 < p < |id| - 1 && id[p] == '.' && AllDigits(id[..p]) && AllDigits(id[p + 1..])
    requires 22 + |id| < |u|
    requires OccursAt(u, 8, "arxiv.org") && u[17] == '/' && OccursAt(u, 18, "pdf/")
    requires u[22..22 + |id|] == id && u[22 + |id|] == '.'
    requires forall m :: 0 <= m < 8 ==> u[m] != 'a'
    ensures ExtractArxivId(u) == Some(id)
  {
    forall m | 0 <= m < 8
      ensures ArxivIdAt(u, m).None?
    {
      ArxivIdAtHead(u, m);
    }
    ArxivSearchSkips(u, 0, 8);
    IdRuns(u, 22, id, p);
    ArxivIdAtPdf(u, 8, id, p);
    assert ArxivSearch(u, 8) == Some(id);
  }

  /** The expression matches at `i` when the host, a slash and `pdf/` are followed by the digit runs
      of an identifier. */
  lemma ArxivIdAtPdf(url: string, i: nat, id: string, p: nat)
    requires i + 14 + |id| <= |url| && 0 < p < |id| - 1
    requires OccursAt(url, i, "arxiv.org") && url[i + 9] == '/' && OccursAt(url, i + 10, "pdf/")
    requires url[i + 14..i + 14 + |id|] == id && url[i + 14 + p] == '.'
    requires RunEnd(url, i + 14, Digit) == i + 14 + p
    requires RunEnd(url, i + 14 + p + 1, Digit) == i + 14 + |id|
    ensures ArxivIdAt(url, i) == Some(id)
  {
  }

  // ---------------------------------------------------------------------------------------------
  // Whitespace cleanup of the extracted text

  /** `c` repeated `n` times. */
  function Repeat(c: char, n: nat): (r: string)
    ensures |r| == n && forall k :: 0 <= k < n ==> r[k] == c
  {
    if n == 0 then [] else Repeat(c, n - 1) + [c]
  }

  /** How many copies of `c` end `s`. */
  function TrailingRun(s: string, c: char): (n: nat)
    ensures n <= |s|
    ensures forall k :: |s| - n <= k < |s| ==> s[k] == c
    ensures n < |s| ==> s[|s| - 1 - n] != c
  {
    if s != [] && s[|s| - 1] == c then TrailingRun(s[..|s| - 1], c) + 1 else 0
  }

  /** Appending one character to `s` extends its trailing run of that character and ends any other. */
  lemma TrailingRunAppend(s: string, x: char, c: char)
    ensures TrailingRun(s + [x], c) == if x == c then TrailingRun(s, c) + 1 else 0
  {
    assert (s + [x])[..|s|] == s;
  }

  /** A suffix of copies of `c` is part of the trailing run. */
  lemma {:induction false} TrailingRunAtLeast(s: string, c: char, m: nat)
    requires m <= |s| && forall k :: |s| - m <= k < |s| ==> s[k] == c
    ensures TrailingRun(s, c) >= m
  {
    if m > 0 {
      TrailingRunAtLeast(s[..|s| - 1], c, m - 1);
    }
  }

  /** No run of `c` in `s` is `n` characters long or longer: every prefix ends in fewer than `n` copies. */
  predicate RunsBelow(s: string, c: char, n: nat)
    decreases |s|
  {
    s == [] || (TrailingRun(s, c) < n && RunsBelow(s[..|s| - 1], c, n))
  }

  /** Runs below `n` means exactly that the text does not contain `n` copies of `c` in a row. */
  lemma {:induction false} RunsBelowMeans(s: string, c: char, n: nat)
    requires n >= 1
    ensures RunsBelow(s, c, n) <==> !Contains(s, Repeat(c, n))
    decreases |s|
  {
    var w := Repeat(c, n);
    if s != [] {
      var init := s[..|s| - 1];
      RunsBelowMeans(init, c, n);
      if RunsBelow(s, c, n) {
        forall i | 0 <= i <= |s| - n
          ensures !OccursAt(s, i, w)
        {
          RunOccurrence(s, c, n, i);
        }
      } else if TrailingRun(s, c) >= n {
        var tail := s[|s| - n..];
        assert forall k :: 0 <= k < n ==> tail[k] == c;
        assert tail == w;
        assert s[|s| - n..|s| - n + n] == w;
        assert OccursAt(s, |s| - n, w);
      } else {
        var i :| 0 <= i <= |init| - n && OccursAt(init, i, w);
        assert init[i..i + n] == s[i..i + n];
        assert OccursAt(s, i, w);
      }
    }
  }

  /** An occurrence of `n` copies of `c` either lies before the last character or ends the text. */
  lemma RunOccurrence(s: string, c: char, n: nat, i: nat)
    requires n >= 1 && s != []
    ensures OccursAt(s, i, Repeat(c, n)) ==> OccursAt(s[..|s| - 1], i, Repeat(c, n)) || TrailingRun(s, c) >= n
  {
    var w := Repeat(c, n);
    if OccursAt(s, i, w) {
      if i + n < |s| {
        OccursBeforeLast(s, i, w);
      } else {
        OccursAtEnd(s, i, w, c);
        TrailingRunAtLeast(s, c, n);
      }
    }
  }

  /** An occurrence that stops before the last character is an occurrence in the text without it. */
  lemma OccursBeforeLast(s: string, i: nat, w: string)
    requires OccursAt(s, i, w) && i + |w| < |s|
    ensures OccursAt(s[..|s| - 1], i, w)
  {
    assert s[..|s| - 1][i..i + |w|] == s[i..i + |w|];
  }

  /** An occurrence of copies of `c` that ends the text makes its last characters copies of `c`. */
  lemma OccursAtEnd(s: string, i: nat, w: string, c: char)
    requires OccursAt(s, i, w) && i + |w| == |s|
    requires forall k :: 0 <= k < |w| ==> w[k] == c
    ensures forall k :: |s| - |w| <= k < |s| ==> s[k] == c
  {
    forall k | |s| - |w| <= k < |s|
      ensures s[k] == c
    {
      assert s[k] == s[i..i + |w|][k - i];
    }
  }

  /** `re.sub(c + '{n,}', c * (n - 1), s)` for `n >= 1`: each maximal run of `n` or more copies of `c`
      becomes exactly `n - 1` copies and shorter runs stay. Scanning from the left, a copy of `c` is
      dropped once the output already ends in `n - 1` copies; every other character is kept. */
  function Cap(s: string, c: char, n: nat): string
    decreases |s|
  {
    if s == [] then [] else
      var r := Cap(s[..|s| - 1], c, n);
      if s[|s| - 1] == c && TrailingRun(r, c) + 1 >= n then r else r + [s[|s| - 1]]
  }

  /** After capping, no run of `c` reaches `n`. */
  lemma {:induction false} CapRunsBelow(s: string, c: char, n: nat)
    requires n >= 1
    ensures RunsBelow(Cap(s, c, n), c, n)
    decreases |s|
  {
    if s != [] {
      var init := s[..|s| - 1];
      var r := Cap(init, c, n);
      var x := s[|s| - 1];
      CapRunsBelow(init, c, n);
      if !(x == c && TrailingRun(r, c) + 1 >= n) {
        var t := r + [x];
        assert Cap(s, c, n) == t;
        TrailingRunAppend(r, x, c);
        assert t[..|t| - 1] == r;
        assert TrailingRun(t, c) < n;
      }
    }
  }

  /** Capping `c` with `n >= 2` keeps the last character and every trailing run of another character. */
  lemma {:induction false} CapKeepsOthers(s: string, c: char, n: nat, d: char)
    requires n >= 2 && d != c
    ensures TrailingRun(Cap(s, c, n), d) == TrailingRun(s, d)
    ensures s != [] ==> Cap(s, c, n) != [] && Cap(s, c, n)[|Cap(s, c, n)| - 1] == s[|s| - 1]
    decreases |s|
  {
    if s != [] {
      var init := s[..|s| - 1];
      var r := Cap(init, c, n);
      var x := s[|s| - 1];
      CapKeepsOthers(init, c, n, d);
      assert s == init + [x];
      TrailingRunAppend(init, x, d);
      if !(x == c && TrailingRun(r, c) + 1 >= n) {
        TrailingRunAppend(r, x, d);
      }
    }
  }

  /** Capping one character does not lengthen the runs of another. */
  lemma {:induction false} CapPreservesRunsBelow(s: string, c: char, n: nat, d: char, m: nat)
    requires n >= 2 && d != c && RunsBelow(s, d, m)
    ensures RunsBelow(Cap(s, c, n), d, m)
    decreases |s|
  {
    if s != [] {
      var init := s[..|s| - 1];
      var r := Cap(init, c, n);
      var x := s[|s| - 1];
      CapPreservesRunsBelow(init, c, n, d, m);
      if !(x == c && TrailingRun(r, c) + 1 >= n) {
        CapKeepsOthers(s, c, n, d);
        assert (r + [x])[..|r|] == r;
      }
    }
  }

  /** A text whose runs of `c` are already short is left unchanged by capping. */
  lemma {:induction false} CapIdentity(s: string, c: char, n: nat)
    requires n >= 1 && RunsBelow(s, c, n)
    ensures Cap(s, c, n) == s
    decreases |s|
  {
    if s != [] {
      var init := s[..|s| - 1];
      CapIdentity(init, c, n);
      var x := s[|s| - 1];
      assert s == init + [x];
      TrailingRunAppend(init, x, c);
    }
  }

  /** The test "is not `c`". */
  function Other(c: char): char -> bool {
    x => x != c
  }

  /** Capping deletes copies of `c` only: every other character stays, in order. */
  lemma {:induction false} CapKeepsTheRest(s: string, c: char, n: nat)
    ensures Filter(Cap(s, c, n), Other(c)) == Filter(s, Other(c))
    decreases |s|
  {
    if s != [] {
      var init := s[..|s| - 1];
      var r := Cap(init, c, n);
      var x := s[|s| - 1];
      CapKeepsTheRest(init, c, n);
      assert s == init + [x];
      FilterConcat(init, [x], Other(c));
      FilterConcat(r, [x], Other(c));
      assert Filter([x], Other(c)) == (if x != c then [x] else []) + Filter([], Other(c));
    }
  }

  /** The three cleanup steps of `_extract_text`: `\n{3,}` to a blank line, ` {2,}` to one space, strip. */
  function Clean(s: string): string {
    Strip(Cap(Cap(s, '\n', 3), ' ', 2))
  }

  /** A piece of a text without `w` has no `w` either. */
  lemma PieceAvoids(a: string, b: string, w: string)
    requires Contains(a, b) && !Contains(a, w)
    ensures !Contains(b, w)
  {
    if Contains(b, w) {
      ContainsTransitive(a, b, w);
    }
  }

  /** Cleaned text has no three newlines in a row, no two spaces in a row, and no surrounding whitespace. */
  lemma CleanShape(s: string)
    ensures !Contains(Clean(s), "\n\n\n")
    ensures !Contains(Clean(s), "  ")
    ensures Clean(s) == [] || (!IsSpace(Clean(s)[0]) && !IsSpace(Clean(s)[|Clean(s)| - 1]))
  {
    var a := Cap(s, '\n', 3);
    var b := Cap(a, ' ', 2);
    CapRunsBelow(s, '\n', 3);
    CapPreservesRunsBelow(a, ' ', 2, '\n', 3);
    CapRunsBelow(a, ' ', 2);
    RunsBelowMeans(b, '\n', 3);
    RunsBelowMeans(b, ' ', 2);
    CleanRuns();
    PieceAvoids(b, Strip(b), "\n\n\n");
    PieceAvoids(b, Strip(b), "  ");
  }

  /** The two runs the cleanup removes. */
  lemma CleanRuns()
    ensures Repeat('\n', 3) == "\n\n\n" && Repeat(' ', 2) == "  "
  {
  }

  /** Cleaning is idempotent. */
  lemma CleanIdempotent(s: string)
    ensures Clean(Clean(s)) == Clean(s)
  {
    var t := Clean(s);
    CleanShape(s);
    CleanRuns();
    RunsBelowMeans(t, '\n', 3);
    CapIdentity(t, '\n', 3);
    var a := Cap(t, '\n', 3);
    assert a == t;
    RunsBelowMeans(t, ' ', 2);
    CapIdentity(t, ' ', 2);
    var b := Cap(a, ' ', 2);
    assert b == t;
    StripStripped(t);
    assert Clean(t) == Strip(b);
  }

  // ---------------------------------------------------------------------------------------------
  // Text and metadata of a fetched page

  /** `[t.strip() for t in texts if t.strip()]`: the stripped paragraph texts that are not empty. */
  function Paragraphs(texts: seq<string>): (r: seq<string>)
    ensures |r| <= |texts|
    ensures forall k :: 0 <= k < |r| ==> Trimmed(r[k])
  {
    if texts == [] then [] else
      var t := Strip(texts[0]);
      var rest := Paragraphs(texts[1..]);
      if t == [] then rest else
        TrimmedCons(t, rest);
        [t] + rest
  }

  /** Putting a trimmed text in front of trimmed texts keeps them all trimmed. */
  lemma TrimmedCons(t: string, rest: seq<string>)
    requires Trimmed(t)
    requires forall k :: 0 <= k < |rest| ==> Trimmed(rest[k])
    ensures forall k :: 0 <= k < |[t] + rest| ==> Trimmed(([t] + rest)[k])
  {
    var r := [t] + rest;
    forall k | 0 <= k < |r|
      ensures Trimmed(r[k])
    {
      if k > 0 {
        assert r[k] == rest[k - 1];
      }
    }
  }

  /** A non-empty text that neither starts nor ends with whitespace. */
  predicate Trimmed(t: string) {
    t != [] && !IsSpace(t[0]) && !IsSpace(t[|t| - 1])
  }

  /** What `_extract_text` reads from the parsed page: the texts of the paragraph and heading elements
      of the first main-content element found, if there is one, and the whole page text. */
  datatype PageText = PageText(mainParagraphs: Option<seq<string>>, allText: string)

  /** `_extract_text`: the paragraphs joined by blank lines, or the page text when there is no main
      content element, then cleaned up substitution by substitution. */
  method ExtractText(page: PageText) returns (text: string)
    ensures text == Clean(BodyText(page))
    ensures !Contains(text, "\n\n\n") && !Contains(text, "  ")
    ensures text == [] || (!IsSpace(text[0]) && !IsSpace(text[|text| - 1]))
  {
    match page.mainParagraphs {
      case Some(texts) => text := Join(Paragraphs(texts), "\n\n");
      case None => text := page.allText;
    }
    ghost var raw := text;
    text := Cap(text, '\n', 3);
    text := Cap(text, ' ', 2);
    text := Strip(text);
    CleanShape(raw);
  }

  /** The text `_extract_text` cleans: the main paragraphs joined by blank lines, or the page text. */
  function BodyText(page: PageText): string {
    match page.mainParagraphs
    case Some(texts) => Join(Paragraphs(texts), "\n\n")
    case None => page.allText
  }

  /** One `soup.find` for a `<meta>` tag: None when the tag is absent, otherwise its `content`
      attribute, itself None when the attribute is missing. */
  type MetaTag = Option<Option<string>>

  /** What `_extract_metadata` reads from the parsed page: the stripped text of `<title>` if present,
      and the `og:title`, `author`, `description` and `article:published_time` meta tags. */
  datatype HeadTags = HeadTags(
    title: Option<string>,
    ogTitle: MetaTag,
    author: MetaTag,
    description: MetaTag,
    publishedTime: MetaTag)

  /** The dictionary `_extract_metadata` ends with, written as one value. */
  function MetadataOf(tags: HeadTags, url: string): Metadata {
    Metadata(
      title := Some(match tags.title
                    case Some(t) => Strip(t)
                    case None => match tags.ogTitle
                                 case Some(tag) => tag.GetOr("Unknown")
                                 case None => "Unknown"),
      author := Some(match tags.author
                     case Some(tag) => tag.GetOr("Unknown")
                     case None => "Unknown"),
      subject := None,
      pages := None,
      source := Some(url),
      kind := Some("url"),
      description := match tags.description
                     case Some(tag) => Some(tag.GetOr(""))
                     case None => None,
      publishedDate := match tags.publishedTime
                       case Some(tag) => Some(tag.GetOr(""))
                       case None => None)
  }

  /** `_extract_metadata`: the dictionary filled one key at a time. */
  method ExtractMetadata(tags: HeadTags, url: string) returns (md: Metadata)
    ensures md == MetadataOf(tags, url)
    ensures md.source == Some(url) && md.kind == Some("url")
    ensures tags.title.Some? ==> md.title == Some(Strip(tags.title.value))
    ensures tags.title.None? && tags.ogTitle.Some? ==> md.title == Some(tags.ogTitle.value.GetOr("Unknown"))
    ensures tags.title.None? && tags.ogTitle.None? ==> md.title == Some("Unknown")
    ensures tags.author.Some? ==> md.author == Some(tags.author.value.GetOr("Unknown"))
    ensures tags.author.None? ==> md.author == Some("Unknown")
    ensures md.description == if tags.description.Some? then Some(tags.description.value.GetOr("")) else None
    ensures md.publishedDate == if tags.publishedTime.Some? then Some(tags.publishedTime.value.GetOr("")) else None
    ensures md.subject.None? && md.pages.None?
  {
    md := EmptyMetadata.(source := Some(url), kind := Some("url"));
    match tags.title {
      case Some(t) => md := md.(title := Some(Strip(t)));
      case None =>
        match tags.ogTitle {
          case Some(tag) => md := md.(title := Some(tag.GetOr("Unknown")));
          case None => md := md.(title := Some("Unknown"));
        }
    }
    match tags.author {
      case Some(tag) => md := md.(author := Some(tag.GetOr("Unknown")));
      case None => md := md.(author := Some("Unknown"));
    }
    if tags.description.Some? {
      md := md.(description := Some(tags.description.value.GetOr("")));
    }
    if tags.publishedTime.Some? {
      md := md.(publishedDate := Some(tags.publishedTime.value.GetOr("")));
    }
  }

  /** A fetched and parsed page, as the two lookups above see it. */
  datatype Page = Page(head: HeadTags, body: PageText)

  /** `scrape_url`: the fetch is an input (`Failure` carries the exception text); a fetched page gives
      its cleaned text and its metadata, a failed one the message `Error scraping URL: ...`. */
  method ScrapeUrl(url: string, fetched: Result<Page>) returns (r: Result<(string, Metadata)>)
    ensures fetched.Failure? ==> r == Failure("Error scraping URL: " + fetched.error)
    ensures fetched.Success? ==> r.Success? && r.value.1.source == Some(url) && r.value.1.kind == Some("url")
    ensures fetched.Success? ==> r.value.1.title.Some? && r.value.1.author.Some?
    ensures fetched.Success? ==> !Contains(r.value.0, "\n\n\n") && !Contains(r.value.0, "  ")
    ensures fetched.Success? ==> r == Success((Clean(BodyText(fetched.value.body)), MetadataOf(fetched.value.head, url)))
  {
    match fetched {
      case Failure(e) => r := Failure("Error scraping URL: " + e);
      case Success(page) =>
        var md := ExtractMetadata(page.head, url);
        var text := ExtractText(page.body);
        r := Success((text, md));
    }
  }
}
