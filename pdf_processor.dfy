/** The document adapter's text helpers: page assembly and metadata, citation extraction,
    key-concept extraction and section extraction. Regular-expression searches run on the
    lower-cased text where the adapter lowers it. */
module PdfProcessing {
  import opened Wrappers
  import opened Text
  import opened Seqs
  import opened Scanning
  import opened Records

  // ---------------------------------------------------------------- extract_text

  /** The document-information keys the adapter reads; `None` is a key the document lacks. */
  datatype DocInfo = DocInfo(title: Option<string>, author: Option<string>, subject: Option<string>)

  /** An opened document: the text of each page, in order, and its information dictionary. */
  datatype PdfDocument = PdfDocument(pages: seq<string>, info: DocInfo)

  /** The block page `number` contributes: a header line, then the page text. */
  function PageBlock(number: nat, page: string): string {
    "\n--- Page " + NatToString(number) + " ---\n" + page
  }

  /** `block(first, pages[0]) + block(first + 1, pages[1]) + ...`: numbered blocks joined in page order. */
  function Blocks(first: nat, pages: seq<string>, block: (nat, string) -> string): string
    decreases |pages|
  {
    if pages == [] then "" else block(first, pages[0]) + Blocks(first + 1, pages[1..], block)
  }

  /** The text `extract_text` assembles: the blocks of `pages`, the first numbered `first`, in order. */
  function PagesText(first: nat, pages: seq<string>): string {
    Blocks(first, pages, PageBlock)
  }

  /** The blocks of consecutive page runs are the concatenation of their blocks. */
  lemma {:induction false} BlocksAppend(first: nat, a: seq<string>, b: seq<string>, block: (nat, string) -> string)
    ensures Blocks(first, a + b, block) == Blocks(first, a, block) + Blocks(first + |a|, b, block)
    decreases |a|
  {
    if a == [] {
      assert a + b == b;
    } else {
      assert (a + b)[0] == a[0];
      assert (a + b)[1..] == a[1..] + b;
      BlocksAppend(first + 1, a[1..], b, block);
    }
  }

  /** A page's block sits between the blocks of the pages before it and those of the pages after it. */
  lemma BlockInPlace(before: seq<string>, page: string, after: seq<string>, block: (nat, string) -> string)
    ensures Blocks(1, before + [page] + after, block)
      == Blocks(1, before, block) + block(|before| + 1, page) + Blocks(|before| + 2, after, block)
  {
    var rest := [page] + after;
    assert rest[0] == page && rest[1..] == after;
    assert before + [page] + after == before + rest;
    BlocksAppend(1, before, rest, block);
  }

  /** A page appears, under a header numbered by its position, right after the blocks of the pages
      before it and right before those of the pages after it. */
  lemma PageInPlace(before: seq<string>, page: string, after: seq<string>)
    ensures PagesText(1, before + [page] + after)
      == PagesText(1, before) + PageBlock(|before| + 1, page) + PagesText(|before| + 2, after)
    ensures OccursAt(PagesText(1, before + [page] + after), |PagesText(1, before)|, PageBlock(|before| + 1, page))
  {
    BlockInPlace(before, page, after, PageBlock);
    OccursInMiddle(PagesText(1, before), PageBlock(|before| + 1, page), PagesText(|before| + 2, after));
  }

  /** The metadata dictionary of an opened document: title and author default to `Unknown`, subject to
      the empty string; `pages` is the page count and `source` the path. */
  function DocumentMetadata(pdfPath: string, doc: PdfDocument): Metadata {
    Metadata(Some(doc.info.title.GetOr("Unknown")), Some(doc.info.author.GetOr("Unknown")),
             Some(doc.info.subject.GetOr("")), Some(|doc.pages|), Some(pdfPath), None, None, None)
  }

  /** `extract_text`: `document` is the outcome of opening the file at `pdfPath`. */
  method ExtractText(pdfPath: string, document: Result<PdfDocument>) returns (r: Result<(string, Metadata)>)
    ensures document.Failure? ==> r == Failure("Error extracting text from PDF: " + document.error)
    ensures document.Success? ==> r.Success?
    ensures document.Success? ==> r.value.0 == PagesText(1, document.value.pages)
    ensures document.Success? ==> r.value.1 == DocumentMetadata(pdfPath, document.value)
  {
    if document.Failure? {
      return Failure("Error extracting text from PDF: " + document.error);
    }
    var doc := document.value;
    var text := "";
    var pageNum := 0;
    while pageNum < |doc.pages|
      invariant 0 <= pageNum <= |doc.pages|
      invariant text == PagesText(1, doc.pages[..pageNum])
    {
      var pageText := doc.pages[pageNum];
      BlocksAppend(1, doc.pages[..pageNum], [pageText], PageBlock);
      assert doc.pages[..pageNum + 1] == doc.pages[..pageNum] + [pageText];
      text := text + "\n--- Page " + NatToString(pageNum + 1) + " ---\n" + pageText;
      pageNum := pageNum + 1;
    }
    assert doc.pages[..|doc.pages|] == doc.pages;
    var metadata := EmptyMetadata;
    metadata := metadata.(title := Some(doc.info.title.GetOr("Unknown")));
    metadata := metadata.(author := Some(doc.info.author.GetOr("Unknown")));
    metadata := metadata.(subject := Some(doc.info.subject.GetOr("")));
    metadata := metadata.(pages := Some(|doc.pages|));
    metadata := metadata.(source := Some(pdfPath));
    return Success((text, metadata));
  }

  // ---------------------------------------------------------------- extract_citations

  /** `\[(\d+)\]` */
  const BracketNumber: Pattern := Pattern('[', [Many(Digit)], ']')

  /** `\(([A-Z][a-z]+\s+et\s+al\.?,?\s+\d{4})\)` */
  const EtAl: Pattern := Pattern('(', [One(UpperLetter), Many(LowerLetter), Many(Space), Lit('e'), Lit('t'),
    Many(Space), Lit('a'), Lit('l'), Opt('.'), Opt(','), Many(Space), Exactly(Digit, 4)], ')')

  /** `\(([A-Z][a-z]+\s+&\s+[A-Z][a-z]+,?\s+\d{4})\)` */
  const TwoAuthors: Pattern := Pattern('(', [One(UpperLetter), Many(LowerLetter), Many(Space), Lit('&'),
    Many(Space), One(UpperLetter), Many(LowerLetter), Opt(','), Many(Space), Exactly(Digit, 4)], ')')

  /** `\(([A-Z][a-z]+,?\s+\d{4})\)` */
  const OneAuthor: Pattern := Pattern('(', [One(UpperLetter), Many(LowerLetter), Opt(','), Many(Space),
    Exactly(Digit, 4)], ')')

  /** The `citations` list before deduplication: the numeric references rewritten as `[n]`, then the
      groups of the three author-year expressions, each in text order. */
  function CitationCandidates(text: string): seq<string> {
    Bracketed(FindGroups(BracketNumber, text)) + AuthorYearCitations(text)
  }

  /** `[f"[{m}]" for m in matches1]` */
  function Bracketed(groups: seq<string>): (r: seq<string>)
    ensures |r| == |groups| && forall k :: 0 <= k < |r| ==> r[k] == "[" + groups[k] + "]"
  {
    if groups == [] then [] else ["[" + groups[0] + "]"] + Bracketed(groups[1..])
  }

  /** The author-year citations: the groups of patterns 2, 3 and 4, one pattern after the other. */
  function AuthorYearCitations(text: string): seq<string> {
    FindGroups(EtAl, text) + FindGroups(TwoAuthors, text) + FindGroups(OneAuthor, text)
  }

  /** `extract_citations`: the candidates without repetitions (in the arbitrary order of a set). */
  method ExtractCitations(text: string) returns (r: seq<string>)
    ensures Distinct(r)
    ensures forall c :: c in r <==> c in CitationCandidates(text)
  {
    var citations := CitationCandidates(text);
    r := ListOf(set c | c in citations);
  }

  /** A numeric reference as written: `[`, one or more digits, `]`. */
  predicate IsBracketNumber(w: string) {
    |w| >= 3 && w[0] == '[' && w[|w| - 1] == ']' && forall k :: 1 <= k < |w| - 1 ==> IsDigit(w[k])
  }

  /** The numeric expression matches at `i` exactly when a numeric reference starts there, and it
      matches that whole reference. */
  lemma BracketMatch(s: string, i: nat, j: nat)
    requires i <= j <= |s|
    ensures IsBracketNumber(s[i..j]) <==> MatchAt(BracketNumber, s, i) == Some(j)
  {
    if i < |s| && s[i] == '[' {
      var d := RunEnd(s, i + 1, Digit);
      assert MatchBody(BracketNumber.body, s, i + 1) == if d > i + 1 then Some(d) else None;
      if IsBracketNumber(s[i..j]) {
        assert s[j - 1] == ']' && forall m :: i + 1 <= m < j - 1 ==> IsDigit(s[m]);
        assert d == j - 1;
      }
      if MatchAt(BracketNumber, s, i) == Some(j) {
        assert forall m :: i + 1 <= m < j - 1 ==> s[i..j][m - i] == s[m];
      }
    }
  }

  /** No numeric reference starts strictly inside a numeric match. */
  lemma BracketInterior(s: string, a: nat, b: nat)
    requires a <= |s| && MatchAt(BracketNumber, s, a) == Some(b)
    ensures forall m :: a < m < b ==> s[m] != '['
  {
    MatchBodyAdmits(BracketNumber.body, s, a + 1);
  }

  /** The scan from `from` reports every numeric reference starting at or after `from`. */
  lemma {:induction false} BracketFoundFrom(s: string, from: nat, i: nat, j: nat)
    requires from <= i <= j <= |s| && IsBracketNumber(s[i..j])
    ensures Span(i, j) in FindAll(BracketNumber, s, from)
    decreases |s| - from
  {
    BracketMatch(s, i, j);
    assert s[i] == s[i..j][0] == '[';
    match MatchAt(BracketNumber, s, from)
    case Some(e) =>
      assert FindAll(BracketNumber, s, from) == [Span(from, e)] + FindAll(BracketNumber, s, e);
      if i != from {
        BracketInterior(s, from, e);
        assert e <= i;
        BracketFoundFrom(s, e, i, j);
      }
    case None =>
      assert i != from;
      assert FindAll(BracketNumber, s, from) == FindAll(BracketNumber, s, from + 1);
      BracketFoundFrom(s, from + 1, i, j);
  }

  /** A numeric reference is its digits with the brackets put back. */
  lemma BracketsRestored(text: string, i: nat, j: nat)
    requires i <= j <= |text| && IsBracketNumber(text[i..j])
    ensures i + 3 <= j && "[" + text[i + 1..j - 1] + "]" == text[i..j]
  {
    var w := text[i..j];
    assert text[i] == w[0] && text[j - 1] == w[|w| - 1];
    Enclosed(text, i, j);
  }

  /** A numeric reference, brackets put back, is among the rewritten numeric matches. */
  lemma BracketGroupFound(text: string, i: nat, j: nat)
    requires i <= j <= |text| && IsBracketNumber(text[i..j])
    ensures text[i..j] in Bracketed(FindGroups(BracketNumber, text))
  {
    BracketFoundFrom(text, 0, i, j);
    SpanGroupFound(BracketNumber, text, Span(i, j));
    BracketedMember(FindGroups(BracketNumber, text), text[i + 1..j - 1]);
    BracketsRestored(text, i, j);
  }

  /** Each group, brackets put around it, is in the rewritten list. */
  lemma BracketedMember(groups: seq<string>, g: string)
    requires g in groups
    ensures "[" + g + "]" in Bracketed(groups)
  {
    var k :| 0 <= k < |groups| && groups[k] == g;
    assert Bracketed(groups)[k] == "[" + g + "]";
  }

  /** Every numeric reference in the text appears among the citations, brackets kept. */
  lemma BracketCitationsComplete(text: string, i: nat, j: nat)
    requires i <= j <= |text| && IsBracketNumber(text[i..j])
    ensures text[i..j] in CitationCandidates(text)
  {
    BracketGroupFound(text, i, j);
    assert CitationCandidates(text) == Bracketed(FindGroups(BracketNumber, text)) + AuthorYearCitations(text);
  }

  /** Every rewritten numeric citation is a numeric reference that occurs in the text. */
  lemma BracketCitationsSound(text: string, k: nat)
    requires k < |FindAll(BracketNumber, text, 0)|
    ensures var m := FindAll(BracketNumber, text, 0)[k];
      "[" + FindGroups(BracketNumber, text)[k] + "]" == text[m.start..m.end] && IsBracketNumber(text[m.start..m.end])
  {
    var m := FindAll(BracketNumber, text, 0)[k];
    BracketMatch(text, m.start, m.end);
    Enclosed(text, m.start, m.end);
  }

  /** Author-year citations come without their enclosing parentheses. */
  lemma AuthorYearWithoutParentheses(text: string)
    ensures forall c :: c in AuthorYearCitations(text) ==> '(' !in c && ')' !in c
  {
    EtAlBodyWithoutOpen();
    EtAlBodyWithoutClose();
    TwoAuthorsBodyWithoutOpen();
    TwoAuthorsBodyWithoutClose();
    OneAuthorBodyWithoutOpen();
    OneAuthorBodyWithoutClose();
    FindGroupsAdmit(EtAl, text, '(');
    FindGroupsAdmit(EtAl, text, ')');
    FindGroupsAdmit(TwoAuthors, text, '(');
    FindGroupsAdmit(TwoAuthors, text, ')');
    FindGroupsAdmit(OneAuthor, text, '(');
    FindGroupsAdmit(OneAuthor, text, ')');
  }

  lemma EtAlBodyWithoutOpen()
    ensures !Admits(EtAl.body, '(')
  {
  }

  lemma EtAlBodyWithoutClose()
    ensures !Admits(EtAl.body, ')')
  {
  }

  lemma TwoAuthorsBodyWithoutOpen()
    ensures !Admits(TwoAuthors.body, '(')
  {
  }

  lemma TwoAuthorsBodyWithoutClose()
    ensures !Admits(TwoAuthors.body, ')')
  {
  }

  lemma OneAuthorBodyWithoutOpen()
    ensures !Admits(OneAuthor.body, '(')
  {
  }

  lemma OneAuthorBodyWithoutClose()
    ensures !Admits(OneAuthor.body, ')')
  {
  }

  /** The one-author expression matches all of "(Smith, 2020)". */
  lemma OneAuthorExampleMatch(w: string)
    requires w == "Smith, 2020"
    ensures MatchAt(OneAuthor, "(" + w + ")", 0) == Some(13)
  {
    var s := "(" + w + ")";
    assert s[0] == '(' && s[1] == 'S' && s[2] == 'm' && s[3] == 'i' && s[4] == 't' && s[5] == 'h';
    assert s[6] == ',' && s[7] == ' ' && s[8] == '2' && s[9] == '0' && s[10] == '2' && s[11] == '0' && s[12] == ')';
    assert RunEnd(s, 6, LowerLetter) == 6;
    assert RunEnd(s, 4, LowerLetter) == 6;
    assert RunEnd(s, 2, LowerLetter) == 6;
    assert RunEnd(s, 7, Space) == 8;
    var body := OneAuthor.body;
    assert MatchBody(body[4..], s, 8) == Some(12);
    assert MatchBody(body[3..], s, 7) == Some(12);
    assert MatchBody(body[2..], s, 6) == Some(12);
    assert MatchBody(body[1..], s, 2) == Some(12);
    assert MatchBody(body, s, 1) == Some(12);
  }

  /** The one-author expression finds "Smith, 2020" in "(Smith, 2020)", and nothing else. */
  lemma OneAuthorExampleGroups(w: string)
    requires w == "Smith, 2020"
    ensures FindGroups(OneAuthor, "(" + w + ")") == [w]
  {
    OneAuthorExampleMatch(w);
    var s := "(" + w + ")";
    assert FindAll(OneAuthor, s, 0) == [Span(0, 13)];
    assert Group(s, Span(0, 13)) == w;
  }

  /** "(Smith, 2020)" yields the citation "Smith, 2020". */
  lemma AuthorYearExample(w: string)
    requires w == "Smith, 2020"
    ensures w in CitationCandidates("(" + w + ")")
  {
    OneAuthorExampleGroups(w);
    assert w in AuthorYearCitations("(" + w + ")");
  }

  // ---------------------------------------------------------------- extract_key_concepts

  /** The regex class `\w`, restricted to ASCII. */
  predicate IsWordChar(c: char) {
    IsUpper(c) || IsLower(c) || IsDigit(c) || c == '_'
  }

  /** One more `\s+[A-Z][a-z]+` of a capitalised phrase, starting at `j`. */
  function PhraseWordAt(t: string, j: nat): (r: Option<nat>)
    requires j <= |t|
    ensures r.Some? ==> j < r.value <= |t| && IsSpace(t[j])
  {
    var q := RunEnd(t, j, Space);
    if q > j && q < |t| && IsUpper(t[q]) then
      var e := RunEnd(t, q + 1, LowerLetter);
      if e > q + 1 then Some(e) else None
    else None
  }

  /** The ends of the successive further words of a phrase whose first word ends at `j`. */
  function PhraseWordEnds(t: string, j: nat): (r: seq<nat>)
    requires j <= |t|
    ensures forall k :: 0 <= k < |r| ==> j < r[k] <= |t|
    ensures forall k :: 0 <= k < |r| - 1 ==> r[k] < r[k + 1]
    ensures forall k :: 0 <= k < |r| - 1 ==> r[k] < |t| && IsSpace(t[r[k]])
    decreases |t| - j
  {
    match PhraseWordAt(t, j)
    case Some(e) => var rest := PhraseWordEnds(t, e); if rest != [] then assert IsSpace(t[e]); [e] + rest else [e]
    case None => []
  }

  /** The end of the match of `\b[A-Z][a-z]+(?:\s+[A-Z][a-z]+)*\b` at `i`: as many further words as
      there are, less the last when the text goes on with a word character right after it. */
  function PhraseAt(t: string, i: nat): (r: Option<nat>)
    requires i <= |t|
    ensures r.Some? ==> i < r.value <= |t| && IsUpper(t[i])
  {
    if i < |t| && IsUpper(t[i]) && (i == 0 || !IsWordChar(t[i - 1])) then
      var j0 := RunEnd(t, i + 1, LowerLetter);
      if j0 == i + 1 then None else
        var ends := [j0] + PhraseWordEnds(t, j0);
        var last := ends[|ends| - 1];
        if last == |t| || !IsWordChar(t[last]) then Some(last)
        else if |ends| >= 2 then Some(ends[|ends| - 2])
        else None
    else None
  }

  /** `re.findall` of the capitalised-phrase expression from position `i`. */
  function CapitalizedPhrases(t: string, i: nat): seq<string>
    requires i <= |t|
    decreases |t| - i
  {
    if i == |t| then [] else
      match PhraseAt(t, i)
      case Some(e) => [t[i..e]] + CapitalizedPhrases(t, e)
      case None => CapitalizedPhrases(t, i + 1)
  }

  /** A text without capital letters has no capitalised phrases. */
  lemma {:induction false} NoPhrasesWithoutCapitals(t: string, i: nat)
    requires i <= |t| && NoUpper(t)
    ensures CapitalizedPhrases(t, i) == []
    decreases |t| - i
  {
    if i < |t| {
      assert PhraseAt(t, i).None?;
      NoPhrasesWithoutCapitals(t, i + 1);
    }
  }

  /** How a section expression begins: `word` (with `s?` when `optionalS`) then `[:\s]+`; or a heading,
      one of `words` or `\d+\.?\s+numbered` (with `s?` when `optionalS`). */
  datatype Start = Label(word: string, optionalS: bool) | Heading(words: seq<string>, numbered: string, optionalS: bool)

  /** A section expression: its start, the lazy group `.+?` (`minLength` 1) or `.*?` (0), and the
      alternatives that end it: literal `stops`, and `\d+\.?\s+<numberedStop>` when present. */
  datatype Section = Section(start: Start, minLength: nat, stops: seq<string>, numberedStop: Option<string>)

  /** The end of `\d+\.?\s+w` matched at `i`, or None. */
  function NumberedAt(t: string, i: nat, w: string): (r: Option<nat>)
    requires i <= |t|
    ensures r.Some? ==> i < r.value <= |t|
  {
    var d := RunEnd(t, i, Digit);
    if d == i then None else
      var p := if d < |t| && t[d] == '.' then d + 1 else d;
      var q := RunEnd(t, p, Space);
      if q > p && OccursAt(t, q, w) then Some(q + |w|) else None
  }

  /** `[hi, hi - 1, ..., lo]`. */
  function Descending(lo: nat, hi: nat): (r: seq<nat>)
    ensures forall k :: 0 <= k < |r| ==> lo <= r[k] <= hi
    decreases hi - lo
  {
    if lo > hi then [] else if lo == hi then [hi] else [hi] + Descending(lo, hi - 1)
  }

  /** The ends of the literal alternatives that occur at `i`, in alternation order. */
  function WordEnds(words: seq<string>, t: string, i: nat): (r: seq<nat>)
    requires i <= |t|
    ensures forall k :: 0 <= k < |r| ==> i <= r[k] <= |t|
  {
    if words == [] then [] else
      (if OccursAt(t, i, words[0]) then [i + |words[0]|] else []) + WordEnds(words[1..], t, i)
  }

  /** The ends the start of a section expression can take at `i`, in the order a backtracking
      engine tries them (greedy runs longest first). */
  function StartEnds(st: Start, t: string, i: nat): (r: seq<nat>)
    requires i <= |t|
    ensures forall k :: 0 <= k < |r| ==> i <= r[k] <= |t|
  {
    match st
    case Label(word, optionalS) =>
      if OccursAt(t, i, word) then
        var w := i + |word|;
        var b := if optionalS && w < |t| && t[w] == 's' then w + 1 else w;
        var run := RunEnd(t, b, ColonOrSpace);
        if run > b then Descending(b + 1, run) else []
      else []
    case Heading(words, numbered, optionalS) =>
      WordEnds(words, t, i)
      + match NumberedAt(t, i, numbered)
        case None => []
        case Some(q) => if optionalS && q < |t| && t[q] == 's' then [q + 1, q] else [q]
  }

  /** Whether one of the section's ending alternatives matches at `e`. */
  predicate StopsAt(sec: Section, t: string, e: nat)
    requires e <= |t|
  {
    WordEnds(sec.stops, t, e) != [] || (sec.numberedStop.Some? && NumberedAt(t, e, sec.numberedStop.value).Some?)
  }

  /** The nearest position at or after `from` where the section ends, or None. */
  function NextStop(sec: Section, t: string, from: nat): (r: Option<nat>)
    ensures r.Some? ==> from <= r.value <= |t|
    decreases |t| + 1 - from
  {
    if from > |t| then None
    else if StopsAt(sec, t, from) then Some(from)
    else NextStop(sec, t, from + 1)
  }

  /** The stop found is the nearest one: the section ends there and nowhere before it. */
  lemma {:induction false} NextStopNearest(sec: Section, t: string, from: nat)
    ensures NextStop(sec, t, from).Some? ==> StopsAt(sec, t, NextStop(sec, t, from).value)
    ensures NextStop(sec, t, from).Some? ==> forall m :: from <= m < NextStop(sec, t, from).value ==> !StopsAt(sec, t, m)
    ensures NextStop(sec, t, from).None? ==> forall m :: from <= m <= |t| ==> !StopsAt(sec, t, m)
    decreases |t| + 1 - from
  {
    if from <= |t| && !StopsAt(sec, t, from) {
      NextStopNearest(sec, t, from + 1);
    }
  }

  /** The group of the match for the first start end (in `ends`) after which the section ends. */
  function FirstGroup(sec: Section, t: string, ends: seq<nat>): (r: Option<Span>)
    ensures r.Some? ==> r.value.start in ends && r.value.start + sec.minLength <= r.value.end <= |t|
  {
    if ends == [] then None else
      match NextStop(sec, t, ends[0] + sec.minLength)
      case Some(e) => Some(Span(ends[0], e))
      case None => FirstGroup(sec, t, ends[1..])
  }

  /** The lazy group: it ends at the first stop at least `minLength` after its start, and when there is
      no group no start end is followed by a stop. */
  lemma {:induction false} FirstGroupLazy(sec: Section, t: string, ends: seq<nat>)
    ensures FirstGroup(sec, t, ends).Some? ==> StopsAt(sec, t, FirstGroup(sec, t, ends).value.end)
    ensures FirstGroup(sec, t, ends).Some? ==> var g := FirstGroup(sec, t, ends).value;
      forall m :: g.start + sec.minLength <= m < g.end ==> !StopsAt(sec, t, m)
    ensures FirstGroup(sec, t, ends).None? ==> forall k :: 0 <= k < |ends| ==> NextStop(sec, t, ends[k] + sec.minLength).None?
  {
    if ends != [] {
      var from := ends[0] + sec.minLength;
      NextStopNearest(sec, t, from);
      match NextStop(sec, t, from) {
        case Some(e) =>
          assert FirstGroup(sec, t, ends) == Some(Span(ends[0], e));
        case None =>
          var rest := ends[1..];
          FirstGroupLazy(sec, t, rest);
          assert FirstGroup(sec, t, ends) == FirstGroup(sec, t, rest);
          if FirstGroup(sec, t, rest).None? {
            forall k | 0 <= k < |ends|
              ensures NextStop(sec, t, ends[k] + sec.minLength).None?
            {
              if k > 0 {
                assert ends[k] == rest[k - 1];
              }
            }
          }
      }
    }
  }

  /** The group of the match that starts at `i`, or None when no match starts there. */
  function GroupAt(sec: Section, t: string, i: nat): (r: Option<Span>)
    requires i <= |t|
    ensures r.Some? ==> i <= r.value.start <= r.value.end <= |t|
  {
    FirstGroup(sec, t, StartEnds(sec.start, t, i))
  }

  /** The outcome of trying a match at each of the first `n` positions of `t`. */
  function Attempts(sec: Section, t: string, n: nat): (r: seq<Option<Span>>)
    requires n <= |t| + 1
    ensures |r| == n && forall k :: 0 <= k < n ==> r[k] == GroupAt(sec, t, k)
  {
    if n == 0 then [] else Attempts(sec, t, n - 1) + [GroupAt(sec, t, n - 1)]
  }

  /** The index of the first present element, or None when all are absent. */
  function FirstPresent<T>(xs: seq<Option<T>>): (r: Option<nat>)
    ensures r.Some? ==> r.value < |xs| && xs[r.value].Some? && forall k :: 0 <= k < r.value ==> xs[k].None?
    ensures r.None? ==> forall k :: 0 <= k < |xs| ==> xs[k].None?
  {
    if xs == [] then None
    else if xs[0].Some? then Some(0)
    else match FirstPresent(xs[1..])
      case Some(k) => Some(k + 1)
      case None => None
  }

  /** A successful search: where the match starts and the span of its group. */
  datatype Found = Found(at: nat, group: Span)

  /** `re.search(expression, t, re.DOTALL)`: the match at the leftmost position where one starts. */
  function Search(sec: Section, t: string): (r: Option<Found>)
    ensures r.Some? ==> r.value.at <= |t| && r.value.group.start <= r.value.group.end <= |t|
  {
    var attempts := Attempts(sec, t, |t| + 1);
    match FirstPresent(attempts)
    case None => None
    case Some(m) => Some(Found(m, attempts[m].value))
  }

  /** The search reports a match that starts where it says, no match starts before it, and the
      search fails only when no match starts anywhere. */
  lemma SearchLeftmost(sec: Section, t: string)
    ensures Search(sec, t).Some? ==> GroupAt(sec, t, Search(sec, t).value.at) == Some(Search(sec, t).value.group)
    ensures Search(sec, t).Some? ==> forall m :: 0 <= m < Search(sec, t).value.at ==> GroupAt(sec, t, m).None?
    ensures Search(sec, t).None? ==> forall m :: 0 <= m <= |t| ==> GroupAt(sec, t, m).None?
  {
    var attempts := Attempts(sec, t, |t| + 1);
    assert forall m :: 0 <= m <= |t| ==> attempts[m] == GroupAt(sec, t, m);
  }

  /** `match.group(1)` of a search of `t`, or None when the search fails. */
  function SectionGroup(sec: Section, t: string): (r: Option<string>)
    ensures r.Some? ==> Contains(t, r.value)
  {
    match Search(sec, t)
    case None => None
    case Some(f) =>
      assert OccursAt(t, f.group.start, t[f.group.start..f.group.end]);
      Some(t[f.group.start..f.group.end])
  }

  /** `abstract[:\s]+(.+?)(?:introduction|keywords)` */
  const ConceptAbstract: Section := Section(Label("abstract", false), 1, ["introduction", "keywords"], None)

  /** `keywords?[:\s]+(.+?)(?:\n\n|\d+\.?\s+introduction)` */
  const KeywordsList: Section := Section(Label("keyword", true), 1, ["\n\n"], Some("introduction"))

  /** The separators of `re.split(r'[,;·•]', ...)`. */
  const KeywordDelimiters: set<char> := {',', ';', '\U{00B7}', '\U{2022}'}

  /** The stripped pieces of a keywords section. */
  function KeywordPieces(group: string): (r: seq<string>) {
    var pieces := SplitOn(group, KeywordDelimiters);
    seq(|pieces|, k requires 0 <= k < |pieces| => Strip(pieces[k]))
  }

  /** The `concepts` list of `extract_key_concepts`: capitalised phrases of the abstract, then the
      keyword pieces, both found in the lower-cased text. */
  function ConceptCandidates(text: string): seq<string> {
    var lowered := Lower(text);
    (match SectionGroup(ConceptAbstract, lowered) case Some(g) => CapitalizedPhrases(g, 0) case None => [])
    + (match SectionGroup(KeywordsList, lowered) case Some(g) => KeywordPieces(g) case None => [])
  }

  /** The abstract is read from lower-cased text, so it contributes nothing: every concept is a keyword piece. */
  lemma ConceptsAreKeywords(text: string)
    ensures ConceptCandidates(text)
      == match SectionGroup(KeywordsList, Lower(text)) case Some(g) => KeywordPieces(g) case None => []
  {
    var lowered := Lower(text);
    match SectionGroup(ConceptAbstract, lowered)
    case Some(g) =>
      var i :| 0 <= i <= |lowered| - |g| && OccursAt(lowered, i, g);
      assert forall k :: 0 <= k < |g| ==> g[k] == lowered[i + k];
      NoPhrasesWithoutCapitals(g, 0);
    case None =>
  }

  /** A keyword piece holds no separator and no whitespace at either end. */
  lemma KeywordPiecesShape(group: string)
    ensures |KeywordPieces(group)| >= 1
    ensures forall k :: 0 <= k < |KeywordPieces(group)| ==>
      var c := KeywordPieces(group)[k];
      (forall j :: 0 <= j < |c| ==> c[j] !in KeywordDelimiters) && (c == [] || (!IsSpace(c[0]) && !IsSpace(c[|c| - 1])))
  {
    var pieces := SplitOn(group, KeywordDelimiters);
    forall k | 0 <= k < |pieces|
      ensures forall j :: 0 <= j < |Strip(pieces[k])| ==> Strip(pieces[k])[j] !in KeywordDelimiters
    {
      var c := Strip(pieces[k]);
      var i :| 0 <= i <= |pieces[k]| - |c| && OccursAt(pieces[k], i, c);
      assert forall j :: 0 <= j < |c| ==> c[j] == pieces[k][i + j];
    }
  }

  /** `extract_key_concepts`: up to 20 distinct candidates longer than three characters (which 20, when
      there are more, depends on the order of a set). */
  method ExtractKeyConcepts(text: string) returns (r: seq<string>)
    ensures |r| <= 20 && Distinct(r)
    ensures forall c :: c in r ==> c in ConceptCandidates(text) && |c| > 3
    ensures var long := set c | c in ConceptCandidates(text) && |c| > 3;
      |r| == (if |long| <= 20 then |long| else 20) && (|long| <= 20 ==> forall c :: c in long ==> c in r)
  {
    r := FirstLongConcepts(ConceptCandidates(text));
  }

  /** The tail of `extract_key_concepts`, over any candidate list. */
  method FirstLongConcepts(concepts: seq<string>) returns (r: seq<string>)
    ensures |r| <= 20 && Distinct(r)
    ensures forall c :: c in r ==> c in concepts && |c| > 3
    ensures var long := set c | c in concepts && |c| > 3;
      |r| == (if |long| <= 20 then |long| else 20) && (|long| <= 20 ==> forall c :: c in long ==> c in r)
  {
    var long := ListOf(set c | c in concepts && |c| > 3);
    r := PyTake(long, 20);
    assert forall i, j :: 0 <= i < j < |r| ==> r[i] == long[i] && r[j] == long[j];
    assert forall i :: 0 <= i < |r| ==> r[i] in long;
  }

  // ---------------------------------------------------------------- extract_sections

  /** `abstract[:\s]+(.*?)(?:introduction|\d+\.?\s+introduction)` */
  const AbstractSection: Section := Section(Label("abstract", false), 0, ["introduction"], Some("introduction"))

  /** `(?:introduction|\d+\.?\s+introduction)(.*?)(?:related work|methodology|background)` */
  const IntroductionSection: Section :=
    Section(Heading(["introduction"], "introduction", false), 0, ["related work", "methodology", "background"], None)

  /** `(?:methodology|methods|\d+\.?\s+methods?)(.*?)(?:results|experiments|evaluation)` */
  const MethodologySection: Section :=
    Section(Heading(["methodology", "methods"], "method", true), 0, ["results", "experiments", "evaluation"], None)

  /** `(?:results|\d+\.?\s+results)(.*?)(?:discussion|conclusion)` */
  const ResultsSection: Section := Section(Heading(["results"], "results", false), 0, ["discussion", "conclusion"], None)

  /** `(?:conclusion|\d+\.?\s+conclusion)(.*?)(?:references|acknowledgment)` */
  const ConclusionSection: Section :=
    Section(Heading(["conclusion"], "conclusion", false), 0, ["references", "acknowledgment"], None)

  /** `section_patterns`, in dictionary order. */
  const SectionPatterns: seq<(string, Section)> := [
    ("abstract", AbstractSection), ("introduction", IntroductionSection), ("methodology", MethodologySection),
    ("results", ResultsSection), ("conclusion", ConclusionSection)]

  const SectionNames: set<string> := {"abstract", "introduction", "methodology", "results", "conclusion"}

  /** The stored value of a section: the group, stripped, then cut to 2000 characters. */
  function SectionValue(group: string): (v: string) {
    Take(Strip(group), 2000)
  }

  /** A section value is at most 2000 characters, starts with a non-space, and is a piece of the text
      it was found in. It ends with a non-space too unless the cut fell on whitespace. */
  lemma SectionValueShape(t: string, group: string)
    requires Contains(t, group)
    ensures var v := SectionValue(group);
      |v| <= 2000 && (v == [] || !IsSpace(v[0])) && Contains(t, v)
      && (|Strip(group)| <= 2000 ==> v == Strip(group))
  {
    var v := SectionValue(group);
    PrefixContained(Strip(group), v);
    ContainsTransitive(group, Strip(group), v);
    ContainsTransitive(t, group, v);
  }

  /** The five section names differ. */
  lemma SectionNamesDistinct()
    ensures NamesDistinct(SectionPatterns)
  {
    var names := ["abstract", "introduction", "methodology", "results", "conclusion"];
    assert forall j :: 0 <= j < 5 ==> SectionPatterns[j].0 == names[j];
    assert |names[0]| == 8 && |names[1]| == 12 && |names[2]| == 11 && |names[3]| == 7 && |names[4]| == 10;
  }

  /** No name occurs twice in `entries`. */
  predicate NamesDistinct<X>(entries: seq<(string, X)>) {
    forall i, j :: 0 <= i < j < |entries| ==> entries[i].0 != entries[j].0
  }

  /** The value stored for a section expression searched in `t`, or None when it does not match. */
  function SectionEntry(sec: Section, t: string): Option<string> {
    match SectionGroup(sec, t)
    case Some(g) => Some(SectionValue(g))
    case None => None
  }

  /** Each section name with the value its expression yields in `t`, or None. */
  function Matches(patterns: seq<(string, Section)>, t: string): (r: seq<(string, Option<string>)>)
    ensures |r| == |patterns| && forall k :: 0 <= k < |r| ==> r[k] == (patterns[k].0, SectionEntry(patterns[k].1, t))
  {
    if patterns == [] then [] else [(patterns[0].0, SectionEntry(patterns[0].1, t))] + Matches(patterns[1..], t)
  }

  /** The search outcomes carry the expressions' names, so they are distinct when those are. */
  lemma MatchesDistinct(patterns: seq<(string, Section)>, t: string)
    requires NamesDistinct(patterns)
    ensures NamesDistinct(Matches(patterns, t))
  {
  }

  /** The dictionary built from name-value pairs in list order, skipping the pairs without a value. */
  function SectionsMap(found: seq<(string, Option<string>)>): map<string, string>
    decreases |found|
  {
    if found == [] then map[] else
      var before := SectionsMap(found[..|found| - 1]);
      var last := found[|found| - 1];
      if last.1.Some? then before[last.0 := last.1.value] else before
  }

  /** One more pair: the dictionary of the first `k + 1` pairs is that of the first `k`, updated by pair `k`. */
  lemma SectionsMapStep(found: seq<(string, Option<string>)>, k: nat)
    requires k < |found|
    ensures SectionsMap(found[..k + 1])
      == if found[k].1.Some? then SectionsMap(found[..k])[found[k].0 := found[k].1.value] else SectionsMap(found[..k])
  {
    assert found[..k + 1][..k] == found[..k];
  }

  /** Every key of the dictionary is one of the names. */
  lemma {:induction false} SectionsMapKeys(found: seq<(string, Option<string>)>)
    ensures forall n :: n in SectionsMap(found) ==> exists j :: 0 <= j < |found| && found[j].0 == n
    decreases |found|
  {
    if found != [] {
      var init := found[..|found| - 1];
      SectionsMapKeys(init);
      assert forall j :: 0 <= j < |init| ==> init[j] == found[j];
    }
  }

  /** With distinct names, name `k` has an entry exactly when it has a value, and the entry holds that value. */
  lemma {:induction false} SectionsMapAt(found: seq<(string, Option<string>)>, k: nat)
    requires NamesDistinct(found) && k < |found|
    ensures found[k].0 in SectionsMap(found) <==> found[k].1.Some?
    ensures found[k].0 in SectionsMap(found) ==> SectionsMap(found)[found[k].0] == found[k].1.value
    decreases |found|
  {
    var init := found[..|found| - 1];
    var last := found[|found| - 1];
    var before := SectionsMap(init);
    assert SectionsMap(found) == if last.1.Some? then before[last.0 := last.1.value] else before;
    if k < |init| {
      assert NamesDistinct(init);
      assert init[k] == found[k];
      assert found[k].0 != last.0;
      SectionsMapAt(init, k);
    } else {
      SectionsMapKeys(init);
      assert forall j :: 0 <= j < |init| ==> init[j].0 != last.0;
    }
  }

  /** With distinct names, the dictionary has an entry for exactly the names with a value, each
      holding its own value, and no other key. */
  lemma SectionsMapEntries(found: seq<(string, Option<string>)>)
    requires NamesDistinct(found)
    ensures forall n :: n in SectionsMap(found) ==> exists j :: 0 <= j < |found| && found[j].0 == n
    ensures forall k :: 0 <= k < |found| ==> (found[k].0 in SectionsMap(found) <==> found[k].1.Some?)
    ensures forall k :: 0 <= k < |found| && found[k].1.Some? ==> SectionsMap(found)[found[k].0] == found[k].1.value
  {
    SectionsMapKeys(found);
    forall k | 0 <= k < |found|
      ensures found[k].0 in SectionsMap(found) <==> found[k].1.Some?
      ensures found[k].1.Some? ==> SectionsMap(found)[found[k].0] == found[k].1.value
    {
      SectionsMapAt(found, k);
    }
  }

  /** The loop of `extract_sections`, over any list of named section expressions. */
  method CollectSections(patterns: seq<(string, Section)>, t: string) returns (sections: map<string, string>)
    ensures sections == SectionsMap(Matches(patterns, t))
  {
    ghost var found := Matches(patterns, t);
    sections := map[];
    var k := 0;
    while k < |patterns|
      invariant 0 <= k <= |patterns|
      invariant sections == SectionsMap(found[..k])
    {
      var (sectionName, pattern) := patterns[k];
      var group := SectionGroup(pattern, t);
      SectionsMapStep(found, k);
      if group.Some? {
        sections := sections[sectionName := SectionValue(group.value)];
      }
      k := k + 1;
    }
    assert found[..k] == found;
  }

  /** `extract_sections`: one entry per section expression that matches the lower-cased text. */
  method ExtractSections(text: string) returns (sections: map<string, string>)
    ensures sections == SectionsMap(Matches(SectionPatterns, Lower(text)))
  {
    sections := CollectSections(SectionPatterns, Lower(text));
  }

  /** With distinct names, the dictionary has an entry for exactly the expressions that match in `t`,
      each holding its stripped and cut group, and no other key. */
  lemma SectionsOfPatterns(patterns: seq<(string, Section)>, t: string)
    requires NamesDistinct(patterns)
    ensures forall n :: n in SectionsMap(Matches(patterns, t)) ==> exists j :: 0 <= j < |patterns| && patterns[j].0 == n
    ensures forall k :: 0 <= k < |patterns| ==>
      (patterns[k].0 in SectionsMap(Matches(patterns, t)) <==> SectionGroup(patterns[k].1, t).Some?)
    ensures forall k :: 0 <= k < |patterns| && SectionGroup(patterns[k].1, t).Some? ==>
      SectionsMap(Matches(patterns, t))[patterns[k].0] == SectionValue(SectionGroup(patterns[k].1, t).value)
  {
    var found := Matches(patterns, t);
    MatchesDistinct(patterns, t);
    SectionsMapEntries(found);
  }

  /** Only the five section names can be keys of `extract_sections`' result. */
  lemma ExtractedSectionNames(text: string)
    ensures SectionsMap(Matches(SectionPatterns, Lower(text))).Keys <= SectionNames
  {
    var found := Matches(SectionPatterns, Lower(text));
    SectionsMapKeys(found);
    assert forall j :: 0 <= j < |SectionPatterns| ==> SectionPatterns[j].0 in SectionNames;
  }
}
