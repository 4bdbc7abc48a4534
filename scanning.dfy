/** Deterministic scanners for the regular expressions of the text helpers.
    Each modelled expression is a sequence of tokens whose consecutive character classes are disjoint,
    so the greedy left-to-right match is the only one a backtracking engine can find; the scanners
    below therefore compute exactly what Python's `re` module returns for them. */
module Scanning {
  import opened Wrappers
  import opened Text

  /** The character classes the expressions use: `[A-Z]`, `[a-z]`, `\s`, `\d`, `[:\s]`. */
  datatype CharClass = UpperLetter | LowerLetter | Space | Digit | ColonOrSpace

  predicate InClass(c: char, k: CharClass) {
    match k
    case UpperLetter => IsUpper(c)
    case LowerLetter => IsLower(c)
    case Space => IsSpace(c)
    case Digit => IsDigit(c)
    case ColonOrSpace => c == ':' || IsSpace(c)
  }

  /** One regex item: a literal `c`, an optional `c?`, one class character, a greedy `+` run, or `{n}`. */
  datatype Tok = Lit(c: char) | Opt(c: char) | One(k: CharClass) | Many(k: CharClass) | Exactly(k: CharClass, n: nat)

  /** The end of the longest run of class-`k` characters starting at `i`. */
  function RunEnd(s: string, i: nat, k: CharClass): (j: nat)
    requires i <= |s|
    ensures i <= j <= |s|
    ensures forall m :: i <= m < j ==> InClass(s[m], k)
    ensures j < |s| ==> !InClass(s[j], k)
    decreases |s| - i
  {
    if i < |s| && InClass(s[i], k) then RunEnd(s, i + 1, k) else i
  }

  /** Where token `t` stops when matched at `i`, or None. */
  function MatchTok(t: Tok, s: string, i: nat): (r: Option<nat>)
    requires i <= |s|
    ensures r.Some? ==> i <= r.value <= |s|
  {
    match t
    case Lit(c) => if i < |s| && s[i] == c then Some(i + 1) else None
    case Opt(c) => if i < |s| && s[i] == c then Some(i + 1) else Some(i)
    case One(k) => if i < |s| && InClass(s[i], k) then Some(i + 1) else None
    case Many(k) => var j := RunEnd(s, i, k); if j > i then Some(j) else None
    case Exactly(k, n) =>
      if i + n <= |s| && forall m :: i <= m < i + n ==> InClass(s[m], k) then Some(i + n) else None
  }

  /** Where the token sequence stops when matched at `i`, or None. */
  function MatchBody(body: seq<Tok>, s: string, i: nat): (r: Option<nat>)
    requires i <= |s|
    ensures r.Some? ==> i <= r.value <= |s|
  {
    if body == [] then Some(i) else
      match MatchTok(body[0], s, i)
      case None => None
      case Some(k) => MatchBody(body[1..], s, k)
  }

  /** Whether token `t` can consume character `c`. */
  predicate TokAdmits(t: Tok, c: char) {
    match t
    case Lit(d) => c == d
    case Opt(d) => c == d
    case One(k) => InClass(c, k)
    case Many(k) => InClass(c, k)
    case Exactly(k, _) => InClass(c, k)
  }

  /** Whether some token of `body` can consume `c`. */
  predicate Admits(body: seq<Tok>, c: char) {
    exists k :: 0 <= k < |body| && TokAdmits(body[k], c)
  }

  /** Every character a match consumes is one some token of the expression accepts. */
  lemma {:induction false} MatchBodyAdmits(body: seq<Tok>, s: string, i: nat)
    requires i <= |s| && MatchBody(body, s, i).Some?
    ensures forall m :: i <= m < MatchBody(body, s, i).value ==> Admits(body, s[m])
  {
    if body != [] {
      var k := MatchTok(body[0], s, i).value;
      MatchBodyAdmits(body[1..], s, k);
      forall m | i <= m < k
        ensures TokAdmits(body[0], s[m])
      {
      }
      assert forall c, q :: 0 <= q < |body| - 1 && TokAdmits(body[1..][q], c) ==> TokAdmits(body[q + 1], c);
    }
  }

  /** `open (body) close`: an expression whose single group is everything between two delimiters. */
  datatype Pattern = Pattern(open: char, body: seq<Tok>, close: char)

  /** The end of the whole match starting at `i`, or None. */
  function MatchAt(p: Pattern, s: string, i: nat): (r: Option<nat>)
    requires i <= |s|
    ensures r.Some? ==> i + 2 <= r.value <= |s| && s[i] == p.open && s[r.value - 1] == p.close
    ensures r.Some? ==> MatchBody(p.body, s, i + 1) == Some(r.value - 1)
  {
    if i < |s| && s[i] == p.open then
      match MatchBody(p.body, s, i + 1)
      case None => None
      case Some(k) => if k < |s| && s[k] == p.close then Some(k + 1) else None
    else None
  }

  /** A match position pair: the whole match is `s[start..end]`. */
  datatype Span = Span(start: nat, end: nat)

  /** `re.finditer` from position `i`: scan left to right, take each match, resume after it. */
  function FindAll(p: Pattern, s: string, i: nat): (r: seq<Span>)
    requires i <= |s|
    ensures forall k :: 0 <= k < |r| ==> i <= r[k].start < |s| && MatchAt(p, s, r[k].start) == Some(r[k].end)
    ensures forall k :: 0 <= k < |r| - 1 ==> r[k].end <= r[k + 1].start
    decreases |s| - i
  {
    if i == |s| then [] else
      match MatchAt(p, s, i)
      case Some(j) =>
        var rest := FindAll(p, s, j);
        assert forall k :: 0 <= k < |rest| ==> j <= rest[k].start;
        [Span(i, j)] + rest
      case None => FindAll(p, s, i + 1)
  }

  /** The group of a match: the text between its delimiters. */
  function Group(s: string, m: Span): string
    requires m.start + 2 <= m.end <= |s|
  {
    s[m.start + 1..m.end - 1]
  }

  /** `re.findall(p, s)` for a one-group expression: the group of every match, in order. */
  function FindGroups(p: Pattern, s: string): (r: seq<string>)
  {
    var spans := FindAll(p, s, 0);
    seq(|spans|, k requires 0 <= k < |spans| => Group(s, spans[k]))
  }

  /** The `k`-th group is the interior of the `k`-th match. */
  lemma FindGroupsAt(p: Pattern, s: string, k: nat)
    requires k < |FindAll(p, s, 0)|
    ensures var m := FindAll(p, s, 0)[k];
      m.start + 2 <= m.end <= |s| && k < |FindGroups(p, s)| && FindGroups(p, s)[k] == Group(s, m)
  {
  }

  /** A match found by the scan contributes its group. */
  lemma SpanGroupFound(p: Pattern, s: string, m: Span)
    requires m in FindAll(p, s, 0)
    ensures m.start + 2 <= m.end <= |s| && Group(s, m) in FindGroups(p, s)
  {
    var spans := FindAll(p, s, 0);
    var k :| 0 <= k < |spans| && spans[k] == m;
    FindGroupsAt(p, s, k);
  }

  /** The group of a match holds only characters the expression's body accepts. */
  lemma GroupAdmits(p: Pattern, s: string, m: Span, c: char)
    requires m.start < |s| && MatchAt(p, s, m.start) == Some(m.end)
    requires !Admits(p.body, c)
    ensures c !in Group(s, m)
  {
    var g := Group(s, m);
    assert MatchBody(p.body, s, m.start + 1) == Some(m.end - 1);
    MatchBodyAdmits(p.body, s, m.start + 1);
    forall q | 0 <= q < |g|
      ensures g[q] != c
    {
      assert g[q] == s[m.start + 1 + q];
      assert Admits(p.body, s[m.start + 1 + q]);
    }
  }

  /** A group found by `findall` holds only characters the expression's body accepts. */
  lemma FindGroupsAdmit(p: Pattern, s: string, c: char)
    requires !Admits(p.body, c)
    ensures forall g :: g in FindGroups(p, s) ==> c !in g
  {
    var spans := FindAll(p, s, 0);
    forall k | 0 <= k < |spans|
      ensures c !in Group(s, spans[k])
    {
      GroupAdmits(p, s, spans[k], c);
    }
  }
}
