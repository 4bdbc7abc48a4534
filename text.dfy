/** Python `str` operations the core relies on, over `string` (a `seq<char>`). */
module Text {

  /** Python's `str.isspace()` character set, also what `\s`, `str.split()` and `str.strip()` use. */
  predicate IsSpace(c: char) {
    c == ' ' || c == '\t' || c == '\n' || c == '\r' || c == '\U{000B}' || c == '\U{000C}'
    || ('\U{001C}' <= c <= '\U{001F}') || c == '\U{0085}' || c == '\U{00A0}' || c == '\U{1680}'
    || ('\U{2000}' <= c <= '\U{200A}') || c == '\U{2028}' || c == '\U{2029}' || c == '\U{202F}'
    || c == '\U{205F}' || c == '\U{3000}'
  }

  /** The regex class `\d`, restricted to ASCII digits. */
  predicate IsDigit(c: char) { '0' <= c <= '9' }

  /** The regex class `[A-Z]`. */
  predicate IsUpper(c: char) { 'A' <= c <= 'Z' }

  /** The regex class `[a-z]`. */
  predicate IsLower(c: char) { 'a' <= c <= 'z' }

  function LowerChar(c: char): (r: char)
    ensures !IsUpper(r)
    ensures IsUpper(c) ==> IsLower(r)
    ensures !IsUpper(c) ==> r == c
  {
    if IsUpper(c) then (c as int + 32) as char else c
  }

  /** `s.lower()`: letter case folded character by character, so positions are preserved. */
  function Lower(s: string): (r: string)
    ensures |r| == |s|
    ensures forall i :: 0 <= i < |s| ==> r[i] == LowerChar(s[i])
  {
    if s == [] then [] else [LowerChar(s[0])] + Lower(s[1..])
  }

  predicate NoUpper(s: string) {
    forall i :: 0 <= i < |s| ==> !IsUpper(s[i])
  }

  /** `w` occurs in `s` starting at position `i`. */
  predicate OccursAt(s: string, i: int, w: string) {
    0 <= i && i + |w| <= |s| && s[i..i + |w|] == w
  }

  /** Python's substring test `w in s`. */
  predicate Contains(s: string, w: string) {
    exists i :: 0 <= i <= |s| - |w| && OccursAt(s, i, w)
  }

  /** Lowering the text keeps every occurrence of a word that has no capitals. */
  lemma ContainsLower(s: string, w: string)
    requires NoUpper(w)
    requires Contains(s, w)
    ensures Contains(Lower(s), w)
  {
    var i :| 0 <= i <= |s| - |w| && OccursAt(s, i, w);
    assert forall k :: 0 <= k < |w| ==> Lower(s)[i + k] == LowerChar(s[i + k]) == w[k];
    assert Lower(s)[i..i + |w|] == w;
    assert OccursAt(Lower(s), i, w);
  }

  /** A substring of a substring is a substring. */
  lemma ContainsTransitive(a: string, b: string, c: string)
    requires Contains(a, b) && Contains(b, c)
    ensures Contains(a, c)
  {
    var i :| 0 <= i <= |a| - |b| && OccursAt(a, i, b);
    var j :| 0 <= j <= |b| - |c| && OccursAt(b, j, c);
    assert forall q :: 0 <= q < |c| ==> a[i + j + q] == b[j + q] == c[q];
    assert OccursAt(a, i + j, c);
  }

  /** The middle part of a concatenation occurs right after the first part. */
  lemma OccursInMiddle(a: string, b: string, c: string)
    ensures OccursAt(a + b + c, |a|, b)
  {
    assert (a + b + c)[|a|..|a| + |b|] == b;
  }

  /** A slice of at least two characters is its first character, its inside and its last character. */
  lemma Enclosed(s: string, i: nat, j: nat)
    requires i + 2 <= j <= |s|
    ensures s[i..j] == [s[i]] + s[i + 1..j - 1] + [s[j - 1]]
  {
    var w := [s[i]] + s[i + 1..j - 1] + [s[j - 1]];
    assert forall q :: 0 <= q < j - i ==> w[q] == s[i + q];
  }

  /** A prefix is a substring. */
  lemma PrefixContained(s: string, w: string)
    requires w <= s
    ensures Contains(s, w)
  {
    assert OccursAt(s, 0, w);
  }

  /** Python `s[:n]` for `n >= 0`. */
  function Take(s: string, n: nat): (r: string)
    ensures |r| == if |s| <= n then |s| else n
    ensures r <= s
  {
    if |s| <= n then s else s[..n]
  }

  /** `s.lstrip()`: the suffix left after dropping leading whitespace. */
  function LStrip(s: string): (r: string)
    ensures |r| <= |s| && r == s[|s| - |r|..]
    ensures r == [] || !IsSpace(r[0])
    ensures forall k :: 0 <= k < |s| - |r| ==> IsSpace(s[k])
  {
    if s != [] && IsSpace(s[0]) then LStrip(s[1..]) else s
  }

  /** `s.rstrip()`: the prefix left after dropping trailing whitespace. */
  function RStrip(s: string): (r: string)
    ensures |r| <= |s| && r == s[..|r|]
    ensures r == [] || !IsSpace(r[|r| - 1])
    ensures forall k :: |r| <= k < |s| ==> IsSpace(s[k])
  {
    if s != [] && IsSpace(s[|s| - 1]) then RStrip(s[..|s| - 1]) else s
  }

  /** `s.strip()`: a contiguous piece of `s` that neither starts nor ends with whitespace. */
  function Strip(s: string): (r: string)
    ensures Contains(s, r)
    ensures r == [] || (!IsSpace(r[0]) && !IsSpace(r[|r| - 1]))
  {
    var l := LStrip(s);
    var r := RStrip(l);
    assert r == [] || r[0] == l[0];
    var i := |s| - |l|;
    assert l[..|r|] == s[i..i + |r|];
    assert OccursAt(s, i, r);
    r
  }

  /** `strip()` leaves a string that already has no whitespace at either end unchanged. */
  lemma StripStripped(s: string)
    requires s == [] || (!IsSpace(s[0]) && !IsSpace(s[|s| - 1]))
    ensures Strip(s) == s
  {
  }

  /** The longest prefix of `s` without whitespace. */
  function WordPrefix(s: string): (w: string)
    ensures w <= s
    ensures forall k :: 0 <= k < |w| ==> !IsSpace(w[k])
    ensures |w| < |s| ==> IsSpace(s[|w|])
  {
    if s == [] || IsSpace(s[0]) then [] else [s[0]] + WordPrefix(s[1..])
  }

  /** `s.split()`: the maximal runs of non-whitespace characters, in order. */
  function Words(s: string): (r: seq<string>)
    ensures forall k :: 0 <= k < |r| ==> r[k] != [] && !IsSpace(r[k][0])
    decreases |s|
  {
    var t := LStrip(s);
    if t == [] then [] else
      var w := WordPrefix(t);
      assert w != [] && w[0] == t[0];
      [w] + Words(t[|w|..])
  }

  /** The set of whitespace-separated words of `s`, as `set(s.split())`. */
  function WordSet(s: string): set<string> {
    set w | w in Words(s)
  }

  /** `re.split('[...]', s)` for a set of single delimiter characters: `k` delimiters give `k + 1` pieces. */
  function SplitOn(s: string, delims: set<char>): (r: seq<string>)
    ensures |r| >= 1
    ensures forall k :: 0 <= k < |r| ==> forall j :: 0 <= j < |r[k]| ==> r[k][j] !in delims
  {
    if s == [] then [""] else
      var rest := SplitOn(s[1..], delims);
      if s[0] in delims then [""] + rest else [[s[0]] + rest[0]] + rest[1..]
  }

  /** `sep.join(parts)`. */
  function Join(parts: seq<string>, sep: string): (r: string)
    ensures parts == [] ==> r == ""
    ensures |parts| == 1 ==> r == parts[0]
    ensures |parts| >= 1 ==> parts[0] <= r
  {
    if parts == [] then "" else if |parts| == 1 then parts[0] else parts[0] + sep + Join(parts[1..], sep)
  }

  function DigitChar(d: nat): (c: char)
    requires d < 10
    ensures IsDigit(c)
  {
    ('0' as int + d) as char
  }

  /** `str(n)` for a natural number: its decimal digits, most significant first, without leading zeros. */
  function NatToString(n: nat): (r: string)
    ensures |r| >= 1 && forall k :: 0 <= k < |r| ==> IsDigit(r[k])
    ensures |r| > 1 ==> r[0] != '0'
  {
    if n < 10 then [DigitChar(n)] else NatToString(n / 10) + [DigitChar(n % 10)]
  }
}
