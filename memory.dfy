/**
 * The interaction memory: an append-only log of processed documents and answered queries,
 * with recency slicing, keyword search, statistics and a token-overlap context scorer.
 * Persistence to the JSON file is not modelled; timestamps are parameters.
 */
module Memory {
  import opened Wrappers
  import opened Text
  import opened Seqs
  import opened Records

  /** One logged event. `Query` is a dictionary with keys id, timestamp, query, response, metadata;
      `Document` one with id, timestamp, type == 'document', document_id, title, summary,
      key_concepts, citations. */
  datatype Entry =
    | Query(id: nat, timestamp: string, query: string, response: string, metadata: Metadata)
    | Document(id: nat, timestamp: string, documentId: string, title: string, summary: string,
               keyConcepts: seq<string>, citations: seq<string>)

  // The dictionary keys each kind of entry carries (`'query' in entry`, `entry['query']`, ...).

  function QueryField(e: Entry): Option<string> {
    if e.Query? then Some(e.query) else None
  }

  function ResponseField(e: Entry): Option<string> {
    if e.Query? then Some(e.response) else None
  }

  function TitleField(e: Entry): Option<string> {
    if e.Document? then Some(e.title) else None
  }

  function SummaryField(e: Entry): Option<string> {
    if e.Document? then Some(e.summary) else None
  }

  /** `entry.get('type') == 'document'`. */
  predicate IsDocument(e: Entry) { e.Document? }

  predicate IsQuery(e: Entry) { e.Query? }

  /** Every entry's id is its 1-based position in the log. */
  ghost predicate IdsSequential(log: seq<Entry>) {
    forall i :: 0 <= i < |log| ==> log[i].id == i + 1
  }

  // ---------------------------------------------------------------- keyword search

  /** Whether `search_memory` keeps the entry: some present query, title or summary field contains the
      lower-cased keyword, case-insensitively. The response is never searched. */
  predicate MatchesKeyword(e: Entry, keywordLower: string) {
    || (QueryField(e).Some? && Contains(Lower(QueryField(e).value), keywordLower))
    || (TitleField(e).Some? && Contains(Lower(TitleField(e).value), keywordLower))
    || (SummaryField(e).Some? && Contains(Lower(SummaryField(e).value), keywordLower))
  }

  function KeywordMatcher(keywordLower: string): Entry -> bool {
    e => MatchesKeyword(e, keywordLower)
  }

  // ---------------------------------------------------------------- id lookup

  /** The position of the first entry whose id is `id`, if any. */
  function IndexOfId(log: seq<Entry>, id: int): (r: Option<nat>)
    ensures r.Some? ==> r.value < |log| && log[r.value].id == id
    ensures r.Some? ==> forall j :: 0 <= j < r.value ==> log[j].id != id
    ensures r.None? <==> forall j :: 0 <= j < |log| ==> log[j].id != id
  {
    if log == [] then None
    else if log[0].id == id then Some(0)
    else match IndexOfId(log[1..], id)
      case None => None
      case Some(k) => Some(k + 1)
  }

  /** For a log whose ids are 1..N, looking up id k finds the k-th entry. */
  lemma SequentialIdLookup(log: seq<Entry>, k: int)
    requires IdsSequential(log)
    requires 1 <= k <= |log|
    ensures IndexOfId(log, k) == Some(k - 1)
  {
    var r := IndexOfId(log, k);
    assert log[k - 1].id == k;
    assert r.Some?;
    assert log[r.value].id == r.value + 1;
  }

  // ---------------------------------------------------------------- context scoring

  /** The scorer's text for an entry: the query, summary and title fields present, each followed by a space. */
  function EntryText(e: Entry): string {
    (if QueryField(e).Some? then QueryField(e).value + " " else "")
    + (if SummaryField(e).Some? then SummaryField(e).value + " " else "")
    + (if TitleField(e).Some? then TitleField(e).value + " " else "")
  }

  /** `set(query.lower().split())`. */
  function QueryWords(query: string): set<string> {
    WordSet(Lower(query))
  }

  /** The number of distinct lower-case words the entry shares with the query. */
  function Score(queryWords: set<string>, e: Entry): nat {
    |queryWords * WordSet(Lower(EntryText(e)))|
  }

  function Scorer(queryWords: set<string>): Entry -> nat {
    e => Score(queryWords, e)
  }

  /** A `(score, entry)` pair, together with the entry's position in the log. */
  datatype Ranked = Ranked(score: nat, index: nat, entry: Entry)

  /** The pairs with a positive score, in log order. */
  function Scored(log: seq<Entry>, score: Entry -> nat): seq<Ranked> {
    if log == [] then [] else
      var e := log[|log| - 1];
      Scored(log[..|log| - 1], score) + (if score(e) > 0 then [Ranked(score(e), |log| - 1, e)] else [])
  }

  /** Scoring one more entry appends at most its own pair. */
  lemma ScoredStep(log: seq<Entry>, score: Entry -> nat, i: nat)
    requires i < |log|
    ensures Scored(log[..i + 1], score)
      == Scored(log[..i], score) + (if score(log[i]) > 0 then [Ranked(score(log[i]), i, log[i])] else [])
  {
    assert log[..i + 1][..i] == log[..i];
  }

  /** Every pair of `r` is an entry of `log` at its recorded position, with its positive score. */
  ghost predicate DrawnFrom(r: seq<Ranked>, log: seq<Entry>, score: Entry -> nat) {
    forall k :: 0 <= k < |r| ==>
      r[k].index < |log| && log[r[k].index] == r[k].entry && r[k].score == score(r[k].entry) > 0
  }

  /** The scored list holds exactly the log's positively scored entries, with their positions, in order. */
  lemma {:induction false} ScoredSpec(log: seq<Entry>, score: Entry -> nat)
    ensures DrawnFrom(Scored(log, score), log, score)
    ensures forall k, l :: 0 <= k < l < |Scored(log, score)| ==> Scored(log, score)[k].index < Scored(log, score)[l].index
    ensures forall i :: 0 <= i < |log| && score(log[i]) > 0 ==> Ranked(score(log[i]), i, log[i]) in Scored(log, score)
  {
    if log != [] {
      var m := |log| - 1;
      var init := log[..m];
      ScoredSpec(init, score);
      var prev := Scored(init, score);
      var tail := if score(log[m]) > 0 then [Ranked(score(log[m]), m, log[m])] else [];
      var r := Scored(log, score);
      assert r == prev + tail;
      forall k | 0 <= k < |r|
        ensures r[k].index < |log| && log[r[k].index] == r[k].entry && r[k].score == score(r[k].entry) > 0
      {
        if k < |prev| {
          assert r[k] == prev[k];
          assert init[prev[k].index] == log[prev[k].index];
        } else {
          assert r[k] == tail[0];
        }
      }
      forall k, l | 0 <= k < l < |r|
        ensures r[k].index < r[l].index
      {
        if l < |prev| {
          assert r[k] == prev[k] && r[l] == prev[l];
        } else {
          assert r[k] == prev[k] && r[l] == tail[0];
          assert prev[k].index < |init|;
        }
      }
      forall i | 0 <= i < |log| && score(log[i]) > 0
        ensures Ranked(score(log[i]), i, log[i]) in r
      {
        if i < m {
          assert init[i] == log[i];
          assert Ranked(score(log[i]), i, log[i]) in prev;
        } else {
          assert r[|r| - 1] == Ranked(score(log[i]), i, log[i]);
        }
      }
    }
  }

  /** Descending by score; equal scores in increasing log position. */
  predicate StableSorted(s: seq<Ranked>) {
    forall i, j :: 0 <= i < j < |s| ==>
      s[i].score > s[j].score || (s[i].score == s[j].score && s[i].index < s[j].index)
  }

  /** Insert `x` after every element whose score is at least `x`'s. */
  function InsertRanked(x: Ranked, s: seq<Ranked>): (r: seq<Ranked>)
    ensures multiset(r) == multiset(s) + multiset{x}
    ensures |r| == |s| + 1
    ensures forall y :: y in r <==> y in s || y == x
  {
    if s == [] then [x]
    else if s[0].score >= x.score then
      assert s == [s[0]] + s[1..];
      [s[0]] + InsertRanked(x, s[1..])
    else [x] + s
  }

  lemma {:induction false} InsertKeepsStableSorted(x: Ranked, s: seq<Ranked>)
    requires StableSorted(s)
    requires forall k :: 0 <= k < |s| ==> s[k].index < x.index
    ensures StableSorted(InsertRanked(x, s))
  {
    if s != [] && s[0].score >= x.score {
      var t := InsertRanked(x, s[1..]);
      InsertKeepsStableSorted(x, s[1..]);
      var r := [s[0]] + t;
      assert InsertRanked(x, s) == r;
      forall j | 0 <= j < |t|
        ensures s[0].score > t[j].score || (s[0].score == t[j].score && s[0].index < t[j].index)
      {
        assert t[j] in t;
        if t[j] != x {
          var m :| 0 <= m < |s[1..]| && s[1..][m] == t[j];
          assert s[m + 1] == t[j];
        }
      }
    }
  }

  /** Python's `sort(reverse=True, key=score)`: a stable sort that puts higher scores first. */
  function SortByScore(s: seq<Ranked>): (r: seq<Ranked>)
    ensures multiset(r) == multiset(s) && |r| == |s|
  {
    if s == [] then [] else
      assert s == s[..|s| - 1] + [s[|s| - 1]];
      InsertRanked(s[|s| - 1], SortByScore(s[..|s| - 1]))
  }

  /** Sorting pairs listed in log order yields scores non-increasing with ties in log order. */
  lemma {:induction false} SortByScoreStableSorted(s: seq<Ranked>)
    requires forall i, j :: 0 <= i < j < |s| ==> s[i].index < s[j].index
    ensures StableSorted(SortByScore(s))
  {
    if s != [] {
      var init := s[..|s| - 1];
      SortByScoreStableSorted(init);
      var sorted := SortByScore(init);
      forall k | 0 <= k < |sorted| ensures sorted[k].index < s[|s| - 1].index {
        assert sorted[k] in multiset(init);
        var m :| 0 <= m < |init| && init[m] == sorted[k];
      }
      InsertKeepsStableSorted(s[|s| - 1], sorted);
    }
  }

  /** `scored_entries[:n]` after sorting, for any scoring function. */
  function Rank(log: seq<Entry>, score: Entry -> nat, n: int): seq<Ranked> {
    PyTake(SortByScore(Scored(log, score)), n)
  }

  /** Sorting and slicing keep the pairs drawn from the log. */
  lemma DrawnFromRank(log: seq<Entry>, score: Entry -> nat, n: int)
    ensures DrawnFrom(Rank(log, score, n), log, score)
  {
    var scored := Scored(log, score);
    ScoredSpec(log, score);
    var sorted := SortByScore(scored);
    var r := Rank(log, score, n);
    assert r <= sorted;
    forall k | 0 <= k < |r|
      ensures r[k].index < |log| && log[r[k].index] == r[k].entry && r[k].score == score(r[k].entry) > 0
    {
      assert r[k] == sorted[k];
      assert sorted[k] in multiset(scored);
      var m :| 0 <= m < |scored| && scored[m] == sorted[k];
    }
  }

  /** The ranking keeps at most `n` entries of the log, each with its positive score, highest first
      and ties in log order. */
  lemma RankSound(log: seq<Entry>, score: Entry -> nat, n: int)
    ensures n >= 0 ==> |Rank(log, score, n)| <= n
    ensures DrawnFrom(Rank(log, score, n), log, score)
    ensures StableSorted(Rank(log, score, n))
  {
    var scored := Scored(log, score);
    ScoredSpec(log, score);
    SortByScoreStableSorted(scored);
    DrawnFromRank(log, score, n);
    PrefixStableSorted(SortByScore(scored), Rank(log, score, n));
  }

  /** A prefix of a sorted list is sorted. */
  lemma PrefixStableSorted(s: seq<Ranked>, r: seq<Ranked>)
    requires StableSorted(s) && r <= s
    ensures StableSorted(r)
  {
    assert forall i, j :: 0 <= i < j < |r| ==> r[i] == s[i] && r[j] == s[j];
  }

  /** Nothing the ranking leaves out scores higher than anything it keeps. */
  lemma RankComplete(log: seq<Entry>, score: Entry -> nat, n: int, i: nat)
    requires i < |log| && score(log[i]) > 0
    requires Ranked(score(log[i]), i, log[i]) !in Rank(log, score, n)
    ensures forall k :: 0 <= k < |Rank(log, score, n)| ==> Rank(log, score, n)[k].score >= score(log[i])
  {
    var scored := Scored(log, score);
    ScoredSpec(log, score);
    var sorted := SortByScore(scored);
    SortByScoreStableSorted(scored);
    var r := Rank(log, score, n);
    assert r <= sorted;
    var x := Ranked(score(log[i]), i, log[i]);
    assert x in multiset(scored);
    assert x in sorted;
    LeftOutScoresNoHigher(sorted, r, x);
  }

  /** In a sorted list, an element missing from a prefix scores no higher than anything in that prefix. */
  lemma LeftOutScoresNoHigher(s: seq<Ranked>, r: seq<Ranked>, x: Ranked)
    requires StableSorted(s) && r <= s && x in s && x !in r
    ensures forall k :: 0 <= k < |r| ==> r[k].score >= x.score
  {
    var p :| 0 <= p < |s| && s[p] == x;
    assert forall q :: 0 <= q < |r| ==> r[q] == s[q];
    assert p >= |r|;
  }

  /** The ranking is empty when no entry scores. */
  lemma RankEmptyWithoutScores(log: seq<Entry>, score: Entry -> nat, n: int)
    ensures (forall i :: 0 <= i < |log| ==> score(log[i]) == 0) ==> Rank(log, score, n) == []
  {
    DrawnFromRank(log, score, n);
    var r := Rank(log, score, n);
    assert r != [] ==> r[0].index < |log| && score(log[r[0].index]) > 0;
  }

  /** The ranking is non-empty when some entry scores and `n` keeps at least one pair. */
  lemma RankNonEmpty(log: seq<Entry>, score: Entry -> nat, n: int, i: nat)
    requires i < |log| && score(log[i]) > 0 && n >= 1
    ensures Rank(log, score, n) != []
  {
    var scored := Scored(log, score);
    ScoredSpec(log, score);
    assert Ranked(score(log[i]), i, log[i]) in scored;
    assert |SortByScore(scored)| > 0;
  }

  /** The entries `get_context_for_query(query, n)` renders, best first. */
  function TopEntries(log: seq<Entry>, query: string, n: int): seq<Ranked> {
    Rank(log, Scorer(QueryWords(query)), n)
  }

  /** What the context ranking promises: at most `n` entries of the log, each with its positive word-overlap
      score, highest first and ties in log order; nothing left out outranks what is kept; empty when no
      entry shares a word with the query, and non-empty when one does and `n >= 1`. */
  lemma TopEntriesSpec(log: seq<Entry>, query: string, n: int)
    ensures n >= 0 ==> |TopEntries(log, query, n)| <= n
    ensures forall k :: 0 <= k < |TopEntries(log, query, n)| ==>
      var x := TopEntries(log, query, n)[k];
      x.index < |log| && log[x.index] == x.entry && x.score == Score(QueryWords(query), x.entry) > 0
    ensures StableSorted(TopEntries(log, query, n))
    ensures forall i :: 0 <= i < |log| && Score(QueryWords(query), log[i]) > 0
                        && Ranked(Score(QueryWords(query), log[i]), i, log[i]) !in TopEntries(log, query, n) ==>
      forall k :: 0 <= k < |TopEntries(log, query, n)| ==> TopEntries(log, query, n)[k].score >= Score(QueryWords(query), log[i])
    ensures (forall i :: 0 <= i < |log| ==> Score(QueryWords(query), log[i]) == 0) ==> TopEntries(log, query, n) == []
    ensures n >= 1 && (exists i :: 0 <= i < |log| && Score(QueryWords(query), log[i]) > 0) ==> TopEntries(log, query, n) != []
  {
    var qw := QueryWords(query);
    var score := Scorer(qw);
    var r := Rank(log, score, n);
    assert r == TopEntries(log, query, n);
    assert (n >= 0 ==> |r| <= n) && DrawnFrom(r, log, score) && StableSorted(r) by {
      RankSound(log, score, n);
    }
    forall k | 0 <= k < |r|
      ensures r[k].index < |log| && log[r[k].index] == r[k].entry && r[k].score == Score(qw, r[k].entry) > 0
    {
      assert r[k].score == score(r[k].entry);
    }
    assert (forall i :: 0 <= i < |log| ==> Score(qw, log[i]) == 0) ==> r == [] by {
      RankEmptyWithoutScores(log, score, n);
    }
    if n >= 1 && exists i :: 0 <= i < |log| && Score(qw, log[i]) > 0 {
      var i :| 0 <= i < |log| && Score(qw, log[i]) > 0;
      RankNonEmpty(log, score, n, i);
    }
    forall i | 0 <= i < |log| && Score(qw, log[i]) > 0 && Ranked(Score(qw, log[i]), i, log[i]) !in r
      ensures forall k :: 0 <= k < |r| ==> r[k].score >= Score(qw, log[i])
    {
      RankComplete(log, score, n, i);
    }
  }

  // ---------------------------------------------------------------- context rendering

  /** The lines one ranked entry contributes: a label line and a content line cut to 200 characters. */
  function RenderEntry(e: Entry): seq<string> {
    if TitleField(e).Some? then
      ["Document: " + TitleField(e).value]
      + (if SummaryField(e).Some? then ["Summary: " + Take(SummaryField(e).value, 200) + "..."] else [])
    else if QueryField(e).Some? then
      ["Previous query: " + QueryField(e).value]
      + (if ResponseField(e).Some? then ["Response: " + Take(ResponseField(e).value, 200) + "..."] else [])
    else []
  }

  /** `context_parts` for a ranked list, in ranking order. */
  function RenderParts(top: seq<Ranked>): seq<string> {
    if top == [] then [] else RenderParts(top[..|top| - 1]) + RenderEntry(top[|top| - 1].entry)
  }

  /** Parts `2k` and `2k + 1` of `p` are the two lines entry `e` renders to. */
  predicate RendersAt(p: seq<string>, k: nat, e: Entry) {
    2 * k + 1 < |p| &&
    if e.Document? then
      p[2 * k] == "Document: " + e.title && p[2 * k + 1] == "Summary: " + Take(e.summary, 200) + "..."
    else
      p[2 * k] == "Previous query: " + e.query && p[2 * k + 1] == "Response: " + Take(e.response, 200) + "..."
  }

  /** Each ranked entry yields exactly two parts: "Document: <title>" then "Summary: <summary[:200]>..."
      for a document, "Previous query: <query>" then "Response: <response[:200]>..." for a query. */
  lemma {:induction false} RenderPartsShape(top: seq<Ranked>)
    ensures |RenderParts(top)| == 2 * |top|
    ensures forall k :: 0 <= k < |top| ==> RendersAt(RenderParts(top), k, top[k].entry)
  {
    if top != [] {
      var init := top[..|top| - 1];
      var last := top[|top| - 1].entry;
      RenderPartsShape(init);
      var p := RenderParts(top);
      assert p == RenderParts(init) + RenderEntry(last);
      forall k | 0 <= k < |top|
        ensures RendersAt(p, k, top[k].entry)
      {
        if k < |init| {
          assert init[k] == top[k];
          assert RendersAt(RenderParts(init), k, init[k].entry);
        }
      }
    }
  }

  /** The rendered block is empty exactly when nothing was ranked. */
  lemma RenderEmpty(top: seq<Ranked>)
    ensures Join(RenderParts(top), "\n\n") == "" <==> top == []
  {
    RenderPartsShape(top);
    if top != [] {
      var p := RenderParts(top);
      var e := top[0].entry;
      assert p[0] == (if e.Document? then "Document: " + e.title else "Previous query: " + e.query);
      assert p[0] <= Join(p, "\n\n");
      assert |p[0]| > 0;
    }
  }

  /** The first loop of `get_context_for_query`: each entry with its overlap count, the positive ones kept. */
  method ScoreEntries(log: seq<Entry>, queryWords: set<string>) returns (scored: seq<Ranked>)
    ensures scored == Scored(log, Scorer(queryWords))
  {
    scored := [];
    var i := 0;
    while i < |log|
      invariant 0 <= i <= |log|
      invariant scored == Scored(log[..i], Scorer(queryWords))
    {
      var entry := log[i];
      var score := |queryWords * WordSet(Lower(EntryText(entry)))|;
      ScoredStep(log, Scorer(queryWords), i);
      if score > 0 {
        scored := scored + [Ranked(score, i, entry)];
      }
      i := i + 1;
    }
    assert log[..|log|] == log;
  }

  /** The second loop of `get_context_for_query`: the lines of each ranked entry, in ranking order. */
  method RenderTop(top: seq<Ranked>) returns (contextParts: seq<string>)
    ensures contextParts == RenderParts(top)
  {
    contextParts := [];
    var k := 0;
    while k < |top|
      invariant 0 <= k <= |top|
      invariant contextParts == RenderParts(top[..k])
    {
      assert top[..k + 1][..k] == top[..k];
      contextParts := contextParts + RenderEntry(top[k].entry);
      k := k + 1;
    }
    assert top[..|top|] == top;
  }

  // ---------------------------------------------------------------- statistics

  /** The dictionary returned by `get_statistics`. */
  datatype Statistics = Statistics(
    totalEntries: nat, documentEntries: nat, queryEntries: int,
    oldestEntry: Option<string>, newestEntry: Option<string>)

  class MemoryManager {
    /** `self.memory`, the log. */
    var memory: seq<Entry>

    /** `loaded` is whatever `_load_memory` read from the memory file (empty when there was none). */
    constructor (loaded: seq<Entry>)
      ensures memory == loaded
    {
      memory := loaded;
    }

    /** `add_interaction`: appends one query entry whose id is the previous length plus one. */
    method AddInteraction(query: string, response: string, metadata: Option<Metadata>, timestamp: string)
      modifies this
      ensures memory == old(memory) + [Query(|old(memory)| + 1, timestamp, query, response, metadata.GetOr(EmptyMetadata))]
      ensures IdsSequential(old(memory)) ==> IdsSequential(memory)
    {
      var interaction := Query(|memory| + 1, timestamp, query, response, metadata.GetOr(EmptyMetadata));
      memory := memory + [interaction];
    }

    /** `add_document_memory`: appends one document entry whose id is the previous length plus one. */
    method AddDocumentMemory(documentId: string, title: string, summary: string,
                             keyConcepts: seq<string>, citations: seq<string>, timestamp: string)
      modifies this
      ensures memory == old(memory) + [Document(|old(memory)| + 1, timestamp, documentId, title, summary, keyConcepts, citations)]
      ensures IdsSequential(old(memory)) ==> IdsSequential(memory)
    {
      var entry := Document(|memory| + 1, timestamp, documentId, title, summary, keyConcepts, citations);
      memory := memory + [entry];
    }

    /** `get_recent_interactions(n)`, Python's `memory[-n:]` or `[]` on an empty log. */
    function RecentInteractions(n: int): (r: seq<Entry>)
      reads this
      ensures memory == [] ==> r == []
      ensures n >= 1 ==> r == memory[|memory| - (if n <= |memory| then n else |memory|)..]
      ensures n == 0 ==> r == memory
      ensures n < 0 ==> r == memory[(if -n <= |memory| then -n else |memory|)..]
    {
      if memory == [] then [] else PyDrop(memory, -n)
    }

    /** `search_memory(keyword)`. */
    method SearchMemory(keyword: string) returns (results: seq<Entry>)
      ensures results == Filter(memory, KeywordMatcher(Lower(keyword)))
      ensures forall e :: e in results <==> e in memory && MatchesKeyword(e, Lower(keyword))
      ensures IsSubsequence(results, memory)
    {
      var keywordLower := Lower(keyword);
      results := [];
      var i := |memory|;
      // Python scans front to back; this loop builds the same list from its tail so that each step
      // prepends one decision, the shape of the comprehension `Filter`.
      while i > 0
        invariant 0 <= i <= |memory|
        invariant results == Filter(memory[i..], KeywordMatcher(keywordLower))
      {
        i := i - 1;
        var entry := memory[i];
        assert memory[i..] == [entry] + memory[i + 1..];
        if QueryField(entry).Some? && Contains(Lower(QueryField(entry).value), keywordLower) {
          results := [entry] + results;
        } else if TitleField(entry).Some? && Contains(Lower(TitleField(entry).value), keywordLower) {
          results := [entry] + results;
        } else if SummaryField(entry).Some? && Contains(Lower(SummaryField(entry).value), keywordLower) {
          results := [entry] + results;
        }
      }
      assert memory[0..] == memory;
      FilterMembership(memory, KeywordMatcher(keywordLower));
      FilterIsSubsequence(memory, KeywordMatcher(keywordLower));
    }

    /** `get_document_history`: the document entries, in log order. */
    function DocumentHistory(): (r: seq<Entry>)
      reads this
      ensures forall e :: e in r <==> e in memory && e.Document?
      ensures IsSubsequence(r, memory)
    {
      FilterMembership(memory, IsDocument);
      FilterIsSubsequence(memory, IsDocument);
      Filter(memory, IsDocument)
    }

    /** `get_interaction_by_id`: the first entry carrying the id, or None. */
    method GetInteractionById(interactionId: int) returns (r: Option<Entry>)
      ensures r.Some? ==> r.value in memory && r.value.id == interactionId
      ensures r.None? <==> forall e :: e in memory ==> e.id != interactionId
      ensures r == match IndexOfId(memory, interactionId) case Some(i) => Some(memory[i]) case None => None
    {
      var i := 0;
      while i < |memory|
        invariant 0 <= i <= |memory|
        invariant forall j :: 0 <= j < i ==> memory[j].id != interactionId
      {
        if memory[i].id == interactionId {
          return Some(memory[i]);
        }
        i := i + 1;
      }
      return None;
    }

    /** `get_context_for_query(query, n)`: the rendered block for the top `n` overlapping entries. */
    method ContextForQuery(query: string, n: int) returns (context: string)
      ensures context == Join(RenderParts(TopEntries(memory, query, n)), "\n\n")
      ensures context == "" <==> TopEntries(memory, query, n) == []
    {
      var scored := ScoreEntries(memory, WordSet(Lower(query)));
      var top := PyTake(SortByScore(scored), n);
      var contextParts := RenderTop(top);
      context := Join(contextParts, "\n\n");
      RenderEmpty(top);
    }

    /** `clear_memory`. */
    method ClearMemory()
      modifies this
      ensures memory == []
      ensures IdsSequential(memory)
    {
      memory := [];
    }

    /** `get_statistics`. */
    function GetStatistics(): (r: Statistics)
      reads this
      ensures r.totalEntries == |memory|
      ensures r.documentEntries == |DocumentHistory()|
      ensures r.queryEntries == |Filter(memory, IsQuery)|
      ensures r.documentEntries + r.queryEntries == r.totalEntries
      ensures memory == [] ==> r.oldestEntry.None? && r.newestEntry.None?
      ensures memory != [] ==> r.oldestEntry == Some(memory[0].timestamp) && r.newestEntry == Some(memory[|memory| - 1].timestamp)
    {
      var total := |memory|;
      var documents := |Filter(memory, IsDocument)|;
      FilterComplementCount(memory, IsDocument, IsQuery);
      Statistics(
        total, documents, total - documents,
        if memory != [] then Some(memory[0].timestamp) else None,
        if memory != [] then Some(memory[|memory| - 1].timestamp) else None)
    }
  }
}
