/** The citation graph: Paper nodes keyed by id, Author nodes keyed by name, AUTHORED and CITES edges.
    The graph database is modelled by what its `MERGE`, `SET` and `MATCH` statements observably do
    on sets and maps; a failed connection at construction turns every operation into a no-op. */
module CitationGraphs {
  import opened Wrappers
  import opened Seqs

  /** The properties a Paper node carries; `None` is Cypher's `null` (or a property never set). */
  datatype PaperProps = PaperProps(title: Option<string>, year: Option<int>, abstractText: Option<string>)

  /** A Paper node created by `MERGE (p:Paper {id: ...})` alone: it has only its id. */
  const NoProps: PaperProps := PaperProps(None, None, None)

  /** The content of the graph database. An AUTHORED edge is an (author name, paper id) pair, a CITES
      edge a (citing id, cited id) pair; `MERGE` never creates a second edge for the same pair. */
  datatype GraphStore = GraphStore(
    papers: map<string, PaperProps>,
    authors: set<string>,
    authored: set<(string, string)>,
    cites: set<(string, string)>)

  const EmptyStore: GraphStore := GraphStore(map[], {}, {}, {})

  /** Every edge joins nodes that exist. */
  ghost predicate WellFormed(s: GraphStore) {
    (forall e :: e in s.authored ==> e.0 in s.authors && e.1 in s.papers)
    && (forall e :: e in s.cites ==> e.0 in s.papers && e.1 in s.papers)
  }

  /** The properties of paper `id`, or those of a bare node when there is none. */
  function Props(s: GraphStore, id: string): PaperProps {
    if id in s.papers then s.papers[id] else NoProps
  }

  // ---------------------------------------------------------------- updates, as functions of the store

  /** `MERGE (p:Paper {id: $id})`: finds the node or creates a bare one. */
  function MergePaper(s: GraphStore, id: string): GraphStore {
    if id in s.papers then s else s.(papers := s.papers[id := NoProps])
  }

  /** One iteration of the author loop of `add_paper`: merges the Author node, the Paper node and the edge. */
  function AddAuthorSpec(s: GraphStore, author: string, id: string): GraphStore {
    var t := MergePaper(s, id);
    t.(authors := t.authors + {author}, authored := t.authored + {(author, id)})
  }

  /** The author loop of `add_paper`, one author after the other. */
  function AddAuthors(s: GraphStore, authors: seq<string>, id: string): GraphStore {
    if authors == [] then s
    else AddAuthorSpec(AddAuthors(s, authors[..|authors| - 1], id), authors[|authors| - 1], id)
  }

  /** `add_paper` on a connected store: merge the paper, overwrite its title, year and abstractText,
      then merge each listed author and its AUTHORED edge. */
  function AddPaperSpec(s: GraphStore, id: string, title: string, authors: seq<string>,
                        year: Option<int>, abstractText: Option<string>): GraphStore {
    var t := s.(papers := s.papers[id := PaperProps(Some(title), year, abstractText)]);
    if authors != [] then AddAuthors(t, authors, id) else t
  }

  /** `add_citation` on a connected store: merge both papers, then the CITES edge between them. */
  function AddCitationSpec(s: GraphStore, citing: string, cited: string): GraphStore {
    var t := MergePaper(MergePaper(s, citing), cited);
    t.(cites := t.cites + {(citing, cited)})
  }

  /** `add_citations_from_list` on a connected store: `add_citation(id, c)` for each `c` in turn. */
  function AddCitationsSpec(s: GraphStore, id: string, citations: seq<string>): GraphStore {
    if citations == [] then s
    else AddCitationSpec(AddCitationsSpec(s, id, citations[..|citations| - 1]), id, citations[|citations| - 1])
  }

  // ---------------------------------------------------------------- properties of the updates

  /** The author loop adds exactly the listed names and one AUTHORED edge per name, and nothing else. */
  lemma {:induction false} AddAuthorsClosed(s: GraphStore, authors: seq<string>, id: string)
    requires id in s.papers
    ensures AddAuthors(s, authors, id)
      == s.(authors := s.authors + (set a | a in authors), authored := s.authored + (set a | a in authors :: (a, id)))
  {
    if authors != [] {
      var init := authors[..|authors| - 1];
      var last := authors[|authors| - 1];
      AddAuthorsClosed(s, init, id);
      assert forall a :: a in authors <==> a in init || a == last;
      assert (set a | a in authors) == (set a | a in init) + {last};
      assert (set a | a in authors :: (a, id)) == (set a | a in init :: (a, id)) + {(last, id)};
    }
  }

  /** `add_paper` keeps one Paper per id, overwrites exactly that paper's properties (`None` clears a
      property), leaves every other paper and every CITES edge alone, adds one Author node per listed name
      and one AUTHORED edge per (name, paper) pair; the paper count grows only for a new id. */
  lemma AddPaperShape(s: GraphStore, id: string, title: string, authors: seq<string>,
                      year: Option<int>, abstractText: Option<string>)
    ensures var r := AddPaperSpec(s, id, title, authors, year, abstractText);
      r.papers == s.papers[id := PaperProps(Some(title), year, abstractText)]
      && |r.papers| == (if id in s.papers then |s.papers| else |s.papers| + 1)
      && r.authors == s.authors + (set a | a in authors)
      && r.authored == s.authored + (set a | a in authors :: (a, id))
      && r.cites == s.cites
  {
    var t := s.(papers := s.papers[id := PaperProps(Some(title), year, abstractText)]);
    AddAuthorsClosed(t, authors, id);
    if id in s.papers {
      assert t.papers.Keys == s.papers.Keys;
    } else {
      assert t.papers.Keys == s.papers.Keys + {id};
    }
  }

  /** Repeating `add_paper` with the same arguments changes nothing. */
  lemma AddPaperIdempotent(s: GraphStore, id: string, title: string, authors: seq<string>,
                           year: Option<int>, abstractText: Option<string>)
    ensures var r := AddPaperSpec(s, id, title, authors, year, abstractText);
      AddPaperSpec(r, id, title, authors, year, abstractText) == r
  {
    var r := AddPaperSpec(s, id, title, authors, year, abstractText);
    AddPaperShape(s, id, title, authors, year, abstractText);
    AddPaperShape(r, id, title, authors, year, abstractText);
  }

  /** `add_citation` adds the edge, creates a bare node for each missing endpoint, keeps the
      properties of every existing paper, and adds at most one edge. */
  lemma AddCitationShape(s: GraphStore, citing: string, cited: string)
    ensures var r := AddCitationSpec(s, citing, cited);
      r.cites == s.cites + {(citing, cited)}
      && |r.cites| <= |s.cites| + 1
      && r.papers.Keys == s.papers.Keys + {citing, cited}
      && (forall x :: x in s.papers ==> r.papers[x] == s.papers[x])
      && (citing !in s.papers ==> r.papers[citing] == NoProps)
      && (cited !in s.papers ==> r.papers[cited] == NoProps)
      && r.authors == s.authors && r.authored == s.authored
  {
  }

  /** `add_citations_from_list` adds exactly the edges from `id` to each listed paper, creates the
      missing papers bare, and keeps every existing paper's properties. */
  lemma {:induction false} AddCitationsClosed(s: GraphStore, id: string, citations: seq<string>)
    ensures AddCitationsSpec(s, id, citations).cites == s.cites + (set c | c in citations :: (id, c))
    ensures forall x :: (x in AddCitationsSpec(s, id, citations).papers
                         <==> x in s.papers || (citations != [] && x == id) || x in citations)
    ensures forall x :: x in s.papers ==> AddCitationsSpec(s, id, citations).papers[x] == s.papers[x]
    ensures AddCitationsSpec(s, id, citations).authors == s.authors
    ensures AddCitationsSpec(s, id, citations).authored == s.authored
  {
    if citations != [] {
      var init := citations[..|citations| - 1];
      var last := citations[|citations| - 1];
      var t := AddCitationsSpec(s, id, init);
      AddCitationsClosed(s, id, init);
      AddCitationShape(t, id, last);
      assert AddCitationsSpec(s, id, citations) == AddCitationSpec(t, id, last);
      assert citations == init + [last];
      assert (set c | c in citations :: (id, c)) == (set c | c in init :: (id, c)) + {(id, last)};
      assert forall c :: c in citations <==> c in init || c == last;
    }
  }

  /** Adding citations that are all present already changes nothing. */
  lemma {:induction false} AddCitationsPresent(s: GraphStore, id: string, citations: seq<string>)
    requires forall c :: c in citations ==> (id, c) in s.cites && c in s.papers
    requires citations != [] ==> id in s.papers
    ensures AddCitationsSpec(s, id, citations) == s
  {
    if citations != [] {
      AddCitationsPresent(s, id, citations[..|citations| - 1]);
    }
  }

  /** Repeating `add_citations_from_list` with the same list changes nothing. */
  lemma AddCitationsIdempotent(s: GraphStore, id: string, citations: seq<string>)
    ensures var r := AddCitationsSpec(s, id, citations); AddCitationsSpec(r, id, citations) == r
  {
    var r := AddCitationsSpec(s, id, citations);
    AddCitationsClosed(s, id, citations);
    forall c | c in citations
      ensures (id, c) in r.cites && c in r.papers
    {
      assert (id, c) in (set c' | c' in citations :: (id, c'));
    }
    AddCitationsPresent(r, id, citations);
  }

  /** Every update keeps the edges' endpoints in the store. */
  lemma UpdatesWellFormed(s: GraphStore, id: string, title: string, authors: seq<string>,
                          year: Option<int>, abstractText: Option<string>, citations: seq<string>)
    requires WellFormed(s)
    ensures WellFormed(AddPaperSpec(s, id, title, authors, year, abstractText))
    ensures WellFormed(AddCitationsSpec(s, id, citations))
  {
    AddPaperShape(s, id, title, authors, year, abstractText);
    var r := AddPaperSpec(s, id, title, authors, year, abstractText);
    forall e | e in r.authored
      ensures e.0 in r.authors && e.1 in r.papers
    {
      if e !in s.authored {
        var a :| a in authors && e == (a, id);
      }
    }
    AddCitationsClosed(s, id, citations);
    var q := AddCitationsSpec(s, id, citations);
    forall e | e in q.cites
      ensures e.0 in q.papers && e.1 in q.papers
    {
      if e !in s.cites {
        var c :| c in citations && e == (id, c);
      }
    }
  }

  // ---------------------------------------------------------------- queries, as functions of the store

  /** The papers both `p` and `r` cite. */
  function Shared(s: GraphStore, p: string, r: string): set<string> {
    set e | e in s.cites && e.0 == p && (r, e.1) in s.cites :: e.1
  }

  /** How many papers both `p` and `r` cite: the rows `COUNT(cited)` counts for `related = r`. */
  function SharedCount(s: GraphStore, p: string, r: string): nat {
    |Shared(s, p, r)|
  }

  /** The `related` papers of `find_related_papers`: other papers citing something `p` cites. */
  function RelatedCandidates(s: GraphStore, p: string): set<string> {
    set e | e in s.cites && e.0 != p && (p, e.1) in s.cites :: e.0
  }

  /** How many papers cite `q`: its CITES in-degree. */
  function InDegree(s: GraphStore, q: string): nat {
    |Citing(s, q)|
  }

  /** The papers citing `q`. */
  function Citing(s: GraphStore, q: string): set<string> {
    set e | e in s.cites && e.1 == q :: e.0
  }

  /** The papers `find_influential_papers` groups: those cited at least once. */
  function CitedPapers(s: GraphStore): set<string> {
    set e | e in s.cites :: e.1
  }

  /** The papers with an AUTHORED edge from the Author named exactly `name`. */
  function AuthoredBy(s: GraphStore, name: string): set<string> {
    set e | e in s.authored && e.0 == name :: e.1
  }

  /** The papers within `k` CITES hops of `p`, edges followed in either direction. */
  function Reach(s: GraphStore, p: string, k: nat): set<string> {
    if k == 0 then {p} else
      var inner := Reach(s, p, k - 1);
      inner + (set e | e in s.cites && e.0 in inner :: e.1) + (set e | e in s.cites && e.1 in inner :: e.0)
  }

  /** The CITES edges on some path of 1 to `depth` hops from paper `p`: those touching a paper that lies
      within `depth - 1` hops. */
  function NetworkEdges(s: GraphStore, p: string, depth: int): set<(string, string)> {
    if p !in s.papers || depth < 1 then {} else
      var inner := Reach(s, p, depth - 1);
      set e | e in s.cites && (e.0 in inner || e.1 in inner)
  }

  /** The `(id, title)` pairs of the endpoints of `edges`. */
  function EndpointNodes(s: GraphStore, edges: set<(string, string)>): set<(string, Option<string>)> {
    (set e | e in edges :: (e.0, Props(s, e.0).title)) + (set e | e in edges :: (e.1, Props(s, e.1).title))
  }

  /** A paper related to `p` scores at least one shared citation. */
  lemma RelatedScorePositive(s: GraphStore, p: string, r: string)
    requires r in RelatedCandidates(s, p)
    ensures SharedCount(s, p, r) >= 1 && r != p
  {
    var e :| e in s.cites && e.0 == r && r != p && (p, e.1) in s.cites;
    assert e.1 in Shared(s, p, r);
  }

  /** A cited paper has at least one citation. */
  lemma CitedPositive(s: GraphStore, q: string)
    requires q in CitedPapers(s)
    ensures InDegree(s, q) >= 1
  {
    var e :| e in s.cites && e.1 == q;
    assert e.0 in Citing(s, q);
  }

  /** Nodes of a network are named by their id: one title per id. */
  lemma EndpointIdsUnique(s: GraphStore, edges: set<(string, string)>, a: (string, Option<string>), b: (string, Option<string>))
    requires a in EndpointNodes(s, edges) && b in EndpointNodes(s, edges)
    ensures a.0 == b.0 ==> a == b
  {
  }

  /** The network's edges are CITES edges, and its nodes are exactly their endpoints. */
  lemma NetworkShape(s: GraphStore, p: string, depth: int)
    ensures NetworkEdges(s, p, depth) <= s.cites
    ensures forall n :: n in EndpointNodes(s, NetworkEdges(s, p, depth)) <==>
      exists e :: e in NetworkEdges(s, p, depth) && (n == (e.0, Props(s, e.0).title) || n == (e.1, Props(s, e.1).title))
    ensures depth < 1 || p !in s.papers ==> NetworkEdges(s, p, depth) == {}
  {
  }

  // ---------------------------------------------------------------- ranking and listing helpers

  /** An element of `s` with the largest key. */
  method MaxByKey(s: set<string>, key: string -> int) returns (m: string)
    requires s != {}
    ensures m in s && forall x :: x in s ==> key(x) <= key(m)
  {
    m :| m in s;
    var todo := s - {m};
    while todo != {}
      invariant todo <= s && m in s
      invariant forall x :: x in s && x !in todo ==> key(x) <= key(m)
      decreases |todo|
    {
      var x :| x in todo;
      if key(x) > key(m) {
        m := x;
      }
      todo := todo - {x};
    }
  }

  /** The selection so far: `r` holds, largest key first and each once, candidates whose keys are at
      least those of the candidates `rest` still holds, and every candidate is in one of the two. */
  ghost predicate Picked(cands: set<string>, key: string -> int, r: seq<string>, rest: set<string>) {
    && (forall k :: 0 <= k < |r| ==> r[k] in cands)
    && Disjoint(r, rest)
    && (forall x :: x in cands ==> x in rest || x in r)
    && Distinct(r)
    && (forall i, j :: 0 <= i < j < |r| ==> key(r[i]) >= key(r[j]))
    && (forall x, k :: x in rest && 0 <= k < |r| ==> key(x) <= key(r[k]))
  }

  /** Moving a largest remaining candidate to the end of the selection keeps it a selection. */
  lemma PickedStep(cands: set<string>, key: string -> int, r: seq<string>, rest: set<string>, m: string)
    requires rest <= cands && Picked(cands, key, r, rest)
    requires m in rest && forall x :: x in rest ==> key(x) <= key(m)
    ensures Picked(cands, key, r + [m], rest - {m})
  {
    var r1 := r + [m];
    assert forall k :: 0 <= k < |r| ==> r1[k] == r[k];
    assert r1[|r|] == m;
  }

  /** `ORDER BY key DESC LIMIT limit` over the candidates: the `limit` largest keys, largest first.
      Ties come out in an order the query does not fix. */
  method TopByKey(cands: set<string>, key: string -> int, limit: nat) returns (r: seq<string>)
    ensures |r| == if limit <= |cands| then limit else |cands|
    ensures Distinct(r)
    ensures forall k :: 0 <= k < |r| ==> r[k] in cands
    ensures forall i, j :: 0 <= i < j < |r| ==> key(r[i]) >= key(r[j])
    ensures forall x, k :: x in cands && x !in r && 0 <= k < |r| ==> key(x) <= key(r[k])
    ensures limit >= |cands| ==> forall x :: x in cands ==> x in r
  {
    r := [];
    var rest := cands;
    while |r| < limit && rest != {}
      invariant rest <= cands && |r| + |rest| == |cands| && |r| <= limit
      invariant Picked(cands, key, r, rest)
      decreases |rest|
    {
      var m := MaxByKey(rest, key);
      PickedStep(cands, key, r, rest, m);
      r := r + [m];
      rest := rest - {m};
    }
    assert limit >= |cands| ==> rest == {};
  }

  /** `ORDER BY p.year DESC` over a set of papers: Neo4j puts papers without a year first in a descending
      order, then the others by year, latest first. */
  method ByYearDescending(s: GraphStore, papers: set<string>) returns (ids: seq<string>)
    ensures Distinct(ids)
    ensures forall x :: x in ids <==> x in papers
    ensures forall i, j :: 0 <= i < j < |ids| && Props(s, ids[i]).year.Some? ==> Props(s, ids[j]).year.Some?
    ensures forall i, j :: (0 <= i < j < |ids| && Props(s, ids[i]).year.Some? && Props(s, ids[j]).year.Some?)
                           ==> Props(s, ids[i]).year.value >= Props(s, ids[j]).year.value
  {
    var undated := set x | x in papers && Props(s, x).year.None?;
    var dated := papers - undated;
    var first := ListOf(undated);
    var second := TopByKey(dated, x => Props(s, x).year.GetOr(0), |dated|);
    ids := first + second;
    DistinctConcat(first, second);
    forall x | x in papers
      ensures x in ids
    {
      if x !in undated {
        assert x in dated && x in second;
      }
    }
    assert forall k :: 0 <= k < |first| ==> first[k] in undated;
    UndatedThenLatest(s, first, second);
  }

  /** Papers without a year, then dated papers latest first, concatenate to the `ORDER BY p.year DESC` order. */
  lemma UndatedThenLatest(s: GraphStore, first: seq<string>, second: seq<string>)
    requires forall k :: 0 <= k < |first| ==> Props(s, first[k]).year.None?
    requires forall k :: 0 <= k < |second| ==> Props(s, second[k]).year.Some?
    requires forall i, j :: 0 <= i < j < |second| ==> Props(s, second[i]).year.value >= Props(s, second[j]).year.value
    ensures var ids := first + second;
      forall i, j :: 0 <= i < j < |ids| && Props(s, ids[i]).year.Some? ==> Props(s, ids[j]).year.Some?
    ensures var ids := first + second;
      forall i, j :: (0 <= i < j < |ids| && Props(s, ids[i]).year.Some? && Props(s, ids[j]).year.Some?)
                     ==> Props(s, ids[i]).year.value >= Props(s, ids[j]).year.value
  {
    var ids := first + second;
    forall i | 0 <= i < |ids|
      ensures i < |first| ==> Props(s, ids[i]).year.None?
      ensures i >= |first| ==> ids[i] == second[i - |first|] && Props(s, ids[i]).year.Some?
    {
    }
  }

  // ---------------------------------------------------------------- the graph object

  /** The `edges` list of `get_citation_network`, one row per returned relationship. */
  method EdgeRows(rels: seq<(string, string)>) returns (edges: seq<NetworkEdge>)
    ensures |edges| == |rels|
    ensures forall j :: 0 <= j < |rels| ==> edges[j] == NetworkEdge(rels[j].0, rels[j].1)
    ensures forall e :: e in rels <==> NetworkEdge(e.0, e.1) in edges
    ensures forall x :: x in edges ==> (x.source, x.target) in rels
  {
    edges := [];
    var k := 0;
    while k < |rels|
      invariant 0 <= k <= |rels| && |edges| == k
      invariant forall j :: 0 <= j < k ==> edges[j] == NetworkEdge(rels[j].0, rels[j].1)
    {
      edges := edges + [NetworkEdge(rels[k].0, rels[k].1)];
      k := k + 1;
    }
    forall e: (string, string) | NetworkEdge(e.0, e.1) in edges
      ensures e in rels
    {
      var j :| 0 <= j < |edges| && edges[j] == NetworkEdge(e.0, e.1);
      assert rels[j] == e;
    }
    forall x | x in edges
      ensures (x.source, x.target) in rels
    {
      var j :| 0 <= j < |edges| && edges[j] == x;
      assert rels[j] == (x.source, x.target);
    }
  }

  /** The `nodes` list of `get_citation_network`, `[{"id": n[0], "title": n[1]} for n in nodes_set]`. */
  method NodeRows(pairs: seq<(string, Option<string>)>) returns (nodes: seq<NetworkNode>)
    ensures |nodes| == |pairs|
    ensures forall j :: 0 <= j < |pairs| ==> nodes[j] == NetworkNode(pairs[j].0, pairs[j].1)
    ensures forall n :: n in pairs <==> NetworkNode(n.0, n.1) in nodes
    ensures forall x :: x in nodes ==> (x.id, x.title) in pairs
  {
    nodes := [];
    var k := 0;
    while k < |pairs|
      invariant 0 <= k <= |pairs| && |nodes| == k
      invariant forall j :: 0 <= j < k ==> nodes[j] == NetworkNode(pairs[j].0, pairs[j].1)
    {
      nodes := nodes + [NetworkNode(pairs[k].0, pairs[k].1)];
      k := k + 1;
    }
    forall n: (string, Option<string>) | NetworkNode(n.0, n.1) in nodes
      ensures n in pairs
    {
      var j :| 0 <= j < |nodes| && nodes[j] == NetworkNode(n.0, n.1);
      assert pairs[j] == n;
    }
    forall x | x in nodes
      ensures (x.id, x.title) in pairs
    {
      var j :| 0 <= j < |nodes| && nodes[j] == x;
      assert pairs[j] == (x.id, x.title);
    }
  }

  /** The `nodes` list of `get_citation_network`: each endpoint of the given edges once. */
  method EndpointRows(store: GraphStore, edgeSet: set<(string, string)>) returns (nodes: seq<NetworkNode>)
    ensures forall n :: n in EndpointNodes(store, edgeSet) <==> NetworkNode(n.0, n.1) in nodes
    ensures forall i, j :: 0 <= i < j < |nodes| ==> nodes[i].id != nodes[j].id
  {
    var pairs := ListOf(EndpointNodes(store, edgeSet));
    nodes := NodeRows(pairs);
    forall i, j | 0 <= i < j < |nodes|
      ensures nodes[i].id != nodes[j].id
    {
      EndpointIdsUnique(store, edgeSet, pairs[i], pairs[j]);
    }
  }

  /** The whole answer of `get_citation_network` against a store. */
  method NetworkOf(store: GraphStore, paperId: string, depth: int) returns (r: Network)
    ensures forall e :: e in NetworkEdges(store, paperId, depth) <==> NetworkEdge(e.0, e.1) in r.edges
    ensures forall e :: e in r.edges ==> (e.source, e.target) in store.cites
    ensures forall i, j :: 0 <= i < j < |r.edges| ==> r.edges[i] != r.edges[j]
    ensures forall n :: n in EndpointNodes(store, NetworkEdges(store, paperId, depth)) <==> NetworkNode(n.0, n.1) in r.nodes
    ensures forall i, j :: 0 <= i < j < |r.nodes| ==> r.nodes[i].id != r.nodes[j].id
  {
    var edgeSet := NetworkEdges(store, paperId, depth);
    NetworkShape(store, paperId, depth);
    var rels := ListOf(edgeSet);
    var edges := EdgeRows(rels);
    var nodes := EndpointRows(store, edgeSet);
    r := Network(nodes, edges);
  }

  /** A row of `find_related_papers`. */
  datatype RelatedPaper = RelatedPaper(id: string, title: Option<string>, year: Option<int>, relevanceScore: nat)

  /** What `find_related_papers` returns from a reachable database: `min(limit, n)` of the n
      candidates, each with its stored title and year and its number of shared citations, no paper
      twice, highest score first, and no candidate left out that scores higher than one returned. */
  ghost predicate TopRelated(s: GraphStore, paperId: string, limit: nat, r: seq<RelatedPaper>) {
    |r| == (var n := |RelatedCandidates(s, paperId)|; if limit <= n then limit else n)
    && (forall k :: 0 <= k < |r| ==>
          r[k].id in RelatedCandidates(s, paperId) && r[k].id != paperId
          && r[k].relevanceScore == SharedCount(s, paperId, r[k].id) >= 1
          && r[k].title == Props(s, r[k].id).title && r[k].year == Props(s, r[k].id).year)
    && (forall i, j :: 0 <= i < j < |r| ==> r[i].id != r[j].id && r[i].relevanceScore >= r[j].relevanceScore)
    && (forall x, k :: (x in RelatedCandidates(s, paperId) && 0 <= k < |r|
          && (forall j :: 0 <= j < |r| ==> r[j].id != x)) ==> SharedCount(s, paperId, x) <= r[k].relevanceScore)
  }

  /** A row of `find_influential_papers`. */
  datatype InfluentialPaper = InfluentialPaper(id: string, title: Option<string>, year: Option<int>, citationCount: nat)

  /** A row of `find_papers_by_author`. */
  datatype PaperRow = PaperRow(id: string, title: Option<string>, year: Option<int>)

  /** The `{"nodes": ..., "edges": ...}` dictionary of `get_citation_network`. */
  datatype NetworkNode = NetworkNode(id: string, title: Option<string>)
  datatype NetworkEdge = NetworkEdge(source: string, target: string)
  datatype Network = Network(nodes: seq<NetworkNode>, edges: seq<NetworkEdge>)

  class CitationGraph {
    /** Whether the driver connected at construction (`self.driver` is not None). */
    const available: bool
    var papers: map<string, PaperProps>
    var authorNames: set<string>
    var authored: set<(string, string)>
    var cites: set<(string, string)>

    function Contents(): GraphStore
      reads this
    {
      GraphStore(papers, authorNames, authored, cites)
    }

    ghost predicate Valid()
      reads this
    {
      WellFormed(Contents())
    }

    /** `connected` is the outcome of the connectivity probe; `existing` is what the database already holds. */
    constructor (connected: bool, existing: GraphStore)
      requires WellFormed(existing)
      ensures available == connected && Contents() == existing && Valid()
    {
      available := connected;
      papers := existing.papers;
      authorNames := existing.authors;
      authored := existing.authored;
      cites := existing.cites;
    }

    /** `add_paper`. */
    method AddPaper(paperId: string, title: string, authors: seq<string>, year: Option<int>, abstractText: Option<string>)
      requires Valid()
      modifies this
      ensures Valid()
      ensures Contents() == if available then AddPaperSpec(old(Contents()), paperId, title, authors, year, abstractText) else old(Contents())
    {
      if !available {
        return;
      }
      UpdatesWellFormed(Contents(), paperId, title, authors, year, abstractText, []);
      papers := papers[paperId := PaperProps(Some(title), year, abstractText)];
      if authors != [] {
        ghost var start := Contents();
        var i := 0;
        while i < |authors|
          invariant 0 <= i <= |authors|
          invariant Contents() == AddAuthors(start, authors[..i], paperId)
        {
          var author := authors[i];
          assert authors[..i + 1][..i] == authors[..i];
          authorNames := authorNames + {author};
          if paperId !in papers {
            papers := papers[paperId := NoProps];
          }
          authored := authored + {(author, paperId)};
          i := i + 1;
        }
        assert authors[..|authors|] == authors;
      }
    }

    /** `add_citation`. */
    method AddCitation(citingPaperId: string, citedPaperId: string)
      requires Valid()
      modifies this
      ensures Valid()
      ensures Contents() == if available then AddCitationSpec(old(Contents()), citingPaperId, citedPaperId) else old(Contents())
    {
      if !available {
        return;
      }
      if citingPaperId !in papers {
        papers := papers[citingPaperId := NoProps];
      }
      if citedPaperId !in papers {
        papers := papers[citedPaperId := NoProps];
      }
      cites := cites + {(citingPaperId, citedPaperId)};
    }

    /** `add_citations_from_list`: `add_citation` for each listed paper, in order. */
    method AddCitationsFromList(paperId: string, citations: seq<string>)
      requires Valid()
      modifies this
      ensures Valid()
      ensures Contents() == if available then AddCitationsSpec(old(Contents()), paperId, citations) else old(Contents())
    {
      if !available {
        return;
      }
      var i := 0;
      while i < |citations|
        invariant 0 <= i <= |citations|
        invariant Valid()
        invariant Contents() == AddCitationsSpec(old(Contents()), paperId, citations[..i])
      {
        assert citations[..i + 1][..i] == citations[..i];
        AddCitation(paperId, citations[i]);
        i := i + 1;
      }
      assert citations[..|citations|] == citations;
    }

    /** `find_related_papers`: the papers sharing the most citations with `paperId`, at most `limit`. */
    method FindRelatedPapers(paperId: string, limit: nat) returns (r: seq<RelatedPaper>)
      ensures !available ==> r == []
      ensures available ==> TopRelated(Contents(), paperId, limit, r)
      ensures available && (forall e :: e in cites ==> e.0 != paperId) ==> r == []
    {
      if !available {
        return [];
      }
      var store := Contents();
      var candidates := RelatedCandidates(store, paperId);
      var ids := TopByKey(candidates, x => SharedCount(store, paperId, x), limit);
      r := [];
      var k := 0;
      while k < |ids|
        invariant 0 <= k <= |ids| && |r| == k
        invariant forall j :: 0 <= j < k ==>
          r[j] == RelatedPaper(ids[j], Props(store, ids[j]).title, Props(store, ids[j]).year, SharedCount(store, paperId, ids[j]))
      {
        var props := Props(store, ids[k]);
        r := r + [RelatedPaper(ids[k], props.title, props.year, SharedCount(store, paperId, ids[k]))];
        k := k + 1;
      }
      forall k | 0 <= k < |r|
        ensures r[k].relevanceScore >= 1 && r[k].id != paperId
      {
        RelatedScorePositive(store, paperId, ids[k]);
      }
    }

    /** `find_influential_papers`: the most cited papers, at most `limit`. */
    method FindInfluentialPapers(limit: nat) returns (r: seq<InfluentialPaper>)
      ensures !available ==> r == []
      ensures available ==> |r| == (var n := |CitedPapers(Contents())|; if limit <= n then limit else n)
      ensures forall k :: 0 <= k < |r| ==>
        r[k].id in CitedPapers(Contents()) && r[k].citationCount == InDegree(Contents(), r[k].id) >= 1
        && r[k].title == Props(Contents(), r[k].id).title && r[k].year == Props(Contents(), r[k].id).year
      ensures forall i, j :: 0 <= i < j < |r| ==> r[i].id != r[j].id && r[i].citationCount >= r[j].citationCount
      ensures forall x, k :: (x in CitedPapers(Contents()) && 0 <= k < |r|
        && (forall j :: 0 <= j < |r| ==> r[j].id != x)) ==> InDegree(Contents(), x) <= r[k].citationCount
    {
      if !available {
        return [];
      }
      var store := Contents();
      var ids := TopByKey(CitedPapers(store), x => InDegree(store, x), limit);
      r := [];
      var k := 0;
      while k < |ids|
        invariant 0 <= k <= |ids| && |r| == k
        invariant forall j :: 0 <= j < k ==>
          r[j] == InfluentialPaper(ids[j], Props(store, ids[j]).title, Props(store, ids[j]).year, InDegree(store, ids[j]))
      {
        var props := Props(store, ids[k]);
        r := r + [InfluentialPaper(ids[k], props.title, props.year, InDegree(store, ids[k]))];
        k := k + 1;
      }
      forall k | 0 <= k < |r|
        ensures r[k].citationCount >= 1
      {
        CitedPositive(store, ids[k]);
      }
    }

    /** `find_papers_by_author`: every paper of the author, later years first. Neo4j lists papers without
        a year first in a descending order; this model does the same. */
    method FindPapersByAuthor(authorName: string) returns (r: seq<PaperRow>)
      ensures !available ==> r == []
      ensures available ==> forall x :: (exists k :: 0 <= k < |r| && r[k].id == x) <==> x in AuthoredBy(Contents(), authorName)
      ensures forall k :: 0 <= k < |r| ==>
        r[k].title == Props(Contents(), r[k].id).title && r[k].year == Props(Contents(), r[k].id).year
      ensures forall i, j :: 0 <= i < j < |r| ==> r[i].id != r[j].id
      ensures forall i, j :: 0 <= i < j < |r| && r[i].year.Some? && r[j].year.Some? ==> r[i].year.value >= r[j].year.value
      ensures forall i, j :: 0 <= i < j < |r| && r[i].year.Some? ==> r[j].year.Some?
    {
      if !available {
        return [];
      }
      var store := Contents();
      var ids := ByYearDescending(store, AuthoredBy(store, authorName));
      r := [];
      var k := 0;
      while k < |ids|
        invariant 0 <= k <= |ids| && |r| == k
        invariant forall j :: 0 <= j < k ==> r[j] == PaperRow(ids[j], Props(store, ids[j]).title, Props(store, ids[j]).year)
      {
        var props := Props(store, ids[k]);
        r := r + [PaperRow(ids[k], props.title, props.year)];
        k := k + 1;
      }
      forall x | x in AuthoredBy(store, authorName)
        ensures exists k :: 0 <= k < |r| && r[k].id == x
      {
        var k :| 0 <= k < |ids| && ids[k] == x;
        assert r[k].id == x;
      }
    }

    /** `get_citation_network`: the CITES edges around `paperId` and the papers they join. */
    method GetCitationNetwork(paperId: string, depth: int) returns (r: Network)
      ensures !available ==> r == Network([], [])
      ensures available ==> forall e :: e in NetworkEdges(Contents(), paperId, depth) <==> NetworkEdge(e.0, e.1) in r.edges
      ensures forall e :: e in r.edges ==> (e.source, e.target) in cites
      ensures forall i, j :: 0 <= i < j < |r.edges| ==> r.edges[i] != r.edges[j]
      ensures available ==> forall n :: n in EndpointNodes(Contents(), NetworkEdges(Contents(), paperId, depth)) <==> NetworkNode(n.0, n.1) in r.nodes
      ensures forall i, j :: 0 <= i < j < |r.nodes| ==> r.nodes[i].id != r.nodes[j].id
    {
      if !available {
        return Network([], []);
      }
      r := NetworkOf(Contents(), paperId, depth);
    }

    /** `clear_graph`: `DETACH DELETE` of every node. */
    method ClearGraph()
      requires Valid()
      modifies this
      ensures Valid()
      ensures Contents() == if available then EmptyStore else old(Contents())
    {
      if !available {
        return;
      }
      papers := map[];
      authorNames := {};
      authored := {};
      cites := {};
    }
  }

  /** After `clear_graph` every query comes back empty. */
  lemma ClearedGraphEmpty(p: string, name: string, depth: int)
    ensures RelatedCandidates(EmptyStore, p) == {} && CitedPapers(EmptyStore) == {}
    ensures AuthoredBy(EmptyStore, name) == {} && NetworkEdges(EmptyStore, p, depth) == {}
  {
  }
}
