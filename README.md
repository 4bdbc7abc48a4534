# Research assistant core, modelled and verified in Dafny

The research assistant takes one input: a PDF path, a web address or a free-text question. A
LangGraph workflow runs that input through six nodes, in this order:
- **process_input** classifies the input and fetches context from the interaction memory;
- **pdf_processing** or **url_processing** (one of the two, chosen by the input's type) extracts the
  text, metadata, citations and key concepts;
- **rag_processing** summarises the text or answers the question;
- **citation_graph** records the paper and its citations in a Neo4j citation graph, then looks up
  related papers;
- **memory** logs the interaction in the memory.

Every node appends one message to the state's message log.

This project models five parts of that system:
- the interaction memory, `MemoryManager`: an append-only log with id assignment, recency slicing,
  keyword search, statistics and a word-overlap context ranker;
- the citation graph, `CitationGraph`: Paper and Author nodes, AUTHORED and CITES edges, `MERGE`
  upserts and four ranking or listing queries;
- the workflow, `ResearchGraph`: classification, routing, the node sequence with its exception
  handling, and the message reducer;
- the document adapter's text helpers: page assembly, citations, key concepts and sections;
- the web adapter's helpers: arXiv identifiers, text cleanup and metadata defaulting.

Layout:
- `wrappers.dfy`: Option and Result.
- `text.dfy`: Python string operations on `seq<char>`, such as `lower`, `strip`, `split`, `in`,
  slicing and `join`.
- `seqs.dfy`: list idioms: negative slices, comprehension filters, subsequences, `list(set)`.
- `records.dfy`: the metadata dictionary.
- `scanning.dfy`: a matcher for the fixed-shape citation regular expressions.
- `memory.dfy`: the memory manager.
- `citation_graph.dfy`: the citation graph.
- `pdf_processor.dfy`: the document adapter.
- `url_scraper.dfy`: the web adapter.
- `research_graph.dfy`: the workflow.

A stateful component is a `class` whose methods are specified against functions of its state:
- the memory log is a `seq<Entry>`;
- the graph is a map of papers plus three sets of names and edges; `GraphStore` is the value of
  that state, and the `...Spec` functions state what each Cypher statement does to it;
- the workflow state is a class with one field per key of the state dictionary; `StateValue` is
  its value.

Each loop of the source is a `while` loop with invariants: the memory scans, the graph's author and
citation loops, page assembly, section collection, and the query result lists. What the source
promises about each result is proved as lemmas about those functions.

The code differs from a stricter reading of its documentation in five places. The model follows
the code:
- Errors do not stop the pipeline. Even after the PDF, URL or retrieval node has set `error`, the
  retrieval, citation-graph and memory nodes still run (the edges in
  `src/agents/research_graph.py:262-266`).
- The retrieval node chooses between summarising and answering by whether `text` is empty
  (line 126), not by the input type or by `chunks`.
- The context ranker scores an entry against the concatenation of all the present `query`,
  `summary` and `title` fields (`src/memory/memory_manager.py:183-188`).
- Keyword search uses an `elif` chain. An entry is listed once even when several of its fields match.
- `find_papers_by_author` sorts with `ORDER BY p.year DESC`. In Neo4j's descending order, papers
  without a year come first.

## Model

| member | source | states |
|---|---|---|
| Memory.MemoryManager.constructor | src/memory/memory_manager.py:12-35 | The manager starts with the log it loaded from the memory file; an empty log when there was none. |
| Memory.MemoryManager.AddInteraction | src/memory/memory_manager.py:59-68 | Exactly one query entry is appended, with id = previous length + 1 and metadata `{}` when none is given. Earlier entries are unchanged. Sequential ids 1..N stay sequential. |
| Memory.MemoryManager.AddDocumentMemory | src/memory/memory_manager.py:88-100 | Exactly one document entry carrying all its fields is appended, with id = previous length + 1. Earlier entries are unchanged. Sequential ids stay sequential. |
| Memory.MemoryManager.ClearMemory | src/memory/memory_manager.py:214-217 | The log becomes empty. The empty log trivially has sequential ids, so appends then restart at id 1. |
| Memory.SequentialIdLookup | src/memory/memory_manager.py:60-61 | In a log with sequential ids, looking up id k finds the k-th entry. |
| Memory.MemoryManager.RecentInteractions | src/memory/memory_manager.py:112 | For n ≥ 1: the last min(n, len) entries, in log order. Empty on an empty log. The whole log for n = 0, as Python's `[-0:]` slice gives. For negative n: the log without its first -n entries. |
| Memory.MemoryManager.SearchMemory | src/memory/memory_manager.py:124-138 | The result equals the comprehension filter over the log (the loop runs back to front and prepends, giving the same list): a subsequence of the log in log order. An entry is in it iff its query, title or summary field contains the keyword case-insensitively. The response is never searched. |
| Memory.MemoryManager.DocumentHistory | src/memory/memory_manager.py:147 | Exactly the document entries, as a subsequence of the log (log order kept). |
| Memory.IndexOfId | src/memory/memory_manager.py:159-162 | The position of the first entry carrying the id; None exactly when no entry carries it. |
| Memory.MemoryManager.GetInteractionById | src/memory/memory_manager.py:159-162 | Returns the first entry carrying the id, or None exactly when no entry carries it. |
| Memory.MemoryManager.GetStatistics | src/memory/memory_manager.py:239-249 | total == log length == document count + query count, where the document count is the length of the document history. Oldest and newest are the first and last timestamps, or both None on an empty log. |
| Memory.ScoreEntries | src/memory/memory_manager.py:176-194 | The scoring loop yields, in log order, each entry with a positive word-overlap score, paired with that score. |
| Memory.RankSound | src/memory/memory_manager.py:196-198 | After the stable descending sort and the `[:n]` cut: at most n entries, each drawn from the log with its own positive score, scores non-increasing and ties in log order. |
| Memory.RankComplete | src/memory/memory_manager.py:196-198 | No scoring entry that the cut leaves out scores higher than a kept one. |
| Memory.SortByScore | src/memory/memory_manager.py:197 | `sort(reverse=True, key=score)` returns a permutation of its input. |
| Memory.SortByScoreStableSorted | src/memory/memory_manager.py:197 | For pairs listed in log order, the sort leaves scores non-increasing and equal scores in log order, as Python's stable sort does with `reverse=True`. |
| Memory.TopEntriesSpec | src/memory/memory_manager.py:176-198 | For the context ranking of a query: at most n entries of the log, each with score = the number of distinct lower-case words it shares with the query, and that score > 0; best first, ties in log order; nothing left out outranks what is kept. The ranking is empty when no entry shares a word with the query, and non-empty when one does and n ≥ 1. |
| Memory.RenderTop | src/memory/memory_manager.py:201-210 | The rendering loop produces the parts of the ranked entries, in ranking order. |
| Memory.RenderPartsShape | src/memory/memory_manager.py:202-210 | Each ranked entry yields exactly two parts. A document yields "Document: <title>", then "Summary: <first 200 chars>...". A query yields "Previous query: <query>", then "Response: <first 200 chars>...". The "..." is always appended. |
| Memory.RenderEmpty | src/memory/memory_manager.py:212 | The parts joined with blank lines are empty iff nothing was ranked. |
| Memory.MemoryManager.ContextForQuery | src/memory/memory_manager.py:164-212 | The context is the joined rendering of the top-n ranked entries, and it is empty iff no entry was ranked. |
| CitationGraphs.CitationGraph.constructor | src/graph/citation_graph.py:28-38 | The availability flag is the outcome of the connection probe and is fixed for the object's lifetime. The graph starts as the database's content. |
| CitationGraphs.CitationGraph.AddPaper | src/graph/citation_graph.py:45-92 | A no-op without a driver. Otherwise the graph becomes `AddPaperSpec` of the old graph: the paper's properties are overwritten, then the author loop runs. Edge endpoints stay present. |
| CitationGraphs.AddPaperShape | src/graph/citation_graph.py:66-92 | One Paper per id. Title, year and abstract are overwritten, and year and abstract become null when omitted. Other papers and all CITES edges are untouched. The paper count grows by one only for a new id. Authors gain exactly the listed names, and AUTHORED gains exactly one (name, paper) edge per listed name. |
| CitationGraphs.AddAuthorsClosed | src/graph/citation_graph.py:82-92 | The author loop adds exactly one Author per listed name and one AUTHORED edge per name, and nothing else. |
| CitationGraphs.AddPaperIdempotent | src/graph/citation_graph.py:66-92 | Repeating `add_paper` with the same arguments leaves the graph unchanged. |
| CitationGraphs.CitationGraph.AddCitation | src/graph/citation_graph.py:94-114 | A no-op without a driver. Otherwise the graph becomes `AddCitationSpec`: both endpoints are merged, then the edge. |
| CitationGraphs.AddCitationShape | src/graph/citation_graph.py:105-114 | The CITES edge is added, with at most one edge per ordered pair. A missing endpoint is created with its id only. Existing papers keep their properties. Authors and AUTHORED edges are unchanged. |
| CitationGraphs.CitationGraph.AddCitationsFromList | src/graph/citation_graph.py:116-132 | A no-op without a driver. Otherwise it is `add_citation` for each listed id, in turn. |
| CitationGraphs.AddCitationsClosed | src/graph/citation_graph.py:131-132 | The loop adds exactly the edges from the paper to each listed id. The paper set grows by exactly the missing endpoints, and existing properties are kept. |
| CitationGraphs.AddCitationsIdempotent | src/graph/citation_graph.py:131-132 | Repeating the list leaves the graph unchanged. |
| CitationGraphs.UpdatesWellFormed | src/graph/citation_graph.py:66-132 | Both updates keep every edge between existing nodes. |
| CitationGraphs.CitationGraph.FindRelatedPapers | src/graph/citation_graph.py:134-180 | Empty without a driver, or when the paper cites nothing. Otherwise the result has min(limit, number of candidates) rows, none for the paper itself, each id once. Each row's score is the number of papers cited by both the paper and the row's paper, and is ≥ 1; titles and years are the stored ones. Scores are non-increasing, and no candidate left out scores higher. |
| CitationGraphs.RelatedScorePositive | src/graph/citation_graph.py:156-162 | Every related candidate differs from the paper and shares at least one citation with it. |
| CitationGraphs.TopByKey | src/graph/citation_graph.py:164-165 | `ORDER BY key DESC LIMIT n`: min(n, number of candidates) distinct candidates, keys non-increasing, no candidate left out with a larger key, and all candidates when n covers them. |
| CitationGraphs.MaxByKey | src/graph/citation_graph.py:164 | Returns a candidate with the largest key. |
| CitationGraphs.CitationGraph.FindInfluentialPapers | src/graph/citation_graph.py:182-220 | Empty without a driver. Otherwise min(limit, number of cited papers) rows, each id once. Each `citation_count` equals the paper's CITES in-degree and is ≥ 1. Counts are non-increasing, and no cited paper left out has more citations. |
| CitationGraphs.CitedPositive | src/graph/citation_graph.py:198-203 | A paper the grouping sees has in-degree ≥ 1. |
| CitationGraphs.CitationGraph.FindPapersByAuthor | src/graph/citation_graph.py:222-255 | Empty without a driver. Otherwise its ids are exactly the papers with an AUTHORED edge from the author with exactly that name, each once, with stored titles and years. Undated papers come before dated ones (a null year sorts first under `ORDER BY p.year DESC`), and dated papers are latest first. |
| CitationGraphs.ByYearDescending | src/graph/citation_graph.py:242 | `ORDER BY p.year DESC` over a paper set: each paper once, papers without a year before dated ones, dated ones by year descending. |
| CitationGraphs.UndatedThenLatest | src/graph/citation_graph.py:242 | Undated papers followed by dated papers, latest first, is in descending year order. |
| CitationGraphs.CitationGraph.GetCitationNetwork | src/graph/citation_graph.py:257-303 | `{"nodes": [], "edges": []}` without a driver. Otherwise the edges are exactly the CITES edges within the path bound, each once. The nodes are exactly their endpoints, each with its stored title, and each node id once. |
| CitationGraphs.NetworkOf | src/graph/citation_graph.py:272-303 | The network of a store: the edge and node lists satisfy the same set equalities and uniqueness as above. |
| CitationGraphs.EdgeRows | src/graph/citation_graph.py:290-294 | One edge row per returned relationship, in order, and exactly those. |
| CitationGraphs.NodeRows | src/graph/citation_graph.py:295-298 | One node row per `(id, title)` pair in `nodes_set`, in order, and exactly those. |
| CitationGraphs.EndpointRows | src/graph/citation_graph.py:290-298 | The node list holds exactly the endpoints of the edges, and no id twice. |
| CitationGraphs.EndpointIdsUnique | src/graph/citation_graph.py:295-296 | Two endpoint pairs with the same id are equal, since a paper has one title. |
| CitationGraphs.NetworkShape | src/graph/citation_graph.py:274-298 | Network edges are CITES edges. Nodes are exactly their endpoints. A missing paper or a depth below 1 gives no edges. |
| CitationGraphs.CitationGraph.ClearGraph | src/graph/citation_graph.py:305-311 | A no-op without a driver. Otherwise the graph becomes empty. |
| CitationGraphs.ClearedGraphEmpty | src/graph/citation_graph.py:310-311 | After clearing, every query's candidate set is empty. |
| Seqs.ListOf | src/graph/citation_graph.py:298 | `list(set)`: each element of the set exactly once. |
| ResearchWorkflow.Classify | src/agents/research_graph.py:51-56 | Total: the type is always "pdf", "url" or "query". |
| ResearchWorkflow.ClassifyPdf | src/agents/research_graph.py:51-56 | An input is "pdf" iff it contains "pdf" case-insensitively, because the `.endswith('.pdf')` test is subsumed. It is "url" iff it does not and starts with "http". |
| ResearchWorkflow.Route | src/agents/research_graph.py:236-245 | "pdf" routes to pdf_processing, "url" to url_processing, and every other type to rag_processing. |
| ResearchWorkflow.TraceShape | src/agents/research_graph.py:248-266 | A run visits 5 nodes on the pdf and url routes and 4 on the query route. It always starts with process_input and ends with rag, citation_graph, memory. |
| ResearchWorkflow.ResearchState.constructor | src/agents/research_graph.py:280-293 | The initial state holds the input and an empty value for every other key. |
| ResearchWorkflow.ResearchState.Emit | src/agents/research_graph.py:27 | The `operator.add` reducer: a node's one-message list is appended to the log. Nothing else changes. |
| ResearchWorkflow.ResearchState.Begin | src/agents/research_graph.py:52-61 | The first node sets the type and the memory context and appends the "Processing: <input>" message. Nothing else changes. |
| ResearchWorkflow.ResearchState.Fail | src/agents/research_graph.py:83-85 | A caught exception sets `error` to the node's prefix plus the exception text and appends "✗ Error: ...". Nothing else changes. |
| ResearchWorkflow.ResearchState.GraphFailed | src/agents/research_graph.py:183-188 | A graph exception empties `related_papers` and appends the warning. `error` is untouched. |
| ResearchWorkflow.ResearchState.Related | src/agents/research_graph.py:176-181 | The related papers and the success message with their count. |
| ResearchWorkflow.ResearchState.Load | src/agents/research_graph.py:73-81 | A successful extraction writes text, metadata, citations, key concepts and chunks, and appends one message. |
| ResearchWorkflow.ResearchGraph.constructor | src/agents/research_graph.py:35-44 | The workflow is wired to the given memory manager, citation graph and services. |
| ResearchWorkflow.ResearchGraph.ProcessInputNode | src/agents/research_graph.py:46-63 | The type is `Classify(input)`. The memory context is the rendered top-3 ranking for the input. One processing message is appended. |
| ResearchWorkflow.ResearchGraph.PdfProcessingNode | src/agents/research_graph.py:65-87 | If the document cannot be opened: the "PDF processing error: Error extracting text from PDF: ..." error and one failure message; nothing else changes. Otherwise: the assembled page text, its metadata, its chunks, citations and key concepts as the extractors promise, and a message naming the title or "Unknown". |
| ResearchWorkflow.ResearchGraph.UrlProcessingNode | src/agents/research_graph.py:89-113 | If the page cannot be fetched: the "URL scraping error: Error scraping URL: ..." error. Otherwise: exactly the cleaned body text of the fetched page and exactly its extracted metadata (no triple newline or double space in the text; source, type "url", title and author in the metadata), the chunks of that text, citations and key concepts taken from it, and the scraped message. |
| ResearchWorkflow.ResearchGraph.RagProcessingNode | src/agents/research_graph.py:115-152 | The new state is `RagStep` of the old one, for the given service outcomes. |
| ResearchWorkflow.RagStepFrame | src/agents/research_graph.py:115-152 | Retrieval appends exactly one message and writes at most `summary` and `error`. An error it writes starts with "RAG processing error: " and replaces any earlier one. |
| ResearchWorkflow.RagStepSummary | src/agents/research_graph.py:119-150 | When every service succeeds, `error` is unchanged. The summary is then the one generated from the first 8000 characters when there is text, or `{"answer": ...}` for the input when there is none. When a service raises, `error` carries the RAG prefix. |
| ResearchWorkflow.ResearchGraph.CitationGraphNode | src/agents/research_graph.py:154-190 | The paper id is `metadata.source`, else the input, and the title defaults to "Unknown". The paper is added with its one author and with its abstract cut to 500 characters, then at most its first 10 citations. When the lookup runs on a reachable database, `related_papers` is exactly a top-5 result over the updated graph: min(5, number of candidates) rows with their shared-citation scores, non-increasing, none better left out. In every case at most 5 related papers are kept, none of them the paper itself, each with score ≥ 1. On a fault at each call site: the graph as the earlier calls left it, `related_papers` empty and a warning; `error` is never written. |
| ResearchWorkflow.ResearchGraph.MemoryNode | src/agents/research_graph.py:192-221 | Without a fault, exactly one entry is logged, with the next id: a document when the metadata title is non-empty, otherwise a query with response = `summary.answer` or "". On a fault, the log is unchanged and only a warning is appended. |
| ResearchWorkflow.MemoryEntry | src/agents/research_graph.py:195-210 | The logged entry is a document iff the title is truthy, with the fields the node passes: document id = source or input, summary, concepts and citations. Otherwise it is a query with the input, the answer or "", and the metadata. |
| ResearchWorkflow.Analyse | src/agents/research_graph.py:69-70 | Citations and key concepts of the new text, as `extract_citations` and `extract_key_concepts` promise. |
| ResearchWorkflow.FailedError | src/agents/research_graph.py:84 | A failed node's error starts with its prefix. |
| ResearchWorkflow.ResearchGraph.RunEntry | src/agents/research_graph.py:228-259 | process_input and then the routed node. The input is kept, the type is classified, and one or two messages are appended after the old log. `error` is unchanged or carries the PDF or URL prefix; on the query route it is unchanged. |
| ResearchWorkflow.ResearchGraph.RunRetrieval | src/agents/research_graph.py:264 | Retrieval then the citation graph: two messages are appended, and `error` is unchanged or carries the RAG prefix. |
| ResearchWorkflow.ResearchGraph.RunTail | src/agents/research_graph.py:262-266 | Retrieval, citation graph and memory always run. Three messages are appended and the old log is kept. `error` is unchanged or RAG-prefixed. The memory grows by one entry exactly when it does not fault, and sequential ids stay sequential. |
| ResearchWorkflow.ResearchGraph.Process | src/agents/research_graph.py:270-297 | On a fresh state: the input is kept and classified. The log starts with the processing message and has one message per visited node (5 on the pdf and url routes, 4 on the query route). Memory grows by one entry unless it faults, and its ids stay sequential. `error` is "" or carries the PDF, URL or RAG prefix, and on the query route only "" or the RAG prefix. |
| PdfProcessing.ExtractText | src/processing/pdf_processor.py:21-53 | On an open failure: "Error extracting text from PDF: ...". Otherwise: the page text assembled by the loop, and the metadata (title and author defaulting to "Unknown", subject to "", the page count, the path as source). |
| PdfProcessing.BlocksAppend | src/processing/pdf_processor.py:37-39 | The `+=` loop's text for consecutive page runs is the concatenation of their block texts, numbers continuing. |
| PdfProcessing.PageInPlace | src/processing/pdf_processor.py:37-39 | Page k's "\n--- Page k ---\n" block sits right after the blocks of pages 1..k-1 and right before those of the later pages. |
| PdfProcessing.ExtractCitations | src/processing/pdf_processor.py:55-88 | No duplicates. A string is a citation iff it is one of the four patterns' candidates. |
| PdfProcessing.BracketMatch | src/processing/pdf_processor.py:68 | `\[(\d+)\]` matches from i to j iff `text[i..j]` is "[", one or more digits, "]". |
| PdfProcessing.BracketFoundFrom | src/processing/pdf_processor.py:69 | The `findall` scan reports every numeric reference that starts at or after its position. |
| PdfProcessing.BracketCitationsComplete | src/processing/pdf_processor.py:68-70 | Every `[digits]` occurrence in the text is a citation, brackets kept. |
| PdfProcessing.BracketCitationsSound | src/processing/pdf_processor.py:68-70 | Every rewritten numeric citation is a `[digits]` occurrence of the text. |
| PdfProcessing.Bracketed | src/processing/pdf_processor.py:70 | One "[m]" per matched group m, in order. |
| PdfProcessing.AuthorYearWithoutParentheses | src/processing/pdf_processor.py:73-85 | Author-year citations never contain a parenthesis. |
| PdfProcessing.OneAuthorExampleGroups | src/processing/pdf_processor.py:83-84 | Pattern 4 finds exactly "Smith, 2020" in "(Smith, 2020)". |
| PdfProcessing.AuthorYearExample | src/processing/pdf_processor.py:83-85 | "(Smith, 2020)" yields the citation "Smith, 2020". |
| PdfProcessing.ExtractKeyConcepts | src/processing/pdf_processor.py:90-127 | At most 20 distinct concepts, each a candidate longer than 3 characters. Exactly min(20, number of such candidates) of them, and all of them when there are at most 20. |
| PdfProcessing.FirstLongConcepts | src/processing/pdf_processor.py:127 | `list(set(c for c in concepts if len(c) > 3))[:20]` over any list, with the same counts. |
| PdfProcessing.NoPhrasesWithoutCapitals | src/processing/pdf_processor.py:112 | The capitalised-phrase expression finds nothing in text without capital letters. |
| PdfProcessing.ConceptsAreKeywords | src/processing/pdf_processor.py:104-125 | The abstract is searched in the lower-cased text and contributes nothing, so the concepts are exactly the keyword pieces. |
| PdfProcessing.KeywordPiecesShape | src/processing/pdf_processor.py:124-125 | A keyword piece holds none of `, ; · •` and has no whitespace at either end. |
| PdfProcessing.NextStopNearest | src/processing/pdf_processor.py:105 | The lazy group ends at the nearest position where an ending alternative matches. |
| PdfProcessing.FirstGroupLazy | src/processing/pdf_processor.py:156-160 | The group of a section match ends at the first stop at least its minimum length after its start. When there is no group, no start end is followed by a stop. |
| PdfProcessing.SearchLeftmost | src/processing/pdf_processor.py:164 | `re.search` reports the match at the leftmost position where one starts, or fails when none starts anywhere. |
| PdfProcessing.CollectSections | src/processing/pdf_processor.py:163-166 | The loop builds the dictionary of the matching names, each with its stripped and cut group. |
| PdfProcessing.ExtractSections | src/processing/pdf_processor.py:142-168 | The dictionary for the five expressions searched in the lower-cased text. |
| PdfProcessing.SectionsOfPatterns | src/processing/pdf_processor.py:163-166 | With distinct names, a name is a key iff its expression matches, and its value is the stripped group cut to 2000 characters. There are no other keys. |
| PdfProcessing.ExtractedSectionNames | src/processing/pdf_processor.py:155-161 | Keys are among abstract, introduction, methodology, results, conclusion. |
| PdfProcessing.SectionValueShape | src/processing/pdf_processor.py:166 | A section value has at most 2000 characters, starts with a non-space and is a piece of the text. It equals the stripped group when that fits. |
| UrlScraping.PdfUrl | src/processing/url_scraper.py:163-173 | "https://arxiv.org/pdf/" + id + ".pdf": 26 characters longer than the id. |
| UrlScraping.PdfUrlShape | src/processing/url_scraper.py:173 | The address holds the host at 8, "pdf/" at 18, the id at 22 and then a dot. |
| UrlScraping.PdfUrlRoundTrip | src/processing/url_scraper.py:158-173 | For an id of the form digits "." digits, extracting the id of its PDF address gives the id back. |
| UrlScraping.ArxivIdAt | src/processing/url_scraper.py:158 | A match at i has "arxiv.org" at i, and its group is a well-formed id found at i + 14. |
| UrlScraping.ArxivSearch | src/processing/url_scraper.py:158 | A found id is well-formed and occurs in a URL containing "arxiv.org". |
| UrlScraping.ArxivSearchSkips | src/processing/url_scraper.py:158 | Positions where no match starts do not change the leftmost search. |
| UrlScraping.ArxivIdSound | src/processing/url_scraper.py:146-161 | An extracted id is well-formed and taken from the URL, and that URL passes `is_arxiv_url`. |
| UrlScraping.CapRunsBelow | src/processing/url_scraper.py:126-127 | After `re.sub(c{n,}, c*(n-1))`, no run of c reaches n. |
| UrlScraping.CapIdentity | src/processing/url_scraper.py:126-127 | The substitution leaves a text with only short runs unchanged. |
| UrlScraping.CapKeepsTheRest | src/processing/url_scraper.py:126-127 | The substitution deletes copies of c only; every other character stays, in order. |
| UrlScraping.RunsBelowMeans | src/processing/url_scraper.py:126-127 | "No run of n copies of c" holds iff the text does not contain c repeated n times. |
| UrlScraping.CleanShape | src/processing/url_scraper.py:126-128 | The cleaned text has no "\n\n\n", no two consecutive spaces and no surrounding whitespace. |
| UrlScraping.CleanIdempotent | src/processing/url_scraper.py:126-128 | Cleaning twice gives the same text as cleaning once. |
| UrlScraping.Paragraphs | src/processing/url_scraper.py:121 | Only non-empty stripped paragraph texts are kept. |
| UrlScraping.ExtractText | src/processing/url_scraper.py:100-130 | The joined paragraphs of the main element, or the page text, cleaned step by step, with the cleanup's three guarantees. |
| UrlScraping.ExtractMetadata | src/processing/url_scraper.py:56-98 | The metadata filled key by key equals the single value `MetadataOf`. Always source = url, type = "url", and a title and an author. The title is the stripped `<title>`, else `og:title`'s content, else "Unknown". The author falls back to "Unknown". Description and date are present exactly when their tags are. |
| UrlScraping.ScrapeUrl | src/processing/url_scraper.py:25-54 | A failed fetch gives "Error scraping URL: ...". A fetched page gives exactly the cleaned body text and the extracted metadata of that page, so the text has no triple newline or double space and the metadata has source, type, title and author. |

## Left out

- JSON persistence of the memory (`_load_memory`, `_save_memory`, `export_memory`): file I/O. The log the constructor receives stands for what was loaded.
- `datetime.now()` and Neo4j's `timestamp()`: clocks. Timestamps are parameters, and the `updated` property is not modelled.
- `CitationGraph.close` and the Neo4j driver, sessions and connectivity probe: the probe's outcome is the constructor's `connected` flag.
- A Neo4j error at query time is modelled only as the workflow's `graphFault`, for a whole call. The graph methods themselves assume that every statement runs.
- GetCitationNetwork: a path of 1..depth hops is approximated by "an edge touching a paper within depth - 1 hops". Cypher's paths do not repeat a relationship, and Neo4j may reject `$depth` in a variable-length pattern (src/graph/citation_graph.py:274). The proved properties do not depend on the exact hop rule: distinct CITES edges, and nodes exactly their endpoints.
- Tie order in `ORDER BY ... DESC` and the order of `list(set(...))`: both are left open. TopByKey, ListOf, ExtractCitations and ExtractKeyConcepts promise only the order the query fixes.
- ExtractKeyConcepts: which 20 concepts are kept when there are more depends on set iteration order, so only the count and membership are stated.
- `str.lower`, `\d`, `\w`, `[A-Z]` and `[a-z]` are modelled on ASCII. `\s`, `str.strip` and `str.split` use the character set of Python's `str.isspace`. Unicode case mapping is not modelled.
- SectionValueShape: a 2000-character cut may end on whitespace, so the value is promised to start with a non-space but not to end with one.
- PyMuPDF (opening, page text, document information), `requests` with its timeout and BeautifulSoup's tree search and `decompose`: foreign libraries. They are modelled as the outcomes they return: `PdfDocument`, `Page`, `HeadTags` and `PageText`.
- `chunk_document`, `chunk_content` and LangChain's `RecursiveCharacterTextSplitter`: foreign library. The splitters are service functions.
- The retrieval system (`add_documents`, `generate_summary`, `generate_related_work_suggestions`, `answer_question`): OpenAI and Chroma calls. They are service outcomes that succeed or raise. `generate_summary` is modelled as returning its `full_summary` string, since that is the only key the workflow reads.
- MemoryNode: `_save_memory` catches its own exceptions after the append. The model's `memoryFault` is therefore a failure raised before the append, leaving the log unchanged.
- The LangGraph engine itself: the compiled graph is the fixed method sequence in `Process`, and the state's `messages` reducer is `Emit`.
- Concurrency: requests served at the same time may share the memory manager and the graph without locking. Only one run at a time is modelled.
- Printing warnings (`print` in the graph's constructor) is output only.
