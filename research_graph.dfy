/** The research workflow: a fixed graph of six nodes over one shared state record. Input is
    classified, routed to the PDF or URL node (or straight to retrieval), then always passes through
    the retrieval, citation-graph and memory nodes. Every node appends exactly one message. */
module ResearchWorkflow {
  import opened Wrappers
  import opened Text
  import opened Seqs
  import opened Records
  import Memory
  import CitationGraphs
  import PdfProcessing
  import UrlScraping

  /** Entries of the `messages` list: the `HumanMessage` of the first node, the `AIMessage` of the others. */
  datatype Message = Human(content: string) | AI(content: string)

  /** The `summary` dictionary: `full_summary` after summarising a document, `answer` after answering a query. */
  datatype Summary = Summary(fullSummary: Option<string>, answer: Option<string>)

  const EmptySummary: Summary := Summary(None, None)

  /** The nodes of the workflow. */
  datatype Node = ProcessInput | PdfProcessingNode | UrlProcessingNode | RagProcessing | CitationGraphNode | MemoryNode

  // ---------------------------------------------------------------------------------------------
  // Classification and routing

  predicate EndsWith(s: string, w: string) {
    |w| <= |s| && s[|s| - |w|..] == w
  }

  predicate StartsWith(s: string, w: string) {
    w <= s
  }

  /** The `input_type` that `_process_input_node` assigns. */
  function Classify(input: string): (t: string)
    ensures t == "pdf" || t == "url" || t == "query"
  {
    if EndsWith(input, ".pdf") || Contains(Lower(input), "pdf") then "pdf"
    else if StartsWith(input, "http") then "url"
    else "query"
  }

  /** Every input ending in `.pdf` also contains `pdf` once lowered, so the suffix test adds nothing:
      an input is classified as a PDF exactly when it mentions `pdf` in any letter case. */
  lemma ClassifyPdf(input: string)
    ensures Classify(input) == "pdf" <==> Contains(Lower(input), "pdf")
    ensures Classify(input) == "url" <==> !Contains(Lower(input), "pdf") && StartsWith(input, "http")
  {
    if EndsWith(input, ".pdf") {
      var i := |input| - 3;
      var w := "pdf";
      var tail := input[i - 1..];
      assert tail == ".pdf";
      assert input[i] == tail[1] == 'p' && input[i + 1] == tail[2] == 'd' && input[i + 2] == tail[3] == 'f';
      assert input[i..i + 3] == w;
      assert OccursAt(input, i, w);
      assert NoUpper(w);
      ContainsLower(input, w);
    }
  }

  /** `route_input`: the node that follows `process_input`. */
  function Route(inputType: string): (n: Node)
    ensures n == PdfProcessingNode || n == UrlProcessingNode || n == RagProcessing
    ensures n == PdfProcessingNode <==> inputType == "pdf"
    ensures n == UrlProcessingNode <==> inputType == "url"
  {
    if inputType == "pdf" then PdfProcessingNode
    else if inputType == "url" then UrlProcessingNode
    else RagProcessing
  }

  /** The nodes a run visits, in order, given the node chosen after `process_input`. */
  function Trace(first: Node): seq<Node> {
    [ProcessInput] + (if first == RagProcessing then [] else [first]) + [RagProcessing, CitationGraphNode, MemoryNode]
  }

  /** A run visits five nodes on the PDF and URL routes and four on the query route, always ending
      with retrieval, the citation graph and memory, whatever happened before. */
  lemma TraceShape(input: string)
    ensures var t := Trace(Route(Classify(input)));
      |t| == (if Classify(input) == "query" then 4 else 5)
      && t[0] == ProcessInput && t[|t| - 3..] == [RagProcessing, CitationGraphNode, MemoryNode]
      && (Classify(input) == "query" ==> t[1] == RagProcessing)
  {
  }

  // ---------------------------------------------------------------------------------------------
  // Services the nodes call

  /** How a call without a result ended. */
  datatype Status = Done | Raised(error: string)

  /** Where a citation-graph call raised, if one did (a database error at query time). */
  datatype GraphFault = NoGraphFault | AddPaperRaised(e: string) | AddCitationsRaised(e: string) | FindRelatedRaised(e: string)

  /** The calls into code outside the model, as their outcomes: opening a PDF, fetching and parsing a
      page, the two text splitters, and the four retrieval services (indexing chunks, summarising a
      text, suggesting related work, answering a question); and faults of the two stores. */
  datatype Services = Services(
    openPdf: string -> Result<PdfProcessing.PdfDocument>,
    fetchPage: string -> Result<UrlScraping.Page>,
    splitDocument: string -> seq<string>,
    splitContent: string -> seq<string>,
    addDocuments: (seq<string>, Metadata) -> Status,
    generateSummary: string -> Result<string>,
    suggestRelatedWork: (string, seq<string>) -> Status,
    answerQuestion: string -> Result<string>,
    graphFault: GraphFault,
    memoryFault: Option<string>)

  // ---------------------------------------------------------------------------------------------
  // The shared state

  /** The value of every key of the state record at one moment. */
  datatype StateValue = StateValue(
    input: string, inputType: string, text: string, metadata: Metadata, chunks: seq<string>,
    citations: seq<string>, keyConcepts: seq<string>, summary: Summary,
    relatedPapers: seq<CitationGraphs.RelatedPaper>, messages: seq<Message>, memoryContext: string, error: string)

  /** `ResearchState`: the record every node reads and updates. */
  class ResearchState {
    var input: string
    var inputType: string
    var text: string
    var metadata: Metadata
    var chunks: seq<string>
    var citations: seq<string>
    var keyConcepts: seq<string>
    var summary: Summary
    var relatedPapers: seq<CitationGraphs.RelatedPaper>
    var messages: seq<Message>
    var memoryContext: string
    var error: string

    function Value(): StateValue
      reads this
    {
      StateValue(input, inputType, text, metadata, chunks, citations, keyConcepts, summary,
                 relatedPapers, messages, memoryContext, error)
    }

    /** The initial state of `process`: the input and an empty value for every other key. */
    constructor (inputData: string)
      ensures Value() == StateValue(inputData, "", "", EmptyMetadata, [], [], [], EmptySummary, [], [], "", "")
    {
      input := inputData;
      inputType := "";
      text := "";
      metadata := EmptyMetadata;
      chunks := [];
      citations := [];
      keyConcepts := [];
      summary := EmptySummary;
      relatedPapers := [];
      messages := [];
      memoryContext := "";
      error := "";
    }

    /** A node's one-element `messages` list, merged by the `operator.add` reducer: appended to the log. */
    method Emit(m: Message)
      modifies this
      ensures Value() == old(Value()).(messages := old(messages) + [m])
    {
      messages := messages + [m];
    }

    /** The first node's updates: the input's type, the memory context and the processing message. */
    method Begin(inputType': string, memoryContext': string)
      modifies this
      ensures Value() == old(Value()).(inputType := inputType', memoryContext := memoryContext',
                                       messages := old(messages) + [Processing(old(input))])
    {
      inputType := inputType';
      memoryContext := memoryContext';
      Emit(Processing(input));
    }

    /** A caught exception: `error` set to `prefix` and the exception text, the failure message appended. */
    method Fail(prefix: string, e: string)
      modifies this
      ensures Value() == NodeFailed(old(Value()), prefix, e)
    {
      error := prefix + e;
      Emit(ErrorMessage(e));
    }

    /** A citation-graph call raised: no related papers, and a warning. */
    method GraphFailed(e: string)
      modifies this
      ensures Value() == old(Value()).(relatedPapers := [], messages := old(messages) + [GraphUnavailable(e)])
    {
      relatedPapers := [];
      Emit(GraphUnavailable(e));
    }

    /** The related papers found, and the success message. */
    method Related(related: seq<CitationGraphs.RelatedPaper>)
      modifies this
      ensures Value() == old(Value()).(relatedPapers := related, messages := old(messages) + [GraphUpdated(|related|)])
    {
      relatedPapers := related;
      Emit(GraphUpdated(|related|));
    }

    /** A successful extraction: the five extracted keys set and the success message appended. */
    method Load(newText: string, md: Metadata, newChunks: seq<string>, newCitations: seq<string>,
                newKeyConcepts: seq<string>, m: Message)
      modifies this
      ensures Value() == Loaded(old(Value()), newText, md, newChunks, newCitations, newKeyConcepts, m)
    {
      text := newText;
      metadata := md;
      citations := newCitations;
      keyConcepts := newKeyConcepts;
      chunks := newChunks;
      Emit(m);
    }
  }

  /** `✓`, `✗` and `⚠`, the marks the messages start with. */
  const Check: string := "\U{2713} "
  const Cross: string := "\U{2717} Error: "
  const Warn: string := "\U{26A0} "

  // The messages the nodes emit.

  function Processing(input: string): Message { Human("Processing: " + input) }

  function ErrorMessage(e: string): Message { AI(Cross + e) }

  function Extracted(title: string): Message { AI(Check + "Extracted text from PDF: " + title) }

  function Scraped(title: string): Message { AI(Check + "Scraped content from URL: " + title) }

  function Summarised(citations: nat): Message {
    AI(Check + "Generated summary and extracted " + NatToString(citations) + " citations")
  }

  const Answered: Message := AI(Check + "Retrieved answer from knowledge base")

  function GraphUpdated(related: nat): Message {
    AI(Check + "Added to citation graph, found " + NatToString(related) + " related papers")
  }

  function GraphUnavailable(e: string): Message { AI(Warn + "Citation graph unavailable: " + e) }

  const Saved: Message := AI(Check + "Saved to memory")

  function MemoryFailed(e: string): Message { AI(Warn + "Memory save failed: " + e) }

  // ---------------------------------------------------------------------------------------------
  // The workflow

  class ResearchGraph {
    const memoryManager: Memory.MemoryManager
    const citationGraph: CitationGraphs.CitationGraph
    const services: Services

    ghost predicate Valid()
      reads this, citationGraph
    {
      citationGraph.Valid()
    }

    /** The components are built by the caller: the memory manager from its file, the graph from the
        connection attempt. */
    constructor (memory: Memory.MemoryManager, graph: CitationGraphs.CitationGraph, calls: Services)
      requires graph.Valid()
      ensures memoryManager == memory && citationGraph == graph && services == calls && Valid()
    {
      memoryManager := memory;
      citationGraph := graph;
      services := calls;
    }

    /** `_process_input_node`: classify the input and fetch the memory context for it. */
    method ProcessInputNode(state: ResearchState)
      modifies state
      ensures state.Value() == old(state.Value()).(
        inputType := Classify(old(state.input)),
        memoryContext := Join(Memory.RenderParts(Memory.TopEntries(memoryManager.memory, old(state.input), 3)), "\n\n"),
        messages := old(state.messages) + [Processing(old(state.input))])
    {
      var context := memoryManager.ContextForQuery(state.input, 3);
      state.Begin(Classify(state.input), context);
    }

    /** `_pdf_processing_node`: the document's text, metadata, citations, key concepts and chunks, or the
        error when it cannot be read (then nothing else changes). */
    method PdfProcessingNode(state: ResearchState)
      modifies state
      ensures var d := services.openPdf(old(state.input));
        if d.Failure? then
          state.Value() == NodeFailed(old(state.Value()), "PDF processing error: ", "Error extracting text from PDF: " + d.error)
        else
          var text := PdfProcessing.PagesText(1, d.value.pages);
          var md := PdfProcessing.DocumentMetadata(old(state.input), d.value);
          state.Value() == Loaded(old(state.Value()), text, md, services.splitDocument(text), state.citations,
                                  state.keyConcepts, Extracted(md.title.GetOr("Unknown")))
          && Analysed(state.citations, state.keyConcepts, state.text)
    {
      var extracted := PdfProcessing.ExtractText(state.input, services.openPdf(state.input));
      match extracted {
        case Failure(e) =>
          state.Fail("PDF processing error: ", e);
        case Success(result) =>
          var (text, metadata) := result;
          var citations, keyConcepts := Analyse(text);
          var chunks := services.splitDocument(text);
          state.Load(text, metadata, chunks, citations, keyConcepts, Extracted(metadata.title.GetOr("Unknown")));
      }
    }

    /** `_url_processing_node`: the page's cleaned text and metadata, with citations and key concepts
        taken from that text, or the error when the page cannot be scraped. */
    method UrlProcessingNode(state: ResearchState)
      modifies state
      ensures var f := services.fetchPage(old(state.input));
        if f.Failure? then
          state.Value() == NodeFailed(old(state.Value()), "URL scraping error: ", "Error scraping URL: " + f.error)
        else
          var text := UrlScraping.Clean(UrlScraping.BodyText(f.value.body));
          var md := UrlScraping.MetadataOf(f.value.head, old(state.input));
          state.Value() == Loaded(old(state.Value()), text, md, services.splitContent(text), state.citations,
                                  state.keyConcepts, Scraped(md.title.GetOr("Unknown")))
          && md.source == Some(old(state.input)) && md.kind == Some("url") && md.title.Some? && md.author.Some?
          && !Contains(text, "\n\n\n") && !Contains(text, "  ")
          && Analysed(state.citations, state.keyConcepts, text)
    {
      var scraped := UrlScraping.ScrapeUrl(state.input, services.fetchPage(state.input));
      match scraped {
        case Failure(e) =>
          state.Fail("URL scraping error: ", e);
        case Success(result) =>
          var (text, metadata) := result;
          var chunks := services.splitContent(text);
          var citations, keyConcepts := Analyse(text);
          state.Load(text, metadata, chunks, citations, keyConcepts, Scraped(metadata.title.GetOr("Unknown")));
      }
    }

    /** `_rag_processing_node`: index the chunks if there are any; then summarise the text, or, when there
        is no text, answer the input as a question. The first service that raises ends the node with an
        error, keeping whatever it had already written. */
    method RagProcessingNode(state: ResearchState)
      modifies state
      ensures state.Value() == RagStep(services, old(state.Value()))
    {
      var indexed := if state.chunks != [] then services.addDocuments(state.chunks, state.metadata) else Done;
      if indexed.Raised? {
        state.Fail("RAG processing error: ", indexed.error);
        return;
      }
      if state.text != "" {
        var summary := services.generateSummary(Take(state.text, 8000));
        if summary.Failure? {
          state.Fail("RAG processing error: ", summary.error);
          return;
        }
        state.summary := Summary(Some(summary.value), None);
        var suggested := services.suggestRelatedWork(summary.value, state.citations);
        if suggested.Raised? {
          state.Fail("RAG processing error: ", suggested.error);
          return;
        }
        state.Emit(Summarised(|state.citations|));
      } else {
        var answer := services.answerQuestion(state.input);
        if answer.Failure? {
          state.Fail("RAG processing error: ", answer.error);
          return;
        }
        state.summary := Summary(None, Some(answer.value));
        state.Emit(Answered);
      }
    }

    /** `_citation_graph_node`: record the paper with its author and first ten citations, then look up
        five related papers. A raising call leaves the graph as the earlier calls made it, empties
        `related_papers` and only warns: `error` is never written here. */
    method CitationGraphNode(state: ResearchState)
      requires Valid()
      modifies state, citationGraph
      ensures Valid()
      ensures var s := old(state.Value());
        var id := s.metadata.source.GetOr(s.input);
        var g0 := old(citationGraph.Contents());
        var g1 := if citationGraph.available then
          CitationGraphs.AddPaperSpec(g0, id, s.metadata.title.GetOr("Unknown"), [s.metadata.author.GetOr("Unknown")],
                                      None, Some(Take(s.summary.fullSummary.GetOr(""), 500))) else g0;
        var g2 := if citationGraph.available && s.citations != [] then
          CitationGraphs.AddCitationsSpec(g1, id, PyTake(s.citations, 10)) else g1;
        match services.graphFault
        case AddPaperRaised(e) =>
          citationGraph.Contents() == g0
          && state.Value() == s.(relatedPapers := [], messages := s.messages + [GraphUnavailable(e)])
        case AddCitationsRaised(e) =>
          citationGraph.Contents() == (if s.citations != [] then g1 else g2)
          && (s.citations != [] ==>
                state.Value() == s.(relatedPapers := [], messages := s.messages + [GraphUnavailable(e)]))
          && (s.citations == [] ==>
                FoundRelated(s, state.Value(), 5)
                && (citationGraph.available ==> CitationGraphs.TopRelated(g2, id, 5, state.relatedPapers)))
        case FindRelatedRaised(e) =>
          citationGraph.Contents() == g2
          && state.Value() == s.(relatedPapers := [], messages := s.messages + [GraphUnavailable(e)])
        case NoGraphFault =>
          citationGraph.Contents() == g2 && FoundRelated(s, state.Value(), 5)
          && (citationGraph.available ==> CitationGraphs.TopRelated(g2, id, 5, state.relatedPapers))
      ensures !citationGraph.available && services.graphFault.NoGraphFault? ==> state.relatedPapers == []
      ensures forall k :: 0 <= k < |state.relatedPapers| ==>
        state.relatedPapers[k].id != old(state.Value()).metadata.source.GetOr(old(state.input))
        && state.relatedPapers[k].relevanceScore >= 1
      ensures |state.relatedPapers| <= 5
    {
      var paperId := state.metadata.source.GetOr(state.input);
      var title := state.metadata.title.GetOr("Unknown");
      var author := state.metadata.author.GetOr("Unknown");
      var fault := services.graphFault;
      if fault.AddPaperRaised? {
        state.GraphFailed(fault.e);
        return;
      }
      citationGraph.AddPaper(paperId, title, [author], None, Some(Take(state.summary.fullSummary.GetOr(""), 500)));
      if state.citations != [] {
        if fault.AddCitationsRaised? {
          state.GraphFailed(fault.e);
          return;
        }
        citationGraph.AddCitationsFromList(paperId, PyTake(state.citations, 10));
      }
      if fault.FindRelatedRaised? {
        state.GraphFailed(fault.e);
        return;
      }
      var related := citationGraph.FindRelatedPapers(paperId, 5);
      state.Related(related);
    }

    /** `_memory_node`: a state whose metadata has a non-empty title is logged as a document, any other
        as a query interaction. A raising manager only produces a warning. */
    method MemoryNode(state: ResearchState, timestamp: string)
      modifies state, memoryManager
      ensures var s := old(state.Value());
        var m0 := old(memoryManager.memory);
        match services.memoryFault
        case Some(e) =>
          memoryManager.memory == m0 && state.Value() == s.(messages := s.messages + [MemoryFailed(e)])
        case None =>
          memoryManager.memory == m0 + [MemoryEntry(s, |m0| + 1, timestamp)]
          && state.Value() == s.(messages := s.messages + [Saved])
    {
      if services.memoryFault.Some? {
        state.Emit(MemoryFailed(services.memoryFault.value));
        return;
      }
      if HasTitle(state.metadata) {
        memoryManager.AddDocumentMemory(
          state.metadata.source.GetOr(state.input), state.metadata.title.GetOr("Unknown"),
          state.summary.fullSummary.GetOr(""), state.keyConcepts, state.citations, timestamp);
      } else {
        memoryManager.AddInteraction(state.input, state.summary.answer.GetOr(""), Some(state.metadata), timestamp);
      }
      state.Emit(Saved);
    }

    /** `process_input`, then the node `route_input` picks for the input's type. */
    method RunEntry(state: ResearchState)
      modifies state
      ensures state.input == old(state.input) && state.inputType == Classify(old(state.input))
      ensures |state.messages| == |old(state.messages)| + |Trace(Route(state.inputType))| - 3
      ensures state.messages[..|old(state.messages)| + 1] == old(state.messages) + [Processing(old(state.input))]
      ensures state.error == old(state.error) || StartsWith(state.error, "PDF processing error: ")
                                              || StartsWith(state.error, "URL scraping error: ")
      ensures state.inputType == "query" ==> state.error == old(state.error)
    {
      ghost var s0 := state.Value();
      ProcessInputNode(state);
      ghost var s1 := state.Value();
      assert s1.messages == s0.messages + [Processing(s0.input)];
      match Route(state.inputType) {
        case PdfProcessingNode =>
          PdfProcessingNode(state);
          assert state.messages[..|s1.messages|] == s1.messages;
          if state.error != s1.error {
            FailedError(s1, "PDF processing error: ", "Error extracting text from PDF: " + services.openPdf(s1.input).error);
          }
        case UrlProcessingNode =>
          UrlProcessingNode(state);
          assert state.messages[..|s1.messages|] == s1.messages;
          if state.error != s1.error {
            FailedError(s1, "URL scraping error: ", "Error scraping URL: " + services.fetchPage(s1.input).error);
          }
        case RagProcessing =>
      }
    }

    /** Retrieval, then the citation graph. */
    method RunRetrieval(state: ResearchState)
      requires Valid()
      modifies state, citationGraph
      ensures Valid()
      ensures state.input == old(state.input) && state.inputType == old(state.inputType)
      ensures |state.messages| == |old(state.messages)| + 2
      ensures state.messages[..|old(state.messages)|] == old(state.messages)
      ensures state.error == old(state.error) || StartsWith(state.error, "RAG processing error: ")
    {
      ghost var s0 := state.Value();
      RagProcessingNode(state);
      RagStepFrame(services, s0);
      ghost var s1 := state.Value();
      CitationGraphNode(state);
      assert state.messages[..|s1.messages|] == s1.messages;
      assert state.messages[..|s0.messages|] == s1.messages[..|s0.messages|];
    }

    /** The three nodes every run ends with: retrieval, the citation graph and memory. */
    method RunTail(state: ResearchState, timestamp: string)
      requires Valid()
      modifies state, memoryManager, citationGraph
      ensures Valid()
      ensures state.input == old(state.input) && state.inputType == old(state.inputType)
      ensures |state.messages| == |old(state.messages)| + 3
      ensures state.messages[..|old(state.messages)|] == old(state.messages)
      ensures state.error == old(state.error) || StartsWith(state.error, "RAG processing error: ")
      ensures |memoryManager.memory| == |old(memoryManager.memory)| + (if services.memoryFault.None? then 1 else 0)
      ensures Memory.IdsSequential(old(memoryManager.memory)) ==> Memory.IdsSequential(memoryManager.memory)
    {
      ghost var s0 := state.Value();
      ghost var m0 := memoryManager.memory;
      RunRetrieval(state);
      assert memoryManager.memory == m0;
      ghost var s2 := state.Value();
      MemoryNode(state, timestamp);
      assert state.messages[..|s2.messages|] == s2.messages;
      if services.memoryFault.None? && Memory.IdsSequential(m0) {
        assert memoryManager.memory[|m0|].id == |m0| + 1;
      }
      assert state.messages[..|s0.messages|] == s2.messages[..|s0.messages|];
    }

    /** `process`: run the workflow on a fresh state and return that state. */
    method Process(inputData: string, timestamp: string) returns (result: ResearchState)
      requires Valid()
      modifies memoryManager, citationGraph
      ensures Valid() && fresh(result)
      ensures result.input == inputData && result.inputType == Classify(inputData)
      ensures |result.messages| == |Trace(Route(Classify(inputData)))|
      ensures result.messages[0] == Processing(inputData)
      ensures |memoryManager.memory| == |old(memoryManager.memory)| + (if services.memoryFault.None? then 1 else 0)
      ensures Memory.IdsSequential(old(memoryManager.memory)) ==> Memory.IdsSequential(memoryManager.memory)
      ensures result.error == "" || StartsWith(result.error, "PDF processing error: ")
        || StartsWith(result.error, "URL scraping error: ") || StartsWith(result.error, "RAG processing error: ")
      ensures Classify(inputData) == "query" ==> result.error == "" || StartsWith(result.error, "RAG processing error: ")
    {
      result := new ResearchState(inputData);
      RunEntry(result);
      assert result.messages[0] == Processing(inputData);
      RunTail(result, timestamp);
      assert result.messages[0] == Processing(inputData);
    }
  }

  /** A failed node's error starts with the node's prefix. */
  lemma FailedError(s: StateValue, prefix: string, e: string)
    ensures StartsWith(NodeFailed(s, prefix, e).error, prefix)
  {
    assert (prefix + e)[..|prefix|] == prefix;
  }

  /** What a node leaves after catching exception text `e`: `error` set, the failure message appended. */
  function NodeFailed(s: StateValue, prefix: string, e: string): StateValue {
    s.(error := prefix + e, messages := s.messages + [ErrorMessage(e)])
  }

  function RagFailed(s: StateValue, e: string): StateValue {
    NodeFailed(s, "RAG processing error: ", e)
  }

  /** What a document or page node leaves after a successful extraction. */
  function Loaded(s: StateValue, text: string, md: Metadata, chunks: seq<string>, citations: seq<string>,
                  keyConcepts: seq<string>, message: Message): StateValue {
    s.(text := text, metadata := md, citations := citations, keyConcepts := keyConcepts, chunks := chunks,
       messages := s.messages + [message])
  }

  /** `citations` and `keyConcepts` are what `extract_citations` and `extract_key_concepts` promise for `text`. */
  ghost predicate Analysed(citations: seq<string>, keyConcepts: seq<string>, text: string) {
    Distinct(citations) && (forall c :: c in citations <==> c in PdfProcessing.CitationCandidates(text))
    && |keyConcepts| <= 20 && Distinct(keyConcepts)
    && (forall c :: c in keyConcepts ==> c in PdfProcessing.ConceptCandidates(text) && |c| > 3)
  }

  /** The two extractions the document and page nodes run on the new text. */
  method Analyse(text: string) returns (citations: seq<string>, keyConcepts: seq<string>)
    ensures Analysed(citations, keyConcepts, text)
  {
    citations := PdfProcessing.ExtractCitations(text);
    keyConcepts := PdfProcessing.ExtractKeyConcepts(text);
  }

  /** The state `_rag_processing_node` leaves, service outcome by service outcome. */
  function RagStep(services: Services, s: StateValue): StateValue {
    var indexed := if s.chunks != [] then services.addDocuments(s.chunks, s.metadata) else Done;
    if indexed.Raised? then RagFailed(s, indexed.error)
    else if s.text != "" then
      match services.generateSummary(Take(s.text, 8000))
      case Failure(e) => RagFailed(s, e)
      case Success(full) =>
        var t := s.(summary := Summary(Some(full), None));
        match services.suggestRelatedWork(full, s.citations)
        case Raised(e) => RagFailed(t, e)
        case Done => t.(messages := s.messages + [Summarised(|s.citations|)])
    else
      match services.answerQuestion(s.input)
      case Failure(e) => RagFailed(s, e)
      case Success(a) => s.(summary := Summary(None, Some(a)), messages := s.messages + [Answered])
  }

  /** The retrieval node appends exactly one message and writes at most `summary` and `error`; an error it
      writes replaces any earlier one. */
  lemma RagStepFrame(services: Services, s: StateValue)
    ensures var t := RagStep(services, s);
      |t.messages| == |s.messages| + 1 && t.messages[..|s.messages|] == s.messages
      && t == s.(summary := t.summary, error := t.error, messages := t.messages)
      && (t.error == s.error || StartsWith(t.error, "RAG processing error: "))
  {
    var t := RagStep(services, s);
    var w := "RAG processing error: ";
    assert t.messages[..|s.messages|] == s.messages;
    if t.error != s.error {
      var e :| t.error == w + e;
      assert (w + e)[..|w|] == w;
    }
  }

  /** Whether every service the retrieval node calls for state `s` succeeds. */
  predicate RagSucceeds(services: Services, s: StateValue) {
    (s.chunks == [] || services.addDocuments(s.chunks, s.metadata).Done?)
    && if s.text != "" then
         var g := services.generateSummary(Take(s.text, 8000));
         g.Success? && services.suggestRelatedWork(g.value, s.citations).Done?
       else services.answerQuestion(s.input).Success?
  }

  /** The retrieval node writes `error` exactly when a service raises. When none does, the summary is the
      one generated from the first 8000 characters of the text, or, without text, the answer to the input. */
  lemma RagStepSummary(services: Services, s: StateValue)
    ensures var t := RagStep(services, s);
      if RagSucceeds(services, s) then
        t.error == s.error
        && if s.text != "" then t.summary == Summary(Some(services.generateSummary(Take(s.text, 8000)).value), None)
           else t.summary == Summary(None, Some(services.answerQuestion(s.input).value))
      else StartsWith(t.error, "RAG processing error: ")
  {
    var t := RagStep(services, s);
    var w := "RAG processing error: ";
    if !RagSucceeds(services, s) {
      var e :| t.error == w + e;
      assert (w + e)[..|w|] == w;
    }
  }

  /** After a citation lookup: `related_papers` set and the success message appended; nothing else changes. */
  ghost predicate FoundRelated(s: StateValue, t: StateValue, limit: nat) {
    |t.relatedPapers| <= limit
    && t == s.(relatedPapers := t.relatedPapers,
               messages := s.messages + [GraphUpdated(|t.relatedPapers|)])
  }

  /** `state.get('metadata', {}).get('title')` is truthy. */
  predicate HasTitle(md: Metadata) {
    md.title.Some? && md.title.value != ""
  }

  /** The entry `_memory_node` logs for state `s` under id `id`. */
  function MemoryEntry(s: StateValue, id: nat, timestamp: string): (e: Memory.Entry)
    ensures HasTitle(s.metadata) <==> e.Document?
    ensures e.id == id && e.timestamp == timestamp
    ensures e.Document? ==> (e.documentId == s.metadata.source.GetOr(s.input) && e.title == s.metadata.title.value
      && e.summary == s.summary.fullSummary.GetOr("") && e.keyConcepts == s.keyConcepts && e.citations == s.citations)
    ensures e.Query? ==> e.query == s.input && e.response == s.summary.answer.GetOr("") && e.metadata == s.metadata
  {
    if HasTitle(s.metadata) then
      Memory.Document(id, timestamp, s.metadata.source.GetOr(s.input), s.metadata.title.GetOr("Unknown"),
                      s.summary.fullSummary.GetOr(""), s.keyConcepts, s.citations)
    else Memory.Query(id, timestamp, s.input, s.summary.answer.GetOr(""), s.metadata)
  }
}
