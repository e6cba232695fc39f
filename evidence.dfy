/**
 * Evidence gathering (evidence.py): search the web for the motion from one side, summarise what
 * was found with one structured completion call, and bundle the summaries with the query used.
 *
 * The search provider and the completion provider are parameters. Each returns either its
 * answer or the exception it raised, which the pipeline lets propagate. Every function here that
 * calls a provider also returns the external calls it made, in order, so that "no call was made"
 * can be stated.
 */
module Evidence {
  import opened Wrappers
  import Text

  /** `SearchResult`, without its floating-point relevance score. */
  datatype SearchResult = SearchResult(title: string, url: string, content: string)

  datatype SourceSummary = SourceSummary(
    url: string,
    title: string,
    summary: string,
    keyClaims: seq<string>,
    relevanceToTopic: string)

  datatype GatheredEvidence = GatheredEvidence(queryUsed: string, sources: seq<SourceSummary>)

  /** One entry of the provider's `"results"` list: a dictionary of string fields. */
  type RawResult = map<string, string>

  /** The provider's response; `results` is `None` when the dictionary has no `"results"` key. */
  datatype SearchResponse = SearchResponse(results: Option<seq<RawResult>>)

  datatype SearchRequest = SearchRequest(apiKey: string, query: string, maxResults: nat)

  /** The system message: the summarising instructions for one motion and side (rendered by `Render`). */
  datatype SystemMessage = SummaryInstructions(motion: string, side: string)

  datatype CompletionRequest = CompletionRequest(
    model: string,
    system: SystemMessage,
    user: string,
    maxTokens: nat,
    maxRetries: nat)

  datatype ExternalCall = WebSearch(search: SearchRequest) | Completion(completion: CompletionRequest)

  /** An outcome (a value, or the provider's exception) and the external calls made to reach it. */
  datatype Traced<T> = Traced(outcome: Result<T, string>, calls: seq<ExternalCall>)

  const DefaultMaxResults: nat := 8
  const SummaryMaxTokens: nat := 2000
  const SummaryMaxRetries: nat := 2

  // ---------------------------------------------------------------------------------------------
  // Queries

  /** The query reported as `query_used`: "pro" argues for the motion, every other side against it. */
  function SideQuery(motion: string, side: string): (q: string)
    ensures "arguments supporting: " <= q <==> side == "pro"
    ensures |q| >= |motion| && q[|q| - |motion|..] == motion
  {
    assert "arguments against: "[10] != "arguments supporting: "[10];
    if side == "pro" then "arguments supporting: " + motion else "arguments against: " + motion
  }

  /** The query actually sent to the search provider, written out on its own in the source. */
  function SearchQuery(motion: string, side: string): (q: string)
    ensures q == SideQuery(motion, side) +
                 (if side == "pro" then " evidence research studies" else " evidence research studies criticism")
    ensures SideQuery(motion, side) <= q
  {
    if side == "pro" then "arguments supporting: " + motion + " evidence research studies"
    else "arguments against: " + motion + " evidence research studies criticism"
  }

  // ---------------------------------------------------------------------------------------------
  // search_web_for_evidence

  /** `r.get(key, "")`. */
  function Field(r: RawResult, key: string): string {
    if key in r then r[key] else ""
  }

  function ToSearchResult(r: RawResult): SearchResult {
    SearchResult(Field(r, "title"), Field(r, "url"), Field(r, "content"))
  }

  /** `response.get("results", [])`. */
  function Entries(response: SearchResponse): seq<RawResult> {
    match response.results
    case None => []
    case Some(rs) => rs
  }

  function ConvertedResults(response: SearchResponse): seq<SearchResult> {
    var entries := Entries(response);
    seq(|entries|, i requires 0 <= i < |entries| => ToSearchResult(entries[i]))
  }

  /** The raw entry a provider would send for a result. */
  function ToRaw(r: SearchResult): RawResult {
    map["title" := r.title, "url" := r.url, "content" := r.content]
  }

  /** Conversion loses nothing of a well-formed entry. */
  lemma ConversionRoundTrip(r: SearchResult)
    ensures ToSearchResult(ToRaw(r)) == r
  {
  }

  /** Conversion reads no key but "title", "url" and "content". */
  lemma ConversionIgnoresOtherKeys(raw: RawResult, key: string, value: string)
    requires key != "title" && key != "url" && key != "content"
    ensures ToSearchResult(raw[key := value]) == ToSearchResult(raw)
  {
  }

  function SearchRequestFor(motion: string, side: string, apiKey: string, maxResults: nat): SearchRequest {
    SearchRequest(apiKey, SearchQuery(motion, side), maxResults)
  }

  /** One search call, then conversion of its entries. */
  function SearchWeb(
    motion: string, side: string, apiKey: string, maxResults: nat,
    search: SearchRequest -> Result<SearchResponse, string>): (t: Traced<seq<SearchResult>>)
    ensures t.calls == [WebSearch(SearchRequest(apiKey, SearchQuery(motion, side), maxResults))]
    ensures t.outcome.Err? <==> search(t.calls[0].search).Err?
    ensures t.outcome.Err? ==> t.outcome.error == search(t.calls[0].search).error
    ensures t.outcome.Ok? ==>
              var entries := Entries(search(t.calls[0].search).value);
              && |t.outcome.value| == |entries|
              && forall i :: 0 <= i < |entries| ==> t.outcome.value[i] == ToSearchResult(entries[i])
  {
    var request := SearchRequestFor(motion, side, apiKey, maxResults);
    match search(request)
    case Err(e) => Traced(Err(e), [WebSearch(request)])
    case Ok(response) => Traced(Ok(ConvertedResults(response)), [WebSearch(request)])
  }

  /** The search step with the source's loop appending one converted entry at a time. */
  method SearchWebForEvidence(
    motion: string, side: string, apiKey: string, maxResults: nat,
    search: SearchRequest -> Result<SearchResponse, string>) returns (t: Traced<seq<SearchResult>>)
    ensures t == SearchWeb(motion, side, apiKey, maxResults, search)
    ensures t.calls == [WebSearch(SearchRequest(apiKey, SearchQuery(motion, side), maxResults))]
    ensures t.outcome.Err? <==> search(t.calls[0].search).Err?
    ensures t.outcome.Ok? ==>
              var entries := Entries(search(t.calls[0].search).value);
              && |t.outcome.value| == |entries|
              && (forall i :: 0 <= i < |entries| ==>
                    && t.outcome.value[i].title == (if "title" in entries[i] then entries[i]["title"] else "")
                    && t.outcome.value[i].url == (if "url" in entries[i] then entries[i]["url"] else "")
                    && t.outcome.value[i].content == (if "content" in entries[i] then entries[i]["content"] else ""))
  {
    var request := SearchRequest(apiKey, SearchQuery(motion, side), maxResults);
    var response := search(request);
    if response.Err? {
      return Traced(Err(response.error), [WebSearch(request)]);
    }
    var entries := match response.value.results case None => [] case Some(rs) => rs;
    var results: seq<SearchResult> := [];
    for i := 0 to |entries|
      invariant |results| == i
      invariant forall k :: 0 <= k < i ==> results[k] == ToSearchResult(entries[k])
    {
      var r := entries[i];
      results := results + [SearchResult(
        if "title" in r then r["title"] else "",
        if "url" in r then r["url"] else "",
        if "content" in r then r["content"] else "")];
    }
    assert entries == Entries(response.value);
    assert results == ConvertedResults(response.value);
    return Traced(Ok(results), [WebSearch(request)]);
  }

  // ---------------------------------------------------------------------------------------------
  // summarize_sources

  function SourceHeader(n: nat): string {
    "Source " + Text.NatToDecimal(n) + ":\n"
  }

  /** The block the prompt gives the `n`-th result (counting from 1). */
  function SourceBlock(n: nat, r: SearchResult): string {
    SourceHeader(n) + "Title: " + r.title + "\nURL: " + r.url + "\nContent: " + r.content
  }

  function SourceBlocks(rs: seq<SearchResult>): seq<string> {
    seq(|rs|, i requires 0 <= i < |rs| => SourceBlock(i + 1, rs[i]))
  }

  /** The user message: the blocks, in input order, separated by blank lines. */
  function SourcesText(rs: seq<SearchResult>): (text: string)
    ensures forall k :: 0 <= k < |rs| ==> Text.IsInfix(SourceBlock(k + 1, rs[k]), text)
    ensures forall k :: 0 <= k < |rs| ==> Text.IsInfix(rs[k].url, text)
  {
    var blocks := SourceBlocks(rs);
    var text := Text.Join(blocks, "\n\n");
    assert forall k :: 0 <= k < |rs| ==> Text.IsInfix(SourceBlock(k + 1, rs[k]), text) && Text.IsInfix(rs[k].url, text) by {
      forall k | 0 <= k < |rs|
        ensures Text.IsInfix(SourceBlock(k + 1, rs[k]), text) && Text.IsInfix(rs[k].url, text)
      {
        Text.JoinContainsPart(blocks, "\n\n", k);
        BlockCarriesUrl(k + 1, rs[k]);
        Text.InfixTransitive(rs[k].url, SourceBlock(k + 1, rs[k]), text);
      }
    }
    text
  }

  /** The system message's text: the motion and the side are interpolated into fixed instructions. */
  function Render(message: SystemMessage): (text: string)
    ensures Text.IsInfix(message.motion, text)
    ensures Text.IsInfix(message.side, text)
  {
    Text.InfixOfTemplate(PromptIntro(), message.motion, PromptSideLabel(), message.side, PromptInstructions());
    PromptIntro() + message.motion + PromptSideLabel() + message.side + PromptInstructions()
  }

  function PromptIntro(): string {
    "You are a research assistant analyzing sources for a debate.\nMotion: "
  }

  function PromptSideLabel(): string {
    "\nSide being argued: "
  }

  function PromptInstructions(): string {
    "\n\nFor each source provided, extract:\n1. A concise summary of the main points\n" +
    "2. Key claims or facts that can be used as evidence\n3. How this source relates to the debate topic\n\n" +
    "Return a JSON object with a 'sources' array containing summaries for each source.\n" +
    "Each source summary must include: url, title, summary, key_claims (array), relevance_to_topic.\n" +
    "IMPORTANT: Use the EXACT URLs provided - do not modify or fabricate URLs."
  }

  function SummaryRequest(rs: seq<SearchResult>, motion: string, side: string, model: string): CompletionRequest {
    CompletionRequest(model, SummaryInstructions(motion, side), SourcesText(rs), SummaryMaxTokens, SummaryMaxRetries)
  }

  /** No results: no call and no summaries. Otherwise one completion call, whose answer is returned as is. */
  function SummarizeSources(
    rs: seq<SearchResult>, motion: string, side: string, model: string,
    complete: CompletionRequest -> Result<seq<SourceSummary>, string>): (t: Traced<seq<SourceSummary>>)
    ensures rs == [] ==> t == Traced(Ok([]), [])
    ensures rs != [] ==> t.calls == [Completion(SummaryRequest(rs, motion, side, model))]
    ensures rs != [] ==> t.outcome == complete(t.calls[0].completion)
  {
    if rs == [] then Traced(Ok([]), [])
    else
      var request := SummaryRequest(rs, motion, side, model);
      Traced(complete(request), [Completion(request)])
  }

  lemma BlockCarriesUrl(n: nat, r: SearchResult)
    ensures Text.IsInfix(r.url, SourceBlock(n, r))
  {
    var before := SourceHeader(n) + "Title: " + r.title + "\nURL: ";
    var after := "\nContent: " + r.content;
    Text.InfixOfMiddle(before, r.url, after);
    assert before + r.url + after == SourceBlock(n, r);
  }

  /** Blocks are numbered apart: two headers agree only for the same number. */
  lemma SourceHeadersDistinct(m: nat, n: nat)
    requires SourceHeader(m) == SourceHeader(n)
    ensures m == n
  {
    var dm, dn := Text.NatToDecimal(m), Text.NatToDecimal(n);
    assert |dm| == |SourceHeader(m)| - 9 == |dn|;
    assert dm == SourceHeader(m)[7..7 + |dm|];
    assert dn == SourceHeader(n)[7..7 + |dn|];
    Text.DecimalInjective(m, n);
  }

  // ---------------------------------------------------------------------------------------------
  // gather_evidence

  /** `if not tavily_api_key`: `None` and the empty string both count as no key. */
  predicate HasKey(apiKey: Option<string>) {
    apiKey.Some? && apiKey.value != ""
  }

  /**
   * Three terminal states: no key (nothing called, empty evidence), no results (one search,
   * empty sources), results (one search, one completion, the completion's summaries).
   */
  function GatherEvidence(
    motion: string, side: string, apiKey: Option<string>, model: string,
    search: SearchRequest -> Result<SearchResponse, string>,
    complete: CompletionRequest -> Result<seq<SourceSummary>, string>): (t: Traced<GatheredEvidence>)
    ensures !HasKey(apiKey) ==> t == Traced(Ok(GatheredEvidence("", [])), [])
    ensures HasKey(apiKey) ==>
              && 1 <= |t.calls| <= 2
              && t.calls[0] == WebSearch(SearchRequest(apiKey.value, SearchQuery(motion, side), DefaultMaxResults))
              && (t.outcome.Ok? ==> t.outcome.value.queryUsed == SideQuery(motion, side))
    ensures HasKey(apiKey) && search(t.calls[0].search).Ok? && Entries(search(t.calls[0].search).value) == [] ==>
              t == Traced(Ok(GatheredEvidence(SideQuery(motion, side), [])), t.calls[..1]) && |t.calls| == 1
    ensures HasKey(apiKey) && |t.calls| == 2 ==>
              && t.calls[1].Completion?
              && (t.outcome.Ok? <==> complete(t.calls[1].completion).Ok?)
              && (t.outcome.Ok? ==> t.outcome.value.sources == complete(t.calls[1].completion).value)
              && (t.outcome.Err? ==> t.outcome.error == complete(t.calls[1].completion).error)
    ensures t.outcome.Ok? && t.outcome.value.sources != [] ==> |t.calls| == 2
    ensures HasKey(apiKey) && search(t.calls[0].search).Err? ==>
              t == Traced(Err(search(t.calls[0].search).error), t.calls[..1]) && |t.calls| == 1
    ensures HasKey(apiKey) && search(t.calls[0].search).Ok? && Entries(search(t.calls[0].search).value) != [] ==>
              && |t.calls| == 2
              && t.calls[1] == Completion(SummaryRequest(ConvertedResults(search(t.calls[0].search).value), motion, side, model))
  {
    if !HasKey(apiKey) then Traced(Ok(GatheredEvidence("", [])), [])
    else
      var query := SideQuery(motion, side);
      var found := SearchWeb(motion, side, apiKey.value, DefaultMaxResults, search);
      match found.outcome
      case Err(e) => Traced(Err(e), found.calls)
      case Ok(results) =>
        if results == [] then Traced(Ok(GatheredEvidence(query, [])), found.calls)
        else
          var summarized := SummarizeSources(results, motion, side, model, complete);
          match summarized.outcome
          case Err(e) => Traced(Err(e), found.calls + summarized.calls)
          case Ok(summaries) => Traced(Ok(GatheredEvidence(query, summaries)), found.calls + summarized.calls)
  }

  /** The summariser is asked about exactly what the search returned: every result's URL is in its prompt. */
  lemma GatherEvidencePromptListsResults(
    motion: string, side: string, apiKey: Option<string>, model: string,
    search: SearchRequest -> Result<SearchResponse, string>,
    complete: CompletionRequest -> Result<seq<SourceSummary>, string>)
    requires |GatherEvidence(motion, side, apiKey, model, search, complete).calls| == 2
    ensures var t := GatherEvidence(motion, side, apiKey, model, search, complete);
            var results := ConvertedResults(search(t.calls[0].search).value);
            && search(t.calls[0].search).Ok?
            && t.calls[1] == Completion(SummaryRequest(results, motion, side, model))
            && (forall k :: 0 <= k < |results| ==> Text.IsInfix(results[k].url, t.calls[1].completion.user))
            && t.calls[1].completion.system == SummaryInstructions(motion, side)
            && t.calls[1].completion.maxRetries == SummaryMaxRetries
  {
  }
}
