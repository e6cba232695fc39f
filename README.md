# DebateAgent: evidence gathering and response integrity, in Dafny

DebateAgent writes a counter-argument to a student's debate submission, optionally grounded in
web search results. This project models the part of it that has real correctness rules:

- **Side negation** (`sides.dfy`): the two debate sides and `opposite_side`.
- **Reference liveness** (`liveness.dfy`): the check every cited URL of a `ReferencedParagraphs`
  response goes through. It sends HEAD, escalates to GET on a status of 400 or more, rejects
  404/410 and every other error status except the bot-blocking 401/403, and rejects a request error.
  The two HTTP calls are inputs: the HEAD outcome and the outcome a GET would have.
- **Response integrity** (`integrity.dfy`): the construction-time validators of the two
  reference-bearing response shapes. Every paragraph must cite something. No URL may be cited twice
  anywhere in one response, not even twice in one paragraph. The response is accepted whole and
  unchanged, or refused with one error. Both uniqueness validators are methods with the source's nested
  loop and `seen` set. Each is proved equal to a scan function, and what the scan means is proved as
  lemmas: accepted iff non-empty and distinct, and the reported error is the first violation.
  Construction as pydantic runs it is also modelled: field validators first (liveness, `min_length`),
  then the model validator.
- **Evidence gathering** (`evidence.py` → `evidence.dfy`): query building by side, conversion of raw
  search entries with `""` defaults, the prompt built for the summariser, and the three terminal
  states of `gather_evidence`. The search provider and the completion provider are function
  parameters. Each returns its answer or the exception it raised. Every function that calls a provider also
  returns the external calls it made, so "never calls search" and "the summariser is not called" are stated
  about that trace.
- `text.dfy` holds the Python string behaviour used by the prompt (`str(n)`, `str.join`, substring),
  and `wrappers.dfy` holds `Option` and `Result`.

Where the documentation and the code disagree, the model follows the code:

- The validator's docstring promises a 200 status (models.py:53). The code accepts every status
  below 400, and also 401 and 403.
- A 404/410 and any other refused status raise the same message (models.py:79-82). So the model has
  one `BadStatus` rejection, not separate "missing" and "unreachable" errors.
- `EvidenceBasedReference.url` is a plain string (models.py:114), so evidence-based responses get no
  liveness check. Only uniqueness and `min_length=1` apply to them.
- Only `side == "pro"` selects the supporting query. Every other side string, not just "con", gets
  the "against" query (evidence.py:65-68, evidence.py:184-187).

## Model

| member | source | states |
|---|---|---|
| `Sides.OppositeSide` | agent.py:11-12 | the opposite side is never the side itself, and its value is the string-level choice the CLI makes for the agent's side (main.py) |
| `Sides.AgentSide` | main.py:75 | the agent's side string is always "pro" or "con", and it is "con" exactly when the student's side is "pro" |
| `Sides.OppositeOfPro` | agent.py:12 | the opposite of pro is con |
| `Sides.OppositeOfCon` | agent.py:12 | the opposite of con is pro |
| `Sides.OppositeInvolution` | agent.py:11-12 | negating twice gives back the side |
| `Sides.ValueInjective` | models.py:10-12 | two sides with the same string value are the same side, so the string choice determines the enum choice |
| `Liveness.ClassifyStatus` | models.py:77-82 | a final status is accepted iff it is below 400 or is 401/403; an accepted URL is returned unchanged; a refused one is reported with its status |
| `Liveness.ValidateUrl` | models.py:50-85 | a GET is issued iff HEAD returned 400 or more; the classified outcome is the GET's then and the HEAD's otherwise; accepted iff that outcome is a tolerated status; a request error on either call rejects |
| `Liveness.HeadSuccessSkipsGet` | models.py:63-69 | a HEAD status below 400 issues no GET and accepts the URL unchanged |
| `Liveness.GetReplacesHead` | models.py:69-75 | once HEAD returned 400 or more, the HEAD code no longer matters |
| `Liveness.MissingResourceRejected` | models.py:79-80 | a final 404 or 410 is always rejected |
| `Liveness.ConsistentServer` | models.py:77-82 | for a server that answers both requests alike, 200, 401 and 403 are accepted and 404, 410 and 500 rejected |
| `Integrity.ScanUrlsClean` | models.py:134-141 | the seen-set scan succeeds iff the URLs are pairwise distinct and none was seen before, and it then has seen exactly those URLs |
| `Integrity.ScanUrlsFirstRepeat` | models.py:102-108 | a failing scan reports the first URL that repeats an earlier one |
| `Integrity.ScanParagraphs` | models.py:98-108 | the paragraph loop as a function: it succeeds only when every paragraph cites something, and it fails only with an empty paragraph whose index lies in range and points at an empty paragraph, or with a duplicate URL |
| `Integrity.ReferencedVerdict` | models.py:96-109 | the validator's outcome: on success the object is returned unchanged with every paragraph cited; on failure the error is an empty-references error naming an empty paragraph, or a duplicate URL |
| `Integrity.ScanParagraphsByFirstUncited` | models.py:98-109 | the paragraph scan reports a duplicate among the paragraphs before the first empty one, else that empty paragraph's index, else success |
| `Integrity.ReferencedVerdictMeaning` | models.py:97-109 | `ReferencedParagraphs` is accepted iff every paragraph has a reference and all URLs of the response are distinct, and it is then returned unchanged |
| `Integrity.ReferencedEmptyReported` | models.py:99-101 | an empty paragraph at index idx is reported iff all earlier paragraphs have references and no URL repeated before idx |
| `Integrity.ReferencedDuplicateIsFirst` | models.py:102-107 | a reported duplicate is the first repeated URL in paragraph-then-reference order |
| `Integrity.EnsureUniqueReferencedUrls` | models.py:96-109 | the nested loop with its seen set returns exactly the scan's verdict: accepted unchanged iff non-empty references everywhere and all URLs distinct |
| `Integrity.EnsureUniqueEvidenceUrls` | models.py:132-142 | the evidence-based loop accepts unchanged iff all URLs are distinct across the response, else it reports the first repeated URL |
| `Integrity.EvidenceVerdictMeaning` | models.py:132-142 | the evidence-based model validator accepts iff all URLs of the response are distinct, and otherwise reports the first repeated URL |
| `Integrity.UncitedIndices` | models.py:122-125 | lists, in ascending order, exactly the paragraphs that break `min_length=1` |
| `Integrity.BuildEvidenceBasedResponse` | models.py:119-142 | building an `EvidenceBasedResponse` succeeds iff every paragraph has a reference and all URLs are distinct, returns it unchanged, fails with the `min_length` error listing exactly the uncited paragraphs when some paragraph cites nothing, and otherwise gives the uniqueness validator's verdict (the first repeated URL); no URL is fetched |
| `Integrity.Rejections` | models.py:46-52 | the list of liveness rejections is empty iff every cited URL passes the liveness check |
| `Integrity.RejectionsAreFailures` | models.py:46-52 | a rejection is collected iff it is the failed liveness check of one of the cited URLs |
| `Integrity.BuildReferencedParagraphs` | models.py:46-109 | building `ReferencedParagraphs` succeeds iff every cited URL passes the liveness check, every paragraph cites something and no URL repeats, returns the paragraphs unchanged, fails with exactly the liveness rejections of the cited URLs (`Rejections`) when some URL is not live, and otherwise gives exactly the model validator's verdict |
| `Evidence.SideQuery` | evidence.py:184-187 | `query_used` starts with "arguments supporting: " exactly when the side is "pro", and it ends with the motion |
| `Evidence.SearchQuery` | evidence.py:65-68 | the query sent to search is the reported side query followed by " evidence research studies", plus " criticism" for every side other than "pro" |
| `Evidence.ConversionRoundTrip` | evidence.py:93-99 | converting the raw entry of a result gives that result back |
| `Evidence.ConversionIgnoresOtherKeys` | evidence.py:93-99 | conversion reads only the "title", "url" and "content" keys |
| `Evidence.SearchWeb` | evidence.py:65-102 | exactly one search call, with the side's search query and the given result bound; a provider error is passed on as it is; otherwise one converted result per raw entry, in order |
| `Evidence.SearchWebForEvidence` | evidence.py:42-102 | one search call with the side's search query (`SearchQuery`), then one result per raw entry in order, each missing field defaulting to "", none for a missing "results" key; a provider error propagates |
| `Evidence.SummarizeSources` | evidence.py:105-157 | empty input returns no summaries and makes no call; otherwise exactly one completion call, built from the results, the motion, the side and the model (2000 tokens, 2 retries), whose answer is returned as it is |
| `Evidence.SourcesText` | evidence.py:122-125 | the prompt context holds each result's block, the k-th numbered k+1, and each result's URL verbatim |
| `Evidence.Render` | evidence.py:127-138 | the system instructions contain the motion and the side verbatim |
| `Evidence.SourceHeadersDistinct` | evidence.py:123 | two block headers are equal only for the same number |
| `Evidence.GatherEvidence` | evidence.py:160-212 | no key (missing or empty): empty evidence, no call; with a key: the first call is the search with the side's search query (`SearchQuery`) and 8 results, and `query_used` is the side query; a search error propagates with no further call; no results means no summariser call and empty sources; otherwise the summariser is called once on the converted results, and the sources are exactly its output or its error propagates unchanged |
| `Evidence.GatherEvidencePromptListsResults` | evidence.py:189-205 | when the summariser is called, it gets the converted search results, every result's URL is in its prompt, the instructions are for the same motion and side, and 2 retries are requested |
| `Text.DecimalRoundTrip` | evidence.py:123 | the decimal numbering of sources reads back as the number |
| `Text.JoinContainsPart` | evidence.py:122 | joining keeps every part verbatim |

## Left out

- HTTP traffic (models.py:55-76): headers, the 10-second timeout and redirects are not modelled. Each call is reduced to a status code or a request error.
- Exceptions from httpx other than `RequestError` (for instance an invalid URL) are not modelled. In the source they propagate rather than become a rejection.
- `AnyUrl` parsing and normalisation are library behaviour. URLs are strings compared by value, as pydantic renders them.
- Integrity.BuildReferencedParagraphs: the network is a function of the URL. So two references with the same URL get the same answer. In the source, each reference is probed separately and could get different answers.
- Integrity.Rejections: pydantic's `ValidationError` layout and messages are not modelled. Only the list of rejections is kept; `Integrity.RejectionsAreFailures` fixes which rejections it holds, but not their order nor how many times each appears.
- The Tavily client, `search_depth="advanced"`, `include_raw_content=False` and the domain allow-list (evidence.py:61-63, evidence.py:72-90) are not modelled. Filtering is the provider's; search is a parameter.
- The floating-point `score` of a search result and the completion's `temperature=0.1` are floating point and play no part in the logic.
- `max_retries=2` is recorded in the completion request. The retrying itself happens in the completion library and is not modelled.
- URL fidelity of summaries is not claimed. The prompt only asks the model to keep the URLs (evidence.py:138), and nothing checks it.
- Raw search entries whose fields are not strings (or are `None`) are not modelled.
- A search response whose `"results"` value is `None` (rather than absent) is not modelled. In the source, iterating over it raises `TypeError` (evidence.py:93), which propagates out of `gather_evidence`; the model only has a list or a missing key.
- The `print` diagnostics of evidence.py are console output.
- main.py (CLI parsing, rendering), settings.py and decorators.py are plumbing and are not part of this model.
- `build_client` and `understand_arguments` in agent.py are incomplete in the source. `generate_counter`, the response assembler, is not part of this model: it is imported by main.py but not defined in the repository.
- `PointsResponse` and `RebuttalParagraphs` carry no validation logic and are not modelled.
