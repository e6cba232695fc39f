/**
 * The liveness check that every `Reference` URL goes through when it is constructed
 * (`Reference.validate_url_returns_200`, models.py).
 *
 * The two HTTP calls are not made here: the caller supplies what the HEAD request came back
 * with and what the GET request would come back with if it were issued. What remains is the
 * escalation from HEAD to GET and the classification of the final status code.
 */
module Liveness {
  import opened Wrappers

  /** What one HTTP call ended with: a status code, or an `httpx.RequestError` (timeout, DNS, refused). */
  datatype HttpOutcome = Status(code: int) | RequestError(cause: string)

  datatype HttpMethod = Head | Get

  /** Why a URL was refused; both status branches of the source raise the same message. */
  datatype UrlRejection =
    | BadStatus(url: string, code: int)
    | Unreachable(url: string, cause: string)

  /** The requests issued, in order, and the validator's verdict: the URL itself, or the raised error. */
  datatype UrlCheck = UrlCheck(requests: seq<HttpMethod>, verdict: Result<string, UrlRejection>)

  /** Status codes the validator lets through: every non-error code, plus the bot-blocking 401 and 403. */
  predicate Tolerated(code: int) {
    code < 400 || code == 401 || code == 403
  }

  /** A GET is issued exactly when the HEAD request returned an error status. */
  predicate Escalates(head: HttpOutcome) {
    head.Status? && head.code >= 400
  }

  /** The outcome that gets classified: the GET's when the validator escalated, the HEAD's otherwise. */
  function FinalOutcome(head: HttpOutcome, get: HttpOutcome): HttpOutcome {
    if Escalates(head) then get else head
  }

  /** The two status tests of the source, in their order: 404/410 first, then any other code of 400 or more not 401/403. */
  function ClassifyStatus(url: string, code: int): (r: Result<string, UrlRejection>)
    ensures r.Ok? <==> Tolerated(code)
    ensures r.Ok? ==> r.value == url
    ensures r.Err? ==> r.error == BadStatus(url, code)
  {
    if code == 404 || code == 410 then Err(BadStatus(url, code))
    else if code >= 400 && code != 401 && code != 403 then Err(BadStatus(url, code))
    else Ok(url)
  }

  /** HEAD, escalation to GET on an error status, then classification; a request error on either call rejects. */
  function ValidateUrl(url: string, head: HttpOutcome, get: HttpOutcome): (c: UrlCheck)
    ensures c.requests == if Escalates(head) then [Head, Get] else [Head]
    ensures c.verdict.Ok? <==> FinalOutcome(head, get).Status? && Tolerated(FinalOutcome(head, get).code)
    ensures c.verdict.Ok? ==> c.verdict.value == url
    ensures FinalOutcome(head, get).RequestError? ==>
              c.verdict == Err(Unreachable(url, FinalOutcome(head, get).cause))
    ensures FinalOutcome(head, get).Status? && !Tolerated(FinalOutcome(head, get).code) ==>
              c.verdict == Err(BadStatus(url, FinalOutcome(head, get).code))
  {
    match head
    case RequestError(cause) => UrlCheck([Head], Err(Unreachable(url, cause)))
    case Status(h) =>
      if h >= 400 then
        match get
        case RequestError(cause) => UrlCheck([Head, Get], Err(Unreachable(url, cause)))
        case Status(g) => UrlCheck([Head, Get], ClassifyStatus(url, g))
      else
        UrlCheck([Head], ClassifyStatus(url, h))
  }

  /** A HEAD below 400 settles the check alone: no GET, and the URL is accepted unchanged. */
  lemma HeadSuccessSkipsGet(url: string, code: int, get: HttpOutcome)
    requires code < 400
    ensures ValidateUrl(url, Status(code), get) == UrlCheck([Head], Ok(url))
  {
  }

  /** On an error HEAD status, the HEAD code is forgotten: only the GET decides. */
  lemma GetReplacesHead(url: string, h1: int, h2: int, get: HttpOutcome)
    requires h1 >= 400 && h2 >= 400
    ensures ValidateUrl(url, Status(h1), get) == ValidateUrl(url, Status(h2), get)
  {
  }

  /** A final 404 or 410 is always rejected, whatever the HEAD said. */
  lemma MissingResourceRejected(url: string, head: HttpOutcome, get: HttpOutcome)
    requires FinalOutcome(head, get) == Status(404) || FinalOutcome(head, get) == Status(410)
    ensures ValidateUrl(url, head, get).verdict.Err?
  {
  }

  /** A server that answers both requests alike: 200, 401 and 403 pass, 404 and 410 do not. */
  lemma ConsistentServer(url: string, code: int)
    ensures ValidateUrl(url, Status(code), Status(code)).verdict == ClassifyStatus(url, code)
    ensures code == 200 || code == 401 || code == 403 ==> ValidateUrl(url, Status(code), Status(code)).verdict == Ok(url)
    ensures code == 404 || code == 410 || code == 500 ==> ValidateUrl(url, Status(code), Status(code)).verdict.Err?
  {
  }
}
