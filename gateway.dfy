/**
 * The HTTP endpoint: check the token, then the presence of `url`, then its
 * scheme and host, and only then fetch the page. URL parsing is abstract:
 * `parse(u)` gives the scheme and network location the parser finds in `u`,
 * or None when the parser raises an error on `u`.
 */
module Gateway {
  import opened Wrappers
  import opened Browser
  import opened Permits
  import opened Retry
  import opened Orchestrator

  /** Query parameters, each name with the value the request's query gives for it. */
  type Query = map<string, string>

  /** The two parts of a parsed URL the endpoint looks at. */
  datatype UrlParts = UrlParts(scheme: string, netloc: string)

  type UrlParser = string -> Option<UrlParts>

  /** A response as the client receives it: status, content type and text. */
  datatype Reply = Reply(status: int, contentType: string, text: string)

  /** What the checks decide before any page is fetched. */
  datatype Decision = Reject(reply: Reply) | Forward(url: string)

  const UNAUTHORIZED: Reply := Reply(401, "text/plain", "Invalid or missing token.")
  const MISSING_URL: Reply := Reply(400, "text/plain", "Missing 'url' parameter.")
  const INVALID_URL: Reply := Reply(400, "text/plain", "Invalid URL.")
  /** The framework's answer to an exception the handler does not catch (its body is not modelled). */
  const UNHANDLED_ERROR: Reply := Reply(500, "text/plain", "")
  const PAGE_TIMEOUT_TEXT: string := "Page load timeout."
  const PAGE_ERROR_PREFIX: string := "Error loading page: "

  function Param(q: Query, name: string): Option<string> {
    if name in q then Some(q[name]) else None
  }

  /** A URL the endpoint accepts: non-empty, parsable, with a scheme and a network location. */
  predicate WellFormedUrl(u: string, parse: UrlParser) {
    u != "" && parse(u).Some? && parse(u).value.scheme != "" && parse(u).value.netloc != ""
  }

  /** An acceptable request: the right token and a well-formed `url`. */
  predicate Accepted(q: Query, token: string, parse: UrlParser) {
    Param(q, "token") == Some(token) && "url" in q && WellFormedUrl(q["url"], parse)
  }

  /** The checks of the endpoint, in their order; `token` is the configured secret. */
  function Gate(q: Query, token: string, parse: UrlParser): (d: Decision)
    ensures d.Forward? <==> Accepted(q, token, parse)
    ensures d.Forward? ==> d.url == q["url"]
    ensures d.Reject? ==> d.reply in {UNAUTHORIZED, MISSING_URL, INVALID_URL, UNHANDLED_ERROR}
  {
    if Param(q, "token") != Some(token) then Reject(UNAUTHORIZED)
    else match Param(q, "url")
      case None => Reject(MISSING_URL)
      case Some(u) =>
        if u == "" then Reject(MISSING_URL)
        else match parse(u)
          case None => Reject(UNHANDLED_ERROR)
          case Some(p) =>
            if p.scheme == "" || p.netloc == "" then Reject(INVALID_URL)
            else Forward(u)
  }

  /** How a fetch result reaches the client. */
  function ToReply(res: FetchResult): (rep: Reply)
    ensures rep.status == 200 <==> res.Content? || res.NoContent?
    ensures rep.status == 504 <==> res.GatewayTimeout?
    ensures rep.status == 500 <==> res.InternalError? || res.PageCreationFailed?
    ensures res.Content? ==> rep == Reply(200, "text/html", res.html)
    ensures res.InternalError? ==> rep.text == PAGE_ERROR_PREFIX + res.detail
  {
    match res
    case Content(html) => Reply(200, "text/html", html)
    case GatewayTimeout => Reply(504, "text/plain", PAGE_TIMEOUT_TEXT)
    case InternalError(detail) => Reply(500, "text/plain", PAGE_ERROR_PREFIX + detail)
    case NoContent => Reply(200, "text/html", "")
    case PageCreationFailed(_) => UNHANDLED_ERROR
  }

  /** The endpoint, with `fetch(u)` the result of fetching the URL `u`. */
  function Handle(q: Query, token: string, parse: UrlParser, fetch: string -> FetchResult): (rep: Reply)
    ensures Param(q, "token") != Some(token) ==> rep == UNAUTHORIZED
    ensures rep.status == 200 ==>
              Accepted(q, token, parse) && (fetch(q["url"]).Content? || fetch(q["url"]).NoContent?)
    ensures Accepted(q, token, parse) ==> rep == ToReply(fetch(q["url"]))
  {
    match Gate(q, token, parse)
    case Reject(rep) => rep
    case Forward(u) => ToReply(fetch(u))
  }

  /** A wrong or missing token is refused whatever the URL is (nothing is required of `url`). */
  lemma BadTokenRefused(q: Query, token: string, parse: UrlParser, fetch: string -> FetchResult)
    requires Param(q, "token") != Some(token)
    ensures Handle(q, token, parse, fetch) == UNAUTHORIZED
  {
  }

  /** With the right token, a missing or empty URL is a bad request. */
  lemma MissingUrlRefused(q: Query, token: string, parse: UrlParser, fetch: string -> FetchResult)
    requires Param(q, "token") == Some(token)
    requires "url" !in q || q["url"] == ""
    ensures Handle(q, token, parse, fetch) == MISSING_URL
  {
  }

  /** With the right token, a parsable URL without scheme or without host is a bad request. */
  lemma InvalidUrlRefused(q: Query, token: string, parse: UrlParser, fetch: string -> FetchResult)
    requires Param(q, "token") == Some(token)
    requires "url" in q && q["url"] != "" && parse(q["url"]).Some?
    requires parse(q["url"]).value.scheme == "" || parse(q["url"]).value.netloc == ""
    ensures Handle(q, token, parse, fetch) == INVALID_URL
  {
  }

  /** With the right token, a URL the parser raises on escapes as the framework's 500. */
  lemma UnparsableUrlIsServerError(q: Query, token: string, parse: UrlParser, fetch: string -> FetchResult)
    requires Param(q, "token") == Some(token)
    requires "url" in q && q["url"] != "" && parse(q["url"]).None?
    ensures Handle(q, token, parse, fetch) == UNHANDLED_ERROR
  {
  }

  /** A refused request does not depend on the fetcher at all: no fetch takes place. */
  lemma RefusalIgnoresFetch(q: Query, token: string, parse: UrlParser,
                            fetch1: string -> FetchResult, fetch2: string -> FetchResult)
    requires Gate(q, token, parse).Reject?
    ensures Handle(q, token, parse, fetch1) == Handle(q, token, parse, fetch2)
  {
  }

  /** An accepted request returns the fetched HTML unchanged, as `text/html` with status 200. */
  lemma AcceptedRequestReturnsContent(q: Query, token: string, parse: UrlParser,
                                      fetch: string -> FetchResult, html: string)
    requires Accepted(q, token, parse)
    requires fetch(q["url"]) == Content(html)
    ensures Handle(q, token, parse, fetch) == Reply(200, "text/html", html)
  {
  }

  /** An accepted request whose every navigation times out ends with status 504 after all attempts. */
  lemma AllTimeoutsGive504(q: Query, token: string, parse: UrlParser,
                           nav: nat -> NavOutcome, retries: nat)
    requires Accepted(q, token, parse)
    requires forall j: nat :: 1 <= j <= retries + 1 ==> nav(j) == NavTimeout
    ensures Handle(q, token, parse, u => FetchOutcome(None, nav, retries)) ==
            Reply(504, "text/plain", PAGE_TIMEOUT_TEXT)
  {
  }

  /**
   * An accepted request with no successful attempt whose last attempt fails with
   * message `m` ends with status 500 and a text that carries `m`; the kinds of the
   * earlier failures do not matter.
   */
  lemma LastFailureGives500(q: Query, token: string, parse: UrlParser,
                            nav: nat -> NavOutcome, retries: nat, m: string)
    requires Accepted(q, token, parse)
    requires forall j: nat :: 1 <= j <= retries + 1 ==> !nav(j).Loaded?
    requires nav(retries + 1) == NavFailure(m)
    ensures Handle(q, token, parse, u => FetchOutcome(None, nav, retries)) ==
            Reply(500, "text/plain", PAGE_ERROR_PREFIX + m)
  {
    LastFailureDecides(nav, 1, retries + 1);
  }

  /**
   * The endpoint with the real fetch, which it calls with the default number of
   * retries. A refused request takes no permit and opens no page.
   */
  method HandleRequest(q: Query, token: string, parse: UrlParser,
                       sem: Semaphore, session: Session, newPageError: Option<string>,
                       nav: nat -> NavOutcome, r: real)
    returns (reply: Reply, page: Page?)
    requires sem.Valid() && 0.0 <= r < 1.0
    requires Gate(q, token, parse).Forward? ==> sem.held < sem.capacity
    modifies sem, session
    ensures sem.Valid() && sem.held == old(sem.held)
    ensures reply == Handle(q, token, parse, u => FetchOutcome(newPageError, nav, MAX_RETRIES))
    ensures Gate(q, token, parse).Reject? ==>
              page == null && session.pagesCreated == old(session.pagesCreated)
    ensures Gate(q, token, parse).Forward? && newPageError.None? ==>
              page != null && fresh(page) && session.pagesCreated == old(session.pagesCreated) + 1 &&
              page.attempts == RetryRun(nav, 1, MAX_RETRIES + 1).attempts
  {
    var d := Gate(q, token, parse);
    match d {
      case Reject(rep) =>
        reply, page := rep, null;
      case Forward(u) =>
        var res;
        res, page := Fetch(sem, session, newPageError, nav, MAX_RETRIES, r);
        reply := ToReply(res);
    }
  }
}
