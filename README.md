# Rendering proxy: fetch orchestration, request gate and response compression

This project models the decision logic of a single-endpoint rendering proxy.
The proxy takes `GET /{path}?token=…&url=…`, renders the URL in one shared
headless browser and returns the serialized HTML. Three pieces of `app.py` are
modelled. The browser engine, the HTTP framework, URL parsing and the
compressors are treated as abstract parameters.

- **Page fetch** (`fetch_page_content`, `close_page_later`), modules `Browser`, `Permits`, `Retry`, `Orchestrator`.
  The fetch takes one permit from a pool whose size is configured (`MAX_CONCURRENT_PAGES`) and holds it until it
  returns, so the pool limits concurrent fetches, not open pages. It opens one page and makes up to `retries + 1`
  navigation attempts on that same page. The first success returns its HTML and schedules a background close after
  `1 + 6r` time units, where `r` is drawn from [0, 1). When the last attempt fails, the page is closed inline. A
  timeout on that last attempt becomes a gateway timeout; any other error becomes an internal error carrying its text.
  - Navigation is an oracle `nav: nat -> NavOutcome`: `nav(k)` is the outcome of the k-th navigation of the page.
  - `Retry.RetryRun` is the loop as a function.
  - `Orchestrator.Fetch` is the loop as a `while` over a `Page` object and a `Semaphore` object. Its contract ties the
    result and the page's attempt count to `RetryRun`, and states the page's close state and the permit count.
- **Request gate** (`handle_request`), module `Gateway`. The checks run in order: token, then presence of `url`, then
  scheme and host of the parsed URL. Only then is the page fetched. `urlparse` is a parameter
  `parse: string -> Option<UrlParts>`, where None stands for the parser raising an error (for instance on an
  unclosed bracketed host such as `http://[::1`), which escapes the handler as the framework's 500.
- **Compression middleware** (`compression_middleware`), module `Compression`. It decides from the response's
  `Content-Encoding`, its content type and a substring test on the lower-cased `Accept-Encoding` of the request. Brotli
  is chosen over gzip. The response object (`HttpResponse`) is then rewritten in place.

Behaviour of the code worth knowing:
- The same page is reused for every retry.
- An exception from `new_page` is not caught by the fetch. It leaves the fetch (releasing the permit) and becomes the
  framework's generic 500 response, not an "Error loading page" response.
- The compression step does not apply to the 400/401/500/504 responses. The handler raises those as exceptions, which
  pass through the middleware without reaching its body.
- A `Content-Encoding` header that is present with an empty value does not stop compression: the code tests
  truthiness.
- A request without a `token` parameter is refused even when the configured token is empty: the lookup gives `None`,
  which differs from `""`.
- With `retries < 0` the attempt range is empty. The fetch returns `None` (answered as an empty 200 page) and never
  closes the page. `RetryRun` gives `NoContent` there, and `Fetch` states that the page stays `Open`.

## Model

| member | source | states |
|---|---|---|
| `Browser.Session.NewPage` | app.py:65 | creating a page either yields a fresh open page with no attempts and no close, counted once by the session, or fails with no page created |
| `Browser.Page.Goto` | app.py:71-77 | an attempt on a page adds one to its attempt count and yields the engine's outcome for that numbered navigation, leaving the page open |
| `Browser.Page.Close` | app.py:88-89 | the inline close moves an open page to closed-now and counts one close |
| `Browser.Page.ScheduleClose` | app.py:83 | scheduling the background close records its delay and closes nothing yet |
| `Browser.Page.RunScheduledClose` | app.py:46-51 | the background task calls close once and changes nothing but that page, so a close error never reaches a result |
| `Permits.Semaphore.constructor` | app.py:37 | the permit pool starts with no permit held and has the configured size |
| `Permits.Semaphore.Acquire` | app.py:63 | taking a permit adds one held permit and keeps held permits within the pool size |
| `Permits.Semaphore.Release` | app.py:63 | releasing gives back exactly one held permit |
| `Retry.Terminal` | app.py:86-95 | a failing last attempt is a gateway timeout exactly when it timed out, and otherwise an internal error carrying that attempt's error message |
| `Retry.RetryRun` | app.py:67-95 | the loop makes attempts only within 1..retries+1, returns content only as the HTML of the attempt it stopped at, ends in an error only at the last attempt with that attempt's kind, and falls through only when the range is empty |
| `Retry.FirstSuccessWins` | app.py:71-84 | when attempt k is the first success, the result is its HTML and k is the last attempt made |
| `Retry.SuccessSomewhere` | app.py:71-84 | any success within the range makes the loop return content no later than that attempt |
| `Retry.LastFailureDecides` | app.py:86-95 | without a success, every allowed attempt is made and the error is the one the last attempt maps to |
| `Retry.AllTimeoutsExhaust` | app.py:67-90 | if every attempt times out, exactly retries+1 attempts are made and the result is a gateway timeout |
| `Retry.ContentIffSomeSuccess` | app.py:67-95 | the loop returns content if and only if some allowed attempt succeeds |
| `Retry.EarlierFailureKindsIrrelevant` | app.py:86-95 | histories that differ only in the kinds of early failures give the same result and attempt count |
| `Orchestrator.CloseDelay` | app.py:83 | the background close delay lies in [1, 7) |
| `Orchestrator.FetchOutcome` | app.py:62-95 | a fetch fails at page creation exactly when the engine cannot open a page, falls through exactly when the attempt range is empty, returns only HTML that some allowed attempt produced, and ends in an error only as the last attempt's outcome maps to |
| `Orchestrator.Fetch` | app.py:62-95 | the fetch returns the retry loop's result and makes its attempts on one fresh page, the only page it creates. On success the page gets one scheduled close; on a final failure it is closed inline once. If the page cannot be created, nothing is opened. The permit count is the same afterwards on every path |
| `Orchestrator.FetchAndSettle` | app.py:46-95 | once the background close has run, a page that saw at least one attempt has been closed exactly once, and the fetch's result is unchanged |
| `Gateway.Gate` | app.py:97-109 | a request goes on to the fetch exactly when its token matches and its url is non-empty, parsable, with a scheme and a host. The url it forwards is the query's. Every other request is refused with 401, one of the two 400 replies, or the framework's 500 when the parser raises |
| `Gateway.ToReply` | app.py:84-112 | success is 200 text/html with exactly the fetched HTML, a timeout is 504, other failures (including a failing page creation) are 500, and an internal error's text is "Error loading page: " followed by the underlying error text |
| `Gateway.Handle` | app.py:97-112 | a wrong or missing token gets 401; a 200 reply happens only for an accepted request whose fetch gave content or fell through; an accepted request gets the reply its fetch result maps to |
| `Gateway.BadTokenRefused` | app.py:98-101 | a token different from the configured one, or no token, gets 401 whatever the url is |
| `Gateway.MissingUrlRefused` | app.py:103-105 | with the right token, a missing or empty url gets 400 "Missing 'url' parameter." |
| `Gateway.InvalidUrlRefused` | app.py:107-109 | with the right token, a parsable url whose scheme or host is empty gets 400 "Invalid URL." |
| `Gateway.UnparsableUrlIsServerError` | app.py:107 | with the right token, a url on which the parser raises gets the framework's 500 and is never fetched |
| `Gateway.RefusalIgnoresFetch` | app.py:97-111 | for a refused request the reply does not depend on what fetching would give |
| `Gateway.AcceptedRequestReturnsContent` | app.py:111-112 | an accepted request whose fetch yields HTML gets 200 text/html with exactly that HTML |
| `Gateway.AllTimeoutsGive504` | app.py:62-112 | an accepted request whose every navigation times out gets 504 "Page load timeout." |
| `Gateway.LastFailureGives500` | app.py:86-112 | an accepted request with no successful attempt whose last attempt fails with message m gets 500 "Error loading page: " followed by m, whatever the earlier failures were |
| `Gateway.HandleRequest` | app.py:97-112 | the endpoint replies as the gate and a fetch with the default MAX_RETRIES decide. A refused request opens no page and leaves the permits as they were; an accepted one opens one page and makes the retry loop's attempts |
| `Compression.Lower` | app.py:175 | lower-casing keeps the length and lower-cases each letter |
| `Compression.Occurs` | app.py:176-178 | the substring test (Python's `in`) holds only when the pattern fits in the header, always holds for an empty pattern, and holds when the header starts with the pattern |
| `Compression.OccursIffAt` | app.py:176-178 | the substring test holds exactly when the pattern starts at some position of the header |
| `Compression.Decimal` | app.py:194 | `Content-Length` is a non-empty string of digits without a leading zero |
| `Compression.DecimalRoundTrip` | app.py:194 | reading the decimal `Content-Length` back gives the compressed length |
| `Compression.Negotiate` | app.py:166-181 | an encoding is chosen only for a response without a non-empty Content-Encoding and of one of the three text types; brotli only when "br" occurs in the lower-cased Accept-Encoding, gzip only when "gzip" does |
| `Compression.EncodedHeaders` | app.py:188-195 | after compression the headers are the old ones plus Content-Encoding set to the encoding's name, Content-Length set to digits that read back as the body length, and Vary set to Accept-Encoding; every other header is kept |
| `Compression.SkipConditions` | app.py:166-181 | the response is left alone exactly when it already has a non-empty Content-Encoding, or its type is not one of the three text types, or neither "br" nor "gzip" occurs in the lower-cased Accept-Encoding |
| `Compression.BrotliPreferred` | app.py:175-181 | brotli is chosen exactly when "br" occurs, and gzip only when "br" does not occur and "gzip" does |
| `Compression.SubstringNotCodingList` | app.py:175-178 | the test is on substrings: an Accept-Encoding of "gzip, br;q=0" selects brotli |
| `Compression.CompressedIsFinal` | app.py:166-195 | a compressed response carries a non-empty Content-Encoding, so passing it through the middleware again leaves it alone |
| `Compression.CompressResponse` | app.py:162-197 | when skipped, or when the body is empty, the body and headers are unchanged. Otherwise the body becomes the chosen compressor's output; Content-Encoding is that encoding, Content-Length is the output's decimal length and Vary is Accept-Encoding, with all other headers and the content type kept |

## Left out

- Browser launch, its arguments and extra headers, the keep-alive warning page, and browser shutdown
  (`init_browser`, `_random_user_agent`, `close_browser`): calls into the engine with no decisions of their own.
- `wait_for_cloudflare`: its only call is commented out, so it never runs.
- `ensure_chromium_installed`, `create_app` and the `__main__` block: subprocesses, files, routing and server start-up.
- Reading configuration from the environment, and logging. The default retry count is the constant `MAX_RETRIES`;
  the token, the pool size (the semaphore's capacity) and the retries of a direct fetch are parameters.
- Time: the random 1–4 second sleep before a 401, the background close's sleep, and the elapsed-time measurement.
  The random draw of the close delay is the parameter `r`.
- Orchestrator.Fetch: waiting for a free permit is not modelled. The method starts at the moment the pool admits the
  request, so it requires a free permit. Interleaving of concurrent requests is not modelled either; only each
  request's acquire/release accounting is.
- Browser.Page.Goto: navigation and reading the page content are one abstract step. A failure of either counts as
  one failed attempt, as the code's `except` clauses treat it.
- Browser.Page.RunScheduledClose: whether the engine's close succeeds is not modelled. Its error is logged and
  dropped, so nothing observable depends on it.
- Gateway.ToReply: for an exception escaping from `new_page` or from the URL parser, only the status 500 is
  modelled. The body the framework writes is not.
- Browser.Page.Close: the inline close before a 504 or 500 cannot fail in the model. In the code an error from that
  close escapes the handler instead of the 504/500 and becomes the framework's generic 500 (the permit is still
  given back). The model therefore does not capture that replacement of the reply.
- `urlparse`, brotli and gzip are abstract functions (`parse`, `brotli`, `gzip`). When `parse` gives None, the model
  does not say why the parser raised.
- Compression.Lower: lower-cases ASCII letters only, where Python's `lower` also handles other scripts.
- Header and query maps are keyed by exact names. The case-insensitive header lookup and repeated query parameters
  (the first value wins) are not modelled. The response's content type is its own field rather than parsed from
  `Content-Type`.
- The text-to-bytes encoding of the HTML body before compression is not modelled: the middleware works on bytes.
