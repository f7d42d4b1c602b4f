/**
 * Fetching one URL: take a permit, open one page, run the bounded retry loop
 * on that page, close the page (inline on failure, in the background on
 * success) and give the permit back.
 */
module Orchestrator {
  import opened Wrappers
  import opened Browser
  import opened Permits
  import opened Retry

  /** Default number of retries after the first attempt, used by the endpoint. */
  const MAX_RETRIES: int := 8

  /** Delay before the background close, from a uniform draw `r` in [0, 1). */
  function CloseDelay(r: real): (d: real)
    requires 0.0 <= r < 1.0
    ensures 1.0 <= d < 7.0
  {
    1.0 + 6.0 * r
  }

  /** The result of a fetch when opening the page fails with `newPageError`, or else navigates as `nav`. */
  function FetchOutcome(newPageError: Option<string>, nav: nat -> NavOutcome, retries: int): (r: FetchResult)
    ensures r.PageCreationFailed? <==> newPageError.Some?
    ensures r.NoContent? <==> newPageError.None? && retries < 0
    ensures r.Content? ==> exists k: nat :: 1 <= k <= retries + 1 && nav(k) == Loaded(r.html)
    ensures IsTerminalFailure(r) ==>
              retries >= 0 && !nav(retries + 1).Loaded? && r == Terminal(nav(retries + 1))
  {
    match newPageError
    case Some(e) => PageCreationFailed(e)
    case None => RetryRun(nav, 1, retries + 1).result
  }

  /**
   * One page fetch. `newPageError` is the engine's error when it cannot open a
   * page, `nav` gives the outcome of each navigation of the page and `r` is the
   * random draw for the close delay. The model starts at the moment the permit
   * pool admits the request, so a permit is free.
   */
  method Fetch(sem: Semaphore, session: Session, newPageError: Option<string>,
               nav: nat -> NavOutcome, retries: int, r: real)
    returns (res: FetchResult, page: Page?)
    requires sem.Valid() && sem.held < sem.capacity
    requires 0.0 <= r < 1.0
    modifies sem, session
    ensures sem.Valid() && sem.held == old(sem.held)
    ensures res == FetchOutcome(newPageError, nav, retries)
    ensures newPageError.Some? ==> page == null && session.pagesCreated == old(session.pagesCreated)
    ensures newPageError.None? ==>
              page != null && fresh(page) && session.pagesCreated == old(session.pagesCreated) + 1
    ensures newPageError.None? ==> page.attempts == RetryRun(nav, 1, retries + 1).attempts
    ensures newPageError.None? && res.Content? ==>
              page.state == CloseScheduled(CloseDelay(r)) && page.closeCalls == 0
    ensures newPageError.None? && IsTerminalFailure(res) ==>
              page.state == ClosedNow && page.closeCalls == 1
    ensures newPageError.None? && res.NoContent? ==>
              page.state == Open && page.closeCalls == 0
  {
    sem.Acquire();
    page := session.NewPage(newPageError);
    if page == null {
      res := PageCreationFailed(newPageError.value);
      sem.Release();
      return;
    }
    ghost var last := retries + 1;
    var attempt := 1;
    res := NoContent;
    while attempt <= retries + 1
      invariant 1 <= attempt
      invariant last >= 1 ==> attempt <= last
      invariant RetryRun(nav, attempt, last) == RetryRun(nav, 1, last)
      invariant page.state == Open && page.closeCalls == 0 && page.attempts == attempt - 1
      invariant sem.Valid() && sem.held == old(sem.held) + 1
      invariant session.pagesCreated == old(session.pagesCreated) + 1
      decreases retries + 1 - attempt
    {
      var o := page.Goto(nav);
      match o {
        case Loaded(html) =>
          page.ScheduleClose(CloseDelay(r));
          res := Content(html);
          break;
        case NavTimeout =>
          if attempt >= retries + 1 {
            page.Close();
            res := GatewayTimeout;
            break;
          }
        case NavFailure(message) =>
          if attempt >= retries + 1 {
            page.Close();
            res := InternalError(message);
            break;
          }
      }
      attempt := attempt + 1;
    }
    sem.Release();
  }

  /**
   * A fetch followed by the background close it may have scheduled. On every
   * path that opens a page and makes at least one attempt, the page is closed
   * exactly once, and the background close leaves the result as it was.
   */
  method FetchAndSettle(sem: Semaphore, session: Session, newPageError: Option<string>,
                        nav: nat -> NavOutcome, retries: int, r: real)
    returns (res: FetchResult, page: Page?)
    requires sem.Valid() && sem.held < sem.capacity
    requires 0.0 <= r < 1.0
    modifies sem, session
    ensures sem.Valid() && sem.held == old(sem.held)
    ensures res == FetchOutcome(newPageError, nav, retries)
    ensures newPageError.None? && retries >= 0 ==>
              page != null && page.closeCalls == 1 && (page.state == ClosedNow || page.state == ClosedLater)
  {
    res, page := Fetch(sem, session, newPageError, nav, retries, r);
    if page != null && page.state.CloseScheduled? {
      page.RunScheduledClose();
    }
  }
}
