/**
 * The browser engine as the fetch logic sees it: a session that hands out
 * pages, and pages that can be navigated and closed. Navigation itself is
 * abstract: `nav(k)` is what the k-th navigation of a page yields.
 */
module Browser {
  import opened Wrappers

  /** The outcome of one navigation attempt (goto followed by reading the serialized HTML). */
  datatype NavOutcome =
    | Loaded(html: string)       // navigation and content extraction succeeded
    | NavTimeout                 // the engine's navigation timeout error
    | NavFailure(message: string) // any other exception, with its text

  /** Lifetime of one page (browser tab). */
  datatype PageState =
    | Open
    | ClosedNow                 // closed synchronously by the request
    | CloseScheduled(delay: real) // a background task will close it after `delay`
    | ClosedLater               // the background task has run its close

  class Page {
    var state: PageState
    /** Number of navigations made on this page. */
    var attempts: nat
    /** Number of times close was called on this page. */
    var closeCalls: nat

    constructor ()
      ensures state == Open && attempts == 0 && closeCalls == 0
    {
      state := Open;
      attempts := 0;
      closeCalls := 0;
    }

    /** Navigate once; the outcome is the one the engine gives for this page's next navigation. */
    method Goto(nav: nat -> NavOutcome) returns (o: NavOutcome)
      requires state == Open
      modifies this
      ensures attempts == old(attempts) + 1 && o == nav(attempts)
      ensures state == old(state) && closeCalls == old(closeCalls)
    {
      attempts := attempts + 1;
      o := nav(attempts);
    }

    /** Close the page inline, before the request finishes. */
    method Close()
      requires state == Open
      modifies this
      ensures state == ClosedNow && closeCalls == old(closeCalls) + 1
      ensures attempts == old(attempts)
    {
      state := ClosedNow;
      closeCalls := closeCalls + 1;
    }

    /** Spawn the background task that closes the page after `delay` time units. */
    method ScheduleClose(delay: real)
      requires state == Open
      modifies this
      ensures state == CloseScheduled(delay) && closeCalls == old(closeCalls)
      ensures attempts == old(attempts)
    {
      state := CloseScheduled(delay);
    }

    /**
     * The background task once its delay is over: it calls close exactly once.
     * A failure of that close is logged and dropped, so the task reports nothing
     * to anybody and touches nothing but this page.
     */
    method RunScheduledClose()
      requires state.CloseScheduled?
      modifies this
      ensures state == ClosedLater && closeCalls == old(closeCalls) + 1
      ensures attempts == old(attempts)
    {
      state := ClosedLater;
      closeCalls := closeCalls + 1;
    }
  }

  /** The single long-lived browser context; it counts the pages it has created. */
  class Session {
    var pagesCreated: nat

    constructor ()
      ensures pagesCreated == 0
    {
      pagesCreated := 0;
    }

    /** Create a fresh page, or fail with the engine's error text `failure`. */
    method NewPage(failure: Option<string>) returns (p: Page?)
      modifies this
      ensures failure.None? ==> p != null && fresh(p) && pagesCreated == old(pagesCreated) + 1
      ensures failure.None? ==> p.state == Open && p.attempts == 0 && p.closeCalls == 0
      ensures failure.Some? ==> p == null && pagesCreated == old(pagesCreated)
    {
      if failure.None? {
        p := new Page();
        pagesCreated := pagesCreated + 1;
      } else {
        p := null;
      }
    }
  }
}
