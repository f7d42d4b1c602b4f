/**
 * The retry loop of the page fetch as a function of the navigation outcomes:
 * attempts `from`, `from + 1`, ..., `last` are made on one page until one
 * succeeds or the last one fails. The request starts with `from == 1` and
 * `last == retries + 1`.
 */
module Retry {
  import opened Browser

  /** What one page fetch produces. */
  datatype FetchResult =
    | Content(html: string)             // the HTML of the first successful attempt
    | GatewayTimeout                    // the last attempt timed out
    | InternalError(detail: string)     // the last attempt failed otherwise
    | NoContent                         // the attempt range was empty: the loop falls through
    | PageCreationFailed(detail: string) // the engine could not open a page

  /** The result of the loop and the number of the last attempt it made (0 if none). */
  datatype Run = Run(result: FetchResult, attempts: nat)

  /** How a failing last attempt is reported. */
  function Terminal(o: NavOutcome): (r: FetchResult)
    requires !o.Loaded?
    ensures r.GatewayTimeout? <==> o.NavTimeout?
    ensures r.InternalError? <==> o.NavFailure?
    ensures o.NavFailure? ==> r == InternalError(o.message)
  {
    if o.NavTimeout? then GatewayTimeout else InternalError(o.message)
  }

  /** True when the result ends the request with an error raised after the last attempt. */
  predicate IsTerminalFailure(r: FetchResult) {
    r.GatewayTimeout? || r.InternalError?
  }

  /** Attempts `from` .. `last` of the loop; `nav(k)` is the outcome of attempt k. */
  function RetryRun(nav: nat -> NavOutcome, from: nat, last: int): (r: Run)
    requires 1 <= from
    ensures r.result.NoContent? <==> last < from
    ensures from <= last ==> from <= r.attempts <= last
    ensures r.result.Content? ==> nav(r.attempts) == Loaded(r.result.html)
    ensures IsTerminalFailure(r.result) ==>
              r.attempts == last && !nav(last).Loaded? && r.result == Terminal(nav(last))
    ensures !r.result.PageCreationFailed?
    decreases last - from
  {
    if last < from then Run(NoContent, from - 1)
    else match nav(from)
      case Loaded(h) => Run(Content(h), from)
      case _ =>
        if from >= last then Run(Terminal(nav(from)), from)
        else RetryRun(nav, from + 1, last)
  }

  /** The first success wins: it is returned and no later attempt is made. */
  lemma {:induction false} FirstSuccessWins(nav: nat -> NavOutcome, from: nat, last: int, k: nat)
    requires 1 <= from <= k <= last
    requires nav(k).Loaded?
    requires forall j: nat :: from <= j < k ==> !nav(j).Loaded?
    ensures RetryRun(nav, from, last) == Run(Content(nav(k).html), k)
    decreases k - from
  {
    if from < k {
      FirstSuccessWins(nav, from + 1, last, k);
    }
  }

  /** Without any success, exactly `last` attempts happen and the last one alone decides the error. */
  lemma LastFailureDecides(nav: nat -> NavOutcome, from: nat, last: int)
    requires 1 <= from <= last
    requires forall j: nat :: from <= j <= last ==> !nav(j).Loaded?
    ensures RetryRun(nav, from, last) == Run(Terminal(nav(last)), last)
  {
  }

  /** When every attempt times out, all of them are made and the result is a gateway timeout. */
  lemma AllTimeoutsExhaust(nav: nat -> NavOutcome, retries: nat)
    requires forall j: nat :: 1 <= j <= retries + 1 ==> nav(j) == NavTimeout
    ensures RetryRun(nav, 1, retries + 1) == Run(GatewayTimeout, retries + 1)
  {
  }

  /** The loop returns content exactly when some allowed attempt succeeds. */
  lemma ContentIffSomeSuccess(nav: nat -> NavOutcome, from: nat, last: int)
    requires 1 <= from
    ensures RetryRun(nav, from, last).result.Content? <==>
            exists k: nat :: from <= k <= last && nav(k).Loaded?
  {
    if exists k: nat :: from <= k <= last && nav(k).Loaded? {
      var k: nat :| from <= k <= last && nav(k).Loaded?;
      SuccessSomewhere(nav, from, last, k);
    }
  }

  /** Some success at or before `k` is found, so the result is content from an attempt no later than `k`. */
  lemma {:induction false} SuccessSomewhere(nav: nat -> NavOutcome, from: nat, last: int, k: nat)
    requires 1 <= from <= k <= last
    requires nav(k).Loaded?
    ensures RetryRun(nav, from, last).result.Content?
    ensures RetryRun(nav, from, last).attempts <= k
    decreases k - from
  {
    if from < k && !nav(from).Loaded? {
      SuccessSomewhere(nav, from + 1, last, k);
    }
  }

  /**
   * Two navigation histories that agree on which early attempts succeed (and on
   * what those return) and agree on the last attempt give the same run: the kinds
   * of earlier failures do not matter.
   */
  lemma {:induction false} EarlierFailureKindsIrrelevant(nav1: nat -> NavOutcome, nav2: nat -> NavOutcome,
                                                         from: nat, last: int)
    requires 1 <= from
    requires forall j: nat :: from <= j < last ==>
               (nav1(j).Loaded? <==> nav2(j).Loaded?) && (nav1(j).Loaded? ==> nav1(j) == nav2(j))
    requires from <= last ==> nav1(last) == nav2(last)
    ensures RetryRun(nav1, from, last) == RetryRun(nav2, from, last)
    decreases last - from
  {
    if from < last && !nav1(from).Loaded? {
      EarlierFailureKindsIrrelevant(nav1, nav2, from + 1, last);
    }
  }
}
