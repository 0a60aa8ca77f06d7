/** Fetching one page with bounded retries (`fetch_page`). */
module Retry {
  import opened Api

  /** The outcome of one try: the transport's exception, a response whose
      `success` is false, a response without `result`, or the page. */
  function Attempt(net: Network, offset: nat, attempt: nat): Result<Page>
  {
    match net(offset, attempt)
    case Raised(reason) => Err(Transport(reason))
    case Replied(success, result) =>
      if !success then Err(ApiFailure(offset))
      else if result.None? then Err(MissingResult)
      else Ok(result.value)
  }

  /** The index of the last try a call starting at `retry` can make. */
  function LastAttempt(retry: nat): nat
  {
    if retry < MAX_RETRIES then MAX_RETRIES else retry
  }

  /** `fetch_page(offset, retry)`: try number `retry`; when it fails and
      fewer than `MAX_RETRIES` retries were used, try again with the next
      number, otherwise let the error propagate. A first try that succeeds
      is the answer; an error that comes out is the last allowed try's. */
  function FetchPage(net: Network, offset: nat, retry: nat): (r: Result<Page>)
    ensures Attempt(net, offset, retry).Ok? ==> r == Attempt(net, offset, retry)
    ensures r.Err? ==> r == Attempt(net, offset, LastAttempt(retry))
    decreases MAX_RETRIES - retry
  {
    match Attempt(net, offset, retry)
    case Ok(page) => Ok(page)
    case Err(e) =>
      if retry < MAX_RETRIES then FetchPage(net, offset, retry + 1)
      else Err(e)
  }

  /** The first try at or after `retry` that succeeds, if any is within the bound. */
  ghost predicate FirstSuccessAt(net: Network, offset: nat, retry: nat, k: nat, page: Page)
  {
    retry <= k <= LastAttempt(retry) && Attempt(net, offset, k) == Ok(page) &&
    forall j :: retry <= j < k ==> Attempt(net, offset, j).Err?
  }

  /** A call starting at `retry` returns the page of some try between `retry`
      and `LastAttempt(retry)` after which no earlier try succeeded; when it
      fails, every one of those tries failed and the error is the last one's. */
  lemma {:induction false} FetchPageOutcome(net: Network, offset: nat, retry: nat)
    decreases MAX_RETRIES - retry
    ensures FetchPage(net, offset, retry).Ok? ==>
      exists k: nat :: FirstSuccessAt(net, offset, retry, k, FetchPage(net, offset, retry).value)
    ensures FetchPage(net, offset, retry).Err? ==>
      (forall j :: retry <= j <= LastAttempt(retry) ==> Attempt(net, offset, j).Err?) &&
      FetchPage(net, offset, retry).error == Attempt(net, offset, LastAttempt(retry)).error
  {
    var r := FetchPage(net, offset, retry);
    if Attempt(net, offset, retry).Ok? {
      assert FirstSuccessAt(net, offset, retry, retry, r.value);
    } else if retry < MAX_RETRIES {
      FetchPageOutcome(net, offset, retry + 1);
      if r.Ok? {
        var k: nat :| FirstSuccessAt(net, offset, retry + 1, k, r.value);
        assert FirstSuccessAt(net, offset, retry, k, r.value);
      }
    }
  }

  /** A call from the job (retry 0) returns a page exactly when one of the
      at most `MAX_RETRIES + 1` tries succeeds, and then it is the page of the
      first such try. */
  lemma FetchPageOkIff(net: Network, offset: nat, page: Page)
    ensures FetchPage(net, offset, 0) == Ok(page) <==>
      exists k: nat :: FirstSuccessAt(net, offset, 0, k, page)
  {
    FetchPageOutcome(net, offset, 0);
    if exists k: nat :: FirstSuccessAt(net, offset, 0, k, page) {
      var k: nat :| FirstSuccessAt(net, offset, 0, k, page);
      var r := FetchPage(net, offset, 0);
      if r.Ok? {
        var k': nat :| FirstSuccessAt(net, offset, 0, k', r.value);
      }
    }
  }

  /** A call from the job fails exactly when all `MAX_RETRIES + 1` tries fail,
      and it fails with the error of the last try. */
  lemma FetchPageErrIff(net: Network, offset: nat, e: FetchError)
    ensures FetchPage(net, offset, 0) == Err(e) <==>
      (forall j :: 0 <= j <= MAX_RETRIES ==> Attempt(net, offset, j).Err?) &&
      Attempt(net, offset, MAX_RETRIES) == Err(e)
  {
    FetchPageOutcome(net, offset, 0);
    var r := FetchPage(net, offset, 0);
    if r.Ok? {
      var k: nat :| FirstSuccessAt(net, offset, 0, k, r.value);
    }
  }

  /** Only the tries `retry` .. `LastAttempt(retry)` for this one offset are
      consulted: two networks that answer them alike give the same result,
      whatever they answer for later tries or other offsets. */
  lemma {:induction false} FetchPageConsultsOnlyItsTries(net: Network, net': Network, offset: nat, retry: nat)
    requires forall k :: retry <= k <= LastAttempt(retry) ==> net(offset, k) == net'(offset, k)
    ensures FetchPage(net, offset, retry) == FetchPage(net', offset, retry)
    decreases MAX_RETRIES - retry
  {
    assert Attempt(net, offset, retry) == Attempt(net', offset, retry);
    if retry < MAX_RETRIES {
      FetchPageConsultsOnlyItsTries(net, net', offset, retry + 1);
    }
  }
}
