/** `call_offers` (month_cheapest.py): the offer search with exponential
    backoff. The external call is replaced by the sequence of responses the
    successive attempts receive; `time.sleep` by the returned list of delays. */
module Retry {
  import opened Wrappers

  /** What one call of the offer search gives: the response's `data`
      (possibly absent), or a `ResponseError` with its HTTP status (absent
      when the error carries no response). */
  datatype Response<T> = Ok(data: Option<seq<T>>) | Failed(status: Option<int>)

  /** How `call_offers` ends: it returns a list, falls off the end of the
      loop (returning `None`, only when `retries <= 0`), or raises. */
  datatype CallResult<T> = Returned(items: seq<T>) | FellThrough | Raised(status: Option<int>)

  datatype Attempted<T> = Attempted(result: CallResult<T>, attempts: nat)

  /** The statuses worth another attempt: rate limiting and server errors. */
  predicate Retryable(status: Option<int>)
  {
    status.Some? && status.value in {429, 500, 502, 503, 504}
  }

  /** `r.data or []`. */
  function DataOrEmpty<T>(data: Option<seq<T>>): seq<T>
  {
    if data.Some? then data.value else []
  }

  /** The loop of `call_offers` from attempt `i` on. */
  function RetryFrom<T>(responses: seq<Response<T>>, retries: int, i: nat): (r: Attempted<T>)
    requires retries <= |responses|
    ensures i < retries ==> i < r.attempts <= retries
    ensures r.result.FellThrough? <==> i >= retries
    decreases retries - i
  {
    if i >= retries then Attempted(FellThrough, i)
    else
      match responses[i]
      case Ok(data) => Attempted(Returned(DataOrEmpty(data)), i + 1)
      case Failed(status) =>
        if Retryable(status) && i < retries - 1 then RetryFrom(responses, retries, i + 1)
        else Attempted(Raised(status), i + 1)
  }

  /** `call_offers(params, retries)` against the given responses. */
  function RetryRun<T>(responses: seq<Response<T>>, retries: int): (r: Attempted<T>)
    requires retries <= |responses|
    ensures r.attempts <= if retries < 0 then 0 else retries
    ensures retries >= 1 ==> r.attempts >= 1
    ensures r.result.FellThrough? <==> retries <= 0
  {
    RetryFrom(responses, retries, 0)
  }

  /** The delay before retry `k` (counting from 0): 1.0, doubled each time. */
  function Backoff(k: nat): real
  {
    if k == 0 then 1.0 else 2.0 * Backoff(k - 1)
  }

  /** The delays `call_offers` sleeps through in a run of `attempts` attempts. */
  function Backoffs(attempts: nat): (delays: seq<real>)
    ensures |delays| == if attempts == 0 then 0 else attempts - 1
    ensures forall k :: 0 <= k < |delays| ==> delays[k] == Backoff(k)
  {
    if attempts <= 1 then [] else Backoffs(attempts - 1) + [Backoff(attempts - 2)]
  }

  /** `call_offers`: the loop over attempts, sleeping `backoff` and doubling
      it before every retry. */
  method CallOffers<T>(responses: seq<Response<T>>, retries: int)
    returns (result: CallResult<T>, attempts: nat, delays: seq<real>)
    requires retries <= |responses|
    ensures Attempted(result, attempts) == RetryRun(responses, retries)
    ensures delays == Backoffs(attempts)
  {
    var backoff := 1.0;
    var i: nat := 0;
    delays := [];
    while i < retries
      invariant i == 0 || i < retries
      invariant RetryFrom(responses, retries, i) == RetryRun(responses, retries)
      invariant backoff == Backoff(i)
      invariant delays == Backoffs(i + 1)
    {
      match responses[i]
      case Ok(data) =>
        result, attempts := Returned(DataOrEmpty(data)), i + 1;
        return;
      case Failed(status) =>
        if Retryable(status) && i < retries - 1 {
          delays := delays + [backoff];
          backoff := backoff * 2.0;
          i := i + 1;
        } else {
          result, attempts := Raised(status), i + 1;
          return;
        }
    }
    result, attempts := FellThrough, i;
  }

  /** Every attempt before the last one failed with a retryable status, and
      the last attempt decides the result: a success returns its data (or
      `[]` when there is none); an error is raised when its status is not
      retryable or when it was the last permitted attempt. */
  lemma RetryDecided<T>(responses: seq<Response<T>>, retries: int)
    requires 1 <= retries <= |responses|
    ensures var run := RetryRun(responses, retries);
      && 1 <= run.attempts <= retries
      && (forall k :: 0 <= k < run.attempts - 1 ==> responses[k].Failed? && Retryable(responses[k].status))
      && (responses[run.attempts - 1].Ok? ==> run.result == Returned(DataOrEmpty(responses[run.attempts - 1].data)))
      && (responses[run.attempts - 1].Failed? ==>
            run.result == Raised(responses[run.attempts - 1].status)
            && (!Retryable(responses[run.attempts - 1].status) || run.attempts == retries))
  {
    RetryFromDecided(responses, retries, 0);
  }

  lemma {:induction false} RetryFromDecided<T>(responses: seq<Response<T>>, retries: int, i: nat)
    requires i < retries <= |responses|
    ensures var run := RetryFrom(responses, retries, i);
      && i < run.attempts <= retries
      && (forall k :: i <= k < run.attempts - 1 ==> responses[k].Failed? && Retryable(responses[k].status))
      && (responses[run.attempts - 1].Ok? ==> run.result == Returned(DataOrEmpty(responses[run.attempts - 1].data)))
      && (responses[run.attempts - 1].Failed? ==>
            run.result == Raised(responses[run.attempts - 1].status)
            && (!Retryable(responses[run.attempts - 1].status) || run.attempts == retries))
    decreases retries - i
  {
    if responses[i].Failed? && Retryable(responses[i].status) && i < retries - 1 {
      RetryFromDecided(responses, retries, i + 1);
    }
  }

  /** With the default bound of three, three transient failures in a row
      exhaust the retries and surface the last error. */
  lemma ThreeTransientFailuresRaise<T>(responses: seq<Response<T>>)
    requires |responses| >= 3
    requires forall k :: 0 <= k < 3 ==> responses[k].Failed? && Retryable(responses[k].status)
    ensures RetryRun(responses, 3) == Attempted(Raised(responses[2].status), 3)
  {
    assert RetryFrom(responses, 3, 2) == Attempted(Raised(responses[2].status), 3);
  }

  /** A single transient failure followed by a success returns the data of
      the second attempt. */
  lemma TransientThenSuccess<T>(responses: seq<Response<T>>, retries: int)
    requires 2 <= retries <= |responses|
    requires responses[0].Failed? && Retryable(responses[0].status) && responses[1].Ok?
    ensures RetryRun(responses, retries) == Attempted(Returned(DataOrEmpty(responses[1].data)), 2)
  {
    assert RetryFrom(responses, retries, 1) == Attempted(Returned(DataOrEmpty(responses[1].data)), 2);
  }
}
