/**
 * The two closures `RetryMiddlewareFactory::create` hands to Guzzle's retry
 * middleware: the decider, which says whether to try a request again, and
 * the delay, which says how long to wait first.
 */
module Retry {
  import opened Wrappers

  /** The default of `create`'s `$maxRetries`. */
  const DefaultMaxRetries: int := 3
  /** The base delay in milliseconds. */
  const BaseDelayMs: nat := 100
  /** The upper bound of `random_int(0, 100)`. */
  const MaxJitterMs: nat := 100

  /** The statuses worth another attempt: 429 Too Many Requests and every 5xx. */
  predicate IsRetryableStatus(status: int) {
    status == 429 || (500 <= status && status < 600)
  }

  /**
   * The decider.  `retries` is the number of retries already made, `status`
   * the status of the response if there is one, `exception` the message of
   * the transport exception if there is one.  The logger calls are left out.
   */
  function ShouldRetry(retries: int, status: Option<int>, exception: Option<string>, maxRetries: int): (retry: bool)
    ensures retry <==> retries < maxRetries && (exception.Some? || (status.Some? && IsRetryableStatus(status.value)))
  {
    if retries >= maxRetries then false
    else if exception.Some? then true
    else if status.Some? && (status.value == 429 || (status.value >= 500 && status.value < 600)) then true
    else false
  }

  /** The cap: once `maxRetries` retries have been made, nothing is retried. */
  lemma CapStopsRetrying(retries: int, status: Option<int>, exception: Option<string>, maxRetries: int)
    requires retries >= maxRetries
    ensures !ShouldRetry(retries, status, exception, maxRetries)
  {
  }

  /** Under the cap, a transport exception is always retried. */
  lemma ExceptionRetried(retries: int, status: Option<int>, message: string, maxRetries: int)
    requires retries < maxRetries
    ensures ShouldRetry(retries, status, Some(message), maxRetries)
  {
  }

  /** Under the cap and without an exception, a response is retried exactly when its status is 429 or 5xx. */
  lemma StatusRetriedIffRetryable(retries: int, status: int, maxRetries: int)
    requires retries < maxRetries
    ensures ShouldRetry(retries, Some(status), None, maxRetries) <==> IsRetryableStatus(status)
  {
  }

  /** Neither a response nor an exception: no retry. */
  lemma NothingToRetry(retries: int, maxRetries: int)
    ensures !ShouldRetry(retries, None, None, maxRetries)
  {
  }

  /** `2 ** n` for the natural numbers Guzzle passes. */
  function Pow2(n: nat): (p: nat)
    ensures p >= 1
  {
    if n == 0 then 1 else 2 * Pow2(n - 1)
  }

  /**
   * The delay closure: `100 * 2 ** retries + random_int(0, 100)` milliseconds,
   * with the random number passed in.
   */
  function Delay(retries: nat, jitter: int): (ms: int)
    requires 0 <= jitter <= MaxJitterMs
    ensures BaseDelayMs * Pow2(retries) <= ms <= BaseDelayMs * Pow2(retries) + MaxJitterMs
  {
    BaseDelayMs * Pow2(retries) + jitter
  }

  /** Backoff never shrinks: the shortest wait before attempt n + 1 is at least the longest before attempt n. */
  lemma BackoffNeverShrinks(n: nat, shorter: int, longer: int)
    requires 0 <= shorter <= MaxJitterMs && 0 <= longer <= MaxJitterMs
    ensures Delay(n + 1, shorter) >= Delay(n, longer)
  {
    assert Pow2(n + 1) == 2 * Pow2(n);
  }

  /**
   * The number of attempts the decider allows when attempt k (counting
   * from 0) ends with `results(k)`: Guzzle asks the decider after each
   * attempt with the number of retries made so far, and stops at the first
   * "no".
   */
  datatype AttemptResult = Answered(status: int) | Raised(message: string)

  function Decide(k: nat, r: AttemptResult, maxRetries: int): bool {
    match r
    case Answered(status) => ShouldRetry(k, Some(status), None, maxRetries)
    case Raised(message) => ShouldRetry(k, None, Some(message), maxRetries)
  }

  function AttemptsFrom(k: nat, results: nat -> AttemptResult, maxRetries: int): (n: nat)
    ensures n >= 1
    ensures k < maxRetries ==> n <= maxRetries - k + 1
    ensures k >= maxRetries ==> n == 1
    decreases if k < maxRetries then maxRetries - k else 0
  {
    if Decide(k, results(k), maxRetries) then 1 + AttemptsFrom(k + 1, results, maxRetries) else 1
  }

  /** At most `maxRetries` retries follow the first attempt (three, by default). */
  lemma {:induction false} AttemptsBounded(results: nat -> AttemptResult, maxRetries: int)
    ensures 1 <= AttemptsFrom(0, results, maxRetries)
    ensures AttemptsFrom(0, results, maxRetries) <= (if maxRetries > 0 then maxRetries else 0) + 1
  {
  }

  /** A backend that fails every attempt with a transport exception or a 429/5xx gets exactly `maxRetries` retries. */
  lemma {:induction false} PersistentFailureUsesEveryRetry(k: nat, results: nat -> AttemptResult, maxRetries: int)
    requires k <= maxRetries
    requires forall j :: results(j).Raised? || IsRetryableStatus(results(j).status)
    ensures AttemptsFrom(k, results, maxRetries) == maxRetries - k + 1
    decreases maxRetries - k
  {
    if k < maxRetries {
      PersistentFailureUsesEveryRetry(k + 1, results, maxRetries);
    }
  }

  /**
   * The client builds its middleware with `create($logger)`, so with the
   * default cap: at most four attempts in all, and exactly four against a
   * backend that fails every time.
   */
  lemma DefaultCapAllowsFourAttempts(results: nat -> AttemptResult)
    ensures AttemptsFrom(0, results, DefaultMaxRetries) <= 4
    ensures (forall j :: results(j).Raised? || IsRetryableStatus(results(j).status)) ==>
              AttemptsFrom(0, results, DefaultMaxRetries) == 4
  {
    AttemptsBounded(results, DefaultMaxRetries);
    if forall j :: results(j).Raised? || IsRetryableStatus(results(j).status) {
      PersistentFailureUsesEveryRetry(0, results, DefaultMaxRetries);
    }
  }
}
