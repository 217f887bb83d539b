/**
 * The retry policy of the updater (retry_manager.rs): which errors are
 * worth another attempt, how long to wait before it, and the two attempt
 * loops that apply the policy. All durations are whole milliseconds.
 */
module RetryManager {

  import opened Wrappers
  import opened Text
  import opened Errors

  /** The kinds of transient failure a policy may choose to retry. */
  datatype ErrorType = NetworkTimeout | ConnectionReset | ChunkReadFailed | TemporaryFailure

  /**
   * How the wait before retry number `attempt` grows. The source's multiplier
   * is a float; here it is a whole number, for which the source's
   * float product is exact while it stays below 2^53.
   */
  datatype BackoffStrategy =
    | Exponential(base: nat, multiplier: nat)
    | Linear(increment: nat)
    | Fixed(delay: nat)

  datatype RetryPolicy = RetryPolicy(retryOn: seq<ErrorType>, backoff: BackoffStrategy)

  /** `RetryManager`: attempt budget, delays in milliseconds, per-call timeout, policy. */
  datatype Manager = Manager(
    maxRetries: nat,
    baseDelay: nat,
    maxDelay: nat,
    timeout: nat,
    policy: RetryPolicy)

  function AllErrorTypes(): seq<ErrorType> {
    [NetworkTimeout, ConnectionReset, ChunkReadFailed, TemporaryFailure]
  }

  /** `BackoffStrategy::default()`: 1 s doubling. */
  function DefaultBackoff(): BackoffStrategy {
    Exponential(1000, 2)
  }

  /** `RetryPolicy::default()`: every kind, default backoff. */
  function DefaultPolicy(): RetryPolicy {
    RetryPolicy(AllErrorTypes(), DefaultBackoff())
  }

  /** `RetryManager::new()`: 3 retries, 1 s base, 60 s cap, 30 s timeout. */
  function New(): Manager {
    Manager(3, 1000, 60_000, 30_000, DefaultPolicy())
  }

  /** `RetryManager::with_config`: the given numbers and the default policy. */
  function WithConfig(maxRetries: nat, baseDelay: nat, maxDelay: nat, timeout: nat): Manager {
    Manager(maxRetries, baseDelay, maxDelay, timeout, DefaultPolicy())
  }

  /** `RetryManager::for_network_operations()`: 5 retries, 1 s doubling capped at 30 s. */
  function ForNetworkOperations(): Manager {
    Manager(5, 1000, 30_000, 30_000, RetryPolicy(AllErrorTypes(), Exponential(1000, 2)))
  }

  /** `with_policy`: the same manager with another policy. */
  function WithPolicy(m: Manager, policy: RetryPolicy): Manager {
    m.(policy := policy)
  }

  // ---------------------------------------------------------------------
  // Retry decision

  /** The lower-case keywords that mark an error message as being of kind `t`. */
  function Keywords(t: ErrorType): seq<string> {
    match t
    case NetworkTimeout => ["timeout", "timed out"]
    case ConnectionReset => ["connection reset", "connection refused", "broken pipe", "econnreset"]
    case ChunkReadFailed => ["chunk", "incomplete read", "unexpected eof", "failed to read download chunk"]
    case TemporaryFailure =>
      ["temporary", "service unavailable", "too many requests", "429", "502", "503", "504"]
  }

  predicate Matches(msg: string, t: ErrorType) {
    ContainsAny(msg, Keywords(t))
  }

  /** The inner loop of `should_retry`: does one message match an enabled kind? */
  function AnyKindMatches(msg: string, kinds: seq<ErrorType>): bool
    decreases |kinds|
  {
    |kinds| > 0 && (Matches(msg, kinds[0]) || AnyKindMatches(msg, kinds[1..]))
  }

  /** The outer loop of `should_retry`, over the messages of the chain, each lower-cased. */
  function AnyMessageMatches(msgs: seq<string>, kinds: seq<ErrorType>): bool
    decreases |msgs|
  {
    |msgs| > 0 && (AnyKindMatches(Lower(msgs[0]), kinds) || AnyMessageMatches(msgs[1..], kinds))
  }

  /** `should_retry`: scans the whole error chain against the enabled kinds. */
  function ShouldRetry(m: Manager, e: Error): bool {
    AnyMessageMatches(e.Chain(), m.policy.retryOn)
  }

  lemma {:induction false} AnyKindMatchesIff(msg: string, kinds: seq<ErrorType>)
    ensures AnyKindMatches(msg, kinds) <==> exists j :: 0 <= j < |kinds| && Matches(msg, kinds[j])
    decreases |kinds|
  {
    if |kinds| > 0 {
      AnyKindMatchesIff(msg, kinds[1..]);
      assert forall j :: 1 <= j < |kinds| ==> kinds[1..][j - 1] == kinds[j];
    }
  }

  lemma {:induction false} AnyMessageMatchesIff(msgs: seq<string>, kinds: seq<ErrorType>)
    ensures AnyMessageMatches(msgs, kinds) <==>
      exists i, j :: 0 <= i < |msgs| && 0 <= j < |kinds| && Matches(Lower(msgs[i]), kinds[j])
    decreases |msgs|
  {
    if |msgs| > 0 {
      AnyKindMatchesIff(Lower(msgs[0]), kinds);
      AnyMessageMatchesIff(msgs[1..], kinds);
      assert forall i :: 1 <= i < |msgs| ==> msgs[1..][i - 1] == msgs[i];
    }
  }

  /**
   * An error is retried exactly when some message of its chain, lower-cased,
   * contains a keyword of a kind the policy enables.
   */
  lemma ShouldRetryIff(m: Manager, e: Error)
    ensures ShouldRetry(m, e) <==>
      exists i, j :: 0 <= i < |e.Chain()| && 0 <= j < |m.policy.retryOn|
        && Matches(Lower(e.Chain()[i]), m.policy.retryOn[j])
  {
    AnyMessageMatchesIff(e.Chain(), m.policy.retryOn);
  }

  /** A policy that enables no kind never retries. */
  lemma EmptyPolicyNeverRetries(m: Manager, e: Error)
    requires m.policy.retryOn == []
    ensures !ShouldRetry(m, e)
  {
    ShouldRetryIff(m, e);
  }

  /** Matching ignores letter case: errors whose chains agree once lower-cased get the same answer. */
  lemma ShouldRetryIgnoresCase(m: Manager, e1: Error, e2: Error)
    requires LowerAll(e1.Chain()) == LowerAll(e2.Chain())
    ensures ShouldRetry(m, e1) == ShouldRetry(m, e2)
  {
    ShouldRetryIff(m, e1);
    ShouldRetryIff(m, e2);
    assert forall i :: 0 <= i < |e1.Chain()| ==> Lower(e1.Chain()[i]) == LowerAll(e2.Chain())[i];
  }

  /** Enabling more kinds never turns a retry into a give-up. */
  lemma ShouldRetryMonotone(m: Manager, kinds: seq<ErrorType>, e: Error)
    requires forall t :: t in m.policy.retryOn ==> t in kinds
    requires ShouldRetry(m, e)
    ensures ShouldRetry(WithPolicy(m, RetryPolicy(kinds, m.policy.backoff)), e)
  {
    ShouldRetryIff(m, e);
    ShouldRetryIff(WithPolicy(m, RetryPolicy(kinds, m.policy.backoff)), e);
    var i, j :| 0 <= i < |e.Chain()| && 0 <= j < |m.policy.retryOn|
                && Matches(Lower(e.Chain()[i]), m.policy.retryOn[j]);
    var t := m.policy.retryOn[j];
    assert t in kinds;
    var j' :| 0 <= j' < |kinds| && kinds[j'] == t;
    assert Matches(Lower(e.Chain()[i]), kinds[j']);
  }

  /** One keyword of one enabled kind, found in one lower-cased message, is enough for a retry. */
  lemma RetriedOnKeyword(m: Manager, e: Error, i: nat, j: nat, k: nat)
    requires i < |e.Chain()| && j < |m.policy.retryOn| && k < |Keywords(m.policy.retryOn[j])|
    requires Contains(Lower(e.Chain()[i]), Keywords(m.policy.retryOn[j])[k])
    ensures ShouldRetry(m, e)
  {
    ContainsAnyIff(Lower(e.Chain()[i]), Keywords(m.policy.retryOn[j]));
    ShouldRetryIff(m, e);
  }

  /**
   * Under the default policy an error is retried when any message of its
   * chain mentions a timeout, in any letter case.
   */
  lemma DefaultRetriesTimeouts(e: Error, i: nat)
    requires i < |e.Chain()| && Contains(Lower(e.Chain()[i]), "timeout")
    ensures ShouldRetry(New(), e)
  {
    RetriedOnKeyword(New(), e, i, 0, 0);
  }

  /**
   * The policy that enables timeouts only retries an error exactly when one
   * of its messages, lower-cased, contains "timeout" or "timed out".
   */
  lemma TimeoutOnlyPolicy(m: Manager, e: Error)
    requires m.policy.retryOn == [NetworkTimeout]
    ensures ShouldRetry(m, e) <==>
      exists i :: 0 <= i < |e.Chain()|
        && (Contains(Lower(e.Chain()[i]), "timeout") || Contains(Lower(e.Chain()[i]), "timed out"))
  {
    ShouldRetryIff(m, e);
    forall i | 0 <= i < |e.Chain()|
      ensures Matches(Lower(e.Chain()[i]), NetworkTimeout) <==>
        (Contains(Lower(e.Chain()[i]), "timeout") || Contains(Lower(e.Chain()[i]), "timed out"))
    {
      ContainsAnyIff(Lower(e.Chain()[i]), Keywords(NetworkTimeout));
    }
  }

  /**
   * A message that lacks a character of every keyword of `t` (`picks[j]`
   * for the `j`-th keyword) is not of kind `t`.
   */
  lemma UnmatchedWithout(msg: string, t: ErrorType, picks: string)
    requires |picks| == |Keywords(t)|
    requires forall j :: 0 <= j < |picks| ==> picks[j] in Keywords(t)[j] && picks[j] !in msg
    ensures !Matches(msg, t)
  {
    ContainsAnyIff(msg, Keywords(t));
    forall j | 0 <= j < |picks|
      ensures !Contains(msg, Keywords(t)[j])
    {
      AbsentChar(msg, Keywords(t)[j], picks[j]);
    }
  }

  /** The default policy gives up on a one-message error whose lower-cased text is of no kind. */
  lemma DefaultGivesUp(m: string)
    requires forall t :: !Matches(Lower(m), t)
    ensures !ShouldRetry(New(), Msg(m))
  {
    ShouldRetryIff(New(), Msg(m));
  }

  // "permission denied" lacks a character of every keyword of each kind; one lemma
  // per kind keeps each proof small.

  lemma PermissionDeniedNotTimeout(s: string)
    requires s == "permission denied"
    ensures !Matches(s, NetworkTimeout)
  {
    UnmatchedWithout(s, NetworkTimeout, "tt");
  }

  lemma PermissionDeniedNotReset(s: string)
    requires s == "permission denied"
    ensures !Matches(s, ConnectionReset)
  {
    UnmatchedWithout(s, ConnectionReset, "ccbc");
  }

  lemma PermissionDeniedNotChunk(s: string)
    requires s == "permission denied"
    ensures !Matches(s, ChunkReadFailed)
  {
    UnmatchedWithout(s, ChunkReadFailed, "ccuf");
  }

  lemma PermissionDeniedNotTemporary(s: string)
    requires s == "permission denied"
    ensures !Matches(s, TemporaryFailure)
  {
    UnmatchedWithout(s, TemporaryFailure, "tvt4555");
  }

  /** "Permission denied" is a permanent failure: the default policy does not retry it. */
  lemma PermissionDeniedNotRetried()
    ensures !ShouldRetry(New(), Msg("Permission denied"))
  {
    assert Lower("Permission denied") == "permission denied";
    forall t
      ensures !Matches(Lower("Permission denied"), t)
    {
      match t
      case NetworkTimeout => PermissionDeniedNotTimeout(Lower("Permission denied"));
      case ConnectionReset => PermissionDeniedNotReset(Lower("Permission denied"));
      case ChunkReadFailed => PermissionDeniedNotChunk(Lower("Permission denied"));
      case TemporaryFailure => PermissionDeniedNotTemporary(Lower("Permission denied"));
    }
    DefaultGivesUp("Permission denied");
  }

  // "http 404 not found" lacks a character of every keyword of each kind; one lemma
  // per kind keeps each proof small.

  lemma Http404NotTimeout(s: string)
    requires s == "http 404 not found"
    ensures !Matches(s, NetworkTimeout)
  {
    UnmatchedWithout(s, NetworkTimeout, "ii");
  }

  lemma Http404NotReset(s: string)
    requires s == "http 404 not found"
    ensures !Matches(s, ConnectionReset)
  {
    UnmatchedWithout(s, ConnectionReset, "ccbe");
  }

  lemma Http404NotChunk(s: string)
    requires s == "http 404 not found"
    ensures !Matches(s, ChunkReadFailed)
  {
    UnmatchedWithout(s, ChunkReadFailed, "ciea");
  }

  lemma Http404NotTemporary(s: string)
    requires s == "http 404 not found"
    ensures !Matches(s, TemporaryFailure)
  {
    UnmatchedWithout(s, TemporaryFailure, "esm2555");
  }

  /** "HTTP 404 Not Found" is a permanent failure: the default policy does not retry it. */
  lemma Http404NotRetried()
    ensures !ShouldRetry(New(), Msg("HTTP 404 Not Found"))
  {
    assert Lower("HTTP 404 Not Found") == "http 404 not found";
    forall t
      ensures !Matches(Lower("HTTP 404 Not Found"), t)
    {
      match t
      case NetworkTimeout => Http404NotTimeout(Lower("HTTP 404 Not Found"));
      case ConnectionReset => Http404NotReset(Lower("HTTP 404 Not Found"));
      case ChunkReadFailed => Http404NotChunk(Lower("HTTP 404 Not Found"));
      case TemporaryFailure => Http404NotTemporary(Lower("HTTP 404 Not Found"));
    }
    DefaultGivesUp("HTTP 404 Not Found");
  }

  // ---------------------------------------------------------------------
  // Backoff

  function Pow(b: nat, n: nat): nat {
    if n == 0 then 1 else b * Pow(b, n - 1)
  }

  function Min(a: nat, b: nat): nat {
    if a <= b then a else b
  }

  function Max(a: int, b: int): int {
    if a >= b then a else b
  }

  /** The uncapped delay of the configured strategy. */
  function RawDelay(m: Manager, attempt: nat): nat {
    match m.policy.backoff
    case Exponential(base, multiplier) => base * Pow(multiplier, attempt)
    case Linear(increment) => m.baseDelay + increment * attempt
    case Fixed(delay) => delay
  }

  /** `calculate_delay`: the strategy's delay, never more than `maxDelay`. */
  function CalculateDelay(m: Manager, attempt: nat): (d: nat)
    ensures d <= m.maxDelay
    ensures d == Min(m.maxDelay, RawDelay(m, attempt))
  {
    var raw := RawDelay(m, attempt);
    if raw > m.maxDelay then m.maxDelay else raw
  }

  lemma ExponentialDelay(m: Manager, base: nat, multiplier: nat, n: nat)
    requires m.policy.backoff == Exponential(base, multiplier)
    ensures CalculateDelay(m, n) == Min(m.maxDelay, base * Pow(multiplier, n))
  {
  }

  lemma LinearDelay(m: Manager, increment: nat, n: nat)
    requires m.policy.backoff == Linear(increment)
    ensures CalculateDelay(m, n) == Min(m.maxDelay, m.baseDelay + increment * n)
  {
  }

  lemma FixedDelay(m: Manager, delay: nat, n: nat, k: nat)
    requires m.policy.backoff == Fixed(delay)
    ensures CalculateDelay(m, n) == CalculateDelay(m, k) == Min(m.maxDelay, delay)
  {
  }

  lemma {:induction false} PowMonotone(b: nat, n: nat, k: nat)
    requires 1 <= b && n <= k
    ensures Pow(b, n) <= Pow(b, k)
  {
    if n < k {
      PowMonotone(b, n, k - 1);
      assert Pow(b, k) == b * Pow(b, k - 1);
      assert b * Pow(b, k - 1) >= 1 * Pow(b, k - 1);
    }
  }

  /** With a multiplier of at least 1 the exponential delay never shrinks as attempts grow. */
  lemma ExponentialNonDecreasing(m: Manager, n: nat, k: nat)
    requires m.policy.backoff.Exponential? && m.policy.backoff.multiplier >= 1
    requires n <= k
    ensures CalculateDelay(m, n) <= CalculateDelay(m, k)
  {
    var b, mult := m.policy.backoff.base, m.policy.backoff.multiplier;
    PowMonotone(mult, n, k);
    assert b * Pow(mult, n) <= b * Pow(mult, k);
  }

  /** The download schedule: 1 s, 2 s, 4 s, 8 s, 16 s, then the 30 s cap. */
  lemma NetworkSchedule(n: nat)
    ensures n < 5 ==> CalculateDelay(ForNetworkOperations(), n) == 1000 * Pow(2, n)
    ensures n >= 5 ==> CalculateDelay(ForNetworkOperations(), n) == 30_000
  {
    var m := ForNetworkOperations();
    if n < 5 {
      assert Pow(2, n) <= 16 by {
        PowMonotone(2, n, 4);
      }
    } else {
      PowMonotone(2, 5, n);
      assert Pow(2, 5) == 32;
    }
  }

  // ---------------------------------------------------------------------
  // Jitter

  /** Half-width of the jitter window: a quarter of the delay, at least 1 ms. */
  function JitterRange(delay: nat): nat {
    Max(delay / 4, 1)
  }

  /**
   * `calculate_delay_with_jitter`, with the random draw given as `offset`.
   * A zero delay is returned as is; otherwise the offset is added with
   * saturation at zero and the result is capped at `maxDelay`.
   */
  function JitteredDelay(m: Manager, attempt: nat, offset: int): (r: nat)
    requires CalculateDelay(m, attempt) > 0 ==>
      -(JitterRange(CalculateDelay(m, attempt)) as int) <= offset <= JitterRange(CalculateDelay(m, attempt))
    ensures r <= m.maxDelay
    ensures CalculateDelay(m, attempt) == 0 ==> r == 0
    ensures var d := CalculateDelay(m, attempt); var w := JitterRange(d);
      d > 0 ==> Max(0, d - w) <= r <= Min(m.maxDelay, d + w)
  {
    var d := CalculateDelay(m, attempt);
    if d == 0 then d
    else
      var adjusted: nat := if offset < 0 then (if d >= -offset then d + offset else 0) else d + offset;
      if adjusted > m.maxDelay then m.maxDelay else adjusted
  }

  /** The jitter never moves a delay by more than a quarter of it (or 1 ms) and never goes below zero. */
  lemma JitterWithinQuarter(m: Manager, attempt: nat, offset: int)
    requires var d := CalculateDelay(m, attempt);
      d > 0 ==> -(JitterRange(d) as int) <= offset <= JitterRange(d)
    ensures var d := CalculateDelay(m, attempt);
      d - JitterRange(d) <= JitteredDelay(m, attempt, offset) <= d + JitterRange(d)
    ensures var d := CalculateDelay(m, attempt);
      d >= 4 ==> 3 * d <= 4 * JitteredDelay(m, attempt, offset) <= 5 * d
  {
  }

  // ---------------------------------------------------------------------
  // Attempt loops

  /** `Duration`'s `Debug` text for a whole number of milliseconds ("30s", "1.5s", "500ms"). */
  function DurationText(ms: nat): string {
    if ms == 0 then "0ns"
    else if ms < 1000 then Decimal(ms) + "ms"
    else Decimal(ms / 1000) + Fraction(ms % 1000) + "s"
  }

  /** ".ddd" without trailing zeros, or nothing for a whole second. */
  function Fraction(r: nat): string
    requires r < 1000
  {
    if r == 0 then ""
    else if r % 100 == 0 then [ '.', DigitChar(r / 100) ]
    else if r % 10 == 0 then [ '.', DigitChar(r / 100), DigitChar(r / 10 % 10) ]
    else [ '.', DigitChar(r / 100), DigitChar(r / 10 % 10), DigitChar(r % 10) ]
  }

  /** The error that replaces a call that ran past `timeout`. */
  function TimeoutError(m: Manager): Error {
    Msg("Operation timed out after " + DurationText(m.timeout))
  }

  /** A failure after which the synchronous loop tries again, attempts permitting. */
  predicate FailedRetryably<T>(m: Manager, r: Result<T, Error>) {
    r.Failure? && ShouldRetry(m, r.error)
  }

  /**
   * The synchronous loop from call number `attempt` on: the outcome it
   * returns and how many calls it makes in all.
   */
  function SyncRun<T>(m: Manager, op: nat -> Result<T, Error>, attempt: nat): (Result<T, Error>, nat)
    requires attempt <= m.maxRetries
    decreases m.maxRetries - attempt
  {
    if attempt == m.maxRetries || !FailedRetryably(m, op(attempt)) then (op(attempt), attempt + 1)
    else SyncRun(m, op, attempt + 1)
  }

  /**
   * What the synchronous loop promises: it stops at the first success or
   * non-retryable failure, or after `maxRetries` retries, returning the
   * last call's outcome; every earlier call failed with a retryable error.
   */
  lemma {:induction false} SyncRunStops<T>(m: Manager, op: nat -> Result<T, Error>, attempt: nat)
    requires attempt <= m.maxRetries
    ensures var (r, calls) := SyncRun(m, op, attempt);
      && attempt < calls <= m.maxRetries + 1
      && r == op(calls - 1)
      && (forall k :: attempt <= k < calls - 1 ==> FailedRetryably(m, op(k)))
      && (calls - 1 < m.maxRetries ==> r.Success? || !ShouldRetry(m, r.error))
    decreases m.maxRetries - attempt
  {
    if attempt < m.maxRetries && FailedRetryably(m, op(attempt)) {
      SyncRunStops(m, op, attempt + 1);
    }
  }

  /**
   * `execute_sync_with_retry`, with call number `k` of the operation
   * answering `op(k)`: returns the outcome, how many calls were made and
   * the delays slept between them.
   */
  method ExecuteSyncWithRetry<T>(m: Manager, op: nat -> Result<T, Error>)
    returns (r: Result<T, Error>, calls: nat, delays: seq<nat>)
    ensures (r, calls) == SyncRun(m, op, 0)
    ensures |delays| == calls - 1
    ensures forall k :: 0 <= k < |delays| ==> delays[k] == CalculateDelay(m, k)
  {
    var attempt := 0;
    delays := [];
    while true
      invariant attempt <= m.maxRetries
      invariant SyncRun(m, op, attempt) == SyncRun(m, op, 0)
      invariant |delays| == attempt
      invariant forall k :: 0 <= k < attempt ==> delays[k] == CalculateDelay(m, k)
      decreases m.maxRetries - attempt
    {
      r := op(attempt);
      if attempt == m.maxRetries || !FailedRetryably(m, r) {
        calls := attempt + 1;
        return;
      }
      delays := delays + [CalculateDelay(m, attempt)];
      attempt := attempt + 1;
    }
  }

  /** What one call of the async operation did: finished in time, or timed out. */
  datatype Timed<T> = Completed(result: Result<T, Error>) | TimedOut

  /** The outcome a call contributes: its own, or the timeout error. */
  function Settle<T>(m: Manager, t: Timed<T>): Result<T, Error> {
    match t
    case Completed(x) => x
    case TimedOut => Failure(TimeoutError(m))
  }

  /**
   * A call after which the asynchronous loop tries again, attempts
   * permitting: a timeout, whatever `should_retry` would say of it, or a
   * retryable failure.
   */
  predicate Retried<T>(m: Manager, t: Timed<T>) {
    t.TimedOut? || FailedRetryably(m, t.result)
  }

  /** The asynchronous loop from call number `attempt` on. */
  function AsyncRun<T>(m: Manager, op: nat -> Timed<T>, attempt: nat): (Result<T, Error>, nat)
    requires attempt <= m.maxRetries
    decreases m.maxRetries - attempt
  {
    if attempt == m.maxRetries || !Retried(m, op(attempt)) then (Settle(m, op(attempt)), attempt + 1)
    else AsyncRun(m, op, attempt + 1)
  }

  /**
   * What the asynchronous loop promises: a timeout ends the loop only when
   * no retries are left; otherwise as for the synchronous loop.
   */
  lemma {:induction false} AsyncRunStops<T>(m: Manager, op: nat -> Timed<T>, attempt: nat)
    requires attempt <= m.maxRetries
    ensures var (r, calls) := AsyncRun(m, op, attempt);
      && attempt < calls <= m.maxRetries + 1
      && r == Settle(m, op(calls - 1))
      && (forall k :: attempt <= k < calls - 1 ==> Retried(m, op(k)))
      && (op(calls - 1).TimedOut? ==> calls - 1 == m.maxRetries)
      && (r.Failure? ==> r.error == TimeoutError(m) || op(calls - 1).result == r)
    decreases m.maxRetries - attempt
  {
    if attempt < m.maxRetries && Retried(m, op(attempt)) {
      AsyncRunStops(m, op, attempt + 1);
    }
  }

  /**
   * `execute_with_retry`, with call number `k` answering `op(k)`: returns
   * the outcome, how many calls were made and the delays slept between them.
   */
  method ExecuteWithRetry<T>(m: Manager, op: nat -> Timed<T>)
    returns (r: Result<T, Error>, calls: nat, delays: seq<nat>)
    ensures (r, calls) == AsyncRun(m, op, 0)
    ensures |delays| == calls - 1
    ensures forall k :: 0 <= k < |delays| ==> delays[k] == CalculateDelay(m, k)
  {
    var attempt := 0;
    delays := [];
    while true
      invariant attempt <= m.maxRetries
      invariant AsyncRun(m, op, attempt) == AsyncRun(m, op, 0)
      invariant |delays| == attempt
      invariant forall k :: 0 <= k < attempt ==> delays[k] == CalculateDelay(m, k)
      decreases m.maxRetries - attempt
    {
      var outcome := op(attempt);
      r := Settle(m, outcome);
      if attempt == m.maxRetries || !Retried(m, outcome) {
        calls := attempt + 1;
        return;
      }
      delays := delays + [CalculateDelay(m, attempt)];
      attempt := attempt + 1;
    }
  }
}
