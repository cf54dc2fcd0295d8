/** The retry policy `retryWithBackoff` and the account-name generator
    `generateRandomString` (both defined twice, identically, in cmd/commands.go
    and cmd/helpers.go; one model covers both copies).

    The retried call `fn`, the context and the timers are not run: the model
    takes an oracle `fn` giving the outcome of the k-th call, an oracle `done`
    saying whether cancellation is observed at each point where the loop looks
    at the context, and it records the delays it would sleep. */
module Retry {
  import opened Bytes

  // Durations are integers of nanoseconds, as Go's time.Duration.
  const Second: int := 1_000_000_000
  const MaxAttempts: nat := 3
  const BaseDelay: int := 1 * Second
  const MaxDelay: int := 10 * Second

  /** What one call of `fn` returns: a result, or an error with its text. */
  datatype Outcome<T> = Success(value: T) | Failure(msg: bytes)

  /** The error `retryWithBackoff` hands back. */
  datatype Error =
    | Cancelled            // ctx.Err()
    | Failed(msg: bytes)   // the error of the last call, unchanged
    | MaxRetriesExceeded   // the return after the loop

  datatype Result<T> = Ok(value: T) | Err(error: Error)

  /** The two places where the loop checks `ctx.Done()`. */
  datatype Checkpoint = BeforeCall(attempt: nat) | DuringWait(attempt: nat)

  /** One run of the policy: what it returns, how many times it called `fn`
      and the delays it waited for, in order. */
  datatype Run<T> = Run(result: Result<T>, calls: nat, delays: seq<int>)

  // "429" and "rate limit"
  const Text429: bytes := [52, 50, 57]
  const TextRateLimit: bytes := [114, 97, 116, 101, 32, 108, 105, 109, 105, 116]

  /** The errors worth waiting for: their text mentions "429" or "rate limit". */
  predicate RateLimited(msg: bytes) {
    Contains(msg, Text429) || Contains(msg, TextRateLimit)
  }

  function Pow2(k: nat): (p: nat)
    ensures p >= 1
  {
    if k == 0 then 1 else 2 * Pow2(k - 1)
  }

  function Min(a: int, b: int): int {
    if a <= b then a else b
  }

  /** The wait after failed attempt `k`: min(2^k * 1s, 10s). */
  function Delay(k: nat): (d: int)
    ensures BaseDelay <= d <= MaxDelay
  {
    Min(Pow2(k) * BaseDelay, MaxDelay)
  }

  /** The policy from attempt `attempt` on, having already waited `delays`. */
  function RetryFrom<T>(fn: nat -> Outcome<T>, done: Checkpoint -> bool, attempt: nat, delays: seq<int>): Run<T>
    decreases MaxAttempts - attempt
  {
    if attempt >= MaxAttempts then Run(Err(MaxRetriesExceeded), attempt, delays)
    else if done(BeforeCall(attempt)) then Run(Err(Cancelled), attempt, delays)
    else match fn(attempt)
      case Success(v) => Run(Ok(v), attempt + 1, delays)
      case Failure(msg) =>
        if attempt == MaxAttempts - 1 || !RateLimited(msg) then Run(Err(Failed(msg)), attempt + 1, delays)
        else if done(DuringWait(attempt)) then Run(Err(Cancelled), attempt + 1, delays + [Delay(attempt)])
        else RetryFrom(fn, done, attempt + 1, delays + [Delay(attempt)])
  }

  /** `retryWithBackoff(ctx, fn)`. */
  function Retry<T>(fn: nat -> Outcome<T>, done: Checkpoint -> bool): Run<T> {
    RetryFrom(fn, done, 0, [])
  }

  /** The loop of `retryWithBackoff`, with its early returns. */
  method RetryWithBackoff<T>(fn: nat -> Outcome<T>, done: Checkpoint -> bool)
      returns (r: Result<T>, calls: nat, delays: seq<int>)
    ensures Run(r, calls, delays) == Retry(fn, done)
  {
    calls, delays := 0, [];
    var attempt: nat := 0;
    while attempt < MaxAttempts
      invariant calls == attempt <= MaxAttempts
      invariant RetryFrom(fn, done, attempt, delays) == Retry(fn, done)
    {
      if done(BeforeCall(attempt)) {
        return Err(Cancelled), calls, delays;
      }
      var outcome := fn(attempt);
      calls := calls + 1;
      if outcome.Success? {
        return Ok(outcome.value), calls, delays;
      }
      if attempt == MaxAttempts - 1 {
        return Err(Failed(outcome.msg)), calls, delays;
      }
      if RateLimited(outcome.msg) {
        var delay := Min(Pow2(attempt) * BaseDelay, MaxDelay);
        delays := delays + [delay];
        if done(DuringWait(attempt)) {
          return Err(Cancelled), calls, delays;
        }
      } else {
        return Err(Failed(outcome.msg)), calls, delays;
      }
      attempt := attempt + 1;
    }
    r := Err(MaxRetriesExceeded);
  }

  // ---------------------------------------------------------------------------
  // What a run promises

  /** Every call happens at an attempt that did not see cancellation, at most
      `MaxAttempts` calls are made, and the k-th recorded delay is Delay(k). */
  lemma {:induction false} RetryFromBounds<T>(fn: nat -> Outcome<T>, done: Checkpoint -> bool, attempt: nat, delays: seq<int>)
    requires attempt <= MaxAttempts
    ensures attempt <= RetryFrom(fn, done, attempt, delays).calls <= MaxAttempts
    ensures forall k | attempt <= k < RetryFrom(fn, done, attempt, delays).calls :: !done(BeforeCall(k))
    ensures RetryFrom(fn, done, attempt, delays).delays[..|delays|] == delays
    ensures |RetryFrom(fn, done, attempt, delays).delays| - |delays| <= RetryFrom(fn, done, attempt, delays).calls - attempt
    ensures forall k | |delays| <= k < |RetryFrom(fn, done, attempt, delays).delays| ::
      RetryFrom(fn, done, attempt, delays).delays[k] == Delay(k - |delays| + attempt)
    decreases MaxAttempts - attempt
  {
    if attempt < MaxAttempts && !done(BeforeCall(attempt)) && fn(attempt).Failure? {
      var msg := fn(attempt).msg;
      if attempt < MaxAttempts - 1 && RateLimited(msg) && !done(DuringWait(attempt)) {
        var d := delays + [Delay(attempt)];
        RetryFromBounds(fn, done, attempt + 1, d);
        var r := RetryFrom(fn, done, attempt + 1, d);
        assert r.delays[..|delays|] == r.delays[..|d|][..|delays|];
      }
    }
  }

  /** The attempt bound: `fn` is called at most three times, and only at
      attempts where no cancellation was seen before the call. */
  lemma AttemptBound<T>(fn: nat -> Outcome<T>, done: Checkpoint -> bool)
    ensures Retry(fn, done).calls <= MaxAttempts
    ensures forall k | 0 <= k < Retry(fn, done).calls :: !done(BeforeCall(k))
  {
    RetryFromBounds(fn, done, 0, []);
  }

  /** The recorded waits are Delay(0), Delay(1), ... : 1s then 2s, at most one
      fewer than the calls made. */
  lemma DelaySchedule<T>(fn: nat -> Outcome<T>, done: Checkpoint -> bool)
    ensures |Retry(fn, done).delays| <= Retry(fn, done).calls
    ensures |Retry(fn, done).delays| < MaxAttempts
    ensures forall k | 0 <= k < |Retry(fn, done).delays| :: Retry(fn, done).delays[k] == Delay(k)
  {
    RetryFromBounds(fn, done, 0, []);
  }

  /** Delays: 1s and then 2s, never decreasing and never above 10s. */
  lemma DelayValues(j: nat, k: nat)
    requires j <= k
    ensures Delay(0) == Second && Delay(1) == 2 * Second
    ensures Delay(j) <= Delay(k) <= MaxDelay
  {
    Pow2Monotone(j, k);
  }

  lemma {:induction false} Pow2Monotone(j: nat, k: nat)
    requires j <= k
    ensures Pow2(j) <= Pow2(k)
    decreases k
  {
    if j < k {
      Pow2Monotone(j, k - 1);
    }
  }

  /** The "max retries exceeded" return is never reached from a first attempt. */
  lemma {:induction false} MaxRetriesUnreachable<T>(fn: nat -> Outcome<T>, done: Checkpoint -> bool, attempt: nat, delays: seq<int>)
    requires attempt < MaxAttempts
    ensures RetryFrom(fn, done, attempt, delays).result != Err(MaxRetriesExceeded)
    decreases MaxAttempts - attempt
  {
    if !done(BeforeCall(attempt)) && fn(attempt).Failure? {
      if attempt < MaxAttempts - 1 && RateLimited(fn(attempt).msg) && !done(DuringWait(attempt)) {
        MaxRetriesUnreachable(fn, done, attempt + 1, delays + [Delay(attempt)]);
      }
    }
  }

  /** What each kind of result means: a success is the value of the last call,
      all earlier calls having failed with rate-limit errors; an error passed
      through is the last call's error, which was either on the final attempt
      or not a rate-limit error; a cancellation was observed before the next
      call or during the last wait. */
  lemma {:induction false} RetryFromOutcome<T>(fn: nat -> Outcome<T>, done: Checkpoint -> bool, attempt: nat, delays: seq<int>)
    requires attempt < MaxAttempts
    ensures var r := RetryFrom(fn, done, attempt, delays);
      (r.result.Ok? ==> attempt < r.calls && fn(r.calls - 1) == Success(r.result.value))
      && (r.result.Err? && r.result.error.Failed? ==>
            attempt < r.calls && fn(r.calls - 1) == Failure(r.result.error.msg)
            && (r.calls == MaxAttempts || !RateLimited(r.result.error.msg)))
      && (r.result == Err(Cancelled) ==>
            (r.calls < MaxAttempts && done(BeforeCall(r.calls))) || (attempt < r.calls && done(DuringWait(r.calls - 1))))
      && (forall k | attempt <= k < r.calls - 1 :: fn(k).Failure? && RateLimited(fn(k).msg) && !done(DuringWait(k)))
    decreases MaxAttempts - attempt
  {
    if !done(BeforeCall(attempt)) && fn(attempt).Failure? {
      var msg := fn(attempt).msg;
      if attempt < MaxAttempts - 1 && RateLimited(msg) && !done(DuringWait(attempt)) {
        var d := delays + [Delay(attempt)];
        if attempt + 1 < MaxAttempts {
          RetryFromOutcome(fn, done, attempt + 1, d);
        }
      }
    }
  }

  /** Early success: the first successful call returns its value at once. */
  lemma EarlySuccess<T>(fn: nat -> Outcome<T>, done: Checkpoint -> bool, n: nat)
    requires n < MaxAttempts
    requires forall k | 0 <= k <= n :: !done(BeforeCall(k))
    requires forall k | 0 <= k < n :: fn(k).Failure? && RateLimited(fn(k).msg) && !done(DuringWait(k))
    requires fn(n).Success?
    ensures Retry(fn, done).result == Ok(fn(n).value)
    ensures Retry(fn, done).calls == n + 1
  {
    var r := Retry(fn, done);
    RetryFromBounds(fn, done, 0, []);
    RetryFromOutcome(fn, done, 0, []);
    if n == 0 {
    } else if n == 1 {
      assert r == RetryFrom(fn, done, 1, [Delay(0)]);
    } else {
      assert r == RetryFrom(fn, done, 1, [Delay(0)]);
      assert r == RetryFrom(fn, done, 2, [Delay(0), Delay(1)]);
    }
  }

  /** A call failing with an error that is not about rate limits ends the run
      with that error, right after that call. */
  lemma NonRetryable<T>(fn: nat -> Outcome<T>, done: Checkpoint -> bool, n: nat)
    requires n < MaxAttempts
    requires forall k | 0 <= k <= n :: !done(BeforeCall(k))
    requires forall k | 0 <= k < n :: fn(k).Failure? && RateLimited(fn(k).msg) && !done(DuringWait(k))
    requires fn(n).Failure? && !RateLimited(fn(n).msg)
    ensures Retry(fn, done) == Run(Err(Failed(fn(n).msg)), n + 1, Retry(fn, done).delays)
  {
    var r := Retry(fn, done);
    if n == 1 {
      assert r == RetryFrom(fn, done, 1, [Delay(0)]);
    } else if n == 2 {
      assert r == RetryFrom(fn, done, 1, [Delay(0)]);
      assert r == RetryFrom(fn, done, 2, [Delay(0), Delay(1)]);
    }
  }

  /** Final failure: whatever the error on the third call, it is returned. */
  lemma FinalFailure<T>(fn: nat -> Outcome<T>, done: Checkpoint -> bool)
    requires Retry(fn, done).calls == MaxAttempts
    requires fn(MaxAttempts - 1).Failure?
    ensures Retry(fn, done).result == Err(Failed(fn(MaxAttempts - 1).msg))
  {
    RetryFromBounds(fn, done, 0, []);
    RetryFromOutcome(fn, done, 0, []);
    var r := Retry(fn, done);
    assert fn(0).Failure? && RateLimited(fn(0).msg) && !done(DuringWait(0));
    assert fn(1).Failure? && RateLimited(fn(1).msg) && !done(DuringWait(1));
    assert r == RetryFrom(fn, done, 1, [Delay(0)]);
    assert r == RetryFrom(fn, done, 2, [Delay(0), Delay(1)]);
  }

  /** Cancellation seen before the first call returns the context error
      with no call of `fn`. */
  lemma CancelledFirst<T>(fn: nat -> Outcome<T>, done: Checkpoint -> bool)
    requires done(BeforeCall(0))
    ensures Retry(fn, done) == Run(Err(Cancelled), 0, [])
  {
  }

  /** A cancellation during a wait stops the run: no further call is made. */
  lemma CancelledWhileWaiting<T>(fn: nat -> Outcome<T>, done: Checkpoint -> bool)
    requires !done(BeforeCall(0)) && fn(0).Failure? && RateLimited(fn(0).msg)
    requires done(DuringWait(0))
    ensures Retry(fn, done) == Run(Err(Cancelled), 1, [Second])
  {
    DelayValues(0, 0);
  }

  /** The scenario: two "429" failures and then a success take exactly three
      calls, with waits of 1s and 2s. */
  lemma RateLimitedTwiceThenSuccess(msg: bytes, v: int)
    requires msg == Text429 + [32, 84, 111, 111, 32, 77, 97, 110, 121, 32, 82, 101, 113, 117, 101, 115, 116, 115] // "429 Too Many Requests"
    ensures Retry((k: nat) => if k < 2 then Failure(msg) else Success(v), (c: Checkpoint) => false)
      == Run(Ok(v), 3, [Second, 2 * Second])
  {
    assert OccursAt(msg, Text429, 0);
    DelayValues(0, 1);
  }

  /** The scenario: an error that is not about rate limits stops at once. */
  lemma OtherErrorOnce(v: int)
    ensures Retry((k: nat) => if k == 0 then Failure([98, 111, 111, 109]) else Success(v), (c: Checkpoint) => false) // "boom"
      == Run(Err(Failed([98, 111, 111, 109])), 1, [])
  {
    var msg: bytes := [98, 111, 111, 109];
    forall i | 0 <= i <= |msg| - |Text429|
      ensures !OccursAt(msg, Text429, i) { assert msg[i] != Text429[0]; }
    assert !Contains(msg, TextRateLimit);
  }

  // ---------------------------------------------------------------------------
  // generateRandomString

  /** "abcdefghijklmnopqrstuvwxyz0123456789" */
  const Charset: bytes := [97, 98, 99, 100, 101, 102, 103, 104, 105, 106, 107, 108, 109,
                           110, 111, 112, 113, 114, 115, 116, 117, 118, 119, 120, 121, 122,
                           48, 49, 50, 51, 52, 53, 54, 55, 56, 57]

  predicate LowerAlnum(b: byte) {
    (97 <= b <= 122) || (48 <= b <= 57)
  }

  lemma CharsetSpec()
    ensures |Charset| == 36
    ensures forall i | 0 <= i < |Charset| :: LowerAlnum(Charset[i])
  {
  }

  /** `generateRandomString(length)`: `rand.Read` is the oracle `random`
      (the byte it puts at each index) and `readOk` (whether it succeeded).
      The buffer is overwritten in place with the charset character chosen by
      each byte modulo 36. */
  method GenerateRandomString(length: nat, readOk: bool, random: nat -> byte) returns (s: bytes)
    ensures !readOk ==> s == []
    ensures readOk ==> |s| == length
    ensures readOk ==> forall i | 0 <= i < length :: s[i] == Charset[random(i) % |Charset|]
    ensures forall i | 0 <= i < |s| :: LowerAlnum(s[i])
  {
    var buf := new byte[length](i requires 0 <= i => random(i));
    if !readOk {
      return [];
    }
    for i := 0 to length
      invariant forall j | 0 <= j < i :: buf[j] == Charset[random(j) % |Charset|]
      invariant forall j | i <= j < length :: buf[j] == random(j)
    {
      buf[i] := Charset[buf[i] % |Charset|];
    }
    s := buf[..];
    CharsetSpec();
  }
}
