/**
 * The language-model gateway: which failures count as transient, and the
 * retry loop with capped exponential back-off that wraps every call.
 *
 * A call `fn()` is modelled by `fn: nat -> Outcome<T>`, the outcome of the
 * call made on attempt `k`; the random jitter added to each pause is modelled
 * by `draws: nat -> real`, the amount drawn before the retry after attempt `k`.
 */
module GeminiClient {
  import opened Wrappers
  import opened Text

  /** Lower-case fragments whose presence marks a failure as worth retrying. */
  const TransientMarkers: seq<string> := [
    "503", "overloaded", "unavailable", "resource exhausted", "rate limit",
    "quota", "429", "timeout", "timed out", "deadline exceeded",
    "connection reset", "connection aborted", "bad gateway", "502",
    "gateway timeout", "504", "internal error", "500", "temporarily", "try again"
  ]

  /** Whether some marker of `ms` occurs in `msg`. */
  function AnyMarkerIn(msg: string, ms: seq<string>): (r: bool)
    ensures r <==> exists i | 0 <= i < |ms| :: Contains(msg, ms[i])
  {
    if ms == [] then false
    else Contains(msg, ms[0]) || AnyMarkerIn(msg, ms[1..])
  }

  /** `_is_transient_gemini_error(exc)`: a marker occurs in the lower-cased message. */
  predicate IsTransientError(e: Raised): (r: bool)
    ensures r <==> exists i | 0 <= i < |TransientMarkers| :: Contains(Lower(e.message), TransientMarkers[i])
  {
    AnyMarkerIn(Lower(e.message), TransientMarkers)
  }

  /** The verdict does not depend on the case the message was written in. */
  lemma TransientIgnoresCase(e: Raised)
    ensures IsTransientError(e.(message := Upper(e.message))) == IsTransientError(e)
  {
    LowerOfUpper(e.message);
  }

  /** A failure is transient exactly when its lower-cased message holds one of the markers. */
  lemma TransientIffMarker(e: Raised)
    ensures IsTransientError(e) <==> exists m | m in TransientMarkers :: Contains(Lower(e.message), m)
  {
    if IsTransientError(e) {
      var i :| 0 <= i < |TransientMarkers| && Contains(Lower(e.message), TransientMarkers[i]);
      assert TransientMarkers[i] in TransientMarkers;
    } else {
      forall m | m in TransientMarkers
        ensures !Contains(Lower(e.message), m)
      {
        var i :| 0 <= i < |TransientMarkers| && TransientMarkers[i] == m;
      }
    }
  }

  /** A message that embeds a marker anywhere, in any case, is transient. */
  lemma MarkerMakesTransient(e: Raised, m: string, k: nat)
    requires m in TransientMarkers && OccursAt(Lower(e.message), m, k)
    ensures IsTransientError(e)
  {
    TransientIffMarker(e);
  }

  /** How a run of the retry loop ended, and how many calls it made. */
  datatype RetryRun<T> = RetryRun(outcome: Outcome<T>, calls: nat)

  function Max(a: int, b: int): int { if a < b then b else a }
  function MaxReal(a: real, b: real): real { if a < b then b else a }
  function MinReal(a: real, b: real): real { if a < b then a else b }

  /**
   * The retry loop from attempt `attempt` on, for a given test of which
   * failures are transient: the first success is returned, a non-transient
   * failure is re-raised at once, and a transient failure is re-raised once
   * `attempt` has reached `maxAttempts`.
   */
  function RetryFrom<T>(fn: nat -> Outcome<T>, isTransient: Raised -> bool, maxAttempts: int, attempt: nat): (r: RetryRun<T>)
    requires attempt >= 1
    ensures attempt <= r.calls <= Max(attempt, maxAttempts)
    ensures r.outcome == fn(r.calls)
    ensures forall k | attempt <= k < r.calls :: fn(k).Err? && isTransient(fn(k).error)
    ensures r.outcome.Err? ==> !isTransient(r.outcome.error) || r.calls >= maxAttempts
    decreases if attempt < maxAttempts then maxAttempts - attempt else 0
  {
    match fn(attempt)
    case Ok(v) => RetryRun(Ok(v), attempt)
    case Err(e) =>
      if !isTransient(e) || attempt >= maxAttempts then RetryRun(Err(e), attempt)
      else RetryFrom(fn, isTransient, maxAttempts, attempt + 1)
  }

  /** One turn of the loop: either the run ends with this attempt's outcome or it goes on with the next attempt. */
  lemma RetryStep<T>(fn: nat -> Outcome<T>, isTransient: Raised -> bool, maxAttempts: int, attempt: nat)
    requires attempt >= 1
    ensures fn(attempt).Ok? || !isTransient(fn(attempt).error) || attempt >= maxAttempts
            ==> RetryFrom(fn, isTransient, maxAttempts, attempt) == RetryRun(fn(attempt), attempt)
    ensures fn(attempt).Err? && isTransient(fn(attempt).error) && attempt < maxAttempts
            ==> RetryFrom(fn, isTransient, maxAttempts, attempt) == RetryFrom(fn, isTransient, maxAttempts, attempt + 1)
  {
  }

  /**
   * `gemini_call_with_retry(call_name, fn, max_attempts=…)`: attempts are
   * numbered from 1 and failures are judged by `_is_transient_gemini_error`.
   */
  function Retry<T>(fn: nat -> Outcome<T>, maxAttempts: int): (r: RetryRun<T>)
    ensures 1 <= r.calls <= Max(1, maxAttempts)
    ensures r.outcome == fn(r.calls)
    ensures r.outcome.Err? ==> !IsTransientError(r.outcome.error) || r.calls >= maxAttempts
  {
    RetryFrom(fn, IsTransientError, maxAttempts, 1)
  }

  /**
   * When attempt `k` succeeds or fails for good, after transient failures
   * only, the run ends with attempt `k` and its outcome: a success is
   * returned, a non-transient failure is raised at once.
   */
  lemma {:induction false} RetryEndsAt<T>(fn: nat -> Outcome<T>, isTransient: Raised -> bool, maxAttempts: int, attempt: nat, k: nat)
    requires 1 <= attempt <= k && k <= Max(1, maxAttempts)
    requires fn(k).Ok? || !isTransient(fn(k).error)
    requires forall j | attempt <= j < k :: fn(j).Err? && isTransient(fn(j).error)
    ensures RetryFrom(fn, isTransient, maxAttempts, attempt) == RetryRun(fn(k), k)
    decreases k - attempt
  {
    RetryStep(fn, isTransient, maxAttempts, attempt);
    if attempt < k {
      assert fn(attempt).Err? && isTransient(fn(attempt).error) && attempt < maxAttempts;
      RetryEndsAt(fn, isTransient, maxAttempts, attempt + 1, k);
    }
  }

  /** When every attempt fails transiently, exactly `max(1, max_attempts)` calls are made and the last failure is raised. */
  lemma {:induction false} RetryExhausts<T>(fn: nat -> Outcome<T>, isTransient: Raised -> bool, maxAttempts: int, attempt: nat)
    requires attempt >= 1
    requires forall j | j >= 1 :: fn(j).Err? && isTransient(fn(j).error)
    ensures RetryFrom(fn, isTransient, maxAttempts, attempt).calls == Max(attempt, maxAttempts)
    ensures RetryFrom(fn, isTransient, maxAttempts, attempt).outcome.Err?
    decreases if attempt < maxAttempts then maxAttempts - attempt else 0
  {
    RetryStep(fn, isTransient, maxAttempts, attempt);
    if attempt < maxAttempts {
      RetryExhausts(fn, isTransient, maxAttempts, attempt + 1);
    }
  }

  /**
   * The value of `delay` while attempt `k` runs: `max(0, initial)` first,
   * then grown by half and capped, so it never exceeds the cap after the
   * first retry and never goes negative under a non-negative cap.
   */
  function DelayBefore(initialDelay: real, maxDelay: real, k: nat): (r: real)
    requires k >= 1
    ensures k == 1 ==> r == MaxReal(0.0, initialDelay)
    ensures k > 1 ==> r <= maxDelay
    ensures maxDelay >= 0.0 ==> r >= 0.0
  {
    if k == 1 then MaxReal(0.0, initialDelay)
    else NextDelay(DelayBefore(initialDelay, maxDelay, k - 1), maxDelay)
  }

  /** How `delay` grows after a retry: by half, at least from 0.05, and never past the cap. */
  function NextDelay(delay: real, maxDelay: real): (r: real)
    ensures r <= maxDelay
    ensures r == maxDelay || r == MaxReal(delay, 0.05) * 1.5
    ensures 0.0 <= delay <= maxDelay ==> delay <= r
  {
    MinReal(maxDelay, MaxReal(delay, 0.05) * 1.5)
  }

  lemma DelayStep(initialDelay: real, maxDelay: real, k: nat)
    requires k >= 1
    ensures DelayBefore(initialDelay, maxDelay, k + 1) == NextDelay(DelayBefore(initialDelay, maxDelay, k), maxDelay)
  {
  }

  /** The pause after a transient failure of attempt `k`, without its jitter: between zero and the cap when the cap is not negative. */
  function BasePause(initialDelay: real, maxDelay: real, k: nat): (r: real)
    requires k >= 1
    ensures r <= maxDelay
    ensures maxDelay >= 0.0 ==> 0.0 <= r
  {
    MinReal(maxDelay, DelayBefore(initialDelay, maxDelay, k))
  }

  /** Pauses never shrink from one retry to the next (back-off), before jitter. */
  lemma PausesGrow(initialDelay: real, maxDelay: real, k: nat)
    requires k >= 1 && maxDelay >= 0.0
    ensures BasePause(initialDelay, maxDelay, k) <= BasePause(initialDelay, maxDelay, k + 1)
  {
  }

  /** Once the delay has reached the cap it stays there. */
  lemma CapIsSticky(initialDelay: real, maxDelay: real, k: nat)
    requires k >= 1 && maxDelay >= 0.0 && DelayBefore(initialDelay, maxDelay, k) == maxDelay
    ensures DelayBefore(initialDelay, maxDelay, k + 1) == maxDelay
  {
  }

  /** The full pause before the retry after attempt `k`: capped delay plus the jitter drawn. */
  function Pause(initialDelay: real, maxDelay: real, draws: nat -> real, k: nat): real
    requires k >= 1
  {
    BasePause(initialDelay, maxDelay, k) + draws(k)
  }

  /** With draws from `uniform(0, max(0, jitter))`, no pause exceeds the cap plus the jitter. */
  lemma PauseBounded(initialDelay: real, maxDelay: real, jitter: real, draws: nat -> real, k: nat)
    requires k >= 1 && maxDelay >= 0.0
    requires 0.0 <= draws(k) <= MaxReal(0.0, jitter)
    ensures 0.0 <= Pause(initialDelay, maxDelay, draws, k) <= maxDelay + MaxReal(0.0, jitter)
  {
  }

  /** The pauses so far, followed by the pause after attempt `|pauses| + 1`. */
  ghost predicate PausesSoFar(pauses: seq<real>, initialDelay: real, maxDelay: real, draws: nat -> real) {
    forall k | 0 <= k < |pauses| :: pauses[k] == Pause(initialDelay, maxDelay, draws, k + 1)
  }

  function AppendPause(pauses: seq<real>, p: real, initialDelay: real, maxDelay: real, draws: nat -> real): (r: seq<real>)
    requires PausesSoFar(pauses, initialDelay, maxDelay, draws)
    requires p == Pause(initialDelay, maxDelay, draws, |pauses| + 1)
    ensures PausesSoFar(r, initialDelay, maxDelay, draws) && |r| == |pauses| + 1
  {
    pauses + [p]
  }

  /** What `time.sleep` raises when asked to sleep for a negative time. */
  const NegativeSleep := Raised("ValueError", "sleep length must be non-negative")

  /**
   * The body of `gemini_call_with_retry` for a given test of which failures
   * are transient. It sleeps once between consecutive calls, for the pause
   * the back-off schedule gives. While every pause is non-negative it
   * returns what the retry function describes; the first negative pause
   * (possible only with a negative cap) makes `time.sleep` raise, and that
   * error ends the run instead.
   */
  method RetryLoop<T>(fn: nat -> Outcome<T>, isTransient: Raised -> bool, maxAttempts: int,
                      initialDelay: real, maxDelay: real, draws: nat -> real)
    returns (outcome: Outcome<T>, calls: nat, sleeps: seq<real>)
    ensures 1 <= calls <= RetryFrom(fn, isTransient, maxAttempts, 1).calls
    ensures calls == RetryFrom(fn, isTransient, maxAttempts, 1).calls
            ==> outcome == RetryFrom(fn, isTransient, maxAttempts, 1).outcome
    ensures calls < RetryFrom(fn, isTransient, maxAttempts, 1).calls
            ==> outcome == Err(NegativeSleep) && Pause(initialDelay, maxDelay, draws, calls) < 0.0
    ensures |sleeps| == calls - 1
    ensures PausesSoFar(sleeps, initialDelay, maxDelay, draws)
    ensures forall k | 0 <= k < |sleeps| :: sleeps[k] >= 0.0
  {
    var attempt: nat := 1;
    var delay := MaxReal(0.0, initialDelay);
    sleeps := [];
    ghost var run := RetryFrom(fn, isTransient, maxAttempts, 1);
    while true
      invariant 1 <= attempt <= run.calls
      invariant RetryFrom(fn, isTransient, maxAttempts, attempt) == run
      invariant delay == DelayBefore(initialDelay, maxDelay, attempt)
      invariant |sleeps| == attempt - 1
      invariant PausesSoFar(sleeps, initialDelay, maxDelay, draws)
      invariant forall k | 0 <= k < |sleeps| :: sleeps[k] >= 0.0
      decreases if attempt < maxAttempts then maxAttempts - attempt else 0
    {
      var result := fn(attempt);
      RetryStep(fn, isTransient, maxAttempts, attempt);
      if result.Ok? {
        assert run == RetryRun(result, attempt);
        return result, attempt, sleeps;
      }
      var transient := isTransient(result.error);
      if !transient || attempt >= maxAttempts {
        assert run == RetryRun(result, attempt);
        return result, attempt, sleeps;
      }
      assert run == RetryFrom(fn, isTransient, maxAttempts, attempt + 1);
      var sleepFor := MinReal(maxDelay, delay) + draws(attempt);
      assert sleepFor == Pause(initialDelay, maxDelay, draws, attempt);
      if sleepFor < 0.0 {
        return Err(NegativeSleep), attempt, sleeps;
      }
      sleeps := AppendPause(sleeps, sleepFor, initialDelay, maxDelay, draws);
      delay := NextDelay(delay, maxDelay);
      DelayStep(initialDelay, maxDelay, attempt);
      attempt := attempt + 1;
    }
  }

  /**
   * `gemini_call_with_retry`: the loop with failures judged by
   * `_is_transient_gemini_error`. While no pause is negative it returns
   * the outcome and call count of `Retry`.
   */
  method CallWithRetry<T>(fn: nat -> Outcome<T>, maxAttempts: int, initialDelay: real, maxDelay: real,
                          draws: nat -> real)
    returns (outcome: Outcome<T>, calls: nat, sleeps: seq<real>)
    ensures 1 <= calls <= Retry(fn, maxAttempts).calls
    ensures calls == Retry(fn, maxAttempts).calls ==> outcome == Retry(fn, maxAttempts).outcome
    ensures calls < Retry(fn, maxAttempts).calls
            ==> outcome == Err(NegativeSleep) && Pause(initialDelay, maxDelay, draws, calls) < 0.0
    ensures |sleeps| == calls - 1
    ensures PausesSoFar(sleeps, initialDelay, maxDelay, draws)
    ensures forall k | 0 <= k < |sleeps| :: sleeps[k] >= 0.0
    ensures maxDelay >= 0.0 && (forall k :: draws(k) >= 0.0) ==> RetryRun(outcome, calls) == Retry(fn, maxAttempts)
  {
    outcome, calls, sleeps := RetryLoop(fn, IsTransientError, maxAttempts, initialDelay, maxDelay, draws);
  }

  /** A negative cap with a small enough draw makes the very first pause negative. */
  lemma NegativeCapBreaksFirstPause(initialDelay: real, maxDelay: real, draws: nat -> real)
    requires maxDelay < 0.0 && draws(1) < -maxDelay
    ensures Pause(initialDelay, maxDelay, draws, 1) < 0.0
  {
  }
}
