/** The retry policy of durable work: gates first, then jittered backoff. */
module Retry {
  import opened Effects
  import opened Numbers

  datatype ErrorClass =
    | Transient
    | RateLimited
    | Timeout
    | InvalidInput
    | DependencyFailure
    | ResourceExhausted
    | Cancelled
    | Unknown
  {
    predicate Retryable() {
      !InvalidInput? && !Cancelled?
    }
  }

  datatype Decision = Retry(afterMs: nat) | Dead | Fail

  const BASE_RETRY_DELAY_MS: nat := 1_000
  const MAX_RETRY_DELAY_MS: nat := 300_000

  /** The attempt budget of the static floor policy. */
  const MAX_ATTEMPTS: nat := 3

  function Pow2(n: nat): (p: nat)
    ensures p > 0
  {
    if n == 0 then 1 else 2 * Pow2(n - 1)
  }

  function Clamp01(u: real): (c: real)
    ensures 0.0 <= c <= 1.0
  {
    if u < 0.0 then 0.0 else if u > 1.0 then 1.0 else u
  }

  /** The doubling window a retry's delay is drawn from. */
  function BackoffWindow(attempt: nat, baseMs: nat, capMs: nat): nat {
    Min(baseMs * Pow2(Min(if attempt == 0 then 0 else attempt - 1, 20)), capMs)
  }

  /** The window is the base, doubled with each attempt after the first up to twenty
      times, and no more than the cap. */
  lemma WindowExactly(attempt: nat, baseMs: nat, capMs: nat)
    ensures attempt <= 1 ==> BackoffWindow(attempt, baseMs, capMs) == Min(baseMs, capMs)
    ensures 1 <= attempt <= 20 ==>
              BackoffWindow(attempt + 1, baseMs, capMs) == Min(2 * BackoffWindow(attempt, baseMs, capMs), capMs)
    ensures attempt >= 21 ==> BackoffWindow(attempt, baseMs, capMs) == BackoffWindow(21, baseMs, capMs)
  {
    if 1 <= attempt <= 20 {
      assert Pow2(attempt) == 2 * Pow2(attempt - 1);
      var x := baseMs * Pow2(attempt - 1);
      assert baseMs * Pow2(attempt) == 2 * x;
    }
  }

  /** The windows of a task's first two failures. */
  lemma EarlyWindows()
    ensures BackoffWindow(1, BASE_RETRY_DELAY_MS, MAX_RETRY_DELAY_MS) == BASE_RETRY_DELAY_MS
    ensures BackoffWindow(2, BASE_RETRY_DELAY_MS, MAX_RETRY_DELAY_MS) == 2 * BASE_RETRY_DELAY_MS
  {
    assert Pow2(0) == 1 && Pow2(1) == 2;
  }

  /** Full jitter over the window: the delay is the drawn fraction of it, rounded
      down. A draw below one stays short of the window's end. */
  function BackoffDelay(attempt: nat, uniform: real, baseMs: nat, capMs: nat): (delay: nat)
    ensures delay <= BackoffWindow(attempt, baseMs, capMs) <= capMs
    ensures 0.0 <= uniform <= 1.0 ==>
              delay as real <= uniform * BackoffWindow(attempt, baseMs, capMs) as real < delay as real + 1.0
    ensures uniform >= 1.0 ==> delay == BackoffWindow(attempt, baseMs, capMs)
    ensures uniform <= 0.0 ==> delay == 0
    ensures uniform < 1.0 && BackoffWindow(attempt, baseMs, capMs) > 0 ==> delay < BackoffWindow(attempt, baseMs, capMs)
  {
    var window := BackoffWindow(attempt, baseMs, capMs);
    ScaledWithinWindow(Clamp01(uniform), window);
    (Clamp01(uniform) * window as real).Floor
  }

  lemma ScaledWithinWindow(u: real, window: nat)
    requires 0.0 <= u <= 1.0
    ensures 0 <= (u * window as real).Floor <= window
    ensures u < 1.0 && window > 0 ==> (u * window as real).Floor < window
  {
    var w := window as real;
    assert u * w <= 1.0 * w;
    assert 0.0 <= u * w;
    var f := (u * w).Floor;
    assert f as real <= u * w;
    if u < 1.0 && window > 0 {
      assert u * w < 1.0 * w;
      assert f as real < w;
    }
  }

  function Classify(effect: Effect, class_: ErrorClass, attempt: nat, maxAttempts: nat, uniform: real): Decision {
    if !effect.FreelyRepeatable() || !class_.Retryable() then Fail
    else if attempt >= maxAttempts then Dead
    else Retry(BackoffDelay(attempt, uniform, BASE_RETRY_DELAY_MS, MAX_RETRY_DELAY_MS))
  }

  /** A failure is retried exactly while the effect may be repeated, the error may
      pass and attempts are left, and is dead exactly when only those have run out. */
  lemma ClassifyExactly(effect: Effect, class_: ErrorClass, attempt: nat, maxAttempts: nat, uniform: real)
    ensures var d := Classify(effect, class_, attempt, maxAttempts, uniform);
      var hopeful := effect in {Pure, ReadOnly, Idempotent} && class_ !in {InvalidInput, Cancelled};
      && (d.Retry? <==> hopeful && attempt < maxAttempts) && (d.Dead? <==> hopeful && attempt >= maxAttempts)
      && (d.Retry? <==> RetryIsLegal(effect, class_, attempt, maxAttempts))
      && (d.Retry? ==> d.afterMs <= 300_000 && (1 <= attempt <= 21 ==> d.afterMs <= 1_000 * Pow2(attempt - 1)))
  {
    hide BackoffDelay, Pow2;
  }

  predicate RetryIsLegal(effect: Effect, class_: ErrorClass, attempt: nat, maxAttempts: nat) {
    effect.FreelyRepeatable() && class_.Retryable() && attempt < maxAttempts
  }
}
