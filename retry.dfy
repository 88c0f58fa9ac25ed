/** The backoff retry loop of package `resilience` (pkg/common/resilience/retry.go).

    The environment of one call is given as three scripts indexed by attempt number:
    what the operation returns on its i-th call, whether the context is cancelled during
    the wait that follows the i-th failed attempt, and the value `rand.Float64()` yields for
    that wait's jitter. Durations are integers counting nanoseconds, as `time.Duration` does. */
module Retry {
  import opened Numerics
  import opened Wrappers

  const Millisecond: int := 1_000_000
  const Second: int := 1_000 * Millisecond

  datatype BackoffConfig = BackoffConfig(maxRetries: int, baseDelay: int, maxDelay: int, jitter: bool)

  /** Three retries, 100ms base delay, 2s cap, jitter on. */
  const DefaultBackoffConfig: BackoffConfig :=
    BackoffConfig(maxRetries := 3, baseDelay := 100 * Millisecond, maxDelay := 2 * Second, jitter := true)

  /** What one call of the operation returns: nil, or an error. */
  datatype Attempt = Succeeded | Failed(cause: string)

  /** The error `Retry` returns: an operation's own error, or the context's. */
  datatype Error = OperationError(cause: string) | ContextError

  /** What one call of `Retry` does: the error it returns (`None` is nil), how many times it
      called the operation, and the delays of the waits it started, in order. */
  datatype Trace = Trace(err: Option<Error>, calls: nat, waits: seq<int>)

  /** How many iterations `for i := 0; i <= MaxRetries; i++` allows. */
  function Attempts(cfg: BackoffConfig): nat
  {
    if cfg.maxRetries < 0 then 0 else cfg.maxRetries + 1
  }

  /** The scripts cover every attempt the loop may make. */
  predicate Scripted(cfg: BackoffConfig, outcomes: seq<Attempt>, cancelled: seq<bool>, draws: seq<real>)
  {
    |outcomes| >= Attempts(cfg) && |cancelled| >= Attempts(cfg) && |draws| >= Attempts(cfg)
  }

  /** Exponential backoff after failed attempt i, capped at MaxDelay, with the power of two
      computed exactly (see `BackoffAsWritten` for the 64-bit shift the source uses). */
  function Backoff(cfg: BackoffConfig, i: nat): int
  {
    var backoff := cfg.baseDelay * Pow2(i);
    if backoff > cfg.maxDelay then cfg.maxDelay else backoff
  }

  /** The factor `0.8 + rand.Float64()*0.4` for a draw of the random source. */
  function JitterFactor(draw: real): real
  {
    0.8 + draw * 0.4
  }

  /** The delay actually waited after failed attempt i: the backoff, scaled by the jitter
      factor when jitter is on, converted to a Duration. */
  function Delay(cfg: BackoffConfig, i: nat, draw: real): int
  {
    var backoff := Backoff(cfg, i) as real;
    TruncateToInt(if cfg.jitter then backoff * JitterFactor(draw) else backoff)
  }

  /** The reference behaviour of `Retry` from attempt i on. */
  function Run(cfg: BackoffConfig, outcomes: seq<Attempt>, cancelled: seq<bool>, draws: seq<real>, i: nat): Trace
    requires Scripted(cfg, outcomes, cancelled, draws)
    decreases Attempts(cfg) - i
  {
    if i >= Attempts(cfg) then Trace(None, i, [])
    else if outcomes[i].Succeeded? then Trace(None, i + 1, [])
    else if i == cfg.maxRetries then Trace(Some(OperationError(outcomes[i].cause)), i + 1, [])
    else
      var d := Delay(cfg, i, draws[i]);
      if cancelled[i] then Trace(Some(ContextError), i + 1, [d])
      else
        var rest := Run(cfg, outcomes, cancelled, draws, i + 1);
        Trace(rest.err, rest.calls, [d] + rest.waits)
  }

  /** The retry loop: call the operation, stop on success or on the last attempt, otherwise
      wait for the backoff delay unless the context is cancelled first. */
  method Retry(cfg: BackoffConfig, outcomes: seq<Attempt>, cancelled: seq<bool>, draws: seq<real>)
    returns (t: Trace)
    requires Scripted(cfg, outcomes, cancelled, draws)
    ensures t == Run(cfg, outcomes, cancelled, draws, 0)
  {
    var err: Option<Error> := None;
    var waits: seq<int> := [];
    var i := 0;
    while i <= cfg.maxRetries
      invariant 0 <= i <= Attempts(cfg)
      invariant cfg.maxRetries >= 0 ==> i <= cfg.maxRetries
      invariant i == 0 ==> err == None
      invariant var rest := Run(cfg, outcomes, cancelled, draws, i);
        Run(cfg, outcomes, cancelled, draws, 0) == Trace(rest.err, rest.calls, waits + rest.waits)
      decreases cfg.maxRetries - i
    {
      if outcomes[i].Succeeded? {
        return Trace(None, i + 1, waits);
      }
      err := Some(OperationError(outcomes[i].cause));
      if i == cfg.maxRetries {
        return Trace(err, i + 1, waits);
      }
      var delay := Delay(cfg, i, draws[i]);
      if cancelled[i] {
        return Trace(Some(ContextError), i + 1, waits + [delay]);
      }
      ghost var rest := Run(cfg, outcomes, cancelled, draws, i + 1);
      assert waits + ([delay] + rest.waits) == (waits + [delay]) + rest.waits;
      waits := waits + [delay];
      i := i + 1;
    }
    return Trace(err, i, waits);
  }

  // ---------------------------------------------------------------------------------------
  // Properties of the reference behaviour

  /** The operation is called at least once per attempt already made and never more than
      MaxRetries+1 times in all. */
  lemma {:induction false} RunCallsBounded(cfg: BackoffConfig, outcomes: seq<Attempt>, cancelled: seq<bool>, draws: seq<real>, i: nat)
    requires Scripted(cfg, outcomes, cancelled, draws)
    requires i <= Attempts(cfg)
    ensures var t := Run(cfg, outcomes, cancelled, draws, i);
      i <= t.calls <= Attempts(cfg) && (i < Attempts(cfg) ==> i < t.calls)
    decreases Attempts(cfg) - i
  {
    if i < Attempts(cfg) && outcomes[i].Failed? && i != cfg.maxRetries && !cancelled[i] {
      RunCallsBounded(cfg, outcomes, cancelled, draws, i + 1);
    }
  }

  /** Every attempt before the last one made failed, and the wait after it ran to the end. */
  lemma {:induction false} RunEarlierAttemptsFailed(cfg: BackoffConfig, outcomes: seq<Attempt>, cancelled: seq<bool>, draws: seq<real>, i: nat)
    requires Scripted(cfg, outcomes, cancelled, draws)
    requires i <= Attempts(cfg)
    ensures var t := Run(cfg, outcomes, cancelled, draws, i);
      t.calls <= Attempts(cfg) && forall k :: i <= k < t.calls - 1 ==> outcomes[k].Failed? && !cancelled[k]
    decreases Attempts(cfg) - i
  {
    RunCallsBounded(cfg, outcomes, cancelled, draws, i);
    if i < Attempts(cfg) && outcomes[i].Failed? && i != cfg.maxRetries && !cancelled[i] {
      RunEarlierAttemptsFailed(cfg, outcomes, cancelled, draws, i + 1);
      RunCallsBounded(cfg, outcomes, cancelled, draws, i + 1);
    }
  }

  /** Why the loop stopped after its last call: nil exactly when that call succeeded; the
      context error exactly when that call failed, was not the final attempt, and the wait
      after it was cancelled; otherwise the final attempt's own error. */
  lemma {:induction false} RunStopReason(cfg: BackoffConfig, outcomes: seq<Attempt>, cancelled: seq<bool>, draws: seq<real>, i: nat)
    requires Scripted(cfg, outcomes, cancelled, draws)
    requires i < Attempts(cfg)
    ensures var t := Run(cfg, outcomes, cancelled, draws, i);
      var last := t.calls - 1;
      && i <= last < Attempts(cfg)
      && (t.err == None <==> outcomes[last].Succeeded?)
      && (t.err == Some(ContextError) <==> outcomes[last].Failed? && last < cfg.maxRetries && cancelled[last])
      && (t.err.Some? && t.err.value.OperationError? <==> outcomes[last].Failed? && last == cfg.maxRetries)
      && (t.err.Some? && t.err.value.OperationError? ==> t.err.value.cause == outcomes[last].cause)
    decreases Attempts(cfg) - i
  {
    if outcomes[i].Failed? && i != cfg.maxRetries && !cancelled[i] {
      RunStopReason(cfg, outcomes, cancelled, draws, i + 1);
    }
  }

  /** The waits are the delays after attempts i, i+1, ... in order: one after each call but the
      last, plus the interrupted one when cancellation stopped the loop. There is no wait after
      the final attempt or after a success. */
  lemma {:induction false} RunWaits(cfg: BackoffConfig, outcomes: seq<Attempt>, cancelled: seq<bool>, draws: seq<real>, i: nat)
    requires Scripted(cfg, outcomes, cancelled, draws)
    requires i < Attempts(cfg)
    ensures var t := Run(cfg, outcomes, cancelled, draws, i);
      && t.calls <= Attempts(cfg)
      && |t.waits| == (if t.err == Some(ContextError) then t.calls - i else t.calls - 1 - i)
      && forall k :: 0 <= k < |t.waits| ==> t.waits[k] == Delay(cfg, i + k, draws[i + k])
    decreases Attempts(cfg) - i
  {
    RunCallsBounded(cfg, outcomes, cancelled, draws, i);
    if outcomes[i].Failed? && i != cfg.maxRetries && !cancelled[i] {
      RunWaits(cfg, outcomes, cancelled, draws, i + 1);
      var rest := Run(cfg, outcomes, cancelled, draws, i + 1);
      var t := Run(cfg, outcomes, cancelled, draws, i);
      forall k | 0 <= k < |t.waits|
        ensures t.waits[k] == Delay(cfg, i + k, draws[i + k])
      {
        if k > 0 {
          assert t.waits[k] == rest.waits[k - 1];
        }
      }
    }
  }

  /** A negative MaxRetries never calls the operation and returns nil. */
  lemma NegativeMaxRetriesNeverCalls(cfg: BackoffConfig, outcomes: seq<Attempt>, cancelled: seq<bool>, draws: seq<real>)
    requires Scripted(cfg, outcomes, cancelled, draws)
    requires cfg.maxRetries < 0
    ensures Run(cfg, outcomes, cancelled, draws, 0) == Trace(None, 0, [])
  {
  }

  /** An operation that always fails, with no cancellation, is called exactly MaxRetries+1
      times, and the result is the error of the final call. */
  lemma AlwaysFailingExhaustsAttempts(cfg: BackoffConfig, outcomes: seq<Attempt>, cancelled: seq<bool>, draws: seq<real>)
    requires Scripted(cfg, outcomes, cancelled, draws)
    requires cfg.maxRetries >= 0
    requires forall k :: 0 <= k < Attempts(cfg) ==> outcomes[k].Failed? && !cancelled[k]
    ensures var t := Run(cfg, outcomes, cancelled, draws, 0);
      && t.calls == cfg.maxRetries + 1
      && t.err == Some(OperationError(outcomes[cfg.maxRetries].cause))
      && |t.waits| == cfg.maxRetries
  {
    RunStopReason(cfg, outcomes, cancelled, draws, 0);
    RunWaits(cfg, outcomes, cancelled, draws, 0);
  }

  /** The first success ends the loop: if attempt j is the first to succeed and no wait before
      it was cancelled, the operation is called j+1 times and the result is nil. */
  lemma FirstSuccessStops(cfg: BackoffConfig, outcomes: seq<Attempt>, cancelled: seq<bool>, draws: seq<real>, j: nat)
    requires Scripted(cfg, outcomes, cancelled, draws)
    requires j < Attempts(cfg) && outcomes[j].Succeeded?
    requires forall k :: 0 <= k < j ==> outcomes[k].Failed? && !cancelled[k]
    ensures var t := Run(cfg, outcomes, cancelled, draws, 0);
      t.err == None && t.calls == j + 1
  {
    RunStopReason(cfg, outcomes, cancelled, draws, 0);
    RunEarlierAttemptsFailed(cfg, outcomes, cancelled, draws, 0);
  }

  /** Cancellation during the wait after attempt j, all earlier attempts having failed and
      waited in full, returns the context error and makes no further call. */
  lemma CancellationStops(cfg: BackoffConfig, outcomes: seq<Attempt>, cancelled: seq<bool>, draws: seq<real>, j: nat)
    requires Scripted(cfg, outcomes, cancelled, draws)
    requires j < cfg.maxRetries && outcomes[j].Failed? && cancelled[j]
    requires forall k :: 0 <= k < j ==> outcomes[k].Failed? && !cancelled[k]
    ensures var t := Run(cfg, outcomes, cancelled, draws, 0);
      t.err == Some(ContextError) && t.calls == j + 1 && |t.waits| == j + 1
  {
    RunStopReason(cfg, outcomes, cancelled, draws, 0);
    RunEarlierAttemptsFailed(cfg, outcomes, cancelled, draws, 0);
    RunWaits(cfg, outcomes, cancelled, draws, 0);
  }

  // ---------------------------------------------------------------------------------------
  // The delay schedule

  /** No backoff exceeds MaxDelay, and with a non-negative base delay backoffs never decrease. */
  lemma BackoffCappedAndMonotone(cfg: BackoffConfig, i: nat, j: nat)
    requires i <= j && cfg.baseDelay >= 0
    ensures Backoff(cfg, i) <= Backoff(cfg, j) <= cfg.maxDelay
  {
    Pow2Monotone(i, j);
    ScaleMonotone(cfg.baseDelay, Pow2(i), Pow2(j));
  }

  lemma ScaleMonotone(a: int, x: int, y: int)
    requires a >= 0 && x <= y
    ensures a * x <= a * y
  {
    assert a * y - a * x == a * (y - x);
  }

  /** Without jitter the delay is the capped backoff `min(MaxDelay, BaseDelay * 2^i)`. */
  lemma DelayWithoutJitter(cfg: BackoffConfig, i: nat, draw: real)
    requires !cfg.jitter
    ensures var d := Delay(cfg, i, draw);
      d <= cfg.maxDelay && d <= cfg.baseDelay * Pow2(i) && (d == cfg.maxDelay || d == cfg.baseDelay * Pow2(i))
  {
  }

  /** With jitter, a draw in [0, 1) puts the delay between 0.8 and 1.2 times the backoff,
      up to the truncation to whole nanoseconds. */
  lemma DelayWithJitter(cfg: BackoffConfig, i: nat, draw: real)
    requires cfg.jitter && 0.0 <= draw < 1.0 && Backoff(cfg, i) >= 0
    ensures var d := Backoff(cfg, i) as real;
      var w := Delay(cfg, i, draw);
      && (0.8 * d).Floor <= w
      && w as real <= 1.2 * d
      && (d > 0.0 ==> w as real < 1.2 * d)
  {
    var d := Backoff(cfg, i) as real;
    var f := JitterFactor(draw);
    assert 0.8 <= f < 1.2;
    assert Delay(cfg, i, draw) == TruncateToInt(d * f);
    ScaledWithin(d, f);
  }

  /** Truncating `d * f` for a factor f in [0.8, 1.2) stays within [floor(0.8*d), 1.2*d]. */
  lemma ScaledWithin(d: real, f: real)
    requires d >= 0.0 && 0.8 <= f < 1.2
    ensures var w := TruncateToInt(d * f);
      && (0.8 * d).Floor <= w
      && w as real <= 1.2 * d
      && (d > 0.0 ==> w as real < 1.2 * d)
  {
    assert d * f - 0.8 * d == d * (f - 0.8);
    assert 1.2 * d - d * f == d * (1.2 - f);
    assert d > 0.0 ==> d * (1.2 - f) > 0.0;
    var x := d * f;
    assert 0.8 * d <= x;
    assert (0.8 * d).Floor as real <= 0.8 * d;
  }

  /** Without jitter the waits of a run are non-decreasing and never exceed MaxDelay. */
  lemma WaitsNonDecreasing(cfg: BackoffConfig, outcomes: seq<Attempt>, cancelled: seq<bool>, draws: seq<real>)
    requires Scripted(cfg, outcomes, cancelled, draws)
    requires !cfg.jitter && cfg.baseDelay >= 0
    ensures var w := Run(cfg, outcomes, cancelled, draws, 0).waits;
      forall a, b :: 0 <= a <= b < |w| ==> w[a] <= w[b] <= cfg.maxDelay
  {
    if Attempts(cfg) > 0 {
      RunWaits(cfg, outcomes, cancelled, draws, 0);
      var w := Run(cfg, outcomes, cancelled, draws, 0).waits;
      forall a, b | 0 <= a <= b < |w|
        ensures w[a] <= w[b] <= cfg.maxDelay
      {
        BackoffCappedAndMonotone(cfg, a, b);
      }
    }
  }

  /** With the default settings and jitter off, an operation that always fails is called four
      times with waits of 100ms, 200ms and 400ms between the calls. */
  lemma DefaultScheduleAlwaysFailing(outcomes: seq<Attempt>, cancelled: seq<bool>, draws: seq<real>)
    requires |outcomes| >= 4 && |cancelled| >= 4 && |draws| >= 4
    requires forall k :: 0 <= k < 4 ==> outcomes[k].Failed? && !cancelled[k]
    ensures var cfg := DefaultBackoffConfig.(jitter := false);
      Run(cfg, outcomes, cancelled, draws, 0)
        == Trace(Some(OperationError(outcomes[3].cause)), 4, [100 * Millisecond, 200 * Millisecond, 400 * Millisecond])
  {
    var cfg := DefaultBackoffConfig.(jitter := false);
    DefaultBackoffs();
    AlwaysFailingExhaustsAttempts(cfg, outcomes, cancelled, draws);
    RunWaits(cfg, outcomes, cancelled, draws, 0);
  }

  /** The default backoffs for the first three failures: 100ms, 200ms, 400ms. */
  lemma DefaultBackoffs()
    ensures var cfg := DefaultBackoffConfig.(jitter := false);
      && (forall draw :: Delay(cfg, 0, draw) == 100 * Millisecond)
      && (forall draw :: Delay(cfg, 1, draw) == 200 * Millisecond)
      && (forall draw :: Delay(cfg, 2, draw) == 400 * Millisecond)
  {
    assert Pow2(0) == 1 && Pow2(1) == 2 && Pow2(2) == 4;
  }

  // ---------------------------------------------------------------------------------------
  // The backoff with the source's 64-bit shift

  /** The backoff as the source computes it: `power := 1 << i` on a 64-bit int. */
  function BackoffAsWritten(cfg: BackoffConfig, i: nat): int
  {
    var backoff := cfg.baseDelay * ShiftLeftOne(i);
    if backoff > cfg.maxDelay then cfg.maxDelay else backoff
  }

  /** Below attempt 63 the shift does not overflow and the source's backoff is `Backoff`. */
  lemma BackoffAsWrittenAgrees(cfg: BackoffConfig, i: nat)
    requires i < 63
    ensures BackoffAsWritten(cfg, i) == Backoff(cfg, i)
  {
    ShiftLeftOneOverflow(i);
  }

  /** With the default delays and MaxRetries of 65 or more, so that attempts 62, 63 and 64 are
      each followed by a wait, the backoff after attempt k = 62 is the 2s cap, after attempt 63
      it is negative and after attempt 64 it is zero: the schedule is no longer non-decreasing.
      (The attempt number is a parameter so that the verifier does not evaluate the doublings
      literally.) */
  lemma BackoffOverflowCounterexample(cfg: BackoffConfig, k: nat)
    requires cfg.baseDelay == DefaultBackoffConfig.baseDelay && cfg.maxDelay == DefaultBackoffConfig.maxDelay
    requires cfg.maxRetries >= 65 && k == 62
    ensures k + 2 < cfg.maxRetries
    ensures BackoffAsWritten(cfg, k) == 2 * Second
    ensures BackoffAsWritten(cfg, k + 1) < 0
    ensures BackoffAsWritten(cfg, k + 2) == 0
  {
    ShiftLeftOneOverflow(k);
    ShiftLeftOneOverflow(k + 1);
    ShiftLeftOneOverflow(k + 2);
    Pow2Of62();
    BackoffAsWrittenCases(cfg, k);
    BackoffAsWrittenCases(cfg, k + 1);
    BackoffAsWrittenCases(cfg, k + 2);
  }

  /** A MaxDelay of 250 years is a valid Duration, yet with jitter a draw of 0.99 scales the
      backoff after attempt 0 past 2^63 ns, beyond the int64 range `time.Duration(backoff)`
      converts into. (The settings are parameters so that the verifier does not evaluate them
      literally.) */
  lemma JitteredDelayBeyondInt64(cfg: BackoffConfig, draw: real)
    requires cfg.baseDelay == cfg.maxDelay == 250 * 365 * 24 * 3600 * Second
    requires cfg.jitter && draw == 0.99
    ensures 0 < cfg.maxDelay < TwoTo63
    ensures Delay(cfg, 0, draw) >= TwoTo63
  {
    assert Backoff(cfg, 0) == cfg.maxDelay;
  }

  /** A negative BaseDelay is never capped: at -1s the backoff after attempt 34 is below
      -2^63 ns with or without jitter, beyond the int64 range of `time.Duration(backoff)`. */
  lemma NegativeBaseDelayBeyondInt64(cfg: BackoffConfig, i: nat, draw: real)
    requires cfg.baseDelay == -Second && cfg.maxDelay >= 0 && i == 34 && 0.0 <= draw < 1.0
    ensures Delay(cfg, i, draw) < -TwoTo63
  {
    Pow2Of31();
    Pow2Add(31, 3);
    var backoff := Backoff(cfg, i) as real;
    assert backoff < -1.5 * (TwoTo63 as real);
    assert backoff * JitterFactor(draw) <= 0.8 * backoff;
  }

  /** For positive delays, the source's backoff is capped when the product reaches MaxDelay,
      negative when the shift is negative, and zero when the shift is zero. */
  lemma BackoffAsWrittenCases(cfg: BackoffConfig, i: nat)
    requires cfg.baseDelay > 0 && cfg.maxDelay >= 0
    ensures ShiftLeftOne(i) >= cfg.maxDelay ==> BackoffAsWritten(cfg, i) == cfg.maxDelay
    ensures ShiftLeftOne(i) < 0 ==> BackoffAsWritten(cfg, i) < 0
    ensures ShiftLeftOne(i) == 0 ==> BackoffAsWritten(cfg, i) == 0
  {
    var p := ShiftLeftOne(i);
    if p >= cfg.maxDelay {
      assert cfg.baseDelay * p >= p;
    } else if p < 0 {
      assert cfg.baseDelay * p <= p;
    }
  }
}
