/**
 Retrying a call with backoff (internal/resilience/retry.go). Durations are whole
 numbers; the rounding of the doubled delay to 32-bit floats is not modelled.
 */
module Retry {
  import opened Common

  datatype Error<R> = NoError | Failed(name: string) | Exceeded(lastResult: R, lastError: Error<R>)

  datatype PolicyResult<R> = PolicyResult(result: R, error: Error<R>, done: bool, success: bool)

  // What one attempt meets: the answer of the inner call, whether the policy
  // counts it as a failure and as one to abort on, the time elapsed by then, and
  // whether the execution turns out cancelled after the call, when the result is
  // recorded, or when the retry is set up.
  datatype Attempt<R> = Attempt(
    result: R, error: Error<R>, isFailure: bool, isAbortable: bool, elapsed: nat,
    cancelledAfter: bool, cancelledOnRecord: bool, cancelledOnRetry: bool)

  // A zero duration or delay means that there is none.
  datatype RetryConfig<R> = RetryConfig(
    maxRetries: nat, maxDuration: nat, delay: nat, maxDelay: nat,
    returnLastFailure: bool, returnPreviousOn: seq<Error<R>>, zero: R)
  {
    // What the configuration check demands.
    predicate Valid() {
      maxDelay != 0 ==> delay <= maxDelay
    }
  }

  datatype Outcome<R> = Cancelled | Answer(value: PolicyResult<R>)

  // ---- what a run comes to ----

  predicate RetriesExceeded<R>(cfg: RetryConfig<R>, a: Attempt<R>, failedAttempts: nat) {
    failedAttempts > cfg.maxRetries || (cfg.maxDuration != 0 && a.elapsed > cfg.maxDuration)
  }

  // The n-th attempt, counting from 0, is the last one.
  predicate Final<R>(cfg: RetryConfig<R>, script: nat -> Attempt<R>, n: nat) {
    var a := script(n);
    || a.cancelledAfter
    || !a.isFailure
    || a.isAbortable
    || RetriesExceeded(cfg, a, n + 1)
    || cfg.maxRetries == 0
    || a.cancelledOnRecord
    || a.cancelledOnRetry
  }

  // What the n-th attempt is worth after the policy looked at it.
  function Judged<R>(cfg: RetryConfig<R>, script: nat -> Attempt<R>, n: nat): PolicyResult<R> {
    var a := script(n);
    if !a.isFailure then PolicyResult(a.result, a.error, true, true)
    else if RetriesExceeded(cfg, a, n + 1) && !cfg.returnLastFailure then
      PolicyResult(cfg.zero, Exceeded(a.result, a.error), true, false)
    else PolicyResult(a.result, a.error, a.isAbortable || RetriesExceeded(cfg, a, n + 1) || cfg.maxRetries == 0, false)
  }

  // What the caller gets if the n-th attempt is the last one.
  ghost function OutcomeAt<R>(cfg: RetryConfig<R>, script: nat -> Attempt<R>, n: nat): Outcome<R> {
    var judged := Judged(cfg, script, n);
    if script(n).cancelledAfter || !judged.done then Cancelled
    else if judged.error in cfg.returnPreviousOn && n > 0 then
      var previous := script(n - 1);
      Answer(PolicyResult(previous.result, previous.error, true, true))
    else Answer(judged)
  }

  // The first attempt after which the run stops.
  ghost predicate EndsAt<R(!new)>(cfg: RetryConfig<R>, script: nat -> Attempt<R>, n: nat) {
    Final(cfg, script, n) && forall k: nat | k < n :: !Final(cfg, script, k)
  }

  // ---- backoff ----

  // The k-th delay before jitter.
  function BaseDelay<R>(cfg: RetryConfig<R>, k: nat): nat {
    if cfg.delay == 0 || cfg.maxDelay == 0 then cfg.delay
    else if cfg.delay * Power2(k) < cfg.maxDelay then cfg.delay * Power2(k)
    else cfg.maxDelay
  }

  lemma {:induction false} DelaysGrow<R>(cfg: RetryConfig<R>, j: nat, k: nat)
    requires cfg.Valid() && j <= k
    ensures BaseDelay(cfg, j) <= BaseDelay(cfg, k)
    ensures cfg.maxDelay != 0 ==> BaseDelay(cfg, k) <= cfg.maxDelay
    decreases k - j
  {
    if j < k {
      DelaysGrow(cfg, j, k - 1);
      DelayDoubles(cfg, k - 1);
    }
  }

  // Each delay is twice the one before, capped.
  lemma DelayDoubles<R>(cfg: RetryConfig<R>, k: nat)
    requires cfg.Valid()
    ensures BaseDelay(cfg, 0) == cfg.delay
    ensures BaseDelay(cfg, k + 1) ==
            if cfg.delay == 0 || cfg.maxDelay == 0 then cfg.delay
            else if 2 * BaseDelay(cfg, k) < cfg.maxDelay then 2 * BaseDelay(cfg, k) else cfg.maxDelay
  {
    var p := Power2(k);
    assert cfg.delay * (2 * p) == 2 * (cfg.delay * p);
  }

  // ---- the loop ----

  class RetryExecutor<R(==,!new)> {
    const cfg: RetryConfig<R>
    const script: nat -> Attempt<R>
    // The delay after jitter, for the k-th retry.
    const jittered: (nat, nat) -> int

    var failedAttempts: nat
    var retriesExceeded: bool
    var lastDelay: nat

    // How often the inner call ran, and the delays waited, before and after adjustment.
    var calls: nat
    var baseDelays: seq<nat>
    var delays: seq<nat>

    constructor (cfg: RetryConfig<R>, script: nat -> Attempt<R>, jittered: (nat, nat) -> int)
      ensures this.cfg == cfg && this.script == script && this.jittered == jittered
      ensures failedAttempts == 0 && !retriesExceeded
      ensures lastDelay == 0 && calls == 0 && baseDelays == [] && delays == []
    {
      this.cfg, this.script, this.jittered := cfg, script, jittered;
      failedAttempts, retriesExceeded, lastDelay := 0, false, 0;
      calls, baseDelays, delays := 0, [], [];
    }

    method OnFailure(a: Attempt<R>) returns (r: PolicyResult<R>)
      requires a == script(failedAttempts) && a.isFailure
      modifies this`failedAttempts, this`retriesExceeded
      ensures failedAttempts == old(failedAttempts) + 1
      ensures retriesExceeded == RetriesExceeded(cfg, a, failedAttempts)
      ensures r == Judged(cfg, script, old(failedAttempts))
    {
      failedAttempts := failedAttempts + 1;
      var maxRetriesExceeded := failedAttempts > cfg.maxRetries;
      var maxDurationExceeded := cfg.maxDuration != 0 && a.elapsed > cfg.maxDuration;
      retriesExceeded := maxRetriesExceeded || maxDurationExceeded;
      var shouldRetry := !a.isAbortable && !retriesExceeded && cfg.maxRetries > 0;
      if retriesExceeded && !cfg.returnLastFailure {
        return PolicyResult(cfg.zero, Exceeded(a.result, a.error), true, false);
      }
      r := PolicyResult(a.result, a.error, a.isAbortable || !shouldRetry, false);
    }

    method GetFixedDelay(retries: nat) returns (delay: nat)
      requires cfg.Valid() && |baseDelays| == retries
      requires retries > 0 ==> lastDelay == BaseDelay(cfg, retries - 1)
      modifies this`lastDelay, this`baseDelays
      ensures delay == lastDelay == BaseDelay(cfg, retries)
      ensures baseDelays == old(baseDelays) + [delay]
    {
      if retries > 0 {
        DelayDoubles(cfg, retries - 1);
      }
      if cfg.delay != 0 {
        if lastDelay != 0 && retries >= 1 && cfg.maxDelay != 0 {
          var backoff := lastDelay * 2;
          lastDelay := if backoff < cfg.maxDelay then backoff else cfg.maxDelay;
        } else {
          if retries > 0 {
            PositiveDelay(cfg, retries - 1);
          }
          lastDelay := cfg.delay;
        }
      } else {
        lastDelay := 0;
      }
      delay := lastDelay;
      baseDelays := baseDelays + [delay];
    }

    method GetDelay(a: Attempt<R>) returns (delay: nat)
      requires cfg.Valid() && |delays| == |baseDelays|
      requires baseDelays != [] ==> lastDelay == BaseDelay(cfg, |baseDelays| - 1)
      modifies this`lastDelay, this`baseDelays, this`delays
      ensures lastDelay == BaseDelay(cfg, |old(baseDelays)|)
      ensures baseDelays == old(baseDelays) + [lastDelay] && delays == old(delays) + [delay]
      ensures cfg.maxDuration != 0 ==> a.elapsed + delay <= cfg.maxDuration || delay == 0
      // the base delay after jitter, unless that is negative or reaches past the maximum duration
      ensures var wanted := if lastDelay == 0 then 0 else jittered(|old(baseDelays)|, lastDelay);
              && delay <= (if wanted < 0 then 0 else wanted)
              && (0 <= wanted && (cfg.maxDuration == 0 || a.elapsed + wanted <= cfg.maxDuration) ==> delay == wanted)
              && (delay < wanted ==> cfg.maxDuration != 0 && (delay == 0 || a.elapsed + delay == cfg.maxDuration))
    {
      var retries := |baseDelays|;
      var base := GetFixedDelay(retries);
      var d: int := base;
      if d != 0 {
        d := jittered(retries, base);
      }
      if cfg.maxDuration != 0 && cfg.maxDuration - a.elapsed < d {
        d := cfg.maxDuration - a.elapsed;
      }
      delay := if d < 0 then 0 else d;
      delays := delays + [delay];
    }

    // The inner call runs until an attempt is the last one: at most once more than
    // there are retries.
    method Apply() returns (outcome: Outcome<R>)
      requires cfg.Valid()
      requires failedAttempts == 0 && !retriesExceeded
      requires lastDelay == 0 && calls == 0 && baseDelays == [] && delays == []
      modifies this
      ensures 1 <= calls <= cfg.maxRetries + 1
      ensures EndsAt(cfg, script, calls - 1)
      ensures outcome == OutcomeAt(cfg, script, calls - 1)
      ensures |delays| == |baseDelays| <= calls
      ensures forall k | 0 <= k < |baseDelays| :: baseDelays[k] == BaseDelay(cfg, k)
    {
      var previous: Outcome<R> := Cancelled;
      var current: Outcome<R> := Cancelled;
      while true
        invariant !retriesExceeded && failedAttempts == calls <= cfg.maxRetries
        invariant |delays| == |baseDelays| == calls
        invariant baseDelays != [] ==> lastDelay == BaseDelay(cfg, |baseDelays| - 1)
        invariant forall k | 0 <= k < |baseDelays| :: baseDelays[k] == BaseDelay(cfg, k)
        invariant forall k: nat | k < calls :: !Final(cfg, script, k)
        invariant calls == 0 ==> current == Cancelled
        invariant calls > 0 ==> current == Answer(Judged(cfg, script, calls - 1))
        decreases cfg.maxRetries - failedAttempts
      {
        previous := current;
        var a := script(calls);
        calls := calls + 1;
        if a.cancelledAfter {
          return Cancelled;
        }
        var judged: PolicyResult<R>;
        if a.isFailure {
          judged := OnFailure(a);
        } else {
          judged := PolicyResult(a.result, a.error, true, true);
        }
        current := Answer(judged);
        // An attempt that is retried did not exceed the retries.
        assert calls > 1 ==> !Final(cfg, script, calls - 2);
        if judged.done && judged.error in cfg.returnPreviousOn && previous.Answer? {
          return Answer(PolicyResult(previous.value.result, previous.value.error, true, true));
        } else if judged.done {
          return current;
        }
        if a.cancelledOnRecord {
          return Cancelled;
        }
        var delay := GetDelay(a);
        if a.cancelledOnRetry {
          return Cancelled;
        }
      }
      outcome := Cancelled;
    }
  }

  lemma PositiveDelay<R>(cfg: RetryConfig<R>, k: nat)
    requires cfg.Valid() && cfg.delay != 0
    ensures BaseDelay(cfg, k) != 0
  {
    assert cfg.delay * Power2(k) >= cfg.delay;
  }

  // ---- what the outcome means ----

  // Where a run ends is determined, and it is within the retry limit.
  lemma EndIsUnique<R(!new)>(cfg: RetryConfig<R>, script: nat -> Attempt<R>, m: nat, n: nat)
    requires EndsAt(cfg, script, m) && EndsAt(cfg, script, n)
    ensures m == n <= cfg.maxRetries
  {
    assert Final(cfg, script, cfg.maxRetries);
  }

  // A failure that is retried.
  predicate Retried<R>(cfg: RetryConfig<R>, a: Attempt<R>) {
    && a.isFailure && !a.isAbortable
    && !a.cancelledAfter && !a.cancelledOnRecord && !a.cancelledOnRetry
    && (cfg.maxDuration == 0 || a.elapsed <= cfg.maxDuration)
  }

  // After n retried failures an attempt that aborts with a stop sentinel ends the
  // run with the result of the attempt before it, exactly unless the retries are
  // used up and the policy wraps the last failure.
  lemma SentinelGivesPrevious<R(!new)>(cfg: RetryConfig<R>, script: nat -> Attempt<R>, n: nat)
    requires 0 < n <= cfg.maxRetries && forall k: nat | k < n :: Retried(cfg, script(k))
    requires script(n).isFailure && script(n).isAbortable && !script(n).cancelledAfter
    requires script(n).error in cfg.returnPreviousOn
    requires Exceeded(script(n).result, script(n).error) !in cfg.returnPreviousOn
    ensures EndsAt(cfg, script, n)
    ensures var previous := PolicyResult(script(n - 1).result, script(n - 1).error, true, true);
            OutcomeAt(cfg, script, n) == Answer(previous) <==>
                (cfg.returnLastFailure || !RetriesExceeded(cfg, script(n), n + 1))
  {
    forall k: nat | k < n ensures !Final(cfg, script, k) {
      assert Retried(cfg, script(k));
    }
  }

  // After n retried failures a success is what the caller gets.
  lemma SuccessIsReturned<R(!new)>(cfg: RetryConfig<R>, script: nat -> Attempt<R>, n: nat)
    requires n <= cfg.maxRetries && forall k: nat | k < n :: Retried(cfg, script(k))
    requires !script(n).isFailure && !script(n).cancelledAfter && script(n).error !in cfg.returnPreviousOn
    ensures EndsAt(cfg, script, n)
    ensures OutcomeAt(cfg, script, n) == Answer(PolicyResult(script(n).result, script(n).error, true, true))
  {
    forall k: nat | k < n ensures !Final(cfg, script, k) {
      assert Retried(cfg, script(k));
    }
  }

  // Failures all the way use up the retries: the call runs one time more than
  // there are retries, and the caller gets the last failure, wrapped or as it is.
  lemma FailuresExceed<R(!new)>(cfg: RetryConfig<R>, script: nat -> Attempt<R>)
    requires forall k: nat | k < cfg.maxRetries :: Retried(cfg, script(k))
    requires var last := script(cfg.maxRetries);
             && last.isFailure && !last.cancelledAfter && last.error !in cfg.returnPreviousOn
             && Exceeded(last.result, last.error) !in cfg.returnPreviousOn
    ensures EndsAt(cfg, script, cfg.maxRetries)
    ensures var last := script(cfg.maxRetries);
            OutcomeAt(cfg, script, cfg.maxRetries) ==
            Answer(if cfg.returnLastFailure then PolicyResult(last.result, last.error, true, false)
                   else PolicyResult(cfg.zero, Exceeded(last.result, last.error), true, false))
  {
    forall k: nat | k < cfg.maxRetries ensures !Final(cfg, script, k) {
      assert Retried(cfg, script(k));
    }
  }
}
