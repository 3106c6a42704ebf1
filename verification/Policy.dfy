// The composition bulkhead -> retry -> circuit breaker -> operation of
// internal/resilience/policy.go: how often the operation is really called, on values, and
// the policy object.

module PolicySpec {
  import opened Errors
  import opened Environment
  import opened BreakerSpec
  import opened Backoff
  import opened RetrySpec

  /** Every call fails with an error that the retry loop repeats. */
  ghost predicate AlwaysFails(script: Script) {
    forall i: nat :: script.reply(i).err.Some? && IsRetryable(script.reply(i).err.value)
  }

  /**
   * The breaker is open after attempt `j` and the run goes on: the attempt that gets
   * refused is the first one that follows a wait shorter than the open period.
   */
  function LastCall(p: RetryConfig, c: Config, draws: nat -> Fraction, j: int): int
    requires j >= 1
    decreases p.maxAttempts - j
  {
    if j >= p.maxAttempts || Wait(p, j, draws(j)) < c.openDuration then j
    else LastCall(p, c, draws, j + 1)
  }

  /** Calls of an always-failing operation by a run that finds the breaker closed with `left` failures to go. */
  function CallCount(p: RetryConfig, c: Config, draws: nat -> Fraction, left: int): int
    requires left >= 1
  {
    if p.maxAttempts <= left then p.maxAttempts else LastCall(p, c, draws, left)
  }

  /** One attempt of a failing operation, and the run that starts with it. */
  lemma FailingStep(p: RetryConfig, c: Config, env: Env, w: World, attempt: int)
    requires 1 <= attempt <= p.maxAttempts
    requires env.guard == Some(c) && env.ctx.doneAt.None? && AlwaysFails(env.script)
    ensures var o := RunFrom(p, env, w, attempt);
            var w1 := Attempted(env, w).0;
            var next := w1.(now := w1.now + Wait(p, attempt, env.draws(attempt)));
            if !Allow(c, w.breaker, w.now).1 then
              && o.w.calls == w.calls && o.err == Some(CircuitOpen)
              && o.w.breaker == Allow(c, w.breaker, w.now).0
            else
              && w1.calls == w.calls + 1
              && w1.breaker == Fail(c, Allow(c, w.breaker, w.now).0, w1.now)
              && (attempt == p.maxAttempts ==>
                    && o.w.calls == w1.calls && o.w.breaker == w1.breaker
                    && o.err == env.script.reply(w.calls).err)
              && (attempt < p.maxAttempts ==>
                    var rest := RunFrom(p, env, next, attempt + 1);
                    o.w == rest.w && o.err == rest.err)
  {
    RefusalsAreFinal();
    hide IsRetryable, Wait;
  }

  /** The run stops after its call number `last`, with the operation's error only if no attempt is left. */
  ghost predicate CallsAndError(p: RetryConfig, env: Env, w: World, attempt: int, last: int)
    requires 1 <= attempt
  {
    var o := RunFrom(p, env, w, attempt);
    && o.w.calls == w.calls + last - (attempt - 1)
    && o.err == if last == p.maxAttempts && o.w.calls > 0 then env.script.reply(o.w.calls - 1).err
                else Some(CircuitOpen)
  }

  /** The run from an attempt that finds the breaker open since the end of the previous attempt. */
  lemma {:induction false} OpenPhase(p: RetryConfig, c: Config, env: Env, w: World, attempt: int)
    requires p.Valid() && c.Valid() && 2 <= attempt <= p.maxAttempts
    requires env.guard == Some(c) && env.ctx.doneAt.None? && AlwaysFails(env.script)
    requires w.breaker.state == Open && w.now == w.breaker.openedAt + Wait(p, attempt - 1, env.draws(attempt - 1))
    ensures CallsAndError(p, env, w, attempt, LastCall(p, c, env.draws, attempt - 1))
    decreases p.maxAttempts - attempt
  {
    hide RunFrom, Attempted, IsRetryable;
    FailingStep(p, c, env, w, attempt);
    if Wait(p, attempt - 1, env.draws(attempt - 1)) < c.openDuration || attempt == p.maxAttempts {
    } else {
      var w1 := Attempted(env, w).0;
      OpenPhase(p, c, env, w1.(now := w1.now + Wait(p, attempt, env.draws(attempt))), attempt + 1);
    }
  }

  /** The run from an attempt that finds the breaker closed. */
  lemma {:induction false} ClosedPhase(p: RetryConfig, c: Config, env: Env, w: World, attempt: int)
    requires p.Valid() && c.Valid() && 1 <= attempt <= p.maxAttempts
    requires env.guard == Some(c) && env.ctx.doneAt.None? && AlwaysFails(env.script)
    requires w.breaker.state == Closed && 0 <= w.breaker.fails < c.failureThreshold
    ensures CallsAndError(p, env, w, attempt,
                          CallCount(p, c, env.draws, attempt - 1 + c.failureThreshold - w.breaker.fails))
    decreases p.maxAttempts - attempt
  {
    hide RunFrom, Attempted, IsRetryable;
    FailingStep(p, c, env, w, attempt);
    if attempt == p.maxAttempts {
    } else {
      var w1 := Attempted(env, w).0;
      var next := w1.(now := w1.now + Wait(p, attempt, env.draws(attempt)));
      if w1.breaker.state == Closed {
        ClosedPhase(p, c, env, next, attempt + 1);
      } else {
        OpenPhase(p, c, env, next, attempt + 1);
      }
    }
  }

  lemma {:induction false} LastCallBounds(p: RetryConfig, c: Config, draws: nat -> Fraction, j: int)
    requires j >= 1
    ensures j <= LastCall(p, c, draws, j)
    ensures j <= p.maxAttempts ==> LastCall(p, c, draws, j) <= p.maxAttempts
    decreases p.maxAttempts - j
  {
    if j >= p.maxAttempts || Wait(p, j, draws(j)) < c.openDuration {
    } else {
      LastCallBounds(p, c, draws, j + 1);
    }
  }

  /**
   * A run alone against an always-failing operation calls it exactly `CallCount` times and
   * returns the operation's own error if and only if it used every attempt.
   */
  lemma ComposedCallCount(p: RetryConfig, c: Config, env: Env, w: World)
    requires p.Valid() && c.Valid()
    requires env.guard == Some(c) && env.ctx.doneAt.None? && AlwaysFails(env.script)
    requires w.breaker.state == Closed && 0 <= w.breaker.fails < c.failureThreshold
    ensures var o := Run(p, env, w);
            var total := CallCount(p, c, env.draws, c.failureThreshold - w.breaker.fails);
            && 0 < o.w.calls == w.calls + total
            && o.err == if total == p.maxAttempts then env.script.reply(o.w.calls - 1).err else Some(CircuitOpen)
  {
    hide RunFrom;
    ClosedPhase(p, c, env, w, 1);
    LastCallBounds(p, c, env.draws, c.failureThreshold - w.breaker.fails);
  }

  /**
   * The count is the smaller of attempts and failures to go exactly when the attempts do not
   * outnumber the failures to go or the wait after the call that opens the circuit is a short one.
   */
  lemma SmallerCountIff(p: RetryConfig, c: Config, env: Env, w: World)
    requires p.Valid() && c.Valid()
    requires env.guard == Some(c) && env.ctx.doneAt.None? && AlwaysFails(env.script)
    requires w.breaker.state == Closed && 0 <= w.breaker.fails < c.failureThreshold
    ensures var o := Run(p, env, w);
            var left := c.failureThreshold - w.breaker.fails;
            var short := Wait(p, left, env.draws(left)) < c.openDuration;
            && (o.w.calls - w.calls == (if p.maxAttempts <= left then p.maxAttempts else left)
                <==> p.maxAttempts <= left || short)
            && (p.maxAttempts <= left || short ==>
                  o.err == if p.maxAttempts <= left then env.script.reply(o.w.calls - 1).err else Some(CircuitOpen))
  {
    hide RunFrom;
    var left := c.failureThreshold - w.breaker.fails;
    ComposedCallCount(p, c, env, w);
    LastCallBounds(p, c, env.draws, left + 1);
  }

  /** A configuration whose longest wait is shorter than the open period has that count in every run. */
  lemma ShortWaitsCallCount(p: RetryConfig, c: Config, env: Env, w: World)
    requires p.Valid() && c.Valid()
    requires env.guard == Some(c) && env.ctx.doneAt.None? && AlwaysFails(env.script)
    requires w.breaker.state == Closed && 0 <= w.breaker.fails < c.failureThreshold
    requires (if p.jitter then 1.25 else 1.0) * p.maxBackoff as real < c.openDuration as real
    ensures var o := Run(p, env, w);
            var left := c.failureThreshold - w.breaker.fails;
            && o.w.calls - w.calls == (if p.maxAttempts <= left then p.maxAttempts else left)
            && o.err == if p.maxAttempts <= left then env.script.reply(o.w.calls - 1).err else Some(CircuitOpen)
  {
    hide RunFrom;
    SmallerCountIff(p, c, env, w);
    var left := c.failureThreshold - w.breaker.fails;
    WaitBounds(p, left, env.draws(left));
    BaseBounds(p, left);
  }

  /** A run whose call number `k` is the first to succeed, in time for retry and breaker, ends with it. */
  lemma {:induction false} SucceedsAt(p: RetryConfig, c: Config, env: Env, w: World, attempt: int, k: nat)
    requires p.Valid() && c.Valid() && 1 <= attempt && w.calls <= k && attempt + k - w.calls <= p.maxAttempts
    requires env.guard == Some(c) && env.ctx.doneAt.None? && env.script.reply(k).err.None?
    requires forall i :: w.calls <= i < k ==>
               env.script.reply(i).err.Some? && IsRetryable(env.script.reply(i).err.value)
    requires w.breaker.state == Closed && 0 <= w.breaker.fails && w.breaker.fails + k - w.calls < c.failureThreshold
    ensures var o := RunFrom(p, env, w, attempt);
            && o.w.calls == k + 1 && o.err == None && o.result == env.script.reply(k).result
            && o.w.breaker == w.breaker.(fails := 0)
    decreases k - w.calls
  {
    hide IsRetryable, Wait;
    if w.calls == k {
    } else {
      var w1 := Attempted(env, w).0;
      SucceedsAt(p, c, env, w1.(now := w1.now + Wait(p, attempt, env.draws(attempt))), attempt + 1, k);
    }
  }

  // ---- The breaker after the run ----

  /** Once open, a run of failures ends with the breaker open, whatever the waits are. */
  lemma {:induction false} StaysOpenPhase(p: RetryConfig, c: Config, env: Env, w: World, attempt: int)
    requires p.Valid() && c.Valid() && 1 <= attempt <= p.maxAttempts
    requires env.guard == Some(c) && env.ctx.doneAt.None? && AlwaysFails(env.script)
    requires w.breaker.state == Open
    ensures RunFrom(p, env, w, attempt).w.breaker.state == Open
    decreases p.maxAttempts - attempt
  {
    hide RunFrom, Attempted, IsRetryable;
    FailingStep(p, c, env, w, attempt);
    if !Allow(c, w.breaker, w.now).1 || attempt == p.maxAttempts {
    } else {
      var w1 := Attempted(env, w).0;
      StaysOpenPhase(p, c, env, w1.(now := w1.now + Wait(p, attempt, env.draws(attempt))), attempt + 1);
    }
  }

  /** From an attempt that finds the breaker closed: it ends open, or closed with one more failure per attempt. */
  lemma {:induction false} ClosedPhaseEnd(p: RetryConfig, c: Config, env: Env, w: World, attempt: int)
    requires p.Valid() && c.Valid() && 1 <= attempt <= p.maxAttempts
    requires env.guard == Some(c) && env.ctx.doneAt.None? && AlwaysFails(env.script)
    requires w.breaker.state == Closed && 0 <= w.breaker.fails < c.failureThreshold
    ensures var b := RunFrom(p, env, w, attempt).w.breaker;
            var fails := w.breaker.fails + p.maxAttempts - attempt + 1;
            if fails >= c.failureThreshold then b.state == Open
            else b.state == Closed && b.fails == fails
    decreases p.maxAttempts - attempt
  {
    hide RunFrom, Attempted, IsRetryable;
    FailingStep(p, c, env, w, attempt);
    if attempt == p.maxAttempts {
    } else {
      var w1 := Attempted(env, w).0;
      var next := w1.(now := w1.now + Wait(p, attempt, env.draws(attempt)));
      if w1.breaker.state == Closed {
        ClosedPhaseEnd(p, c, env, next, attempt + 1);
      } else {
        StaysOpenPhase(p, c, env, next, attempt + 1);
      }
    }
  }

  /**
   * An always-failing operation leaves the circuit open exactly when the attempts of the run reach
   * the failures to go, whatever the waits are; otherwise each attempt is on record as a failure.
   */
  lemma OpensCircuitIff(p: RetryConfig, c: Config, env: Env, w: World)
    requires p.Valid() && c.Valid()
    requires env.guard == Some(c) && env.ctx.doneAt.None? && AlwaysFails(env.script)
    requires w.breaker.state == Closed && 0 <= w.breaker.fails < c.failureThreshold
    ensures var b := Run(p, env, w).w.breaker;
            && (b.state == Open <==> p.maxAttempts >= c.failureThreshold - w.breaker.fails)
            && (b.state != Open ==> b.state == Closed && b.fails == w.breaker.fails + p.maxAttempts)
  {
    ClosedPhaseEnd(p, c, env, w, 1);
  }

  /** That includes an operation that only ever misses, although callers are told a miss is not retryable. */
  lemma MissesOpenTheCircuit(p: RetryConfig, c: Config, env: Env, w: World)
    requires p.Valid() && c.Valid()
    requires env.guard == Some(c) && env.ctx.doneAt.None?
    requires forall i: nat :: env.script.reply(i) == Reply(None, Some(CacheMiss))
    requires w.breaker.state == Closed && 0 <= w.breaker.fails < c.failureThreshold
    ensures Run(p, env, w).w.breaker.state == Open <==> p.maxAttempts >= c.failureThreshold - w.breaker.fails
    ensures !IsRetryableForCallers(CacheMiss)
  {
    OpensCircuitIff(p, c, env, w);
  }
}

module PolicyClass {
  import opened Errors
  import opened Environment
  import opened BreakerSpec
  import opened BreakerClass
  import opened Backoff
  import opened RetrySpec
  import opened RetryClass
  import opened BulkheadClass

  /** The three patterns; a pattern that is switched off is absent and lets everything through. */
  class Policy {
    const circuitBreaker: CircuitBreaker?
    const retry: RetryPolicy?
    const bulkhead: Bulkhead?

    constructor (breakerCfg: Option<Config>, retryCfg: Option<RetryConfig>, bulkheadCfg: Option<BulkheadConfig>)
      ensures Valid()
      ensures circuitBreaker == null <==> breakerCfg.None?
      ensures retry == null <==> retryCfg.None?
      ensures bulkhead == null <==> bulkheadCfg.None?
      ensures breakerCfg.Some? ==> circuitBreaker.cfg == breakerCfg.value.Normalised() && circuitBreaker.log == []
      ensures retryCfg.Some? ==> retry.cfg == retryCfg.value.Normalised()
      ensures bulkheadCfg.Some? ==> bulkhead.cfg == bulkheadCfg.value.Normalised() && bulkhead.semaphore == 0
    {
      var cb: CircuitBreaker? := null;
      if breakerCfg.Some? {
        cb := new CircuitBreaker(breakerCfg.value);
      }
      var rp: RetryPolicy? := null;
      if retryCfg.Some? {
        rp := new RetryPolicy(retryCfg.value);
      }
      var bh: Bulkhead? := null;
      if bulkheadCfg.Some? {
        bh := new Bulkhead(bulkheadCfg.value);
      }
      circuitBreaker, retry, bulkhead := cb, rp, bh;
    }

    ghost predicate Valid()
      reads circuitBreaker, retry, bulkhead
    {
      && (circuitBreaker != null ==> circuitBreaker.Valid())
      && (retry != null ==> retry.Valid())
      && (bulkhead != null ==> bulkhead.Valid())
    }

    ghost function Frame(): set<object> {
      (if circuitBreaker == null then {} else {circuitBreaker})
      + (if retry == null then {} else {retry})
      + (if bulkhead == null then {} else {bulkhead})
    }

    ghost function WorldAt(op: Operation, clock: Clock): World
      reads circuitBreaker, op, clock
    {
      if circuitBreaker == null then World(clock.now, op.calls, INITIAL, [])
      else World(clock.now, op.calls, circuitBreaker.View(), circuitBreaker.log)
    }

    ghost function Guard(): Option<Config> {
      if circuitBreaker == null then None else Some(circuitBreaker.cfg)
    }

    ghost function EnvOf(ctx: Context, draws: nat -> Fraction, op: Operation): Env {
      Env(Guard(), op.script, ctx, draws)
    }

    /** The nested run of retry and breaker around `op`, from world `w`. */
    ghost function Inner(ctx: Context, draws: nat -> Fraction, op: Operation, w: World): (World, Reply) {
      Answered(if retry == null then None else Some(retry.cfg), EnvOf(ctx, draws, op), w)
    }

    /**
     * One call through all patterns. With a free slot (or no bulkhead) it is the nested run;
     * a caller the bulkhead refuses leaves operation and breaker untouched.
     */
    method ExecuteWithResult(ctx: Context, leaver: Option<Leaver>, draws: nat -> Fraction, op: Operation, clock: Clock)
      returns (r: Reply)
      requires Valid()
      modifies Frame(), op`calls, clock
      ensures Valid()
      ensures var w := old(WorldAt(op, clock));
              if bulkhead == null || old(bulkhead.semaphore) < bulkhead.cfg.Slots() then
                (WorldAt(op, clock), r) == Inner(ctx, draws, op, w)
              else if old(bulkhead.queuedCount) >= bulkhead.cfg.maxQueue then
                r == Reply(None, Some(BulkheadFull)) && WorldAt(op, clock) == w
              else match bulkhead.WakeupAt(ctx, leaver, w.now)
                case Granted(at) => (WorldAt(op, clock), r) == Inner(ctx, draws, op, w.(now := at))
                case Refused(at, e) => r == Reply(None, Some(e)) && WorldAt(op, clock) == w.(now := at)
      // Without retry an accepted call is one call of the operation, recorded once, or the breaker's refusal.
      ensures retry == null && (bulkhead == null || old(bulkhead.semaphore) < bulkhead.cfg.Slots()) ==>
                && MeansCall(Guard(), op.script, old(WorldAt(op, clock)), WorldAt(op, clock), r.err)
                && r.result == if op.calls > old(op.calls) then op.script.reply(old(op.calls)).result else None
      // With retry the calls before the last failed with an error worth repeating, and the last one decides.
      ensures retry != null && (bulkhead == null || old(bulkhead.semaphore) < bulkhead.cfg.Slots()) ==>
                && MeansRun(op.script.reply, circuitBreaker != null, ctx, old(op.calls), op.calls, clock.now,
                            retry.cfg.maxAttempts, r.err)
                && r.result == LastResult(op.script.reply, old(op.calls), op.calls, r.err)
      ensures bulkhead != null && old(bulkhead.semaphore) == bulkhead.cfg.Slots()
              && old(bulkhead.queuedCount) >= bulkhead.cfg.maxQueue ==>
                r == Reply(None, Some(BulkheadFull)) && op.calls == old(op.calls) && clock.now == old(clock.now)
                && (circuitBreaker != null ==> circuitBreaker.log == old(circuitBreaker.log))
    {
      AnsweredMeaning(if retry == null then None else Some(retry.cfg), EnvOf(ctx, draws, op), WorldAt(op, clock));
      hide Answered, IsRetryable, MeansCall, MeansRun, LastResult;
      var attempt := new Attempt(circuitBreaker, op);
      var task := new Task(retry, attempt);
      if bulkhead == null {
        r := task.Run(ctx, draws, clock);
      } else {
        r := bulkhead.ExecuteWithResult(ctx, leaver, draws, task, clock);
      }
    }

    /** The same when only the error is wanted. */
    method Execute(ctx: Context, leaver: Option<Leaver>, draws: nat -> Fraction, op: Operation, clock: Clock)
      returns (err: Option<Error>)
      requires Valid()
      modifies Frame(), op`calls, clock
      ensures Valid()
      ensures var w := old(WorldAt(op, clock));
              if bulkhead == null || old(bulkhead.semaphore) < bulkhead.cfg.Slots() then
                (WorldAt(op, clock), err) == ErrorOnly(Inner(ctx, draws, op, w))
              else if old(bulkhead.queuedCount) >= bulkhead.cfg.maxQueue then
                err == Some(BulkheadFull) && WorldAt(op, clock) == w
              else match bulkhead.WakeupAt(ctx, leaver, w.now)
                case Granted(at) => (WorldAt(op, clock), err) == ErrorOnly(Inner(ctx, draws, op, w.(now := at)))
                case Refused(at, e) => err == Some(e) && WorldAt(op, clock) == w.(now := at)
      // Without retry an accepted call is one call of the operation, recorded once, or the breaker's refusal.
      ensures retry == null && (bulkhead == null || old(bulkhead.semaphore) < bulkhead.cfg.Slots()) ==>
                && MeansCall(Guard(), op.script, old(WorldAt(op, clock)), WorldAt(op, clock), err)
      // With retry the calls before the last failed with an error worth repeating, and the last one decides.
      ensures retry != null && (bulkhead == null || old(bulkhead.semaphore) < bulkhead.cfg.Slots()) ==>
                && MeansRun(op.script.reply, circuitBreaker != null, ctx, old(op.calls), op.calls, clock.now,
                            retry.cfg.maxAttempts, err)
      ensures bulkhead != null && old(bulkhead.semaphore) == bulkhead.cfg.Slots()
              && old(bulkhead.queuedCount) >= bulkhead.cfg.maxQueue ==>
                err == Some(BulkheadFull) && op.calls == old(op.calls) && clock.now == old(clock.now)
                && (circuitBreaker != null ==> circuitBreaker.log == old(circuitBreaker.log))
    {
      AnsweredMeaning(if retry == null then None else Some(retry.cfg), EnvOf(ctx, draws, op), WorldAt(op, clock));
      hide Answered, IsRetryable, MeansCall, MeansRun, LastResult;
      var attempt := new Attempt(circuitBreaker, op);
      var task := new Task(retry, attempt);
      if bulkhead == null {
        err := task.RunCtx(ctx, draws, clock);
      } else {
        err := bulkhead.ExecuteCtx(ctx, leaver, draws, task, clock);
      }
    }
  }
}

module PolicyTheorem {
  import opened Errors
  import opened Environment
  import opened BreakerSpec
  import opened Backoff
  import opened RetrySpec
  import opened PolicySpec
  import opened PolicyClass

  /**
   * The call count for the policy object, whatever the waits: what its nested run does to an
   * always-failing operation, from any world in which its breaker is closed.
   */
  lemma PolicyCallCount(policy: Policy, ctx: Context, draws: nat -> Fraction, op: Operation, w: World)
    requires policy.Valid() && policy.circuitBreaker != null && policy.retry != null
    requires ctx.doneAt.None? && AlwaysFails(op.script)
    requires w.breaker.state == Closed && 0 <= w.breaker.fails < policy.circuitBreaker.cfg.failureThreshold
    ensures var (end, r) := policy.Inner(ctx, draws, op, w);
            var p, c := policy.retry.cfg, policy.circuitBreaker.cfg;
            var total := CallCount(p, c, draws, c.failureThreshold - w.breaker.fails);
            && 0 < end.calls == w.calls + total
            && r.err == (if total == p.maxAttempts then op.script.reply(end.calls - 1).err else Some(CircuitOpen))
            && (end.breaker.state == Open <==> p.maxAttempts >= c.failureThreshold - w.breaker.fails)
  {
    hide RunFrom;
    var env := Env(Some(policy.circuitBreaker.cfg), op.script, ctx, draws);
    ComposedCallCount(policy.retry.cfg, policy.circuitBreaker.cfg, env, w);
    OpensCircuitIff(policy.retry.cfg, policy.circuitBreaker.cfg, env, w);
  }
}
