// The retry loop of internal/resilience/retry.go, and the attempt it repeats: one
// call of the operation, through the circuit breaker or not.

module RetrySpec {
  import opened Errors
  import opened Environment
  import opened BreakerSpec
  import opened Backoff

  /** A context that becomes done at a fixed time, or never, and says why. */
  datatype Context = Context(doneAt: Option<int>, reason: Error) {
    predicate DoneBy(now: int) {
      doneAt.Some? && doneAt.value <= now
    }
  }

  /** The later of an instant and the present. */
  function Later(t: int, now: int): int {
    if t > now then t else now
  }

  /** What surrounds one run: the guard (if any), the operation, the caller's context, the random draws. */
  datatype Env = Env(guard: Option<Config>, script: Script, ctx: Context, draws: nat -> Fraction)

  /** What a run changes besides the retry counters. */
  datatype World = World(now: int, calls: nat, breaker: Breaker, log: seq<Event>)

  function CallRaw(env: Env, w: World): (World, Reply) {
    (w.(now := w.now + env.script.took(w.calls), calls := w.calls + 1), env.script.reply(w.calls))
  }

  /** One attempt: the guarded or the bare operation. */
  function Attempted(env: Env, w: World): (World, Reply) {
    match env.guard
    case None => CallRaw(env, w)
    case Some(c) =>
      var (b, granted) := Allow(c, w.breaker, w.now);
      var asked := w.(breaker := b, log := w.log + [Asked(w.now)]);
      if !granted then (asked, Reply(None, Some(CircuitOpen)))
      else
        var (called, r) := CallRaw(env, asked);
        (called.(breaker := Record(c, called.breaker, r.err.None?, called.now),
                 log := called.log + [Recorded(r.err.None?, called.now)]), r)
  }

  datatype Outcome = Outcome(w: World, result: Option<Bytes>, err: Option<Error>,
                             attempts: nat, retries: nat, successes: nat, failures: nat, waited: int)

  /** The wait ends when the context does. */
  function Interrupted(env: Env, w: World): World
    requires env.ctx.doneAt.Some?
  {
    w.(now := Later(env.ctx.doneAt.value, w.now))
  }

  /** The run from attempt number `attempt` on. */
  function RunFrom(p: RetryConfig, env: Env, w: World, attempt: int): Outcome
    requires 1 <= attempt
    decreases p.maxAttempts - attempt
  {
    if env.ctx.DoneBy(w.now) then Outcome(w, None, Some(env.ctx.reason), 0, 0, 0, 0, 0)
    else
      var (w1, r) := Attempted(env, w);
      if r.err.None? then Outcome(w1, r.result, None, 1, 0, 1, 0, 0)
      else if !IsRetryable(r.err.value) || attempt >= p.maxAttempts then
        Outcome(w1, None, r.err, 1, 0, 0, 1, 0)
      else
        var wait := Wait(p, attempt, env.draws(attempt));
        if env.ctx.DoneBy(w1.now + wait) then
          Outcome(Interrupted(env, w1), None, Some(env.ctx.reason), 1, 1, 0, 0,
                  Interrupted(env, w1).now - w1.now)
        else
          var rest := RunFrom(p, env, w1.(now := w1.now + wait), attempt + 1);
          rest.(attempts := rest.attempts + 1, retries := rest.retries + 1, waited := rest.waited + wait)
  }

  function Run(p: RetryConfig, env: Env, w: World): Outcome {
    RunFrom(p, env, w, 1)
  }

  /** The reply of a closure: a whole run when there is a retry policy, otherwise a single attempt. */
  function Answered(retry: Option<RetryConfig>, env: Env, w: World): (World, Reply) {
    match retry
    case None => Attempted(env, w)
    case Some(p) =>
      var o := Run(p, env, w);
      (o.w, Reply(o.result, o.err))
  }

  // ---- What every run satisfies ----

  /**
   * A run made calls number `before`, ..., `after - 1`, of at most `attempts`, and ended at `now` with `err`.
   */
  ghost predicate MeansRun(reply: nat -> Reply, guarded: bool, ctx: Context, before: nat, after: nat, now: int,
                           attempts: int, err: Option<Error>)
  {
    && before <= after <= before + attempts
    && (forall i :: before <= i < after - 1 ==> reply(i).err.Some? && IsRetryable(reply(i).err.value))
    && (err.None? <==> before < after && reply(after - 1).err.None?)
    && (err.Some? ==>
          || (guarded && err == Some(CircuitOpen))
          || (ctx.DoneBy(now) && err == Some(ctx.reason))
          || (before < after && err == reply(after - 1).err
              && (!IsRetryable(err.value) || after == before + attempts)))
  }

  /** Every attempt is counted exactly once: as a retry, as a success or as a failure. */
  lemma {:induction false} Conservation(p: RetryConfig, env: Env, w: World, attempt: int)
    requires 1 <= attempt <= p.maxAttempts
    ensures var o := RunFrom(p, env, w, attempt);
            && o.attempts == o.retries + o.successes + o.failures
            && o.successes + o.failures <= 1
            && o.attempts <= p.maxAttempts - attempt + 1
            && (o.err.None? <==> o.successes == 1)
            && (o.err.Some? && o.failures == 0 ==> o.err == Some(env.ctx.reason) && env.ctx.DoneBy(o.w.now))
            && (o.err.Some? ==> o.result.None?)
    decreases p.maxAttempts - attempt
  {
    hide Wait, Attempted, IsRetryable;
    var w1 := Attempted(env, w).0;
    if env.ctx.DoneBy(w.now) || attempt == p.maxAttempts {
    } else {
      Conservation(p, env, w1.(now := w1.now + Wait(p, attempt, env.draws(attempt))), attempt + 1);
    }
  }

  /** A run gives up before its last attempt only on an error that is not worth retrying, or on cancellation. */
  lemma {:induction false} GivesUpOnlyForCause(p: RetryConfig, env: Env, w: World, attempt: int)
    requires 1 <= attempt <= p.maxAttempts
    ensures var o := RunFrom(p, env, w, attempt);
            o.attempts < p.maxAttempts - attempt + 1 && o.err.Some? ==>
              || (o.failures == 1 && !IsRetryable(o.err.value))
              || (o.failures == 0 && o.err.value == env.ctx.reason && env.ctx.DoneBy(o.w.now))
    decreases p.maxAttempts - attempt
  {
    hide Wait, Attempted, IsRetryable;
    if attempt == p.maxAttempts {
    } else {
      var w1 := Attempted(env, w).0;
      GivesUpOnlyForCause(p, env, w1.(now := w1.now + Wait(p, attempt, env.draws(attempt))), attempt + 1);
    }
  }

  /** The result of a run that made those calls. */
  ghost function LastResult(reply: nat -> Reply, before: nat, after: nat, err: Option<Error>): Option<Bytes> {
    if err.None? && before < after then reply(after - 1).result else None
  }

  /** An attempt is one call of the operation, or the breaker's refusal. */
  lemma AttemptMeaning(env: Env, w: World)
    ensures var (w1, r) := Attempted(env, w);
            || (w1.calls == w.calls + 1 && r == env.script.reply(w.calls)
                && w1.now == w.now + env.script.took(w.calls))
            || (env.guard.Some? && w1.calls == w.calls && r == Reply(None, Some(CircuitOpen)) && w1.now == w.now)
  {
  }

  /**
   * What a run is, in terms of the operation's own replies: every call but the last failed with an error
   * worth repeating; success is the last call's; and a run that fails and was not cancelled was refused
   * by the breaker, or ends with the last call's error, which was final or used up the attempts.
   */
  lemma {:induction false} RunMeaning(p: RetryConfig, env: Env, w: World, attempt: int)
    requires 1 <= attempt <= p.maxAttempts
    ensures var o := RunFrom(p, env, w, attempt);
            && MeansRun(env.script.reply, env.guard.Some?, env.ctx, w.calls, o.w.calls, o.w.now,
                        p.maxAttempts - attempt + 1, o.err)
            && o.result == LastResult(env.script.reply, w.calls, o.w.calls, o.err)
    decreases p.maxAttempts - attempt
  {
    AttemptMeaning(env, w);
    RefusalsAreFinal();
    hide Attempted, Wait, IsRetryable;
    if attempt == p.maxAttempts || env.ctx.DoneBy(w.now) {
    } else {
      var w1 := Attempted(env, w).0;
      RunMeaning(p, env, w1.(now := w1.now + Wait(p, attempt, env.draws(attempt))), attempt + 1);
    }
  }

  /** A single attempt calls the operation once and records exactly its outcome, unless the breaker refuses. */
  ghost predicate MeansCall(guard: Option<Config>, script: Script, w: World, w': World, err: Option<Error>) {
    if guard.None? || Allow(guard.value, w.breaker, w.now).1 then
      && err == script.reply(w.calls).err && w'.calls == w.calls + 1 && w'.now == w.now + script.took(w.calls)
      && w'.log == w.log + (if guard.None? then [] else [Asked(w.now), Recorded(err.None?, w'.now)])
    else
      && err == Some(CircuitOpen) && w'.calls == w.calls && w'.now == w.now
      && w'.log == w.log + [Asked(w.now)]
  }

  /** With retry switched off a closure is a single attempt, otherwise a run. */
  lemma AnsweredMeaning(retry: Option<RetryConfig>, env: Env, w: World)
    requires retry.Some? ==> retry.value.Valid()
    ensures var (w', r) := Answered(retry, env, w);
            && (retry.None? ==>
                  && MeansCall(env.guard, env.script, w, w', r.err)
                  && r.result == if w'.calls > w.calls then env.script.reply(w.calls).result else None)
            && (retry.Some? ==>
                  && MeansRun(env.script.reply, env.guard.Some?, env.ctx, w.calls, w'.calls, w'.now,
                              retry.value.maxAttempts, r.err)
                  && r.result == LastResult(env.script.reply, w.calls, w'.calls, r.err))
  {
    if retry.Some? {
      hide RunFrom;
      RunMeaning(retry.value, env, w, 1);
    }
  }

  /**
   * If the context becomes done at the very instant the timer fires, the source may take either; that
   * makes no difference to the run, because the next attempt polls the context before anything else.
   */
  lemma TieMakesNoDifference(p: RetryConfig, env: Env, w: World, attempt: int)
    requires p.Valid() && 1 <= attempt < p.maxAttempts && !env.ctx.DoneBy(w.now)
    requires var (w1, r) := Attempted(env, w);
             && r.err.Some? && IsRetryable(r.err.value)
             && env.ctx.doneAt.Some?
             && var due := w1.now + Wait(p, attempt, env.draws(attempt));
                Later(env.ctx.doneAt.value, w1.now) == due
    ensures var w1 := Attempted(env, w).0;
            var wait := Wait(p, attempt, env.draws(attempt));
            var timerWins := RunFrom(p, env, w1.(now := w1.now + wait), attempt + 1);
            RunFrom(p, env, w, attempt)
            == timerWins.(attempts := timerWins.attempts + 1, retries := timerWins.retries + 1,
                          waited := timerWins.waited + wait)
  {
    hide IsRetryable;
    WaitBounds(p, attempt, env.draws(attempt));
  }

  /** Every recorded outcome stands for one call of the operation, in call order. */
  function OutcomesIn(log: seq<Event>): seq<bool> {
    if log == [] then []
    else OutcomesIn(log[..|log| - 1]) +
         (if log[|log| - 1].Recorded? then [log[|log| - 1].ok] else [])
  }

  function OutcomesOf(script: Script, from: nat, to: nat): seq<bool>
    requires from <= to
  {
    seq(to - from, i requires 0 <= i < to - from => script.reply(from + i).err.None?)
  }

  lemma OutcomesSnoc(log: seq<Event>, e: Event)
    ensures OutcomesIn(log + [e]) == OutcomesIn(log) + (if e.Recorded? then [e.ok] else [])
  {
    assert (log + [e])[..|log|] == log;
  }

  /** Between the two worlds, one right outcome was recorded per call, and the breaker follows its history. */
  ghost predicate Faithful(c: Config, script: Script, w: World, w': World) {
    && w.calls <= w'.calls
    && w'.breaker == Replay(c, w'.log)
    && OutcomesIn(w'.log) == OutcomesIn(w.log) + OutcomesOf(script, w.calls, w'.calls)
  }

  lemma FaithfulChain(c: Config, script: Script, w: World, w': World, w'': World)
    requires Faithful(c, script, w, w') && Faithful(c, script, w', w'')
    ensures Faithful(c, script, w, w'')
  {
    assert OutcomesOf(script, w.calls, w'.calls) + OutcomesOf(script, w'.calls, w''.calls)
        == OutcomesOf(script, w.calls, w''.calls);
  }

  ghost predicate AfterAttempt(env: Env, w: World, w': World) {
    w' == Attempted(env, w).0.(now := w'.now)
  }

  /** Each world follows from the one before by one attempt and some passing of time. */
  ghost predicate Linked(env: Env, chain: seq<World>) {
    forall i :: 0 <= i < |chain| - 1 ==> AfterAttempt(env, chain[i], chain[i + 1])
  }

  /** The attempt that starts in `w` is followed by its whole wait. */
  ghost predicate Waited(p: RetryConfig, env: Env, w: World, attempt: int, now: int)
    requires 1 <= attempt
  {
    now == Attempted(env, w).0.now + Wait(p, attempt, env.draws(attempt))
  }

  /** The last attempt is followed by no wait, by a whole one, or by one that the context cut short. */
  ghost predicate EndsWaiting(p: RetryConfig, env: Env, w: World, attempt: int, now: int)
    requires 1 <= attempt
  {
    var returned := Attempted(env, w).0.now;
    || now == returned
    || (attempt < p.maxAttempts && Waited(p, env, w, attempt, now))
    || (attempt < p.maxAttempts && env.ctx.doneAt.Some? && now == Later(env.ctx.doneAt.value, returned)
        && now <= returned + Wait(p, attempt, env.draws(attempt)))
  }

  /** A run is a chain of attempts and waits: the one after attempt number `k` is the wait computed for it. */
  lemma {:induction false} RunIsChain(p: RetryConfig, env: Env, w: World, attempt: int) returns (chain: seq<World>)
    requires 1 <= attempt <= p.maxAttempts
    ensures |chain| == RunFrom(p, env, w, attempt).attempts + 1 && Linked(env, chain)
    ensures chain[0] == w && chain[|chain| - 1] == RunFrom(p, env, w, attempt).w
    ensures forall i :: 0 <= i < |chain| - 2 ==> Waited(p, env, chain[i], attempt + i, chain[i + 1].now)
    ensures |chain| > 1 ==> EndsWaiting(p, env, chain[|chain| - 2], attempt + |chain| - 2, chain[|chain| - 1].now)
    decreases p.maxAttempts - attempt
  {
    hide IsRetryable, Attempted, Wait;
    var o := RunFrom(p, env, w, attempt);
    var w1 := Attempted(env, w).0;
    var next := w1.(now := w1.now + Wait(p, attempt, env.draws(attempt)));
    if o.attempts == 0 {
      chain := [w];
    } else if o.attempts == 1 && o.w == w1.(now := o.w.now) {
      chain := [w, o.w];
    } else {
      var rest := RunIsChain(p, env, next, attempt + 1);
      chain := [w] + rest;
      assert forall i :: 1 <= i < |chain| ==> chain[i] == rest[i - 1];
      assert Waited(p, env, w, attempt, next.now);
      hide Waited, EndsWaiting;
    }
  }

  lemma FaithfulAtOnce(c: Config, script: Script, w: World)
    requires w.breaker == Replay(c, w.log)
    ensures Faithful(c, script, w, w)
  {
    assert OutcomesOf(script, w.calls, w.calls) == [];
  }

  lemma AttemptRecords(c: Config, env: Env, w: World)
    requires env.guard == Some(c) && w.breaker == Replay(c, w.log)
    ensures Faithful(c, env.script, w, Attempted(env, w).0)
  {
    var asked := w.log + [Asked(w.now)];
    ReplaySnoc(c, INITIAL, w.log, Asked(w.now));
    OutcomesSnoc(w.log, Asked(w.now));
    var w1 := Attempted(env, w).0;
    if w1.calls == w.calls + 1 {
      var e := Recorded(env.script.reply(w.calls).err.None?, w1.now);
      ReplaySnoc(c, INITIAL, asked, e);
      OutcomesSnoc(asked, e);
      assert OutcomesOf(env.script, w.calls, w1.calls) == [e.ok];
    } else {
      assert OutcomesOf(env.script, w.calls, w1.calls) == [];
    }
  }

  lemma {:induction false} FaithfulAlong(c: Config, env: Env, chain: seq<World>)
    requires env.guard == Some(c) && |chain| >= 1 && Linked(env, chain)
    requires chain[0].breaker == Replay(c, chain[0].log)
    ensures Faithful(c, env.script, chain[0], chain[|chain| - 1])
    decreases |chain|
  {
    var last := |chain| - 1;
    if last == 0 {
      FaithfulAtOnce(c, env.script, chain[0]);
    } else {
      FaithfulAlong(c, env, chain[..last]);
      assert AfterAttempt(env, chain[last - 1], chain[last]);
      AttemptRecords(c, env, chain[last - 1]);
      FaithfulChain(c, env.script, chain[0], chain[last - 1], chain[last]);
    }
  }

  /** A guarded run records exactly one outcome per call of the operation, the right one. */
  lemma OneOutcomePerCall(p: RetryConfig, c: Config, env: Env, w: World)
    requires p.Valid() && env.guard == Some(c) && w.breaker == Replay(c, w.log)
    ensures Faithful(c, env.script, w, Run(p, env, w).w)
  {
    var chain := RunIsChain(p, env, w, 1);
    FaithfulAlong(c, env, chain);
  }

  /** A bare run calls the operation once per attempt and leaves the breaker alone. */
  lemma {:induction false} BareRun(p: RetryConfig, env: Env, w: World, attempt: int)
    requires 1 <= attempt <= p.maxAttempts && env.guard.None?
    ensures var o := RunFrom(p, env, w, attempt);
            && o.w.calls == w.calls + o.attempts
            && o.w.breaker == w.breaker && o.w.log == w.log
            && (o.successes == 1 ==> o.attempts > 0 && o.result == env.script.reply(o.w.calls - 1).result)
            && (o.attempts > 0 ==> (o.successes == 1 <==> env.script.reply(o.w.calls - 1).err.None?))
    decreases p.maxAttempts - attempt
  {
    hide Wait, Allow, Record, IsRetryable;
    if attempt == p.maxAttempts {
    } else {
      var w1 := Attempted(env, w).0;
      BareRun(p, env, w1.(now := w1.now + Wait(p, attempt, env.draws(attempt))), attempt + 1);
    }
  }

  // ---- How long a run waits ----

  /** A run waits between its attempts only, each time no longer than the computed wait. */
  lemma WaitStep(p: RetryConfig, env: Env, w: World, attempt: int)
    requires p.Valid() && 1 <= attempt
    ensures var o := RunFrom(p, env, w, attempt);
            var w1 := Attempted(env, w).0;
            var wait := Wait(p, attempt, env.draws(attempt));
            || o.waited == 0
            || (attempt < p.maxAttempts && 0 <= o.waited <= wait)
            || (attempt < p.maxAttempts
                && o.waited == wait + RunFrom(p, env, w1.(now := w1.now + wait), attempt + 1).waited)
  {
    hide IsRetryable, Attempted;
    WaitBounds(p, attempt, env.draws(attempt));
  }

  /** How far jitter can lengthen a wait. */
  function Stretch(p: RetryConfig): real {
    if p.jitter then 1.25 else 1.0
  }

  /** The sum of the capped bases of attempts `first`, ..., `end - 1`. */
  function BaseSum(p: RetryConfig, first: int, end: int): real
    requires first >= 1
    decreases end - first
  {
    if first >= end then 0.0 else Base(p, first) + BaseSum(p, first + 1, end)
  }

  lemma OneMore(n: real, cap: real)
    ensures (n + 1.0) * cap == n * cap + cap
  {
  }

  /** The capped sum is below the geometric sum and below one `maxBackoff` per wait. */
  lemma {:induction false} SumBounds(p: RetryConfig, attempt: int)
    requires p.Valid() && 1 <= attempt <= p.maxAttempts
    ensures 0.0 <= BaseSum(p, attempt, p.maxAttempts) <= GeometricSum(p, attempt, p.maxAttempts)
    ensures BaseSum(p, attempt, p.maxAttempts) <= (p.maxAttempts - attempt) as real * p.maxBackoff as real
    decreases p.maxAttempts - attempt
  {
    if attempt == p.maxAttempts {
    } else {
      BaseBounds(p, attempt);
      hide Base, Uncapped;
      SumBounds(p, attempt + 1);
      OneMore((p.maxAttempts - attempt - 1) as real, p.maxBackoff as real);
    }
  }

  /** With jitter, the waits add up to at most 1.25 times the sum of the bases, capped or not. */
  lemma {:induction false} TotalWait(p: RetryConfig, env: Env, w: World, attempt: int)
    requires p.Valid() && 1 <= attempt <= p.maxAttempts
    ensures 0 <= RunFrom(p, env, w, attempt).waited
    ensures RunFrom(p, env, w, attempt).waited as real <= Stretch(p) * BaseSum(p, attempt, p.maxAttempts)
    decreases p.maxAttempts - attempt
  {
    hide RunFrom, Attempted, Wait;
    WaitStep(p, env, w, attempt);
    SumBounds(p, attempt);
    if attempt == p.maxAttempts {
    } else {
      var w1 := Attempted(env, w).0;
      var wait := Wait(p, attempt, env.draws(attempt));
      WaitBounds(p, attempt, env.draws(attempt));
      SumBounds(p, attempt + 1);
      TotalWait(p, env, w1.(now := w1.now + wait), attempt + 1);
      assert Stretch(p) * BaseSum(p, attempt, p.maxAttempts)
          == Stretch(p) * Base(p, attempt) + Stretch(p) * BaseSum(p, attempt + 1, p.maxAttempts);
    }
  }

  lemma ConfiguredBound(p: RetryConfig)
    requires p.Valid()
    ensures var bound := Stretch(p) * BaseSum(p, 1, p.maxAttempts);
            && bound <= Stretch(p) * GeometricSum(p, 1, p.maxAttempts)
            && bound <= Stretch(p) * ((p.maxAttempts - 1) as real * p.maxBackoff as real)
  {
    SumBounds(p, 1);
    MulMonotone(BaseSum(p, 1, p.maxAttempts), GeometricSum(p, 1, p.maxAttempts), Stretch(p));
    MulMonotone(BaseSum(p, 1, p.maxAttempts), (p.maxAttempts - 1) as real * p.maxBackoff as real, Stretch(p));
  }

  /** The whole run: total wait against the configuration alone. */
  lemma RunWaitBound(p: RetryConfig, env: Env, w: World, waited: int)
    requires p.Valid() && waited == RunFrom(p, env, w, 1).waited
    ensures 0 <= waited
    ensures waited as real <= Stretch(p) * GeometricSum(p, 1, p.maxAttempts)
    ensures waited as real <= Stretch(p) * ((p.maxAttempts - 1) as real * p.maxBackoff as real)
  {
    hide RunFrom, BaseSum, GeometricSum, Stretch;
    TotalWait(p, env, w, 1);
    ConfiguredBound(p);
  }
}

module RetryClass {
  import opened Errors
  import opened Environment
  import opened BreakerSpec
  import opened BreakerClass
  import opened Backoff
  import opened RetrySpec

  /**
   * The closure the retry loop repeats: the operation behind the circuit breaker it
   * captured, or the bare operation when it captured none.
   */
  class Attempt {
    const breaker: CircuitBreaker?
    const op: Operation
    ghost var invocations: nat   // calls of the closure, answered by the operation or by the breaker

    constructor (breaker: CircuitBreaker?, op: Operation)
      ensures this.breaker == breaker && this.op == op && invocations == 0
    {
      invocations := 0;
      this.breaker := breaker;
      this.op := op;
    }

    ghost predicate Valid()
      reads breaker
    {
      breaker != null ==> breaker.Valid()
    }

    ghost function Frame(): set<object> {
      if breaker == null then {} else {breaker}
    }

    ghost function WorldAt(clock: Clock): World
      reads breaker, op, clock
    {
      if breaker == null then World(clock.now, op.calls, INITIAL, [])
      else World(clock.now, op.calls, breaker.View(), breaker.log)
    }

    ghost function Guard(): Option<Config> {
      if breaker == null then None else Some(breaker.cfg)
    }

    ghost function EnvFor(ctx: Context, draws: nat -> Fraction): Env {
      Env(Guard(), op.script, ctx, draws)
    }

    method Call(ghost ctx: Context, ghost draws: nat -> Fraction, clock: Clock) returns (r: Reply)
      requires Valid()
      modifies this`invocations, Frame(), op`calls, clock
      ensures Valid() && invocations == old(invocations) + 1
      ensures (WorldAt(clock), r) == Attempted(EnvFor(ctx, draws), old(WorldAt(clock)))
      ensures if breaker == null || Allow(breaker.cfg, old(breaker.View()), old(clock.now)).1 then
                && r == op.script.reply(old(op.calls)) && op.calls == old(op.calls) + 1
                && clock.now == old(clock.now) + op.script.took(old(op.calls))
                && (breaker != null ==>
                      breaker.log == old(breaker.log) + [Asked(old(clock.now)), Recorded(r.err.None?, clock.now)])
              else
                && r == Reply(None, Some(CircuitOpen)) && op.calls == old(op.calls) && clock.now == old(clock.now)
                && breaker.log == old(breaker.log) + [Asked(old(clock.now))]
    {
      invocations := invocations + 1;
      if breaker == null {
        r := op.Call(clock);
      } else {
        ghost var c, log, t := breaker.cfg, breaker.log, clock.now;
        ReplaySnoc(c, INITIAL, log, Asked(t));
        r := breaker.Execute(op, clock);
        ghost var asked := log + [Asked(t)];
        ghost var e := Recorded(r.err.None?, clock.now);
        ReplaySnoc(c, INITIAL, asked, e);
        assert asked + [e] == log + [Asked(t), e];
      }
    }
  }

  /** The run with outcome `o` has made `attempt - 1` attempts, all to be retried, and continues from `w`. */
  ghost predicate Remains(p: RetryConfig, env: Env, o: Outcome, w: World, attempt: int)
    requires 1 <= attempt
  {
    var rest := RunFrom(p, env, w, attempt);
    && o.w == rest.w && o.result == rest.result && o.err == rest.err
    && o.attempts == rest.attempts + attempt - 1
    && o.retries == rest.retries + attempt - 1
    && o.successes == rest.successes && o.failures == rest.failures
  }

  ghost predicate Ended(o: Outcome, w: World, result: Option<Bytes>, err: Option<Error>,
                        attempts: int, retries: int, successes: int, failures: int)
  {
    && o.w == w && o.result == result && o.err == err
    && o.attempts == attempts && o.retries == retries && o.successes == successes && o.failures == failures
  }

  lemma Unroll(p: RetryConfig, env: Env, o: Outcome, w: World, attempt: int)
    requires 1 <= attempt <= p.maxAttempts && Remains(p, env, o, w, attempt)
    ensures var (w1, r) := Attempted(env, w);
            var wait := Wait(p, attempt, env.draws(attempt));
            if env.ctx.DoneBy(w.now) then
              Ended(o, w, None, Some(env.ctx.reason), attempt - 1, attempt - 1, 0, 0)
            else if r.err.None? then
              Ended(o, w1, r.result, None, attempt, attempt - 1, 1, 0)
            else if !IsRetryable(r.err.value) || attempt == p.maxAttempts then
              Ended(o, w1, None, r.err, attempt, attempt - 1, 0, 1)
            else if env.ctx.DoneBy(w1.now + wait) then
              Ended(o, Interrupted(env, w1), None, Some(env.ctx.reason), attempt, attempt, 0, 0)
            else
              Remains(p, env, o, w1.(now := w1.now + wait), attempt + 1)
  {
    hide IsRetryable, Attempted, Wait;
  }

  class RetryPolicy {
    const cfg: RetryConfig
    var totalRetries: int
    var totalSuccess: int
    var totalFailure: int
    ghost var attempts: int   // calls of their closures by all runs since the last Reset

    ghost predicate Valid()
      reads this
    {
      cfg.Valid() && attempts == totalRetries + totalSuccess + totalFailure
    }

    /** Between a call that is to be repeated and the decision how: one call is not counted yet. */
    ghost predicate Undecided()
      reads this
    {
      cfg.Valid() && attempts == totalRetries + totalSuccess + totalFailure + 1
    }

    ghost predicate Counted(retries: int, success: int, failure: int, tried: int)
      reads this
    {
      totalRetries == retries && totalSuccess == success && totalFailure == failure && attempts == tried
    }

    constructor (raw: RetryConfig)
      ensures Valid() && cfg == raw.Normalised() && attempts == 0
      ensures totalRetries == totalSuccess == totalFailure == 0
    {
      cfg := raw.Normalised();
      totalRetries, totalSuccess, totalFailure, attempts := 0, 0, 0, 0;
    }

    method Reset()
      requires Valid()
      modifies this
      ensures Valid() && attempts == 0
      ensures totalRetries == totalSuccess == totalFailure == 0
    {
      totalRetries := 0;
      totalSuccess := 0;
      totalFailure := 0;
      attempts := 0;
    }

    /** What a finished run did to the world and to the counters. */
    twostate predicate Performed(o: Outcome, fn: Attempt, new clock: Clock)
      reads this, fn, fn.breaker, fn.op, clock
    {
      && fn.invocations == old(fn.invocations) + o.attempts
      && fn.WorldAt(clock) == o.w
      && totalRetries == old(totalRetries) + o.retries
      && totalSuccess == old(totalSuccess) + o.successes
      && totalFailure == old(totalFailure) + o.failures
      && attempts == old(attempts) + o.attempts
    }

    /** The part of an iteration before the decision to wait: poll the context, call, stop if settled. */
    method TryOnce(ctx: Context, ghost draws: nat -> Fraction, fn: Attempt, clock: Clock)
      returns (settled: bool, result: Option<Bytes>, err: Option<Error>)
      requires Valid() && fn.Valid()
      modifies this, fn`invocations, fn.Frame(), fn.op`calls, clock
      ensures fn.Valid() && if settled then Valid() else Undecided()
      ensures fn.invocations - old(fn.invocations) == attempts - old(attempts)
      ensures var w := old(fn.WorldAt(clock));
              var (w1, r) := Attempted(fn.EnvFor(ctx, draws), w);
              if ctx.DoneBy(w.now) then
                && settled && result == None && err == Some(ctx.reason) && fn.WorldAt(clock) == w
                && Counted(old(totalRetries), old(totalSuccess), old(totalFailure), old(attempts))
              else if r.err.None? then
                && settled && result == r.result && err == None && fn.WorldAt(clock) == w1
                && Counted(old(totalRetries), old(totalSuccess) + 1, old(totalFailure), old(attempts) + 1)
              else if !IsRetryable(r.err.value) then
                && settled && result == None && err == r.err && fn.WorldAt(clock) == w1
                && Counted(old(totalRetries), old(totalSuccess), old(totalFailure) + 1, old(attempts) + 1)
              else
                && !settled && err == r.err && fn.WorldAt(clock) == w1
                && Counted(old(totalRetries), old(totalSuccess), old(totalFailure), old(attempts) + 1)
    {
      hide IsRetryable;
      if ctx.DoneBy(clock.now) {
        return true, None, Some(ctx.reason);
      }
      var r := fn.Call(ctx, draws, clock);
      attempts := attempts + 1;
      settled, result, err := true, None, r.err;
      if r.err.None? {
        totalSuccess := totalSuccess + 1;
        result := r.result;
      } else if !IsRetryable(r.err.value) {
        totalFailure := totalFailure + 1;
      } else {
        settled := false;
      }
    }

    /** The wait between two attempts; `ended` when the context is done before the wait is over. */
    method Pause(ctx: Context, draws: nat -> Fraction, attempt: int, clock: Clock) returns (ended: bool)
      requires Undecided() && attempt >= 1
      modifies this, clock
      ensures Valid()
      ensures Counted(old(totalRetries) + 1, old(totalSuccess), old(totalFailure), old(attempts))
      ensures ended <==> ctx.DoneBy(old(clock.now) + Wait(cfg, attempt, draws(attempt)))
      ensures clock.now == if !ended then old(clock.now) + Wait(cfg, attempt, draws(attempt))
                           else if ctx.doneAt.value > old(clock.now) then ctx.doneAt.value
                           else old(clock.now)
    {
      totalRetries := totalRetries + 1;
      var backoff := Wait(cfg, attempt, draws(attempt));
      ended := ctx.DoneBy(clock.now + backoff);
      if !ended {
        clock.now := clock.now + backoff;
      } else if ctx.doneAt.value > clock.now {
        clock.now := ctx.doneAt.value;
      }
    }

    /** The run that returns a result. */
    method ExecuteWithResult(ctx: Context, draws: nat -> Fraction, fn: Attempt, clock: Clock)
      returns (result: Option<Bytes>, err: Option<Error>)
      requires Valid() && fn.Valid()
      modifies this, fn`invocations, fn.Frame(), fn.op`calls, clock
      ensures Valid() && fn.Valid()
      ensures var o := Run(cfg, fn.EnvFor(ctx, draws), old(fn.WorldAt(clock)));
              && result == o.result && err == o.err
              && Performed(o, fn, clock)
      ensures MeansRun(fn.op.script.reply, fn.breaker != null, ctx, old(fn.op.calls), fn.op.calls, clock.now,
                       cfg.maxAttempts, err)
      ensures result == LastResult(fn.op.script.reply, old(fn.op.calls), fn.op.calls, err)
      ensures totalSuccess == old(totalSuccess) + (if err.None? then 1 else 0)
      ensures old(totalFailure) <= totalFailure <= old(totalFailure) + (if err.None? then 0 else 1)
      ensures err.Some? && totalFailure == old(totalFailure) ==> ctx.DoneBy(clock.now) && err == Some(ctx.reason)
      ensures totalRetries - old(totalRetries) + totalSuccess - old(totalSuccess) + totalFailure - old(totalFailure)
           == fn.invocations - old(fn.invocations)
    {
      hide RunFrom, Attempted, IsRetryable, MeansRun, LastResult;
      ghost var env := fn.EnvFor(ctx, draws);
      ghost var w := fn.WorldAt(clock);
      ghost var o := Run(cfg, env, w);
      RunMeaning(cfg, env, w, 1);
      Conservation(cfg, env, w, 1);
      var attempt := 1;
      var lastErr: Option<Error> := None;
      while attempt <= cfg.maxAttempts
        invariant 1 <= attempt <= cfg.maxAttempts
        invariant Valid() && fn.Valid() && w == fn.WorldAt(clock)
        invariant Counted(old(totalRetries) + attempt - 1, old(totalSuccess), old(totalFailure),
                          old(attempts) + attempt - 1)
        invariant fn.invocations == old(fn.invocations) + attempt - 1
        invariant Remains(cfg, env, o, w, attempt)
        decreases cfg.maxAttempts - attempt
      {
        Unroll(cfg, env, o, w, attempt);
        ghost var w1 := Attempted(env, w).0;
        var settled;
        settled, result, lastErr := TryOnce(ctx, draws, fn, clock);
        if settled {
          return result, lastErr;
        }
        if attempt == cfg.maxAttempts {
          break;
        }
        var ended := Pause(ctx, draws, attempt, clock);
        if ended {
          return None, Some(ctx.reason);
        }
        w := w1.(now := w1.now + Wait(cfg, attempt, draws(attempt)));
        attempt := attempt + 1;
      }
      totalFailure := totalFailure + 1;
      return None, lastErr;
    }

    /** The run that returns only an error: same loop, same error, same counters. */
    method ExecuteCtx(ctx: Context, draws: nat -> Fraction, fn: Attempt, clock: Clock)
      returns (err: Option<Error>)
      requires Valid() && fn.Valid()
      modifies this, fn`invocations, fn.Frame(), fn.op`calls, clock
      ensures Valid() && fn.Valid()
      ensures var o := Run(cfg, fn.EnvFor(ctx, draws), old(fn.WorldAt(clock)));
              err == o.err && Performed(o, fn, clock)
      ensures MeansRun(fn.op.script.reply, fn.breaker != null, ctx, old(fn.op.calls), fn.op.calls, clock.now,
                       cfg.maxAttempts, err)
      ensures totalSuccess == old(totalSuccess) + (if err.None? then 1 else 0)
      ensures old(totalFailure) <= totalFailure <= old(totalFailure) + (if err.None? then 0 else 1)
      ensures err.Some? && totalFailure == old(totalFailure) ==> ctx.DoneBy(clock.now) && err == Some(ctx.reason)
      ensures totalRetries - old(totalRetries) + totalSuccess - old(totalSuccess) + totalFailure - old(totalFailure)
           == fn.invocations - old(fn.invocations)
    {
      hide RunFrom, Attempted, IsRetryable, MeansRun, LastResult;
      ghost var env := fn.EnvFor(ctx, draws);
      ghost var w := fn.WorldAt(clock);
      ghost var o := Run(cfg, env, w);
      RunMeaning(cfg, env, w, 1);
      Conservation(cfg, env, w, 1);
      var attempt := 1;
      var lastErr: Option<Error> := None;
      while attempt <= cfg.maxAttempts
        invariant 1 <= attempt <= cfg.maxAttempts
        invariant Valid() && fn.Valid() && w == fn.WorldAt(clock)
        invariant Counted(old(totalRetries) + attempt - 1, old(totalSuccess), old(totalFailure),
                          old(attempts) + attempt - 1)
        invariant fn.invocations == old(fn.invocations) + attempt - 1
        invariant Remains(cfg, env, o, w, attempt)
        decreases cfg.maxAttempts - attempt
      {
        Unroll(cfg, env, o, w, attempt);
        ghost var w1 := Attempted(env, w).0;
        var settled, unused;
        settled, unused, lastErr := TryOnce(ctx, draws, fn, clock);
        if settled {
          return lastErr;
        }
        if attempt == cfg.maxAttempts {
          break;
        }
        var ended := Pause(ctx, draws, attempt, clock);
        if ended {
          return Some(ctx.reason);
        }
        w := w1.(now := w1.now + Wait(cfg, attempt, draws(attempt)));
        attempt := attempt + 1;
      }
      totalFailure := totalFailure + 1;
      return lastErr;
    }
  }
}
