// The bulkhead object of internal/resilience/bulkhead.go as one caller drives it. What
// other callers do to a full semaphore enters as the one call that leaves it.

module BulkheadClass {
  import opened Errors
  import opened Environment
  import opened BreakerSpec
  import opened Backoff
  import opened RetrySpec
  import opened RetryClass

  datatype BulkheadConfig = BulkheadConfig(maxConcurrent: int, maxQueue: int, acquireTimeout: int) {
    static const DEFAULTS := BulkheadConfig(100, 50, 100_000_000)

    ghost predicate Valid() {
      0 < maxConcurrent && 0 < maxQueue && 0 < acquireTimeout
    }

    /** Replaces every non-positive setting by its default, whatever the others are, as the constructor does. */
    function Normalised(): (c: BulkheadConfig)
      ensures c.Valid() && (Valid() ==> c == this)
      ensures c.maxConcurrent == if 0 < maxConcurrent then maxConcurrent else 100
      ensures c.maxQueue == if 0 < maxQueue then maxQueue else 50
      ensures c.acquireTimeout == if 0 < acquireTimeout then acquireTimeout else 100_000_000
    {
      BulkheadConfig(if maxConcurrent <= 0 then DEFAULTS.maxConcurrent else maxConcurrent,
                     if maxQueue <= 0 then DEFAULTS.maxQueue else maxQueue,
                     if acquireTimeout <= 0 then DEFAULTS.acquireTimeout else acquireTimeout)
    }

    /** The capacity of the semaphore: running and queued calls share it. */
    function Slots(): int {
      maxConcurrent + maxQueue
    }
  }

  ghost function ErrorOnly(end: (World, Reply)): (World, Option<Error>) {
    (end.0, end.1.err)
  }

  /** The closure the bulkhead runs: an attempt, repeated by the retry policy it captured, if any. */
  class Task {
    const retry: RetryPolicy?
    const attempt: Attempt

    constructor (retry: RetryPolicy?, attempt: Attempt)
      ensures this.retry == retry && this.attempt == attempt
    {
      this.retry := retry;
      this.attempt := attempt;
    }

    ghost predicate Valid()
      reads retry, attempt.breaker
    {
      (retry != null ==> retry.Valid()) && attempt.Valid()
    }

    ghost function Frame(): set<object> {
      attempt.Frame() + if retry == null then {} else {retry}
    }

    /** The world and the reply that a run started in `w` ends with. */
    ghost function Expected(ctx: Context, draws: nat -> Fraction, w: World): (World, Reply) {
      Answered(if retry == null then None else Some(retry.cfg), attempt.EnvFor(ctx, draws), w)
    }

    method Run(ctx: Context, draws: nat -> Fraction, clock: Clock) returns (r: Reply)
      requires Valid()
      modifies attempt`invocations, Frame(), attempt.op`calls, clock
      ensures Valid()
      ensures (attempt.WorldAt(clock), r) == Expected(ctx, draws, old(attempt.WorldAt(clock)))
      ensures retry == null ==>
                && MeansCall(attempt.Guard(), attempt.op.script, old(attempt.WorldAt(clock)), attempt.WorldAt(clock),
                             r.err)
                && r.result == if attempt.op.calls > old(attempt.op.calls)
                               then attempt.op.script.reply(old(attempt.op.calls)).result else None
      ensures retry != null ==>
                && MeansRun(attempt.op.script.reply, attempt.breaker != null, ctx, old(attempt.op.calls),
                            attempt.op.calls, clock.now, retry.cfg.maxAttempts, r.err)
                && r.result == LastResult(attempt.op.script.reply, old(attempt.op.calls), attempt.op.calls, r.err)
    {
      AnsweredMeaning(if retry == null then None else Some(retry.cfg), attempt.EnvFor(ctx, draws),
                      attempt.WorldAt(clock));
      hide MeansCall, MeansRun, LastResult;
      if retry == null {
        r := attempt.Call(ctx, draws, clock);
      } else {
        hide RetrySpec.Run, Attempted;
        var result, err := retry.ExecuteWithResult(ctx, draws, attempt, clock);
        r := Reply(result, err);
      }
    }

    /** The same run when only the error is wanted. */
    method RunCtx(ctx: Context, draws: nat -> Fraction, clock: Clock) returns (err: Option<Error>)
      requires Valid()
      modifies attempt`invocations, Frame(), attempt.op`calls, clock
      ensures Valid()
      ensures (attempt.WorldAt(clock), err) == ErrorOnly(Expected(ctx, draws, old(attempt.WorldAt(clock))))
      ensures retry == null ==>
                MeansCall(attempt.Guard(), attempt.op.script, old(attempt.WorldAt(clock)), attempt.WorldAt(clock), err)
      ensures retry != null ==>
                MeansRun(attempt.op.script.reply, attempt.breaker != null, ctx, old(attempt.op.calls),
                         attempt.op.calls, clock.now, retry.cfg.maxAttempts, err)
    {
      AnsweredMeaning(if retry == null then None else Some(retry.cfg), attempt.EnvFor(ctx, draws),
                      attempt.WorldAt(clock));
      hide MeansCall, MeansRun, LastResult;
      if retry == null {
        var r := attempt.Call(ctx, draws, clock);
        err := r.err;
      } else {
        hide RetrySpec.Run, Attempted;
        err := retry.ExecuteCtx(ctx, draws, attempt, clock);
      }
    }
  }

  /** Where a call that holds a slot is on its way. */
  datatype Stage =
    | StillQueued     // has its slot, and is still in the gauge of queued calls
    | NotYetActive    // in no gauge yet
    | Active          // runs, or has returned
    | Counted         // counted as executed, still in the gauge of active calls
    | NoLongerActive  // out of the gauges

  /**
   * The call that gives up its slot while this one waits: when; whether the slot is taken if it comes
   * free at the very instant the wait ends; and where that call was when the wait began.
   */
  datatype Leaver = Leaver(at: int, first: bool, stage: Stage)

  /** What the leaver takes out of a gauge of `active` calls on `slots` slots; where only one answer fits, that. */
  function TakenOut(l: Leaver, slots: int, active: int): int {
    if active > 0 && (l.stage.Active? || l.stage.Counted? || active == slots) then 1 else 0
  }

  /** What it takes out of a gauge of `queued` calls. */
  function Dequeued(l: Leaver, slots: int, active: int, queued: int): int {
    if queued > 0 && l.stage.StillQueued? && active < slots then 1 else 0
  }

  /** Whether it has still to be counted as executed. */
  function AddedBy(l: Leaver): int {
    if l.stage.Counted? || l.stage.NoLongerActive? then 0 else 1
  }

  /** How a caller that found no free slot leaves the queue. */
  datatype Wakeup = Granted(at: int) | Refused(at: int, err: Error)

  predicate GetsSlot(l: Leaver, now: int, stop: int) {
    Later(l.at, now) < stop || (Later(l.at, now) == stop && l.first)
  }

  class Bulkhead {
    const cfg: BulkheadConfig
    var semaphore: int       // slots in use
    var activeCount: int
    var queuedCount: int
    var rejectedCount: int
    var totalExecuted: int

    ghost predicate Valid()
      reads this
    {
      && cfg.Valid()
      && 0 <= semaphore <= cfg.Slots()
      && 0 <= activeCount <= semaphore
      && 0 <= queuedCount && 0 <= rejectedCount && 0 <= totalExecuted
    }

    constructor (raw: BulkheadConfig)
      ensures Valid() && cfg == raw.Normalised()
      ensures semaphore == activeCount == queuedCount == rejectedCount == totalExecuted == 0
    {
      cfg := raw.Normalised();
      semaphore, activeCount, queuedCount, rejectedCount, totalExecuted := 0, 0, 0, 0, 0;
    }

    ghost predicate Gauges(slots: int, active: int, queued: int, rejected: int, executed: int)
      reads this
    {
      && semaphore == slots && activeCount == active && queuedCount == queued
      && rejectedCount == rejected && totalExecuted == executed
    }

    /** The gauges are those given, less what the leaver took out when all `full` slots were in use. */
    ghost predicate AfterLeaver(l: Leaver, full: int, slots: int, active: int, queued: int, rejected: int,
                                executed: int)
      reads this
    {
      Gauges(slots, active - TakenOut(l, full, active), queued - Dequeued(l, full, active, queued), rejected,
             executed + AddedBy(l))
    }

    /**
     * The end of a wait that starts at `now`: a slot given up by another call, the context, or the
     * timeout. When a slot is there at the instant the wait ends, the source may take either.
     */
    function WakeupAt(ctx: Context, leaver: Option<Leaver>, now: int): Wakeup {
      var limit := now + cfg.acquireTimeout;
      var stop := if ctx.DoneBy(limit) then Later(ctx.doneAt.value, now) else limit;
      if leaver.Some? && GetsSlot(leaver.value, now, stop)
      then Granted(Later(leaver.value.at, now))
      else Refused(stop, if ctx.DoneBy(stop) then ctx.reason else BulkheadTimeout)
    }

    method Acquire(ctx: Context, leaver: Option<Leaver>, clock: Clock) returns (err: Option<Error>)
      requires Valid()
      modifies this, clock
      ensures Valid()
      ensures var s, a, q := old(semaphore), old(activeCount), old(queuedCount);
              var j, x := old(rejectedCount), old(totalExecuted);
              if s < cfg.Slots() then
                err == None && Gauges(s + 1, a, q, j, x) && clock.now == old(clock.now)
              else if q >= cfg.maxQueue then
                err == Some(BulkheadFull) && Gauges(s, a, q, j + 1, x) && clock.now == old(clock.now)
              else match WakeupAt(ctx, leaver, old(clock.now))
                case Granted(at) =>
                  && err == None && clock.now == at
                  && AfterLeaver(leaver.value, s, s, a, q, j, x)
                case Refused(at, e) => err == Some(e) && Gauges(s, a, q, j + 1, x) && clock.now == at
      // How a wait ends, and when: by the slot, the context or the timeout.
      ensures old(semaphore) == cfg.Slots() && old(queuedCount) < cfg.maxQueue ==>
                var now := old(clock.now);
                var cancelled := ctx.doneAt.Some? && ctx.doneAt.value <= now + cfg.acquireTimeout;
                var end := if !cancelled then now + cfg.acquireTimeout
                           else if ctx.doneAt.value > now then ctx.doneAt.value else now;
                var free := if leaver.None? then end + 1 else if leaver.value.at > now then leaver.value.at else now;
                if free < end || (free == end && leaver.value.first) then err == None && clock.now == free
                else clock.now == end && err == Some(if cancelled then ctx.reason else BulkheadTimeout)
      // Every refusal is counted once, and nobody else's gauges move unless somebody leaves.
      ensures rejectedCount == old(rejectedCount) + (if err.Some? then 1 else 0)
      ensures leaver.None? || err.Some? ==>
                && activeCount == old(activeCount) && queuedCount == old(queuedCount)
                && totalExecuted == old(totalExecuted) && semaphore == old(semaphore) + (if err.None? then 1 else 0)
    {
      if semaphore < cfg.Slots() {
        semaphore := semaphore + 1;
        return None;
      }
      var currentQueued := queuedCount;
      if currentQueued >= cfg.maxQueue {
        rejectedCount := rejectedCount + 1;
        return Some(BulkheadFull);
      }
      queuedCount := queuedCount + 1;
      match WakeupAt(ctx, leaver, clock.now) {
        case Granted(at) =>
          // The slot passes from the call that leaves to this one.
          queuedCount := queuedCount - Dequeued(leaver.value, semaphore, activeCount, queuedCount - 1);
          activeCount := activeCount - TakenOut(leaver.value, semaphore, activeCount);
          totalExecuted := totalExecuted + AddedBy(leaver.value);
          clock.now := at;
          err := None;
        case Refused(at, e) =>
          clock.now := at;
          rejectedCount := rejectedCount + 1;
          err := Some(e);
      }
      queuedCount := queuedCount - 1;
    }

    method Release()
      requires Valid() && activeCount < semaphore
      modifies this
      ensures Valid()
      ensures Gauges(old(semaphore) - 1, old(activeCount), old(queuedCount), old(rejectedCount), old(totalExecuted))
    {
      semaphore := semaphore - 1;
    }

    /** Runs the task on one slot, which is given back; a refused caller does not run it at all. */
    method ExecuteWithResult(ctx: Context, leaver: Option<Leaver>, draws: nat -> Fraction, task: Task, clock: Clock)
      returns (r: Reply)
      requires Valid() && task.Valid()
      modifies this, task.attempt`invocations, task.Frame(), task.attempt.op`calls, clock
      ensures Valid() && task.Valid()
      ensures var s, a, q := old(semaphore), old(activeCount), old(queuedCount);
              var j, x := old(rejectedCount), old(totalExecuted);
              var w := old(task.attempt.WorldAt(clock));
              if s < cfg.Slots() then
                && (task.attempt.WorldAt(clock), r) == task.Expected(ctx, draws, w)
                && Gauges(s, a, q, j, x + 1)
              else if q >= cfg.maxQueue then
                r == Reply(None, Some(BulkheadFull)) && task.attempt.WorldAt(clock) == w && Gauges(s, a, q, j + 1, x)
              else match WakeupAt(ctx, leaver, w.now)
                case Granted(at) =>
                  && (task.attempt.WorldAt(clock), r) == task.Expected(ctx, draws, w.(now := at))
                  && AfterLeaver(leaver.value, s, s - 1, a, q, j, x + 1)
                case Refused(at, e) =>
                  r == Reply(None, Some(e)) && task.attempt.WorldAt(clock) == w.(now := at) && Gauges(s, a, q, j + 1, x)
      ensures leaver.None? ==>
                && semaphore == old(semaphore) && activeCount == old(activeCount) && queuedCount == old(queuedCount)
                && totalExecuted + rejectedCount == old(totalExecuted) + old(rejectedCount) + 1
                && (rejectedCount == old(rejectedCount) || task.attempt.op.calls == old(task.attempt.op.calls))
    {
      hide task.Expected;
      var err := Acquire(ctx, leaver, clock);
      if err.Some? {
        return Reply(None, err);
      }
      activeCount := activeCount + 1;
      r := task.Run(ctx, draws, clock);
      totalExecuted := totalExecuted + 1;
      activeCount := activeCount - 1;
      Release();
    }

    /** The same when only the error is wanted. */
    method ExecuteCtx(ctx: Context, leaver: Option<Leaver>, draws: nat -> Fraction, task: Task, clock: Clock)
      returns (err: Option<Error>)
      requires Valid() && task.Valid()
      modifies this, task.attempt`invocations, task.Frame(), task.attempt.op`calls, clock
      ensures Valid() && task.Valid()
      ensures var s, a, q := old(semaphore), old(activeCount), old(queuedCount);
              var j, x := old(rejectedCount), old(totalExecuted);
              var w := old(task.attempt.WorldAt(clock));
              if s < cfg.Slots() then
                && (task.attempt.WorldAt(clock), err) == ErrorOnly(task.Expected(ctx, draws, w))
                && Gauges(s, a, q, j, x + 1)
              else if q >= cfg.maxQueue then
                err == Some(BulkheadFull) && task.attempt.WorldAt(clock) == w && Gauges(s, a, q, j + 1, x)
              else match WakeupAt(ctx, leaver, w.now)
                case Granted(at) =>
                  && (task.attempt.WorldAt(clock), err) == ErrorOnly(task.Expected(ctx, draws, w.(now := at)))
                  && AfterLeaver(leaver.value, s, s - 1, a, q, j, x + 1)
                case Refused(at, e) =>
                  err == Some(e) && task.attempt.WorldAt(clock) == w.(now := at) && Gauges(s, a, q, j + 1, x)
      ensures leaver.None? ==>
                && semaphore == old(semaphore) && activeCount == old(activeCount) && queuedCount == old(queuedCount)
                && totalExecuted + rejectedCount == old(totalExecuted) + old(rejectedCount) + 1
                && (rejectedCount == old(rejectedCount) || task.attempt.op.calls == old(task.attempt.op.calls))
    {
      hide task.Expected;
      err := Acquire(ctx, leaver, clock);
      if err.Some? {
        return err;
      }
      activeCount := activeCount + 1;
      err := task.RunCtx(ctx, draws, clock);
      totalExecuted := totalExecuted + 1;
      activeCount := activeCount - 1;
      Release();
    }
  }
}
