// The circuit breaker object of internal/resilience/circuit.go, the operation it
// protects and the clock both read. Nothing else touches the breaker during a call.

module Environment {
  import opened Errors

  newtype byte = x: int | 0 <= x < 256
  type Bytes = seq<byte>

  /** What a Go function of type `func() (any, error)` returns. */
  datatype Reply = Reply(result: Option<Bytes>, err: Option<Error>)

  /** Replies and running times of an operation, call by call. */
  datatype Script = Script(reply: nat -> Reply, took: nat -> nat)

  class Clock {
    var now: int

    constructor (now: int)
      ensures this.now == now
    {
      this.now := now;
    }
  }

  /** A caller-supplied function: it follows a script and counts its own invocations. */
  class Operation {
    const script: Script
    var calls: nat

    constructor (script: Script)
      ensures this.script == script && calls == 0
    {
      this.script := script;
      calls := 0;
    }

    method Call(clock: Clock) returns (r: Reply)
      modifies this`calls, clock
      ensures r == script.reply(old(calls))
      ensures calls == old(calls) + 1
      ensures clock.now == old(clock.now) + script.took(old(calls))
    {
      r := script.reply(calls);
      clock.now := clock.now + script.took(calls);
      calls := calls + 1;
    }
  }
}

module BreakerClass {
  import opened Errors
  import opened Environment
  import opened BreakerSpec

  class CircuitBreaker {
    const cfg: Config
    var state: State
    var openedAt: int
    var consecutiveFails: int
    var consecutiveSuccs: int
    var halfOpenRequests: int
    ghost var log: seq<Event>

    ghost function View(): Breaker
      reads this
    {
      Breaker(state, consecutiveFails, consecutiveSuccs, halfOpenRequests, openedAt)
    }

    /** The fields are what the history of calls says they are. */
    ghost predicate Valid()
      reads this
    {
      cfg.Valid() && View() == Replay(cfg, log)
    }

    constructor (raw: Config)
      ensures Valid()
      ensures cfg == raw.Normalised() && log == []
    {
      cfg := raw.Normalised();
      state := Closed;
      openedAt := 0;
      consecutiveFails := 0;
      consecutiveSuccs := 0;
      halfOpenRequests := 0;
      log := [];
    }

    method ChangeTo(newState: State, now: int)
      modifies this
      ensures View() == TransitionTo(old(View()), newState, now)
      ensures log == old(log) && state == newState
      ensures openedAt == if newState == Open && old(state) != Open then now else old(openedAt)
      ensures old(state) != newState && newState != Open ==> consecutiveSuccs == halfOpenRequests == 0
      ensures old(state) != newState && newState == Closed ==> consecutiveFails == 0
    {
      if state == newState {
        return;
      }
      match newState {
        case Closed =>
          consecutiveFails := 0;
          consecutiveSuccs := 0;
          halfOpenRequests := 0;
        case Open =>
          openedAt := now;
          consecutiveSuccs := 0;
        case HalfOpen =>
          consecutiveSuccs := 0;
          halfOpenRequests := 0;
      }
      state := newState;
    }

    method Allow(now: int) returns (allowed: bool)
      requires Valid()
      modifies this
      ensures Valid() && log == old(log) + [Asked(now)]
      ensures allowed == BreakerSpec.Allow(cfg, old(View()), now).1
    {
      ghost var e := Asked(now);
      ReplaySnoc(cfg, INITIAL, log, e);
      match state {
        case Closed =>
          allowed := true;
        case Open =>
          allowed := false;
          if now - openedAt >= cfg.openDuration {
            ChangeTo(HalfOpen, now);
            halfOpenRequests := 1;
            allowed := true;
          }
        case HalfOpen =>
          allowed := halfOpenRequests < cfg.halfOpenMaxRequests;
          if allowed {
            halfOpenRequests := halfOpenRequests + 1;
          }
      }
      log := log + [e];
    }

    method RecordSuccess(now: int)
      requires Valid()
      modifies this
      ensures Valid() && log == old(log) + [Recorded(true, now)]
    {
      ghost var e := Recorded(true, now);
      ReplaySnoc(cfg, INITIAL, log, e);
      match state {
        case Closed =>
          consecutiveFails := 0;
        case Open =>
        case HalfOpen =>
          consecutiveSuccs := consecutiveSuccs + 1;
          if consecutiveSuccs >= cfg.successThreshold {
            ChangeTo(Closed, now);
          }
      }
      log := log + [e];
    }

    method RecordFailure(now: int)
      requires Valid()
      modifies this
      ensures Valid() && log == old(log) + [Recorded(false, now)]
    {
      ghost var e := Recorded(false, now);
      ReplaySnoc(cfg, INITIAL, log, e);
      match state {
        case Closed =>
          consecutiveFails := consecutiveFails + 1;
          if consecutiveFails >= cfg.failureThreshold {
            ChangeTo(Open, now);
          }
        case Open =>
        case HalfOpen =>
          ChangeTo(Open, now);
      }
      log := log + [e];
    }

    method Reset()
      requires Valid()
      modifies this
      ensures Valid() && log == old(log) + [WasReset]
      ensures state == Closed && consecutiveFails == consecutiveSuccs == halfOpenRequests == 0
      ensures openedAt == old(openedAt)
    {
      ghost var e := WasReset;
      ReplaySnoc(cfg, INITIAL, log, e);
      consecutiveFails := 0;
      consecutiveSuccs := 0;
      halfOpenRequests := 0;
      state := Closed;
      log := log + [e];
    }

    /** One protected call: refused without calling `op`, or called once and recorded once. */
    method Execute(op: Operation, clock: Clock) returns (r: Reply)
      requires Valid()
      modifies this, op`calls, clock
      ensures Valid()
      ensures var granted := BreakerSpec.Allow(cfg, old(View()), old(clock.now)).1;
              if granted then
                && r == op.script.reply(old(op.calls))
                && op.calls == old(op.calls) + 1
                && clock.now == old(clock.now) + op.script.took(old(op.calls))
                && log == old(log) + [Asked(old(clock.now)), Recorded(r.err.None?, clock.now)]
              else
                && r == Reply(None, Some(CircuitOpen))
                && op.calls == old(op.calls)
                && clock.now == old(clock.now)
                && log == old(log) + [Asked(old(clock.now))]
    {
      var allowed := Allow(clock.now);
      if !allowed {
        return Reply(None, Some(CircuitOpen));
      }
      r := op.Call(clock);
      if r.err.Some? {
        RecordFailure(clock.now);
      } else {
        RecordSuccess(clock.now);
      }
    }
  }
}
