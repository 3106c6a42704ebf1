// The circuit breaker of internal/resilience/circuit.go.
//
// `BreakerSpec` gives every critical section of the breaker as a function on a
// value; `BreakerClass` holds the object that updates its fields in place, proved
// against those functions; `BreakerAutomaton` is an independent, log-based
// description of what a circuit breaker is for, which the breaker refines.
// The clock is an explicit integer number of nanoseconds.

module BreakerSpec {
  datatype State = Closed | Open | HalfOpen

  datatype Config = Config(failureThreshold: int, successThreshold: int,
                           openDuration: int, halfOpenMaxRequests: int)
  {
    static const DEFAULTS := Config(5, 2, 30_000_000_000, 3)

    ghost predicate Valid() {
      && 0 < failureThreshold
      && 0 < successThreshold
      && 0 < openDuration
      && 0 < halfOpenMaxRequests
    }

    /** Replaces every non-positive setting by its default, whatever the others are, as the constructor does. */
    function Normalised(): (c: Config)
      ensures c.Valid() && (Valid() ==> c == this)
      ensures c.failureThreshold == if 0 < failureThreshold then failureThreshold else 5
      ensures c.successThreshold == if 0 < successThreshold then successThreshold else 2
      ensures c.openDuration == if 0 < openDuration then openDuration else 30_000_000_000
      ensures c.halfOpenMaxRequests == if 0 < halfOpenMaxRequests then halfOpenMaxRequests else 3
    {
      Config(if failureThreshold <= 0 then DEFAULTS.failureThreshold else failureThreshold,
             if successThreshold <= 0 then DEFAULTS.successThreshold else successThreshold,
             if openDuration <= 0 then DEFAULTS.openDuration else openDuration,
             if halfOpenMaxRequests <= 0 then DEFAULTS.halfOpenMaxRequests else halfOpenMaxRequests)
    }
  }

  datatype Breaker = Breaker(state: State, fails: int, succs: int, halfOpenRequests: int, openedAt: int)

  // `openedAt` is only ever read after the breaker has been opened once.
  const INITIAL := Breaker(Closed, 0, 0, 0, 0)

  function TransitionTo(b: Breaker, to: State, now: int): Breaker {
    if b.state == to then b
    else match to
      case Closed => Breaker(Closed, 0, 0, 0, b.openedAt)
      case Open => b.(state := Open, succs := 0, openedAt := now)
      case HalfOpen => b.(state := HalfOpen, succs := 0, halfOpenRequests := 0)
  }

  /** The section of `Allow` that runs under the lock, after the unlocked load returned `seen`. */
  function LockedAllow(c: Config, b: Breaker, seen: State, now: int): (Breaker, bool) {
    match seen
    case Closed => (b, true)
    case Open =>
      if now - b.openedAt >= c.openDuration
      then (TransitionTo(b, HalfOpen, now).(halfOpenRequests := 1), true)
      else (b, false)
    case HalfOpen =>
      if b.halfOpenRequests < c.halfOpenMaxRequests
      then (b.(halfOpenRequests := b.halfOpenRequests + 1), true)
      else (b, false)
  }

  /** `Allow` when nothing happens between the load and the lock. */
  function Allow(c: Config, b: Breaker, now: int): (Breaker, bool) {
    LockedAllow(c, b, b.state, now)
  }

  function Succeed(c: Config, b: Breaker, now: int): Breaker {
    match b.state
    case Closed => b.(fails := 0)
    case Open => b
    case HalfOpen =>
      var counted := b.(succs := b.succs + 1);
      if counted.succs >= c.successThreshold then TransitionTo(counted, Closed, now) else counted
  }

  function Fail(c: Config, b: Breaker, now: int): Breaker {
    match b.state
    case Closed =>
      var counted := b.(fails := b.fails + 1);
      if counted.fails >= c.failureThreshold then TransitionTo(counted, Open, now) else counted
    case Open => b
    case HalfOpen => TransitionTo(b, Open, now)
  }

  function Record(c: Config, b: Breaker, ok: bool, now: int): Breaker {
    if ok then Succeed(c, b, now) else Fail(c, b, now)
  }

  function Reset(b: Breaker): Breaker {
    Breaker(Closed, 0, 0, 0, b.openedAt)
  }

  // The history of a breaker whose `Allow` calls each run as one atomic step.

  datatype Event =
    | Asked(now: int)
    | Recorded(ok: bool, now: int)
    | WasReset

  function Step(c: Config, b: Breaker, e: Event): Breaker {
    match e
    case Asked(now) => Allow(c, b, now).0
    case Recorded(ok, now) => Record(c, b, ok, now)
    case WasReset => Reset(b)
  }

  function ReplayFrom(c: Config, b: Breaker, log: seq<Event>): Breaker
    decreases |log|
  {
    if log == [] then b
    else Step(c, ReplayFrom(c, b, log[..|log| - 1]), log[|log| - 1])
  }

  function Replay(c: Config, log: seq<Event>): Breaker {
    ReplayFrom(c, INITIAL, log)
  }

  lemma ReplaySnoc(c: Config, b: Breaker, log: seq<Event>, e: Event)
    ensures ReplayFrom(c, b, log + [e]) == Step(c, ReplayFrom(c, b, log), e)
  {
    assert (log + [e])[..|log|] == log;
  }

  /** What every counter may hold in each state, over every history. */
  ghost predicate WellFormed(c: Config, b: Breaker) {
    match b.state
    case Closed => 0 <= b.fails < c.failureThreshold && b.succs == 0
    case Open => b.succs == 0
    case HalfOpen => 0 <= b.succs < c.successThreshold && 1 <= b.halfOpenRequests <= c.halfOpenMaxRequests
  }

  lemma {:induction false} EveryHistoryWellFormed(c: Config, log: seq<Event>)
    requires c.Valid()
    ensures WellFormed(c, Replay(c, log))
    decreases |log|
  {
    if log == [] {
    } else {
      EveryHistoryWellFormed(c, log[..|log| - 1]);
    }
  }

  /** With an atomic `Allow`, a call moves the breaker only along the four documented edges. */
  ghost predicate Edge(from: State, to: State) {
    || from == to
    || (from == Closed && to == Open)
    || (from == Open && to == HalfOpen)
    || (from == HalfOpen && to == Open)
    || (from == HalfOpen && to == Closed)
  }

  lemma OnlyDocumentedEdges(c: Config, log: seq<Event>, e: Event)
    requires e != WasReset
    ensures Edge(Replay(c, log).state, Replay(c, log + [e]).state)
    ensures Replay(c, log + [e]).state != Replay(c, log).state ==>
              match Replay(c, log).state
              case Closed => e.Recorded? && !e.ok
              case Open => e.Asked? && e.now - Replay(c, log).openedAt >= c.openDuration
              case HalfOpen => e.Recorded?
  {
    ReplaySnoc(c, INITIAL, log, e);
  }

  /** All clock readings in `log` lie before `limit`, and the breaker is never reset. */
  ghost predicate QuietBefore(log: seq<Event>, limit: int) {
    forall i :: 0 <= i < |log| ==> log[i] != WasReset && log[i].now < limit
  }

  /** Open-window safety: an open breaker stays open, keeps its opening time, and refuses everybody. */
  lemma {:induction false} OpenWindow(c: Config, b: Breaker, log: seq<Event>)
    requires b.state == Open
    requires QuietBefore(log, b.openedAt + c.openDuration)
    ensures ReplayFrom(c, b, log) == b
    ensures forall now :: now < b.openedAt + c.openDuration ==> !Allow(c, ReplayFrom(c, b, log), now).1
    decreases |log|
  {
    if log == [] {
    } else {
      OpenWindow(c, b, log[..|log| - 1]);
    }
  }
}

module BreakerAutomaton {
  import opened BreakerSpec
  import opened Outcomes

  // What the breaker is for, told through outcome logs instead of counters.
  datatype Phase =
    | Admitting(outcomes: seq<bool>)                  // every outcome since the circuit was last closed
    | Rejecting(since: int)                           // open since that time
    | Probing(admitted: nat, outcomes: seq<bool>)     // half-open: probes let in, outcomes seen

  /** The last `n` outcomes exist and are all failures. */
  ghost predicate FailedLast(n: int, outcomes: seq<bool>) {
    && 0 <= n <= |outcomes|
    && forall i :: |outcomes| - n <= i < |outcomes| ==> !outcomes[i]
  }

  ghost function Advance(c: Config, p: Phase, e: Event): Phase {
    match e
    case WasReset => Admitting([])
    case Asked(now) => (
      match p
      case Admitting(_) => p
      case Rejecting(since) => if now >= since + c.openDuration then Probing(1, []) else p
      case Probing(n, outcomes) => if n < c.halfOpenMaxRequests then Probing(n + 1, outcomes) else p)
    case Recorded(ok, now) => (
      match p
      case Admitting(outcomes) =>
        if FailedLast(c.failureThreshold, outcomes + [ok]) then Rejecting(now) else Admitting(outcomes + [ok])
      case Rejecting(_) => p
      case Probing(n, outcomes) =>
        if !ok then Rejecting(now)
        else if |outcomes| + 1 == c.successThreshold then Admitting([])
        else Probing(n, outcomes + [ok]))
  }

  ghost function Grants(c: Config, p: Phase, now: int): bool {
    match p
    case Admitting(_) => true
    case Rejecting(since) => now >= since + c.openDuration
    case Probing(n, _) => n < c.halfOpenMaxRequests
  }

  ghost function Follow(c: Config, log: seq<Event>): Phase
    decreases |log|
  {
    if log == [] then Admitting([])
    else Advance(c, Follow(c, log[..|log| - 1]), log[|log| - 1])
  }

  lemma {:induction false} TrailingFailuresMeaning(outcomes: seq<bool>, n: nat)
    ensures FailedLast(n, outcomes) <==> n <= TrailingFailures(outcomes)
    ensures TrailingFailures(outcomes) <= |outcomes|
    decreases |outcomes|
  {
    if outcomes == [] || outcomes[|outcomes| - 1] {
    } else {
      var front := outcomes[..|outcomes| - 1];
      TrailingFailuresMeaning(front, if n == 0 then 0 else n - 1);
      if FailedLast(n, outcomes) && n != 0 {
        assert FailedLast(n - 1, front);
      }
      if n != 0 && FailedLast(n - 1, front) {
        assert FailedLast(n, outcomes);
      }
    }
  }

  ghost predicate Represents(c: Config, b: Breaker, p: Phase) {
    match p
    case Admitting(outcomes) =>
      b.state == Closed && b.succs == 0 && b.fails == TrailingFailures(outcomes) < c.failureThreshold
    case Rejecting(since) =>
      b.state == Open && b.succs == 0 && b.openedAt == since
    case Probing(n, outcomes) =>
      && b.state == HalfOpen
      && b.halfOpenRequests == n
      && b.succs == |outcomes| < c.successThreshold
      && forall i :: 0 <= i < |outcomes| ==> outcomes[i]
  }

  lemma StepRefines(c: Config, b: Breaker, p: Phase, e: Event)
    requires c.Valid() && Represents(c, b, p)
    ensures Represents(c, Step(c, b, e), Advance(c, p, e))
  {
    if e.Recorded? && p.Admitting? {
      var outcomes := p.outcomes + [e.ok];
      assert outcomes[..|p.outcomes|] == p.outcomes;
      TrailingFailuresMeaning(outcomes, c.failureThreshold);
    }
  }

  /** The counters implement the log automaton: same phase and same answer to every request, always. */
  lemma {:induction false} BreakerRefinesAutomaton(c: Config, log: seq<Event>)
    requires c.Valid()
    ensures Represents(c, Replay(c, log), Follow(c, log))
    ensures forall now :: Allow(c, Replay(c, log), now).1 == Grants(c, Follow(c, log), now)
    decreases |log|
  {
    if log == [] {
    } else {
      var front := log[..|log| - 1];
      BreakerRefinesAutomaton(c, front);
      StepRefines(c, Replay(c, front), Follow(c, front), log[|log| - 1]);
    }
  }

  /** In HalfOpen, the breaker closes on exactly the success that completes the threshold, and opens on any failure. */
  lemma LeavesHalfOpenExactly(c: Config, log: seq<Event>, e: Event)
    requires c.Valid() && e != WasReset
    requires Replay(c, log).state == HalfOpen
    ensures Follow(c, log).Probing?
    ensures var seen := Follow(c, log).outcomes;
            && (forall i :: 0 <= i < |seen| ==> seen[i])
            && (Replay(c, log + [e]).state == Closed <==> e.Recorded? && e.ok && |seen| + 1 == c.successThreshold)
            && (Replay(c, log + [e]).state == Open <==> e.Recorded? && !e.ok)
            && (e.Recorded? && !e.ok ==> Replay(c, log + [e]).openedAt == e.now)
  {
    BreakerRefinesAutomaton(c, log);
    BreakerRefinesAutomaton(c, log + [e]);
    assert (log + [e])[..|log|] == log;
  }

  /** In Closed, the breaker opens on exactly the event that completes `failureThreshold` failures in a row. */
  lemma OpensExactlyOnThreshold(c: Config, log: seq<Event>, e: Event)
    requires c.Valid()
    requires Replay(c, log).state == Closed
    ensures Follow(c, log).Admitting?
    ensures Replay(c, log + [e]).state == Open <==>
            e.Recorded? && FailedLast(c.failureThreshold, Follow(c, log).outcomes + [e.ok])
  {
    BreakerRefinesAutomaton(c, log);
    BreakerRefinesAutomaton(c, log + [e]);
    assert (log + [e])[..|log|] == log;
  }
}
