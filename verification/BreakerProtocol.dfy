// Many requests inside one circuit breaker at once. Each request loads the state
// without the lock, later runs the locked section of `Allow` with the value it
// loaded, and, if admitted, later records one outcome. Any interleaving, any
// clock advance and any reset may happen in between.

module BreakerProtocol {
  import opened BreakerSpec
  import opened Counting

  /** Where a request is. An admission ticket names the half-open episode that granted it. */
  datatype Request =
    | Loaded(seen: State)
    | InFlight(ticket: int)   // -1: not admitted by a half-open episode
    | Finished

  // `episode` counts entries to HalfOpen; `admitted` and `openAdmits` count, since the
  // last entry, the requests let in and those among them let in by the Open branch.
  datatype System = System(b: Breaker, now: int, requests: map<nat, Request>, next: nat,
                           episode: nat, admitted: nat, openAdmits: nat)

  datatype Label =
    | Arrive                    // a new request loads the state
    | Decide(r: nat)            // its locked section
    | Ask                       // both at once: an atomic Allow
    | Finish(r: nat, ok: bool)  // RecordSuccess or RecordFailure
    | Tick(d: nat)
    | ResetAll

  ghost predicate Enabled(s: System, l: Label) {
    match l
    case Decide(r) => r in s.requests && s.requests[r].Loaded?
    case Finish(r, _) => r in s.requests && s.requests[r].InFlight?
    case _ => true
  }

  ghost function Begin(now: int): System {
    System(INITIAL, now, map[], 0, 0, 0, 0)
  }

  /** Request `r` runs the locked section of `Allow` having seen state `seen`. */
  ghost function Locked(c: Config, s: System, r: nat, seen: State): System {
    var (b, allowed) := LockedAllow(c, s.b, seen, s.now);
    if !allowed then s.(requests := s.requests[r := Finished])
    else if seen == Open && s.b.state != HalfOpen then
      s.(b := b, requests := s.requests[r := InFlight(s.episode + 1)],
         episode := s.episode + 1, admitted := 1, openAdmits := 1)
    else if seen == Open then
      s.(b := b, requests := s.requests[r := InFlight(s.episode)],
         admitted := s.admitted + 1, openAdmits := s.openAdmits + 1)
    else if seen == HalfOpen && s.b.state == HalfOpen then
      s.(b := b, requests := s.requests[r := InFlight(s.episode)], admitted := s.admitted + 1)
    else
      s.(b := b, requests := s.requests[r := InFlight(-1)])
  }

  ghost function Apply(c: Config, s: System, l: Label): System
    requires Enabled(s, l)
  {
    match l
    case Arrive => s.(requests := s.requests[s.next := Loaded(s.b.state)], next := s.next + 1)
    case Decide(r) => Locked(c, s, r, s.requests[r].seen)
    case Ask => Locked(c, s, s.next, s.b.state).(next := s.next + 1)
    case Finish(r, ok) => s.(b := Record(c, s.b, ok, s.now), requests := s.requests[r := Finished])
    case Tick(d) => s.(now := s.now + d)
    case ResetAll => s.(b := Reset(s.b))
  }

  ghost predicate CanRun(c: Config, s: System, run: seq<Label>)
    decreases |run|
  {
    run == [] || (Enabled(s, run[0]) && CanRun(c, Apply(c, s, run[0]), run[1..]))
  }

  ghost function Run(c: Config, s: System, run: seq<Label>): System
    requires CanRun(c, s, run)
    decreases |run|
  {
    if run == [] then s else Run(c, Apply(c, s, run[0]), run[1..])
  }

  ghost predicate Reachable(c: Config, s: System) {
    exists now, run :: CanRun(c, Begin(now), run) && Run(c, Begin(now), run) == s
  }

  lemma {:induction false} RunAppend(c: Config, s: System, a: seq<Label>, b: seq<Label>)
    requires CanRun(c, s, a) && CanRun(c, Run(c, s, a), b)
    ensures CanRun(c, s, a + b) && Run(c, s, a + b) == Run(c, Run(c, s, a), b)
    decreases |a|
  {
    if a == [] {
      assert a + b == b;
    } else {
      RunAppend(c, Apply(c, s, a[0]), a[1..], b);
      assert (a + b)[1..] == a[1..] + b;
    }
  }

  lemma ReachableExtends(c: Config, s: System, run: seq<Label>)
    requires Reachable(c, s) && CanRun(c, s, run)
    ensures Reachable(c, Run(c, s, run))
  {
    var now, prefix :| CanRun(c, Begin(now), prefix) && Run(c, Begin(now), prefix) == s;
    RunAppend(c, Begin(now), prefix, run);
    assert CanRun(c, Begin(now), prefix + run);
  }

  // ---- Invariant of every interleaving ----

  /** Requests admitted by the current episode whose outcome is still missing. */
  ghost function Outstanding(s: System): nat {
    Count(s.requests, (q: Request) => q == InFlight(s.episode))
  }

  ghost predicate Inv(c: Config, s: System) {
    && (forall r :: r in s.requests ==> r < s.next)
    && (s.b.state == Closed ==> s.b.succs == 0 && 0 <= s.b.fails < c.failureThreshold)
    && (s.b.state == Open ==> s.b.succs == 0)
    && (s.b.state == HalfOpen ==>
          && 0 <= s.b.succs < c.successThreshold
          && 1 <= s.b.halfOpenRequests <= c.halfOpenMaxRequests
          && s.b.succs + Outstanding(s) >= s.b.halfOpenRequests
          && 1 <= s.openAdmits <= s.admitted
          && s.admitted <= (s.openAdmits - 1) * c.halfOpenMaxRequests + s.b.halfOpenRequests)
  }

  /** A locked section that lets a probe in leaves one more outstanding; a new episode starts with one. */
  lemma LockedOutstanding(c: Config, s: System, r: nat, seen: State)
    requires r in s.requests ==> s.requests[r].Loaded?
    ensures var s' := Locked(c, s, r, seen);
            && r in s'.requests && s'.requests == s.requests[r := s'.requests[r]]
            && (s'.episode == s.episode ==>
                  Outstanding(s') == Outstanding(s) + One(s'.requests[r] == InFlight(s.episode)))
            && (s'.episode != s.episode ==> s'.requests[r] == InFlight(s'.episode) && Outstanding(s') >= 1)
  {
    var s' := Locked(c, s, r, seen);
    CountMove(s.requests, r, s'.requests[r], (q: Request) => q == InFlight(s'.episode));
    hide Count;
  }

  lemma OneMoreRound(rounds: int, size: int)
    ensures rounds * size == (rounds - 1) * size + size
  {
  }

  lemma LockedKeepsInv(c: Config, s: System, r: nat, seen: State)
    requires c.Valid() && Inv(c, s)
    requires r <= s.next && (r in s.requests ==> s.requests[r].Loaded?)
    ensures Inv(c, Locked(c, s, r, seen).(next := if r == s.next then s.next + 1 else s.next))
  {
    LockedOutstanding(c, s, r, seen);
    OneMoreRound(s.openAdmits, c.halfOpenMaxRequests);
    hide Outstanding;
  }

  lemma StepKeepsInv(c: Config, s: System, l: Label)
    requires c.Valid() && Inv(c, s) && Enabled(s, l)
    ensures Inv(c, Apply(c, s, l))
  {
    var s' := Apply(c, s, l);
    match l
    case Arrive =>
      CountMove(s.requests, s.next, Loaded(s.b.state), (q: Request) => q == InFlight(s.episode));
    case Decide(r) =>
      LockedKeepsInv(c, s, r, s.requests[r].seen);
    case Ask =>
      LockedKeepsInv(c, s, s.next, s.b.state);
    case Finish(r, ok) =>
      CountMove(s.requests, r, Finished, (q: Request) => q == InFlight(s.episode));
    case Tick(_) =>
    case ResetAll =>
  }

  lemma {:induction false} RunKeepsInv(c: Config, s: System, run: seq<Label>)
    requires c.Valid() && Inv(c, s) && CanRun(c, s, run)
    ensures Inv(c, Run(c, s, run))
    decreases |run|
  {
    if run == [] {
    } else {
      StepKeepsInv(c, s, run[0]);
      RunKeepsInv(c, Apply(c, s, run[0]), run[1..]);
    }
  }

  lemma ReachableInv(c: Config, s: System)
    requires c.Valid() && Reachable(c, s)
    ensures Inv(c, s)
  {
    var now, run :| CanRun(c, Begin(now), run) && Run(c, Begin(now), run) == s;
    RunKeepsInv(c, Begin(now), run);
  }

  /**
   * Half-open never wedges: when every probe slot is taken, somebody who took one has
   * still to report, whatever else is in flight and however stale its view.
   */
  lemma HalfOpenNeverWedges(c: Config, s: System)
    requires c.Valid() && c.successThreshold <= c.halfOpenMaxRequests
    requires Reachable(c, s) && s.b.state == HalfOpen
    requires s.b.halfOpenRequests == c.halfOpenMaxRequests
    ensures exists r :: r in s.requests && s.requests[r] == InFlight(s.episode)
  {
    ReachableInv(c, s);
    var waiting := At(s.requests, (q: Request) => q == InFlight(s.episode));
    assert |waiting| > 0;
    var r :| r in waiting;
  }

  /** The admission bound with the unlocked load as a step of its own. */
  lemma AdmissionBound(c: Config, s: System)
    requires c.Valid() && Reachable(c, s) && s.b.state == HalfOpen
    ensures s.admitted <= (s.openAdmits - 1) * c.halfOpenMaxRequests + s.b.halfOpenRequests
    ensures s.admitted <= s.openAdmits * c.halfOpenMaxRequests
  {
    ReachableInv(c, s);
  }

  // ---- Runs in which every Allow is one atomic step ----

  ghost predicate Atomic(run: seq<Label>) {
    forall i :: 0 <= i < |run| ==> !run[i].Arrive? && !run[i].Decide?
  }

  ghost predicate ExactCount(s: System) {
    s.b.state == HalfOpen ==> s.openAdmits == 1 && s.admitted == s.b.halfOpenRequests
  }

  lemma {:induction false} AtomicRunExact(c: Config, s: System, run: seq<Label>)
    requires CanRun(c, s, run) && Atomic(run) && ExactCount(s)
    ensures ExactCount(Run(c, s, run))
    decreases |run|
  {
    if run == [] {
    } else {
      assert run[0] in run;
      AtomicRunExact(c, Apply(c, s, run[0]), run[1..]);
    }
  }

  /** With an atomic Allow, an episode admits at most `halfOpenMaxRequests` requests. */
  lemma AtomicAdmissionCap(c: Config, now: int, run: seq<Label>)
    requires c.Valid() && CanRun(c, Begin(now), run) && Atomic(run)
    requires Run(c, Begin(now), run).b.state == HalfOpen
    ensures Run(c, Begin(now), run).admitted <= c.halfOpenMaxRequests
  {
    AtomicRunExact(c, Begin(now), run);
    RunKeepsInv(c, Begin(now), run);
  }

  // ---- Building runs ----

  lemma RunOne(c: Config, s: System, l: Label)
    requires Enabled(s, l)
    ensures CanRun(c, s, [l]) && Run(c, s, [l]) == Apply(c, s, l)
  {
    assert [l][1..] == [];
  }

  lemma RunTwo(c: Config, s: System, l: Label, m: Label)
    requires Enabled(s, l) && Enabled(Apply(c, s, l), m)
    ensures CanRun(c, s, [l, m]) && Run(c, s, [l, m]) == Apply(c, Apply(c, s, l), m)
  {
    RunOne(c, Apply(c, s, l), m);
    assert [l, m][1..] == [m];
  }

  ghost predicate NoReset(run: seq<Label>) {
    forall i :: 0 <= i < |run| ==> run[i] != ResetAll
  }

  ghost predicate AllFinished(s: System) {
    forall r :: r in s.requests ==> s.requests[r] == Finished
  }

  /** `n` failing calls, one after the other, complete the failure threshold. */
  lemma {:induction false} Trip(c: Config, s: System, n: nat) returns (run: seq<Label>)
    requires c.Valid() && s.b.state == Closed
    requires 1 <= n && s.b.fails + n == c.failureThreshold
    ensures CanRun(c, s, run) && NoReset(run)
    ensures var t := Run(c, s, run);
            && t.b.state == Open && t.b.succs == 0 && t.b.openedAt == t.now == s.now && t.episode == s.episode
            && (AllFinished(s) ==> AllFinished(t))
            && t.next >= s.next
            && forall r :: r in s.requests && r < s.next ==> r in t.requests && t.requests[r] == s.requests[r]
    decreases n
  {
    run := [Ask, Finish(s.next, false)];
    RunTwo(c, s, Ask, Finish(s.next, false));
    if n > 1 {
      var rest := Trip(c, Run(c, s, run), n - 1);
      RunAppend(c, s, run, rest);
      run := run + rest;
    }
  }

  /** After the open period, `n` succeeding probes, one after the other. */
  lemma {:induction false} Probe(c: Config, s: System, n: nat) returns (run: seq<Label>)
    requires c.Valid() && AllFinished(s) && 1 <= n <= c.halfOpenMaxRequests && n < c.successThreshold
    requires s.b.state == Open && s.b.succs == 0 && s.now - s.b.openedAt >= c.openDuration
    ensures CanRun(c, s, run) && NoReset(run)
    ensures var t := Run(c, s, run);
            t.b.state == HalfOpen && t.b.halfOpenRequests == n && t.b.succs == n && AllFinished(t)
    decreases n
  {
    if n == 1 {
      run := [Ask, Finish(s.next, true)];
      RunTwo(c, s, Ask, Finish(s.next, true));
    } else {
      var before := Probe(c, s, n - 1);
      var t := Run(c, s, before);
      RunTwo(c, t, Ask, Finish(t.next, true));
      RunAppend(c, s, before, [Ask, Finish(t.next, true)]);
      run := before + [Ask, Finish(t.next, true)];
    }
  }

  // ---- Recovery ----

  ghost predicate CanRecover(c: Config, s: System) {
    exists run :: CanRun(c, s, run) && NoReset(run) && Run(c, s, run).b.state == Closed
  }

  lemma {:induction false} RecoverFromHalfOpen(c: Config, s: System) returns (run: seq<Label>)
    requires c.Valid() && c.successThreshold <= c.halfOpenMaxRequests
    requires Inv(c, s) && s.b.state == HalfOpen
    ensures CanRun(c, s, run) && NoReset(run) && Run(c, s, run).b.state == Closed
    decreases c.successThreshold - s.b.succs
  {
    var waiting := At(s.requests, (q: Request) => q == InFlight(s.episode));
    if waiting != {} {
      var r :| r in waiting;
      run := [Finish(r, true)];
      RunOne(c, s, run[0]);
    } else {
      run := [Ask, Finish(s.next, true)];
      RunTwo(c, s, run[0], run[1]);
    }
    RunKeepsInv(c, s, run);
    if Run(c, s, run).b.state != Closed {
      var rest := RecoverFromHalfOpen(c, Run(c, s, run));
      RunAppend(c, s, run, rest);
      run := run + rest;
    }
  }

  lemma Recover(c: Config, s: System)
    requires c.Valid() && c.successThreshold <= c.halfOpenMaxRequests && Inv(c, s)
    ensures CanRecover(c, s)
  {
    var run: seq<Label> := [];
    if s.b.state == Open {
      var due := s.b.openedAt + c.openDuration - s.now;
      run := [Tick(if due > 0 then due else 0), Ask];
      RunTwo(c, s, run[0], run[1]);
      RunKeepsInv(c, s, run);
    }
    var t := Run(c, s, run);
    if t.b.state == HalfOpen {
      var rest := RecoverFromHalfOpen(c, t);
      RunAppend(c, s, run, rest);
      run := run + rest;
    }
    assert CanRun(c, s, run) && NoReset(run);
  }

  /** Every slot taken and nobody left to report. */
  ghost predicate Dead(c: Config, s: System) {
    && s.b.state == HalfOpen
    && s.b.halfOpenRequests == c.halfOpenMaxRequests
    && forall r :: r in s.requests ==> s.requests[r] in {Finished, Loaded(HalfOpen)}
  }

  /** From a dead state nothing but `Reset` helps: at every later time every request is refused. */
  lemma {:induction false} DeadForever(c: Config, s: System, run: seq<Label>)
    requires Dead(c, s) && CanRun(c, s, run) && NoReset(run)
    ensures Dead(c, Run(c, s, run))
    ensures forall now :: !Allow(c, Run(c, s, run).b, now).1
    decreases |run|
  {
    if run == [] {
    } else {
      assert run[0] in run;
      DeadForever(c, Apply(c, s, run[0]), run[1..]);
    }
  }

  /** The sequential all-success run that ends in a dead state when the thresholds are inverted. */
  lemma ReachDead(c: Config) returns (s: System)
    requires c.Valid() && c.halfOpenMaxRequests < c.successThreshold
    ensures Reachable(c, s) && Dead(c, s)
  {
    assert CanRun(c, Begin(0), []);
    var run := Trip(c, Begin(0), c.failureThreshold);
    ReachableExtends(c, Begin(0), run);
    var open := Run(c, Begin(0), run);
    RunOne(c, open, Tick(c.openDuration));
    ReachableExtends(c, open, [Tick(c.openDuration)]);
    var due := Apply(c, open, Tick(c.openDuration));
    run := Probe(c, due, c.halfOpenMaxRequests);
    ReachableExtends(c, due, run);
    s := Run(c, due, run);
  }

  /**
   * Without `Reset`, the breaker can always close again, from every reachable state,
   * exactly when the success threshold fits into the half-open admission limit. The
   * constructor does not check this.
   */
  lemma RecoveryIff(c: Config)
    requires c.Valid()
    ensures (forall s :: Reachable(c, s) ==> CanRecover(c, s)) <==> c.successThreshold <= c.halfOpenMaxRequests
  {
    if c.successThreshold <= c.halfOpenMaxRequests {
      forall s | Reachable(c, s) ensures CanRecover(c, s) {
        ReachableInv(c, s);
        Recover(c, s);
      }
    } else {
      var s := ReachDead(c);
      forall run | CanRun(c, s, run) && NoReset(run) ensures Run(c, s, run).b.state != Closed {
        DeadForever(c, s, run);
      }
      assert !CanRecover(c, s);
    }
  }

  // ---- The admission bound is tight ----

  lemma {:induction false} LoadMany(c: Config, s: System, k: nat) returns (run: seq<Label>)
    ensures CanRun(c, s, run) && NoReset(run)
    ensures var t := Run(c, s, run);
            && t == s.(requests := t.requests, next := s.next + k)
            && forall i :: s.next <= i < s.next + k ==> i in t.requests && t.requests[i] == Loaded(s.b.state)
    decreases k
  {
    if k == 0 {
      run := [];
    } else {
      var before := LoadMany(c, s, k - 1);
      var t := Run(c, s, before);
      RunOne(c, t, Arrive);
      RunAppend(c, s, before, [Arrive]);
      run := before + [Arrive];
    }
  }

  /** Atomic requests fill the slots that are left in a half-open episode. */
  lemma {:induction false} FillSlots(c: Config, s: System) returns (run: seq<Label>)
    requires s.b.state == HalfOpen && s.b.halfOpenRequests <= c.halfOpenMaxRequests
    ensures CanRun(c, s, run)
    ensures var t := Run(c, s, run);
            && t.b == s.b.(halfOpenRequests := c.halfOpenMaxRequests)
            && t.now == s.now && t.openAdmits == s.openAdmits && t.next >= s.next
            && t.admitted == s.admitted + c.halfOpenMaxRequests - s.b.halfOpenRequests
            && forall i :: i in s.requests && i < s.next ==> i in t.requests && t.requests[i] == s.requests[i]
    decreases c.halfOpenMaxRequests - s.b.halfOpenRequests
  {
    if s.b.halfOpenRequests == c.halfOpenMaxRequests {
      run := [];
    } else {
      RunOne(c, s, Ask);
      var rest := FillSlots(c, Apply(c, s, Ask));
      RunAppend(c, s, [Ask], rest);
      run := [Ask] + rest;
    }
  }

  /** `j` requests that loaded Open decide late, each followed by as many probes as the reset counter lets in. */
  lemma {:induction false} StaleRounds(c: Config, s: System, first: nat, j: nat) returns (run: seq<Label>)
    requires c.Valid() && j >= 1 && first + j <= s.next
    requires s.b.state == Open && s.now - s.b.openedAt >= c.openDuration
    requires forall i :: first <= i < s.next ==> i in s.requests && s.requests[i] == Loaded(Open)
    ensures CanRun(c, s, run)
    ensures var t := Run(c, s, run);
            && t.b.state == HalfOpen && t.b.halfOpenRequests == c.halfOpenMaxRequests
            && t.now == s.now && t.b.openedAt == s.b.openedAt && t.next >= s.next
            && t.openAdmits == j && t.admitted == j * c.halfOpenMaxRequests
            && forall i :: first + j <= i < s.next ==> i in t.requests && t.requests[i] == Loaded(Open)
    decreases j
  {
    run := [];
    if j > 1 {
      run := StaleRounds(c, s, first, j - 1);
    }
    var t := Run(c, s, run);
    var decide := Decide(first + j - 1);
    RunOne(c, t, decide);
    RunAppend(c, s, run, [decide]);
    var fill := FillSlots(c, Apply(c, t, decide));
    RunAppend(c, s, run + [decide], fill);
    run := run + [decide] + fill;
  }

  /** Nothing smaller than the bound of `AdmissionBound` holds: k stale readers admit k full rounds. */
  lemma AdmissionBoundTight(c: Config, k: nat) returns (s: System)
    requires c.Valid() && k >= 1
    ensures Reachable(c, s) && s.b.state == HalfOpen
    ensures s.openAdmits == k && s.admitted == k * c.halfOpenMaxRequests
  {
    assert CanRun(c, Begin(0), []);
    var run := Trip(c, Begin(0), c.failureThreshold);
    ReachableExtends(c, Begin(0), run);
    var open := Run(c, Begin(0), run);
    run := LoadMany(c, open, k);
    ReachableExtends(c, open, run);
    var loaded := Run(c, open, run);
    RunOne(c, loaded, Tick(c.openDuration));
    ReachableExtends(c, loaded, [Tick(c.openDuration)]);
    var due := Apply(c, loaded, Tick(c.openDuration));
    run := StaleRounds(c, due, open.next, k);
    ReachableExtends(c, due, run);
    s := Run(c, due, run);
  }

  // ---- The open window with the unlocked load ----

  lemma {:induction false} NowGrows(c: Config, s: System, run: seq<Label>)
    requires CanRun(c, s, run)
    ensures s.now <= Run(c, s, run).now
    decreases |run|
  {
    if run == [] {
    } else {
      NowGrows(c, Apply(c, s, run[0]), run[1..]);
    }
  }

  /** The step lets request `r` in. */
  ghost predicate LetsIn(c: Config, s: System, l: Label, r: nat)
    requires Enabled(s, l)
  {
    var s' := Apply(c, s, l);
    r in s'.requests && s'.requests[r].InFlight? && !(r in s.requests && s.requests[r].InFlight?)
  }

  /**
   * While the circuit is open, a locked section lets its request in exactly when the request had loaded
   * Closed, or HalfOpen with a probe slot left over from the last half-open episode, or Open and the
   * period is over. An atomic `Allow` lets one in only in the last case.
   */
  lemma LetsInWhileOpenIff(c: Config, s: System, r: nat)
    requires s.b.state == Open
    ensures Enabled(s, Decide(r)) ==>
              (LetsIn(c, s, Decide(r), r) <==>
                match s.requests[r].seen
                case Closed => true
                case HalfOpen => s.b.halfOpenRequests < c.halfOpenMaxRequests
                case Open => s.now - s.b.openedAt >= c.openDuration)
    ensures s.next !in s.requests ==>
              (LetsIn(c, s, Ask, s.next) <==> s.now - s.b.openedAt >= c.openDuration)
  {
  }

  /** One step inside the open window. */
  lemma OpenWindowStep(c: Config, s: System, l: Label)
    requires c.Valid() && Inv(c, s) && Enabled(s, l) && l != ResetAll
    requires s.b.state == Open && Apply(c, s, l).now < s.b.openedAt + c.openDuration
    ensures var s' := Apply(c, s, l);
            && s'.b.state == Open && s'.b.openedAt == s.b.openedAt && s'.episode == s.episode
            && forall r :: LetsIn(c, s, l, r) ==>
                 r in s.requests && s.requests[r].Loaded? && s.requests[r].seen != Open
  {
  }

  /** Where a request that is in flight, or about to be let in, stood one step before. */
  lemma BeforeStep(c: Config, s: System, l: Label, r: nat)
    requires c.Valid() && Inv(c, s) && Enabled(s, l) && l != ResetAll
    requires s.b.state == Open && Apply(c, s, l).now < s.b.openedAt + c.openDuration
    requires r in Apply(c, s, l).requests
    requires var q := Apply(c, s, l).requests[r]; q.InFlight? || (q.Loaded? && q.seen != Open)
    ensures r in s.requests && (s.requests[r].InFlight? || (s.requests[r].Loaded? && s.requests[r].seen != Open))
  {
    OpenWindowStep(c, s, l);
  }

  /**
   * In every interleaving the circuit stays open, with its opening time and episode, until the period is
   * over, whatever late outcomes are recorded. Whoever is let in before that had loaded Closed or
   * HalfOpen already when the window began; whoever loads the state in the window is refused.
   */
  lemma {:induction false} OpenWindowInterleaved(c: Config, s: System, run: seq<Label>)
    requires c.Valid() && Inv(c, s) && CanRun(c, s, run) && NoReset(run)
    requires s.b.state == Open && Run(c, s, run).now < s.b.openedAt + c.openDuration
    ensures var t := Run(c, s, run);
            && t.b.state == Open && t.b.openedAt == s.b.openedAt && t.episode == s.episode
            && forall r :: r in t.requests && t.requests[r].InFlight? ==>
                 r in s.requests && (s.requests[r].InFlight? || (s.requests[r].Loaded? && s.requests[r].seen != Open))
    decreases |run|
  {
    if run == [] {
    } else {
      var l, s' := run[0], Apply(c, s, run[0]);
      assert l != ResetAll;
      NowGrows(c, s', run[1..]);
      OpenWindowStep(c, s, l);
      StepKeepsInv(c, s, l);
      OpenWindowInterleaved(c, s', run[1..]);
      var t := Run(c, s, run);
      forall r | r in t.requests && t.requests[r].InFlight?
        ensures r in s.requests && (s.requests[r].InFlight? || (s.requests[r].Loaded? && s.requests[r].seen != Open))
      {
        BeforeStep(c, s, l, r);
      }
    }
  }

  /** Under every configuration a reader of Closed can be let in while the circuit is open, at the moment it opened. */
  lemma StaleReaderLetInWhileOpen(c: Config) returns (run: seq<Label>, r: nat)
    requires c.Valid()
    ensures CanRun(c, Begin(0), run) && NoReset(run)
    ensures var s := Run(c, Begin(0), run);
            s.b.state == Open && s.now == s.b.openedAt && Enabled(s, Decide(r)) && LetsIn(c, s, Decide(r), r)
  {
    r := 0;
    RunOne(c, Begin(0), Arrive);
    var trip := Trip(c, Apply(c, Begin(0), Arrive), c.failureThreshold);
    RunAppend(c, Begin(0), [Arrive], trip);
    run := [Arrive] + trip;
  }

  // ---- Which steps leave the documented edges ----

  /** A request that loaded Open has still to run its locked section, the circuit is closed, and the period is over. */
  ghost predicate StaleDecision(c: Config, s: System, l: Label)
    requires Enabled(s, l)
  {
    l.Decide? && s.requests[l.r] == Loaded(Open) && s.b.state == Closed && s.now - s.b.openedAt >= c.openDuration
  }

  /**
   * With the unlocked load, exactly one kind of step takes the breaker along an edge that is not
   * documented: the late locked section of a reader of Open, which drags a closed circuit to half-open.
   */
  lemma UndocumentedEdgeIff(c: Config, s: System, l: Label)
    requires c.Valid() && Inv(c, s) && Enabled(s, l) && l != ResetAll
    ensures !Edge(s.b.state, Apply(c, s, l).b.state) <==> StaleDecision(c, s, l)
    ensures StaleDecision(c, s, l) ==> Apply(c, s, l).b.state == HalfOpen
  {
  }

  /** `n` requests that loaded Open decide late and succeed one after the other; each is let in. */
  lemma {:induction false} StaleSuccesses(c: Config, s: System, first: nat, n: nat) returns (run: seq<Label>)
    requires c.Valid() && 1 <= n <= c.successThreshold && first + n <= s.next
    requires s.b.state == Open && s.b.succs == 0 && s.now - s.b.openedAt >= c.openDuration
    requires forall i :: first <= i < s.next ==> i in s.requests && s.requests[i] == Loaded(Open)
    ensures CanRun(c, s, run) && NoReset(run)
    ensures var t := Run(c, s, run);
            && (if n < c.successThreshold then t.b.state == HalfOpen && t.b.succs == n else t.b.state == Closed)
            && t.now == s.now && t.b.openedAt == s.b.openedAt
            && forall i :: first + n <= i < s.next ==> i in t.requests && t.requests[i] == Loaded(Open)
    decreases n
  {
    run := [];
    if n > 1 {
      run := StaleSuccesses(c, s, first, n - 1);
    }
    var t := Run(c, s, run);
    var r := first + n - 1;
    RunTwo(c, t, Decide(r), Finish(r, true));
    RunAppend(c, s, run, [Decide(r), Finish(r, true)]);
    run := run + [Decide(r), Finish(r, true)];
  }

  /**
   * Under every configuration a run without any reset closes the circuit through successful probes
   * and leaves a stale reader behind that can drag it back into half-open.
   */
  lemma StaleReaderReopensClosed(c: Config) returns (run: seq<Label>, r: nat)
    requires c.Valid()
    ensures CanRun(c, Begin(0), run) && NoReset(run)
    ensures var s := Run(c, Begin(0), run);
            s.b.state == Closed && Enabled(s, Decide(r)) && Apply(c, s, Decide(r)).b.state == HalfOpen
  {
    var n := c.successThreshold;
    run := Trip(c, Begin(0), c.failureThreshold);
    var open := Run(c, Begin(0), run);
    r := open.next + n;
    var load := LoadMany(c, open, n + 1);
    RunAppend(c, Begin(0), run, load);
    run := run + load;
    var loaded := Run(c, Begin(0), run);
    RunOne(c, loaded, Tick(c.openDuration));
    RunAppend(c, Begin(0), run, [Tick(c.openDuration)]);
    run := run + [Tick(c.openDuration)];
    var due := Run(c, Begin(0), run);
    var probes := StaleSuccesses(c, due, open.next, n);
    RunAppend(c, Begin(0), run, probes);
    run := run + probes;
  }
}
