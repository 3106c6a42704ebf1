// `GetOrCreate` of internal/cache/manager.go for one key and a level that includes the
// memory layer: any number of concurrent callers around one singleflight group. `Do` is a
// primitive: while a call for the key is in flight, later callers wait for its outcome.
// The memory layer, `Marshal` and `Unmarshal` succeed; the manager stays open.

module SingleFlight {
  import opened Errors
  import opened Environment

  datatype Outcome = Got(value: Bytes) | Fails

  /** What Redis says to a lookup: the policy refusing it counts as a failure. */
  datatype Answer = Hit(value: Bytes) | Miss | Unavailable

  datatype Caller =
    | Arrived                    // about to read memory
    | Consulting                 // memory missed: about to ask Redis
    | Missed                     // the first Get missed: about to enter Do
    | Waiting(flight: nat)       // joined the flight with that number
    | Rechecking                 // leads the flight: about to read memory again
    | RecheckingRedis            // leads: memory missed again, about to ask Redis
    | Making                     // leads: about to call the factory
    | Storing(value: Bytes)      // leads: the factory succeeded, about to Set
    | Ending(outcome: Outcome)   // leads: about to publish the outcome
    | Returned(outcome: Outcome)

  // `made` lists the values of the successful factory calls; `emptied` counts the removals
  // (Delete, Clear, eviction) that found an entry in memory.
  datatype System = System(memory: Option<Bytes>, callers: map<nat, Caller>, next: nat, leader: int,
                           flights: seq<Outcome>, made: seq<Bytes>, emptied: nat)

  datatype Config = Config(usesRedis: bool, recode: Bytes -> Bytes)

  datatype Label =
    | Arrive
    | Read(c: nat)
    | Ask(c: nat, answer: Answer)
    | Enter(c: nat)
    | Make(c: nat, made: Option<Bytes>)
    | Store(c: nat)
    | Publish(c: nat)
    | Collect(c: nat)
    | Fill(value: Bytes)     // a background populate or another writer
    | Remove

  const BEGIN := System(None, map[], 0, -1, [], [], 0)

  ghost predicate Enabled(g: Config, s: System, l: Label) {
    match l
    case Arrive => true
    case Read(c) => c in s.callers && (s.callers[c].Arrived? || s.callers[c].Rechecking?)
    case Ask(c, _) => c in s.callers && (s.callers[c].Consulting? || s.callers[c].RecheckingRedis?)
    case Enter(c) => c in s.callers && s.callers[c].Missed?
    case Make(c, _) => c in s.callers && s.callers[c].Making?
    case Store(c) => c in s.callers && s.callers[c].Storing?
    case Publish(c) => c in s.callers && s.callers[c].Ending?
    case Collect(c) => c in s.callers && s.callers[c].Waiting? && s.callers[c].flight < |s.flights|
    case Fill(_) => true
    case Remove => true
  }

  ghost function Move(s: System, c: nat, to: Caller): System {
    s.(callers := s.callers[c := to])
  }

  ghost function Apply(g: Config, s: System, l: Label): System
    requires Enabled(g, s, l)
  {
    match l
    case Arrive => Move(s, s.next, Arrived).(next := s.next + 1)
    case Read(c) => (
      if s.callers[c].Arrived? then
        match s.memory
        case Some(v) => Move(s, c, Returned(Got(v)))
        case None => Move(s, c, if g.usesRedis then Consulting else Missed)
      else
        match s.memory
        case Some(v) => Move(s, c, Ending(Got(g.recode(v))))
        case None => Move(s, c, if g.usesRedis then RecheckingRedis else Making))
    case Ask(c, answer) => (
      if s.callers[c].Consulting? then
        match answer
        case Hit(v) => Move(s, c, Returned(Got(v)))
        case Miss => Move(s, c, Missed)
        case Unavailable => Move(s, c, Returned(Fails))
      else
        match answer
        case Hit(v) => Move(s, c, Ending(Got(g.recode(v))))
        case _ => Move(s, c, Making))
    case Enter(c) =>
      if s.leader == -1 then Move(s, c, Rechecking).(leader := c) else Move(s, c, Waiting(|s.flights|))
    case Make(c, made) => (
      match made
      case None => Move(s, c, Ending(Fails))
      case Some(v) => Move(s, c, Storing(v)).(made := s.made + [v]))
    case Store(c) => Move(s, c, Ending(Got(s.callers[c].value))).(memory := Some(s.callers[c].value))
    case Publish(c) =>
      Move(s, c, Returned(s.callers[c].outcome)).(flights := s.flights + [s.callers[c].outcome], leader := -1)
    case Collect(c) => Move(s, c, Returned(s.flights[s.callers[c].flight]))
    case Fill(v) => s.(memory := Some(v))
    case Remove => s.(memory := None, emptied := s.emptied + if s.memory.Some? then 1 else 0)
  }

  ghost predicate CanRun(g: Config, s: System, run: seq<Label>)
    decreases |run|
  {
    run == [] || (Enabled(g, s, run[0]) && CanRun(g, Apply(g, s, run[0]), run[1..]))
  }

  ghost function Run(g: Config, s: System, run: seq<Label>): System
    requires CanRun(g, s, run)
    decreases |run|
  {
    if run == [] then s else Run(g, Apply(g, s, run[0]), run[1..])
  }

  ghost predicate Leads(c: Caller) {
    c.Rechecking? || c.RecheckingRedis? || c.Making? || c.Storing? || c.Ending?
  }

  /** The leader holds a fresh value that is not in memory yet. */
  ghost predicate Stores(s: System) {
    s.leader in s.callers && s.callers[s.leader].Storing?
  }

  /** The leader has missed again and may still call the factory. */
  ghost predicate Decides(s: System) {
    s.leader in s.callers && (s.callers[s.leader].RecheckingRedis? || s.callers[s.leader].Making?)
  }

  ghost predicate Inv(s: System) {
    && (forall c :: c in s.callers ==> c < s.next)
    && (forall c :: c in s.callers ==> (Leads(s.callers[c]) <==> s.leader == c))
    && (s.leader == -1 || s.leader in s.callers)
    // every success beyond the removals is in memory or about to be
    && |s.made| <= s.emptied + 1
    && (s.memory.None? && !Stores(s) ==> |s.made| <= s.emptied)
    && (Decides(s) ==> |s.made| <= s.emptied)
  }

  lemma StepKeepsInv(g: Config, s: System, l: Label)
    requires Inv(s) && Enabled(g, s, l)
    ensures Inv(Apply(g, s, l))
  {
  }

  lemma {:induction false} EveryRun(g: Config, s: System, run: seq<Label>)
    requires Inv(s) && CanRun(g, s, run)
    ensures Inv(Run(g, s, run))
    decreases |run|
  {
    if run == [] {
    } else {
      StepKeepsInv(g, s, run[0]);
      EveryRun(g, Apply(g, s, run[0]), run[1..]);
    }
  }

  /**
   * Successful factory calls never outnumber the removals of a cached entry by more than one,
   * whatever the number of callers: those that missed before the fill but entered `Do` after
   * the flight had ended find the value when they look again.
   */
  lemma FactoryCallBound(g: Config, run: seq<Label>)
    requires CanRun(g, BEGIN, run)
    ensures |Run(g, BEGIN, run).made| <= Run(g, BEGIN, run).emptied + 1
  {
    EveryRun(g, BEGIN, run);
  }

  ghost predicate NoRemoval(run: seq<Label>) {
    forall i :: 0 <= i < |run| ==> run[i] != Remove
  }

  lemma {:induction false} NothingEmptied(g: Config, s: System, run: seq<Label>)
    requires CanRun(g, s, run) && NoRemoval(run)
    ensures Run(g, s, run).emptied == s.emptied
    decreases |run|
  {
    if run == [] {
    } else {
      assert run[0] != Remove;
      NothingEmptied(g, Apply(g, s, run[0]), run[1..]);
    }
  }

  /** Without removals: at most one success, and the factory is never even called again after it. */
  lemma AtMostOneSuccess(g: Config, run: seq<Label>)
    requires CanRun(g, BEGIN, run) && NoRemoval(run)
    ensures var s := Run(g, BEGIN, run);
            && |s.made| <= 1
            && (s.made != [] ==> forall c :: c in s.callers ==> !s.callers[c].Making?)
  {
    EveryRun(g, BEGIN, run);
    NothingEmptied(g, BEGIN, run);
  }

  // ---- Every call ends ----

  /** A step of some caller, as opposed to an arrival, another writer or a removal. */
  ghost predicate IsCallers(l: Label) {
    !l.Arrive? && !l.Fill? && !l.Remove?
  }

  /** Whoever waits for a flight that has not landed has somebody to wait for. */
  ghost predicate WaitInv(s: System) {
    forall c :: c in s.callers && s.callers[c].Waiting? ==>
      s.callers[c].flight <= |s.flights| && (s.callers[c].flight == |s.flights| ==> s.leader != -1)
  }

  lemma {:induction false} EveryRunWaits(g: Config, s: System, run: seq<Label>)
    requires Inv(s) && WaitInv(s) && CanRun(g, s, run)
    ensures WaitInv(Run(g, s, run))
    decreases |run|
  {
    if run == [] {
    } else {
      StepKeepsInv(g, s, run[0]);
      assert WaitInv(Apply(g, s, run[0]));
      EveryRunWaits(g, Apply(g, s, run[0]), run[1..]);
    }
  }

  /** The most steps a caller still takes. */
  ghost function StepsLeft(q: Caller): nat {
    match q
    case Arrived => 8
    case Consulting => 7
    case Missed => 6
    case Rechecking => 5
    case RecheckingRedis => 4
    case Making => 3
    case Storing(_) => 2
    case Ending(_) => 1
    case Waiting(_) => 1
    case Returned(_) => 0
  }

  /** The most steps the callers numbered below `n` still take. */
  ghost function TotalLeft(callers: map<nat, Caller>, n: nat): nat {
    if n == 0 then 0
    else TotalLeft(callers, n - 1) + (if n - 1 in callers then StepsLeft(callers[n - 1]) else 0)
  }

  lemma {:induction false} TotalLeftMove(callers: map<nat, Caller>, n: nat, c: nat, q: Caller)
    requires c in callers
    ensures TotalLeft(callers[c := q], n)
         == TotalLeft(callers, n) + (if c < n then StepsLeft(q) - StepsLeft(callers[c]) else 0)
  {
    if n == 0 {
    } else {
      TotalLeftMove(callers, n - 1, c, q);
    }
  }

  lemma CallersStepCounts(g: Config, s: System, l: Label)
    requires Inv(s) && Enabled(g, s, l) && IsCallers(l)
    ensures TotalLeft(Apply(g, s, l).callers, s.next) < TotalLeft(s.callers, s.next)
    ensures Apply(g, s, l).next == s.next
  {
    var q := Apply(g, s, l).callers[l.c];
    TotalLeftMove(s.callers, s.next, l.c, q);
    assert Apply(g, s, l).callers == s.callers[l.c := q];
  }

  /** As long as a caller has not returned, some caller can take a step, whatever the answers are. */
  lemma NeverStuck(g: Config, s: System, c: nat, answer: Answer, made: Option<Bytes>) returns (l: Label)
    requires Inv(s) && WaitInv(s) && c in s.callers && !s.callers[c].Returned?
    ensures IsCallers(l) && Enabled(g, s, l)
    ensures l.Ask? ==> l.answer == answer
    ensures l.Make? ==> l.made == made
    decreases s.callers[c].Waiting?
  {
    match s.callers[c]
    case Arrived => l := Read(c);
    case Consulting => l := Ask(c, answer);
    case Missed => l := Enter(c);
    case Waiting(f) =>
      if f < |s.flights| {
        l := Collect(c);
      } else {
        assert Leads(s.callers[s.leader]);
        l := NeverStuck(g, s, s.leader, answer, made);
      }
    case Rechecking => l := Read(c);
    case RecheckingRedis => l := Ask(c, answer);
    case Making => l := Make(c, made);
    case Storing(_) => l := Store(c);
    case Ending(_) => l := Publish(c);
  }

  ghost predicate AllReturned(s: System) {
    forall c :: c in s.callers ==> s.callers[c].Returned?
  }

  /** Without further arrivals the callers take at most `TotalLeft` steps among them. */
  lemma {:induction false} CallersStepsBounded(g: Config, s: System, run: seq<Label>)
    requires Inv(s) && CanRun(g, s, run) && forall i :: 0 <= i < |run| ==> IsCallers(run[i])
    ensures |run| <= TotalLeft(s.callers, s.next)
    decreases |run|
  {
    if run == [] {
    } else {
      assert IsCallers(run[0]);
      StepKeepsInv(g, s, run[0]);
      CallersStepCounts(g, s, run[0]);
      CallersStepsBounded(g, Apply(g, s, run[0]), run[1..]);
    }
  }

  lemma RunOne(g: Config, s: System, l: Label)
    requires Enabled(g, s, l)
    ensures CanRun(g, s, [l]) && Run(g, s, [l]) == Apply(g, s, l)
  {
    assert [l][1..] == [];
  }

  /** From every reachable state all callers return, whatever Redis answers and the factory does. */
  lemma {:induction false} EveryCallerReturns(g: Config, s: System, answer: Answer, made: Option<Bytes>)
    returns (run: seq<Label>)
    requires Inv(s) && WaitInv(s)
    ensures CanRun(g, s, run) && AllReturned(Run(g, s, run))
    ensures forall i :: 0 <= i < |run| ==> IsCallers(run[i])
    decreases TotalLeft(s.callers, s.next)
  {
    if AllReturned(s) {
      run := [];
    } else {
      var c :| c in s.callers && !s.callers[c].Returned?;
      var l := NeverStuck(g, s, c, answer, made);
      StepKeepsInv(g, s, l);
      EveryRunWaits(g, s, [l]);
      RunOne(g, s, l);
      CallersStepCounts(g, s, l);
      var rest := EveryCallerReturns(g, Apply(g, s, l), answer, made);
      run := [l] + rest;
      assert run[1..] == rest;
    }
  }

  /** So no call is ever lost: whatever has happened, all callers can still return. */
  lemma CallersCanFinish(g: Config, before: seq<Label>, answer: Answer, made: Option<Bytes>) returns (run: seq<Label>)
    requires CanRun(g, BEGIN, before)
    ensures var s := Run(g, BEGIN, before);
            && CanRun(g, s, run) && AllReturned(Run(g, s, run))
            && (forall i :: 0 <= i < |run| ==> IsCallers(run[i]))
            && |run| <= TotalLeft(s.callers, s.next)
  {
    EveryRun(g, BEGIN, before);
    EveryRunWaits(g, BEGIN, before);
    hide Apply, Inv, WaitInv;
    run := EveryCallerReturns(g, Run(g, BEGIN, before), answer, made);
    CallersStepsBounded(g, Run(g, BEGIN, before), run);
  }

  /** Caller `c` has not failed, and no flight ends in failure. */
  ghost predicate NoFailure(s: System, c: nat) {
    && (c in s.callers ==> s.callers[c] != Returned(Fails))
    && (forall d :: d in s.callers ==> s.callers[d] != Ending(Fails))
    && (forall i :: 0 <= i < |s.flights| ==> s.flights[i] != Fails)
  }

  /** The label makes caller `c` fail: Redis refuses its first lookup, or a factory call fails. */
  ghost predicate CausesFailure(l: Label, c: nat) {
    l == Ask(c, Unavailable) || (l.Make? && l.made.None?)
  }

  lemma {:induction false} NoCauseNoFailure(g: Config, s: System, run: seq<Label>, c: nat)
    requires CanRun(g, s, run) && NoFailure(s, c) && forall i :: 0 <= i < |run| ==> !CausesFailure(run[i], c)
    ensures NoFailure(Run(g, s, run), c)
    decreases |run|
  {
    if run == [] {
    } else {
      assert !CausesFailure(run[0], c);
      assert NoFailure(Apply(g, s, run[0]), c);
      NoCauseNoFailure(g, Apply(g, s, run[0]), run[1..], c);
    }
  }

  /** A caller fails only after Redis refused its own lookup or a factory call failed. */
  lemma FailureHasCause(g: Config, run: seq<Label>, c: nat)
    requires CanRun(g, BEGIN, run)
    requires var s := Run(g, BEGIN, run); c in s.callers && s.callers[c] == Returned(Fails)
    ensures exists i :: 0 <= i < |run| && CausesFailure(run[i], c)
  {
    if forall i :: 0 <= i < |run| ==> !CausesFailure(run[i], c) {
      NoCauseNoFailure(g, BEGIN, run, c);
    }
  }

  // ---- When the factory is called ----

  /** Redis's answers in a run, in order. */
  ghost function Answers(run: seq<Label>): seq<Answer> {
    if run == [] then []
    else (if run[0].Ask? then [run[0].answer] else []) + Answers(run[1..])
  }

  ghost predicate CallsFactory(run: seq<Label>) {
    exists i :: 0 <= i < |run| && run[i].Make?
  }

  /** The answers Redis has yet to give are the ones that send a cold caller at `q` to the factory. */
  ghost predicate LeadsToFactory(g: Config, q: Caller, answers: seq<Answer>) {
    match q
    case Arrived => !g.usesRedis || (|answers| == 2 && answers[0] == Miss && !answers[1].Hit?)
    case Consulting => |answers| == 2 && answers[0] == Miss && !answers[1].Hit?
    case Missed => !g.usesRedis || (|answers| == 1 && !answers[0].Hit?)
    case Rechecking => !g.usesRedis || (|answers| == 1 && !answers[0].Hit?)
    case RecheckingRedis => |answers| == 1 && !answers[0].Hit?
    case Making => true
    case _ => false
  }

  /** Only caller `c` steps. */
  ghost predicate OnlyCaller(run: seq<Label>, c: nat) {
    forall i :: 0 <= i < |run| ==> IsCallers(run[i]) && run[i].c == c
  }

  /** Caller `c` is alone, and as long as it has not made anything the key is not in memory. */
  ghost predicate Alone(g: Config, s: System, c: nat) {
    && s.callers.Keys == {c} && Inv(s) && !s.callers[c].Waiting?
    && (s.memory.None? || StepsLeft(s.callers[c]) <= 1)
    && (s.callers[c].Consulting? || s.callers[c].RecheckingRedis? ==> g.usesRedis)
  }

  lemma AloneStep(g: Config, s: System, l: Label, c: nat)
    requires Alone(g, s, c) && Enabled(g, s, l) && IsCallers(l) && l.c == c
    ensures Alone(g, Apply(g, s, l), c)
  {
    StepKeepsInv(g, s, l);
  }

  /** One step of a lone caller, which uses up an answer if it asks Redis, brings it to the factory or not. */
  lemma LoneStep(g: Config, s: System, l: Label, c: nat, rest: seq<Answer>)
    requires Alone(g, s, c) && Enabled(g, s, l) && IsCallers(l) && l.c == c && c in Apply(g, s, l).callers
    requires StepsLeft(Apply(g, s, l).callers[c]) <= 3 ==> rest == []
    ensures var q := s.callers[c];
            && (l.Make? <==> q.Making?)
            && (StepsLeft(q) <= 3 ==> !l.Ask? && StepsLeft(Apply(g, s, l).callers[c]) <= 3)
            && (!l.Make? ==>
                  (LeadsToFactory(g, q, (if l.Ask? then [l.answer] else []) + rest)
                   <==> LeadsToFactory(g, Apply(g, s, l).callers[c], rest)))
            && (l.Make? ==> !LeadsToFactory(g, Apply(g, s, l).callers[c], rest))
  {
  }

  lemma {:induction false} LoneFrom(g: Config, s: System, run: seq<Label>, c: nat)
    requires Alone(g, s, c) && CanRun(g, s, run) && OnlyCaller(run, c)
    requires c in Run(g, s, run).callers && Run(g, s, run).callers[c].Returned?
    ensures CallsFactory(run) <==> LeadsToFactory(g, s.callers[c], Answers(run))
    ensures StepsLeft(s.callers[c]) <= 3 ==> Answers(run) == []
    decreases |run|
  {
    if run == [] {
    } else {
      var l := run[0];
      assert IsCallers(l) && l.c == c;
      AloneStep(g, s, l, c);
      LoneFrom(g, Apply(g, s, l), run[1..], c);
      LoneStep(g, s, l, c, Answers(run[1..]));
      hide Apply, Alone;
      assert CallsFactory(run) <==> l.Make? || CallsFactory(run[1..]) by {
        if i :| 0 <= i < |run| - 1 && run[1..][i].Make? {
          assert run[i + 1].Make?;
        }
      }
    }
  }

  /**
   * A lone caller that finds the key nowhere in memory calls the factory exactly when its level has no
   * Redis, or Redis first answers with a miss and then with anything but a hit.
   */
  lemma FactoryCalledIff(g: Config, run: seq<Label>)
    requires run != [] && run[0] == Arrive && CanRun(g, BEGIN, run) && OnlyCaller(run[1..], 0)
    requires 0 in Run(g, BEGIN, run).callers && Run(g, BEGIN, run).callers[0].Returned?
    ensures var answers := Answers(run);
            CallsFactory(run) <==> !g.usesRedis || (|answers| == 2 && answers[0] == Miss && !answers[1].Hit?)
  {
    var s := Apply(g, BEGIN, Arrive);
    LoneFrom(g, s, run[1..], 0);
    assert CallsFactory(run) <==> CallsFactory(run[1..]) by {
      if i :| 0 <= i < |run| - 1 && run[1..][i].Make? {
        assert run[i + 1].Make?;
      }
    }
  }

  // ---- What callers get ----

  /** What the factory answered in a run, in order. */
  ghost function FactoryAnswers(run: seq<Label>): seq<Option<Bytes>> {
    if run == [] then []
    else (if run[0].Make? then [run[0].made] else []) + FactoryAnswers(run[1..])
  }

  /** The factory's value, or a failure. */
  ghost function Made(made: seq<Option<Bytes>>): Outcome {
    if made != [] && made[0].Some? then Got(made[0].value) else Fails
  }

  /** After a second miss in memory: Redis's value encoded anew, or what the factory makes. */
  ghost function Rechecked(g: Config, answers: seq<Answer>, made: seq<Option<Bytes>>): Outcome {
    if answers != [] && answers[0].Hit? then Got(g.recode(answers[0].value)) else Made(made)
  }

  /** After the first miss in memory: Redis's value, a failure if it refuses, or another look. */
  ghost function Consulted(g: Config, answers: seq<Answer>, made: seq<Option<Bytes>>): Outcome {
    if answers == [] || answers[0].Unavailable? then Fails
    else if answers[0].Hit? then Got(answers[0].value)
    else Rechecked(g, answers[1..], made)
  }

  /** What a lone caller at `q` gets, with these answers of Redis and the factory to come. */
  ghost function ToGet(g: Config, q: Caller, answers: seq<Answer>, made: seq<Option<Bytes>>): Outcome {
    match q
    case Arrived => if g.usesRedis then Consulted(g, answers, made) else Made(made)
    case Consulting => Consulted(g, answers, made)
    case Missed => if g.usesRedis then Rechecked(g, answers, made) else Made(made)
    case Rechecking => if g.usesRedis then Rechecked(g, answers, made) else Made(made)
    case RecheckingRedis => Rechecked(g, answers, made)
    case Making => Made(made)
    case Storing(v) => Got(v)
    case Ending(o) => o
    case Returned(o) => o
    case Waiting(_) => Fails
  }

  lemma LoneStepGets(g: Config, s: System, l: Label, c: nat, answers: seq<Answer>, made: seq<Option<Bytes>>)
    requires Alone(g, s, c) && Enabled(g, s, l) && IsCallers(l) && l.c == c && c in Apply(g, s, l).callers
    ensures ToGet(g, s.callers[c], (if l.Ask? then [l.answer] else []) + answers,
                  (if l.Make? then [l.made] else []) + made)
         == ToGet(g, Apply(g, s, l).callers[c], answers, made)
  {
    var all := (if l.Ask? then [l.answer] else []) + answers;
    assert l.Ask? ==> all[1..] == answers;
    assert [] + answers == answers && [] + made == made;
  }

  lemma {:induction false} LoneGets(g: Config, s: System, run: seq<Label>, c: nat)
    requires Alone(g, s, c) && CanRun(g, s, run) && OnlyCaller(run, c)
    requires c in Run(g, s, run).callers && Run(g, s, run).callers[c].Returned?
    ensures Run(g, s, run).callers[c].outcome == ToGet(g, s.callers[c], Answers(run), FactoryAnswers(run))
    decreases |run|
  {
    if run == [] {
    } else {
      var l := run[0];
      assert IsCallers(l) && l.c == c;
      AloneStep(g, s, l, c);
      hide ToGet;
      LoneGets(g, Apply(g, s, l), run[1..], c);
      LoneStepGets(g, s, l, c, Answers(run[1..]), FactoryAnswers(run[1..]));
    }
  }

  /**
   * A lone cold caller gets Redis's first hit as it is, a failure if Redis refuses, Redis's second hit
   * encoded anew, and otherwise the factory's value or failure.
   */
  lemma LoneCallerGets(g: Config, run: seq<Label>)
    requires run != [] && run[0] == Arrive && CanRun(g, BEGIN, run) && OnlyCaller(run[1..], 0)
    requires 0 in Run(g, BEGIN, run).callers && Run(g, BEGIN, run).callers[0].Returned?
    ensures var outcome, answers := Run(g, BEGIN, run).callers[0].outcome, Answers(run);
            outcome ==
              if g.usesRedis && answers != [] && answers[0].Hit? then Got(answers[0].value)
              else if g.usesRedis && (answers == [] || answers[0].Unavailable?) then Fails
              else if g.usesRedis && |answers| > 1 && answers[1].Hit? then Got(g.recode(answers[1].value))
              else Made(FactoryAnswers(run))
  {
    LoneGets(g, Apply(g, BEGIN, Arrive), run[1..], 0);
  }

  ghost predicate ValueFrom(l: Label, src: set<Bytes>) {
    && (l.Ask? && l.answer.Hit? ==> l.answer.value in src)
    && (l.Fill? ==> l.value in src)
    && (l.Make? && l.made.Some? ==> l.made.value in src)
  }

  /**
   * A caller that missed before the key was filled and leads a flight after it finds the value when it
   * looks again: it returns it encoded anew, and the factory is not called.
   */
  lemma FilledMeanwhile(g: Config, s: System, c: nat)
    requires Inv(s) && c in s.callers && s.callers[c].Rechecking? && s.memory.Some?
    ensures var run := [Read(c), Publish(c)];
            && CanRun(g, s, run)
            && var t := Run(g, s, run);
               && c in t.callers && t.callers[c] == Returned(Got(g.recode(s.memory.value)))
               && t.memory == s.memory && t.made == s.made && t.leader == -1
               && t.flights == s.flights + [Got(g.recode(s.memory.value))]
  {
    var run := [Read(c), Publish(c)];
    assert run[1..] == [Publish(c)] && [Publish(c)][1..] == [];
    RunOne(g, Apply(g, s, Read(c)), Publish(c));
  }

  /** What is in memory when a caller arrives is what it gets, as it is. */
  lemma WarmCaller(g: Config, s: System)
    requires Inv(s) && s.memory.Some?
    ensures var run := [Arrive, Read(s.next)];
            && CanRun(g, s, run)
            && var t := Run(g, s, run);
               && s.next in t.callers && t.callers[s.next] == Returned(Got(s.memory.value))
               && t.memory == s.memory && t.made == s.made && t.flights == s.flights && t.leader == s.leader
  {
    var run := [Arrive, Read(s.next)];
    assert run[1..] == [Read(s.next)] && [Read(s.next)][1..] == [];
    RunOne(g, Apply(g, s, Arrive), Read(s.next));
  }

  /** Every value that comes from outside in the run is in `src`: from Redis, a writer or the factory. */
  ghost predicate ValuesFrom(run: seq<Label>, src: set<Bytes>) {
    forall i :: 0 <= i < |run| ==> ValueFrom(run[i], src)
  }

  ghost predicate OutcomeFrom(g: Config, o: Outcome, src: set<Bytes>) {
    o.Got? ==> o.value in src || exists v :: v in src && o.value == g.recode(v)
  }

  ghost predicate AllFrom(g: Config, s: System, src: set<Bytes>) {
    && (s.memory.Some? ==> s.memory.value in src)
    && (forall i :: 0 <= i < |s.flights| ==> OutcomeFrom(g, s.flights[i], src))
    && (forall c :: c in s.callers ==>
          && (s.callers[c].Storing? ==> s.callers[c].value in src)
          && (s.callers[c].Ending? || s.callers[c].Returned? ==> OutcomeFrom(g, s.callers[c].outcome, src)))
  }

  lemma StepKeepsSources(g: Config, s: System, l: Label, src: set<Bytes>)
    requires Enabled(g, s, l) && ValueFrom(l, src) && AllFrom(g, s, src)
    ensures AllFrom(g, Apply(g, s, l), src)
  {
  }

  lemma {:induction false} RunKeepsSources(g: Config, s: System, run: seq<Label>, src: set<Bytes>)
    requires CanRun(g, s, run) && ValuesFrom(run, src) && AllFrom(g, s, src)
    ensures AllFrom(g, Run(g, s, run), src)
    decreases |run|
  {
    if run == [] {
    } else {
      assert ValueFrom(run[0], src);
      StepKeepsSources(g, s, run[0], src);
      hide Apply, AllFrom;
      RunKeepsSources(g, Apply(g, s, run[0]), run[1..], src);
    }
  }

  /** At every level, in every run, what callers get came from Redis, a writer or the factory, or is recoded from it. */
  lemma EveryValueHasSource(g: Config, run: seq<Label>, src: set<Bytes>, c: nat)
    requires CanRun(g, BEGIN, run) && ValuesFrom(run, src)
    requires var s := Run(g, BEGIN, run); c in s.callers && s.callers[c].Returned? && s.callers[c].outcome.Got?
    ensures var v := Run(g, BEGIN, run).callers[c].outcome.value;
            v in src || exists u :: u in src && v == g.recode(u)
  {
    RunKeepsSources(g, BEGIN, run, src);
  }

  /** Caller `c` has joined flight number `f`, which caller `leader` leads or has led. */
  ghost predicate Shares(s: System, c: nat, leader: nat, f: nat) {
    && c != leader && c in s.callers && leader in s.callers
    && if f == |s.flights| then s.callers[c] == Waiting(f) && s.leader == leader
       else
         && f < |s.flights| && s.callers[leader] == Returned(s.flights[f])
         && (s.callers[c] == Waiting(f) || s.callers[c] == Returned(s.flights[f]))
  }

  lemma StepKeepsShares(g: Config, s: System, l: Label, c: nat, leader: nat, f: nat)
    requires Inv(s) && Enabled(g, s, l) && Shares(s, c, leader, f)
    ensures Shares(Apply(g, s, l), c, leader, f)
  {
  }

  lemma {:induction false} RunKeepsShares(g: Config, s: System, run: seq<Label>, c: nat, leader: nat, f: nat)
    requires Inv(s) && CanRun(g, s, run) && Shares(s, c, leader, f)
    ensures Shares(Run(g, s, run), c, leader, f)
    decreases |run|
  {
    if run == [] {
    } else {
      StepKeepsInv(g, s, run[0]);
      StepKeepsShares(g, s, run[0], c, leader, f);
      hide Apply, Shares, Inv;
      RunKeepsShares(g, Apply(g, s, run[0]), run[1..], c, leader, f);
    }
  }

  /** Whoever waits for a flight gets what its leader gets, once it has returned, whatever happens meanwhile. */
  lemma WaitersShareTheOutcome(g: Config, before: seq<Label>, c: nat, after: seq<Label>)
    requires CanRun(g, BEGIN, before)
    requires var s := Run(g, BEGIN, before);
             c in s.callers && s.callers[c] == Waiting(|s.flights|) && CanRun(g, s, after)
    requires var t := Run(g, Run(g, BEGIN, before), after); c in t.callers && t.callers[c].Returned?
    ensures var leader, t := Run(g, BEGIN, before).leader, Run(g, Run(g, BEGIN, before), after);
            leader >= 0 && leader in t.callers && t.callers[leader] == t.callers[c]
  {
    EveryRun(g, BEGIN, before);
    EveryRunWaits(g, BEGIN, before);
    var s := Run(g, BEGIN, before);
    RunKeepsShares(g, s, after, c, s.leader, |s.flights|);
  }

  // ---- Redis down ----

  /** Redis refuses every lookup, and nothing puts the key into memory. */
  ghost predicate RedisDown(run: seq<Label>) {
    forall i :: 0 <= i < |run| ==> !run[i].Fill? && (run[i].Ask? ==> run[i].answer == Unavailable)
  }

  ghost predicate Cold(s: System) {
    && s.memory.None? && s.made == []
    && forall c :: c in s.callers ==>
         s.callers[c].Arrived? || s.callers[c].Consulting? || s.callers[c] == Returned(Fails)
  }

  /** With Redis down and the key not in memory every caller fails and the factory is never called. */
  lemma {:induction false} NeverCalledWithRedisDown(g: Config, s: System, run: seq<Label>)
    requires g.usesRedis && Cold(s) && CanRun(g, s, run) && RedisDown(run)
    ensures Cold(Run(g, s, run))
    ensures forall i :: 0 <= i < |run| ==> !run[i].Make?
    decreases |run|
  {
    if run == [] {
    } else {
      assert !run[0].Fill? && (run[0].Ask? ==> run[0].answer == Unavailable);
      NeverCalledWithRedisDown(g, Apply(g, s, run[0]), run[1..]);
      forall i | 0 <= i < |run| ensures !run[i].Make? {
        if i > 0 {
          assert run[i] == run[1..][i - 1];
        }
      }
    }
  }

  // ---- Memory only, and nobody else writes the key ----

  ghost predicate OnlyCallers(run: seq<Label>) {
    forall i :: 0 <= i < |run| ==> run[i] != Remove && !run[i].Fill?
  }

  /** The outcome carries the factory's value, as encoded or as decoded and encoded again. */
  ghost predicate FromFactory(g: Config, s: System, o: Outcome) {
    o.Got? ==> s.made != [] && (o.value == s.made[0] || o.value == g.recode(s.made[0]))
  }

  ghost predicate Sourced(g: Config, s: System) {
    && (s.memory.Some? ==> s.made == [s.memory.value])
    && (forall i :: 0 <= i < |s.flights| ==> FromFactory(g, s, s.flights[i]))
    && (forall c :: c in s.callers ==>
          && !s.callers[c].Consulting? && !s.callers[c].RecheckingRedis?
          && (s.callers[c].Storing? ==> s.made == [s.callers[c].value])
          && (s.callers[c].Ending? || s.callers[c].Returned? ==> FromFactory(g, s, s.callers[c].outcome)))
  }

  lemma SourcedStep(g: Config, s: System, l: Label)
    requires !g.usesRedis && Inv(s) && s.emptied == 0 && Sourced(g, s) && Enabled(g, s, l)
    requires l != Remove && !l.Fill?
    ensures Sourced(g, Apply(g, s, l)) && Apply(g, s, l).emptied == 0
  {
    if l.Make? && l.made.Some? {
      assert s.made == [];
      assert s.made + [l.made.value] == [l.made.value];
    }
  }

  lemma {:induction false} SourcedRun(g: Config, s: System, run: seq<Label>)
    requires !g.usesRedis && Inv(s) && s.emptied == 0 && Sourced(g, s) && CanRun(g, s, run) && OnlyCallers(run)
    ensures Sourced(g, Run(g, s, run))
    decreases |run|
  {
    if run == [] {
    } else {
      assert run[0] != Remove && !run[0].Fill?;
      StepKeepsInv(g, s, run[0]);
      SourcedStep(g, s, run[0]);
      SourcedRun(g, Apply(g, s, run[0]), run[1..]);
    }
  }

  /** At the memory-only level every caller that gets a value gets the one value the factory made. */
  lemma EveryCallerGetsTheOneValue(g: Config, run: seq<Label>, c: nat)
    requires !g.usesRedis && CanRun(g, BEGIN, run) && OnlyCallers(run)
    requires var s := Run(g, BEGIN, run); c in s.callers && s.callers[c].Returned? && s.callers[c].outcome.Got?
    ensures var s := Run(g, BEGIN, run);
            && |s.made| == 1
            && s.callers[c].outcome.value in {s.made[0], g.recode(s.made[0])}
  {
    SourcedRun(g, BEGIN, run);
    EveryRun(g, BEGIN, run);
    NothingEmptied(g, BEGIN, run);
  }
}
