// Any number of calls inside one bulkhead at once. Every access to the semaphore and
// to a counter is a step of its own, in the order of the source, deferred calls included.

module BulkheadProtocol {
  import opened BulkheadClass
  import opened Counting

  datatype Call =
    | Entered              // about to try the semaphore without waiting
    | Full                 // found no slot; about to load queuedCount
    | Compared(seen: int)  // loaded queuedCount
    | Turned               // queue full: about to count the rejection
    | Queued               // added to queuedCount; waiting for a slot
    | Slotted              // got a slot while queued; about to leave queuedCount
    | Expired              // timed out while queued; about to count the rejection
    | Rejecting            // rejection counted; about to leave queuedCount
    | Holding              // has a slot; about to add to activeCount
    | Running              // added to activeCount: the operation runs
    | Returned             // the operation is over; about to count the execution
    | Executed             // counted; about to leave activeCount
    | Leaving              // left activeCount; about to give the slot back
    | Served               // over, slot given back
    | Rejected             // over, never had a slot

  datatype System = System(slots: int, active: int, queued: int, rejected: int, executed: int,
                           calls: map<nat, Call>, next: nat)

  datatype Label =
    | Enter                 // a new call
    | Advance(c: nat)       // the next step of call c
    | Expire(c: nat)        // the wait of call c ends without a slot
    | JoinAtOnce(c: nat)    // load and add of queuedCount in one step

  const BEGIN := System(0, 0, 0, 0, 0, map[], 0)

  ghost predicate Enabled(g: BulkheadConfig, s: System, l: Label) {
    match l
    case Enter => true
    case Advance(c) =>
      && c in s.calls
      && !s.calls[c].Served? && !s.calls[c].Rejected?
      && (s.calls[c].Queued? ==> s.slots < g.Slots())
    case Expire(c) => c in s.calls && s.calls[c].Queued?
    case JoinAtOnce(c) => c in s.calls && s.calls[c].Full?
  }

  ghost function Move(s: System, c: nat, to: Call): System {
    s.(calls := s.calls[c := to])
  }

  ghost function Apply(g: BulkheadConfig, s: System, l: Label): System
    requires Enabled(g, s, l)
  {
    match l
    case Enter => Move(s, s.next, Entered).(next := s.next + 1)
    case Expire(c) => Move(s, c, Expired)
    case JoinAtOnce(c) =>
      if s.queued >= g.maxQueue then Move(s, c, Turned) else Move(s, c, Queued).(queued := s.queued + 1)
    case Advance(c) =>
      match s.calls[c]
      case Entered =>
        if s.slots < g.Slots() then Move(s, c, Holding).(slots := s.slots + 1) else Move(s, c, Full)
      case Full => Move(s, c, Compared(s.queued))
      case Compared(seen) =>
        if seen >= g.maxQueue then Move(s, c, Turned) else Move(s, c, Queued).(queued := s.queued + 1)
      case Turned => Move(s, c, Rejected).(rejected := s.rejected + 1)
      case Queued => Move(s, c, Slotted).(slots := s.slots + 1)
      case Slotted => Move(s, c, Holding).(queued := s.queued - 1)
      case Expired => Move(s, c, Rejecting).(rejected := s.rejected + 1)
      case Rejecting => Move(s, c, Rejected).(queued := s.queued - 1)
      case Holding => Move(s, c, Running).(active := s.active + 1)
      case Running => Move(s, c, Returned)
      case Returned => Move(s, c, Executed).(executed := s.executed + 1)
      case Executed => Move(s, c, Leaving).(active := s.active - 1)
      case Leaving => Move(s, c, Served).(slots := s.slots - 1)
      case Served => s
      case Rejected => s
  }

  ghost predicate CanRun(g: BulkheadConfig, s: System, run: seq<Label>)
    decreases |run|
  {
    run == [] || (Enabled(g, s, run[0]) && CanRun(g, Apply(g, s, run[0]), run[1..]))
  }

  ghost function Run(g: BulkheadConfig, s: System, run: seq<Label>): System
    requires CanRun(g, s, run)
    decreases |run|
  {
    if run == [] then s else Run(g, Apply(g, s, run[0]), run[1..])
  }

  ghost predicate Reachable(g: BulkheadConfig, s: System) {
    exists run :: CanRun(g, BEGIN, run) && Run(g, BEGIN, run) == s
  }

  lemma {:induction false} RunSnoc(g: BulkheadConfig, s: System, run: seq<Label>, l: Label)
    requires CanRun(g, s, run) && Enabled(g, Run(g, s, run), l)
    ensures CanRun(g, s, run + [l]) && Run(g, s, run + [l]) == Apply(g, Run(g, s, run), l)
    decreases |run|
  {
    if run == [] {
      assert [l][1..] == [];
    } else {
      RunSnoc(g, Apply(g, s, run[0]), run[1..], l);
      assert (run + [l])[1..] == run[1..] + [l];
    }
  }

  lemma ReachableStep(g: BulkheadConfig, s: System, l: Label)
    requires Reachable(g, s) && Enabled(g, s, l)
    ensures Reachable(g, Apply(g, s, l))
  {
    var run :| CanRun(g, BEGIN, run) && Run(g, BEGIN, run) == s;
    RunSnoc(g, BEGIN, run, l);
  }

  // ---- Accounting ----

  ghost predicate HasSlot(c: Call) {
    c.Slotted? || c.Holding? || c.Running? || c.Returned? || c.Executed? || c.Leaving?
  }

  ghost predicate IsActive(c: Call) {
    c.Running? || c.Returned? || c.Executed?
  }

  ghost predicate IsQueued(c: Call) {
    c.Queued? || c.Slotted? || c.Expired? || c.Rejecting?
  }

  ghost predicate CountedExecuted(c: Call) {
    c.Executed? || c.Leaving? || c.Served?
  }

  ghost predicate CountedRejected(c: Call) {
    c.Rejecting? || c.Rejected?
  }

  ghost predicate Uncounted(c: Call) {
    !CountedExecuted(c) && !CountedRejected(c)
  }

  ghost predicate Inv(g: BulkheadConfig, s: System) {
    && s.slots == Count(s.calls, HasSlot) <= g.Slots()
    && s.active == Count(s.calls, IsActive)
    && s.queued == Count(s.calls, IsQueued)
    && s.executed == Count(s.calls, CountedExecuted)
    && s.rejected == Count(s.calls, CountedRejected)
    && s.next == s.executed + s.rejected + Count(s.calls, Uncounted)
    && forall c :: c in s.calls ==> c < s.next
  }

  lemma MoveCounts(s: System, c: nat, to: Call)
    ensures var calls := s.calls[c := to];
            && Count(calls, HasSlot)
               == Count(s.calls, HasSlot) - One(c in s.calls && HasSlot(s.calls[c])) + One(HasSlot(to))
            && Count(calls, IsActive)
               == Count(s.calls, IsActive) - One(c in s.calls && IsActive(s.calls[c])) + One(IsActive(to))
            && Count(calls, IsQueued)
               == Count(s.calls, IsQueued) - One(c in s.calls && IsQueued(s.calls[c])) + One(IsQueued(to))
            && Count(calls, CountedExecuted)
               == Count(s.calls, CountedExecuted) - One(c in s.calls && CountedExecuted(s.calls[c]))
                  + One(CountedExecuted(to))
            && Count(calls, CountedRejected)
               == Count(s.calls, CountedRejected) - One(c in s.calls && CountedRejected(s.calls[c]))
                  + One(CountedRejected(to))
            && Count(calls, Uncounted)
               == Count(s.calls, Uncounted) - One(c in s.calls && Uncounted(s.calls[c])) + One(Uncounted(to))
  {
    CountMove(s.calls, c, to, HasSlot);
    CountMove(s.calls, c, to, IsActive);
    CountMove(s.calls, c, to, IsQueued);
    CountMove(s.calls, c, to, CountedExecuted);
    CountMove(s.calls, c, to, CountedRejected);
    CountMove(s.calls, c, to, Uncounted);
  }

  lemma StepKeepsInv(g: BulkheadConfig, s: System, l: Label)
    requires g.Valid() && Inv(g, s) && Enabled(g, s, l)
    ensures Inv(g, Apply(g, s, l))
  {
    hide Count;
    var s' := Apply(g, s, l);
    var c := if l.Enter? then s.next else l.c;
    MoveCounts(s, c, s'.calls[c]);
    assert s'.calls == s.calls[c := s'.calls[c]];
  }

  lemma {:induction false} RunKeepsInv(g: BulkheadConfig, s: System, run: seq<Label>)
    requires g.Valid() && Inv(g, s) && CanRun(g, s, run)
    ensures Inv(g, Run(g, s, run))
    decreases |run|
  {
    if run == [] {
    } else {
      StepKeepsInv(g, s, run[0]);
      RunKeepsInv(g, Apply(g, s, run[0]), run[1..]);
    }
  }

  lemma ReachableInv(g: BulkheadConfig, s: System)
    requires g.Valid() && Reachable(g, s)
    ensures Inv(g, s)
  {
    var run :| CanRun(g, BEGIN, run) && Run(g, BEGIN, run) == s;
    RunKeepsInv(g, BEGIN, run);
  }

  /** Slots in use are exactly the calls between acquire and release, and every call is accounted for. */
  lemma Accounting(g: BulkheadConfig, s: System)
    requires g.Valid() && Reachable(g, s)
    ensures s.slots == Count(s.calls, HasSlot)
    ensures 0 <= s.active <= s.slots <= g.maxConcurrent + g.maxQueue
    ensures 0 <= s.queued == Count(s.calls, IsQueued)
    ensures s.next == s.executed + s.rejected + Count(s.calls, Uncounted)
  {
    ReachableInv(g, s);
    CountSubset(s.calls, IsActive, HasSlot);
  }

  /** When all calls are over, every slot is back, both gauges are zero, and each call was counted once. */
  lemma Quiescence(g: BulkheadConfig, s: System)
    requires g.Valid() && Reachable(g, s)
    requires forall c :: c in s.calls ==> s.calls[c].Served? || s.calls[c].Rejected?
    ensures s.slots == 0 && s.active == 0 && s.queued == 0
    ensures s.next == s.executed + s.rejected
    ensures s.executed == Count(s.calls, (c: Call) => c.Served?)
    ensures s.rejected == Count(s.calls, (c: Call) => c.Rejected?)
  {
    ReachableInv(g, s);
    assert At(s.calls, HasSlot) == {};
    assert At(s.calls, IsActive) == {};
    assert At(s.calls, IsQueued) == {};
    assert At(s.calls, Uncounted) == {};
    assert At(s.calls, CountedExecuted) == At(s.calls, (c: Call) => c.Served?);
    assert At(s.calls, CountedRejected) == At(s.calls, (c: Call) => c.Rejected?);
  }

  // ---- One call while nothing else moves: the steps add up to the object's contract ----

  /** How far a call that holds a slot is from giving it back. */
  ghost function StepsToServed(c: Call): nat {
    match c
    case Slotted => 6
    case Holding => 5
    case Running => 4
    case Returned => 3
    case Executed => 2
    case Leaving => 1
    case _ => 0
  }

  /** Left alone, it leaves the gauges it is in, is counted once, and gives its slot back. */
  lemma {:induction false} HolderFinishes(g: BulkheadConfig, s: System, c: nat) returns (t: System)
    requires Reachable(g, s) && c in s.calls && HasSlot(s.calls[c])
    ensures Reachable(g, t)
    ensures t == s.(slots := s.slots - 1, active := s.active - One(IsActive(s.calls[c])),
                    queued := s.queued - One(IsQueued(s.calls[c])),
                    executed := s.executed + One(!CountedExecuted(s.calls[c])), calls := s.calls[c := Served])
    decreases StepsToServed(s.calls[c])
  {
    hide Reachable;
    ReachableStep(g, s, Advance(c));
    t := Apply(g, s, Advance(c));
    if !t.calls[c].Served? {
      t := HolderFinishes(g, t, c);
    }
  }

  lemma LoneCallServed(g: BulkheadConfig, s: System) returns (t: System)
    requires g.Valid() && Reachable(g, s) && s.slots < g.Slots()
    ensures Reachable(g, t)
    ensures t == s.(executed := s.executed + 1, calls := s.calls[s.next := Served], next := s.next + 1)
  {
    hide Reachable;
    var c := s.next;
    ReachableStep(g, s, Enter);
    t := Apply(g, s, Enter);
    ReachableStep(g, t, Advance(c));
    t := Apply(g, t, Advance(c));
    t := HolderFinishes(g, t, c);
  }

  lemma LoneCallRefused(g: BulkheadConfig, s: System) returns (t: System)
    requires g.Valid() && Reachable(g, s) && s.slots >= g.Slots() && s.queued >= g.maxQueue
    ensures Reachable(g, t)
    ensures t == s.(rejected := s.rejected + 1, calls := s.calls[s.next := Rejected], next := s.next + 1)
  {
    hide Reachable;
    var c := s.next;
    ReachableStep(g, s, Enter);
    t := Apply(g, s, Enter);
    ReachableStep(g, t, Advance(c));
    t := Apply(g, t, Advance(c));
    ReachableStep(g, t, Advance(c));
    t := Apply(g, t, Advance(c));
    ReachableStep(g, t, Advance(c));
    t := Apply(g, t, Advance(c));
    ReachableStep(g, t, Advance(c));
    t := Apply(g, t, Advance(c));
  }

  /** A call facing full slots joins the queue. */
  lemma LoneCallQueues(g: BulkheadConfig, s: System) returns (t: System)
    requires g.Valid() && Reachable(g, s) && s.slots >= g.Slots() && s.queued < g.maxQueue
    ensures Reachable(g, t)
    ensures t == s.(queued := s.queued + 1, calls := s.calls[s.next := Queued], next := s.next + 1)
  {
    hide Reachable;
    var c := s.next;
    ReachableStep(g, s, Enter);
    t := Apply(g, s, Enter);
    ReachableStep(g, t, Advance(c));
    t := Apply(g, t, Advance(c));
    ReachableStep(g, t, Advance(c));
    t := Apply(g, t, Advance(c));
    ReachableStep(g, t, Advance(c));
    t := Apply(g, t, Advance(c));
  }

  /** A call that waits for a slot takes the free one and goes through. */
  lemma QueuedCallServed(g: BulkheadConfig, s: System, c: nat) returns (t: System)
    requires g.Valid() && Reachable(g, s) && c in s.calls && s.calls[c].Queued? && s.slots < g.Slots()
    ensures Reachable(g, t)
    ensures t == s.(queued := s.queued - 1, executed := s.executed + 1, calls := s.calls[c := Served])
  {
    hide Reachable;
    ReachableStep(g, s, Advance(c));
    t := Apply(g, s, Advance(c));
    ReachableStep(g, t, Advance(c));
    t := Apply(g, t, Advance(c));
    t := HolderFinishes(g, t, c);
  }

  /**
   * One call facing full slots waits until call `d`, wherever it is on its way, gives its slot up: the
   * gauges lose `d` where it was in them, and both calls are counted once.
   */
  lemma LoneCallWaits(g: BulkheadConfig, s: System, d: nat) returns (t: System)
    requires g.Valid() && Reachable(g, s) && s.slots == g.Slots() && s.queued < g.maxQueue
    requires d in s.calls && HasSlot(s.calls[d])
    ensures Reachable(g, t)
    ensures t == s.(slots := s.slots - 1, active := s.active - One(IsActive(s.calls[d])),
                    queued := s.queued - One(IsQueued(s.calls[d])),
                    executed := s.executed + One(!CountedExecuted(s.calls[d])) + 1,
                    calls := s.calls[s.next := Served][d := Served], next := s.next + 1)
  {
    ReachableInv(g, s);
    hide Reachable, Inv;
    t := LoneCallQueues(g, s);
    t := HolderFinishes(g, t, d);
    t := QueuedCallServed(g, t, s.next);
    assert s.calls[s.next := Queued][d := Served][s.next := Served] == s.calls[s.next := Served][d := Served];
  }

  /** Where the object's account of a leaving call places it. */
  ghost function StageOf(c: Call): Stage
    requires HasSlot(c)
  {
    match c
    case Slotted => StillQueued
    case Holding => NotYetActive
    case Executed => Counted
    case Leaving => NoLongerActive
    case _ => Active
  }

  /**
   * In every reachable state with all slots in use, what the object takes out of its gauges for a call
   * that leaves is what that call's own steps take out of them.
   */
  lemma LeaverMatchesSteps(g: BulkheadConfig, s: System, d: nat, l: Leaver)
    requires g.Valid() && Reachable(g, s) && s.slots == g.Slots()
    requires d in s.calls && HasSlot(s.calls[d]) && l.stage == StageOf(s.calls[d])
    ensures TakenOut(l, s.slots, s.active) == One(IsActive(s.calls[d]))
    ensures Dequeued(l, s.slots, s.active, s.queued) == One(IsQueued(s.calls[d]))
    ensures AddedBy(l) == One(!CountedExecuted(s.calls[d]))
  {
    ReachableInv(g, s);
    assert d in At(s.calls, HasSlot);
    assert IsActive(s.calls[d]) ==> d in At(s.calls, IsActive);
    assert IsQueued(s.calls[d]) ==> d in At(s.calls, IsQueued);
    SubsetSize(At(s.calls, IsActive), At(s.calls, HasSlot));
  }

  // ---- What the two limits do and do not bound ----

  /** `n` calls that run at the same time. */
  lemma {:induction false} RunTogether(g: BulkheadConfig, n: nat) returns (s: System)
    requires g.Valid() && n <= g.Slots()
    ensures Reachable(g, s) && s.slots == n && s.active == n && s.queued == 0 && s.next == n
  {
    if n == 0 {
      s := BEGIN;
      assert CanRun(g, BEGIN, []);
    } else {
      var t := RunTogether(g, n - 1);
      ReachableStep(g, t, Enter);
      s := Apply(g, t, Enter);
      ReachableStep(g, s, Advance(t.next));
      s := Apply(g, s, Advance(t.next));
      ReachableStep(g, s, Advance(t.next));
      s := Apply(g, s, Advance(t.next));
    }
  }

  /** `maxConcurrent` does not bound running operations: under every configuration queue slots run too. */
  lemma MaxConcurrentIsExceeded(g: BulkheadConfig) returns (s: System)
    requires g.Valid()
    ensures Reachable(g, s) && s.active == g.maxConcurrent + g.maxQueue > g.maxConcurrent
  {
    s := RunTogether(g, g.Slots());
  }

  ghost predicate ComparedFrom(s: System, first: nat, n: nat) {
    s.next == first + n && forall c :: first <= c < first + n ==> c in s.calls && s.calls[c] == Compared(0)
  }

  /** `n` calls that all loaded an empty queue before any of them joined it. */
  lemma {:induction false} LoadTogether(g: BulkheadConfig, n: nat) returns (s: System)
    requires g.Valid()
    ensures Reachable(g, s) && s.slots == g.Slots() && s.queued == 0 && ComparedFrom(s, g.Slots(), n)
  {
    if n == 0 {
      s := RunTogether(g, g.Slots());
    } else {
      var t := LoadTogether(g, n - 1);
      ReachableStep(g, t, Enter);
      s := Apply(g, t, Enter);
      ReachableStep(g, s, Advance(t.next));
      s := Apply(g, s, Advance(t.next));
      ReachableStep(g, s, Advance(t.next));
      s := Apply(g, s, Advance(t.next));
    }
  }

  lemma {:induction false} JoinRest(g: BulkheadConfig, s: System, first: nat, n: nat) returns (t: System)
    requires g.Valid() && Reachable(g, s)
    requires forall c :: first <= c < first + n ==> c in s.calls && s.calls[c] == Compared(0)
    ensures Reachable(g, t) && t.queued == s.queued + n
    decreases n
  {
    if n == 0 {
      t := s;
    } else {
      var c := first + n - 1;
      ReachableStep(g, s, Advance(c));
      t := JoinRest(g, Apply(g, s, Advance(c)), first, n - 1);
    }
  }

  /** Because the queue length is loaded before it is raised, `maxQueue` bounds nothing: any length is reachable. */
  lemma QueueIsUnbounded(g: BulkheadConfig, n: nat) returns (s: System)
    requires g.Valid()
    ensures Reachable(g, s) && s.queued == n
  {
    var t := LoadTogether(g, n);
    s := JoinRest(g, t, g.Slots(), n);
  }

  /** No call loads the queue length in a step of its own. */
  ghost predicate JoinsAtomically(g: BulkheadConfig, s: System, run: seq<Label>)
    requires CanRun(g, s, run)
    decreases |run|
  {
    run == [] ||
    (!(run[0].Advance? && s.calls[run[0].c].Full?) && JoinsAtomically(g, Apply(g, s, run[0]), run[1..]))
  }

  ghost predicate NoneCompared(s: System) {
    forall c :: c in s.calls ==> !s.calls[c].Compared?
  }

  lemma {:induction false} AtomicJoinStays(g: BulkheadConfig, s: System, run: seq<Label>)
    requires g.Valid() && CanRun(g, s, run) && JoinsAtomically(g, s, run)
    requires NoneCompared(s) && s.queued <= g.maxQueue
    ensures Run(g, s, run).queued <= g.maxQueue
    decreases |run|
  {
    if run == [] {
    } else {
      AtomicJoinStays(g, Apply(g, s, run[0]), run[1..]);
    }
  }

  /** With the load and the add in one step, the queue never exceeds `maxQueue`. */
  lemma AtomicJoinBoundsQueue(g: BulkheadConfig, run: seq<Label>)
    requires g.Valid() && CanRun(g, BEGIN, run) && JoinsAtomically(g, BEGIN, run)
    ensures Run(g, BEGIN, run).queued <= g.maxQueue
  {
    AtomicJoinStays(g, BEGIN, run);
  }
}
