// The handshake between `runBackground` and `CloseWithTimeout` in
// internal/cache/manager.go, over every interleaving of starters, background
// functions and closers. The mutex, the wait group and the channels are primitives.

module Shutdown {
  import opened Counting

  datatype Thread =
    // a caller of runBackground, and then the goroutine it starts
    | Starting               // about to lock bgMu
    | StartLocked            // holds bgMu, about to load closed
    | StartRefused           // saw closed: about to unlock and return
    | StartApproved          // saw not closed: about to add to bgWg
    | StartAdded             // about to unlock
    | Spawning               // about to start the goroutine
    | BackgroundRunning      // inside the background function
    | BackgroundReturned     // about to call bgWg.Done
    | BackgroundOver
    // a caller of CloseWithTimeout
    | Closing                // about to lock bgMu
    | CloseLocked            // holds bgMu, about to swap closed
    | CloseLost              // closed was already set: about to unlock and return nil
    | CloseWon               // set closed: about to cancel the shutdown context
    | CloseCancelled         // about to unlock
    | CloseWaiting           // waits for the wait group or the timeout
    | CloseMemory(timedOut: bool)  // about to close the memory layer
    | CloseRedis(timedOut: bool)   // about to close the Redis layer
    | CloseOver(timedOut: bool)
    | ReturnedNil            // refused starter, or closer that lost

  // `lateAdds` counts additions to bgWg after closed was set.
  datatype System = System(threads: map<nat, Thread>, next: nat, holder: int, closed: bool, cancelled: bool,
                           waitGroup: int, waitDone: bool, memoryCloses: int, redisCloses: int, lateAdds: int)

  datatype Label =
    | NewStarter
    | NewCloser
    | Advance(t: nat)   // the next step of thread t
    | GroupEmpty        // bgWg.Wait returns and the done channel is closed
    | Timeout(t: nat)   // the timer of closer t fires first

  const BEGIN := System(map[], 0, -1, false, false, 0, false, 0, 0, 0)

  ghost predicate HoldsLock(p: Thread) {
    || p.StartLocked? || p.StartRefused? || p.StartApproved? || p.StartAdded?
    || p.CloseLocked? || p.CloseLost? || p.CloseWon? || p.CloseCancelled?
  }

  /** Counted in the wait group. */
  ghost predicate Tracked(p: Thread) {
    p.StartAdded? || p.Spawning? || p.BackgroundRunning? || p.BackgroundReturned?
  }

  /** The closer that found closed unset. */
  ghost predicate Winner(p: Thread) {
    || p.CloseWon? || p.CloseCancelled? || p.CloseWaiting?
    || p.CloseMemory? || p.CloseRedis? || p.CloseOver?
  }

  ghost predicate PastMemory(p: Thread) {
    p.CloseRedis? || p.CloseOver?
  }

  ghost predicate PastRedis(p: Thread) {
    p.CloseOver?
  }

  /** The waiting goroutine runs once the winner has unlocked. */
  ghost predicate WaitStarted(p: Thread) {
    p.CloseWaiting? || p.CloseMemory? || p.CloseRedis? || p.CloseOver?
  }

  ghost predicate Finished(p: Thread) {
    p.BackgroundOver? || p.CloseOver? || p.ReturnedNil?
  }

  ghost predicate Enabled(s: System, l: Label) {
    match l
    case NewStarter => true
    case NewCloser => true
    case GroupEmpty => s.waitGroup == 0 && exists t :: t in s.threads && WaitStarted(s.threads[t])
    case Timeout(t) => t in s.threads && s.threads[t].CloseWaiting?
    case Advance(t) =>
      && t in s.threads
      && match s.threads[t]
         case Starting => s.holder == -1
         case Closing => s.holder == -1
         case CloseWaiting => s.waitDone
         case BackgroundOver => false
         case CloseOver(_) => false
         case ReturnedNil => false
         case _ => true
  }

  /** Where the next step takes a thread. */
  ghost function Next(p: Thread, closed: bool): Thread {
    match p
    case Starting => StartLocked
    case StartLocked => if closed then StartRefused else StartApproved
    case StartRefused => ReturnedNil
    case StartApproved => StartAdded
    case StartAdded => Spawning
    case Spawning => BackgroundRunning
    case BackgroundRunning => BackgroundReturned
    case BackgroundReturned => BackgroundOver
    case Closing => CloseLocked
    case CloseLocked => if closed then CloseLost else CloseWon
    case CloseLost => ReturnedNil
    case CloseWon => CloseCancelled
    case CloseCancelled => CloseWaiting
    case CloseWaiting => CloseMemory(false)
    case CloseMemory(late) => CloseRedis(late)
    case CloseRedis(late) => CloseOver(late)
    case _ => p
  }

  ghost predicate Locks(p: Thread) {
    p.Starting? || p.Closing?
  }

  ghost predicate Unlocks(p: Thread) {
    p.StartRefused? || p.StartAdded? || p.CloseLost? || p.CloseCancelled?
  }

  ghost function Apply(s: System, l: Label): System
    requires Enabled(s, l)
  {
    match l
    case NewStarter => s.(threads := s.threads[s.next := Starting], next := s.next + 1)
    case NewCloser => s.(threads := s.threads[s.next := Closing], next := s.next + 1)
    case GroupEmpty => s.(waitDone := true)
    case Timeout(t) => s.(threads := s.threads[t := CloseMemory(true)])
    case Advance(t) =>
      var p := s.threads[t];
      System(s.threads[t := Next(p, s.closed)],
             s.next,
             if Locks(p) then t else if Unlocks(p) then -1 else s.holder,
             s.closed || p.CloseLocked?,
             s.cancelled || p.CloseWon?,
             s.waitGroup + One(p.StartApproved?) - One(p.BackgroundReturned?),
             s.waitDone,
             s.memoryCloses + One(p.CloseMemory?),
             s.redisCloses + One(p.CloseRedis?),
             s.lateAdds + One(p.StartApproved? && s.closed))
  }

  ghost predicate CanRun(s: System, run: seq<Label>)
    decreases |run|
  {
    run == [] || (Enabled(s, run[0]) && CanRun(Apply(s, run[0]), run[1..]))
  }

  ghost function Run(s: System, run: seq<Label>): System
    requires CanRun(s, run)
    decreases |run|
  {
    if run == [] then s else Run(Apply(s, run[0]), run[1..])
  }

  ghost predicate LockInv(s: System) {
    && (forall t :: t in s.threads ==> (HoldsLock(s.threads[t]) <==> s.holder == t))
    && (forall t :: t in s.threads ==> t < s.next)
    && (s.holder == -1 || s.holder in s.threads)
  }

  ghost predicate GroupInv(s: System) {
    && s.waitGroup == Count(s.threads, Tracked)
    && (forall t :: t in s.threads && s.threads[t].StartApproved? ==> !s.closed)
    && s.lateAdds == 0
    && (s.waitDone ==> s.closed && s.waitGroup == 0)
  }

  /** A closer on the branch where all background functions finished before the timeout. */
  ghost predicate OnTime(p: Thread) {
    (p.CloseMemory? || p.CloseRedis? || p.CloseOver?) && !p.timedOut
  }

  ghost predicate CloserInv(s: System) {
    && Count(s.threads, Winner) == One(s.closed)
    && s.memoryCloses == Count(s.threads, PastMemory)
    && s.redisCloses == Count(s.threads, PastRedis)
    && (forall t :: t in s.threads && OnTime(s.threads[t]) ==> s.waitDone)
  }

  ghost predicate Inv(s: System) {
    LockInv(s) && GroupInv(s) && CloserInv(s)
  }

  lemma MoveCounts(s: System, t: nat, p: Thread)
    ensures var threads := s.threads[t := p];
            && Count(threads, Tracked)
               == Count(s.threads, Tracked) - One(t in s.threads && Tracked(s.threads[t])) + One(Tracked(p))
            && Count(threads, Winner)
               == Count(s.threads, Winner) - One(t in s.threads && Winner(s.threads[t])) + One(Winner(p))
            && Count(threads, PastMemory)
               == Count(s.threads, PastMemory) - One(t in s.threads && PastMemory(s.threads[t])) + One(PastMemory(p))
            && Count(threads, PastRedis)
               == Count(s.threads, PastRedis) - One(t in s.threads && PastRedis(s.threads[t])) + One(PastRedis(p))
  {
    CountMove(s.threads, t, p, Tracked);
    CountMove(s.threads, t, p, Winner);
    CountMove(s.threads, t, p, PastMemory);
    CountMove(s.threads, t, p, PastRedis);
  }

  /** Every label but `GroupEmpty` moves one thread. */
  ghost function Mover(s: System, l: Label): nat
    requires Enabled(s, l) && l != GroupEmpty
  {
    if l.NewStarter? || l.NewCloser? then s.next else l.t
  }

  lemma StepMoves(s: System, l: Label)
    requires Enabled(s, l) && l != GroupEmpty
    ensures var t := Mover(s, l); var s' := Apply(s, l);
            t in s'.threads && s'.threads == s.threads[t := s'.threads[t]]
  {
  }

  /** The lock changes hands only between the moving thread and nobody. */
  lemma StepMovesLock(s: System, l: Label)
    requires Enabled(s, l) && l != GroupEmpty
    requires Mover(s, l) in s.threads ==> Mover(s, l) < s.next
    ensures var t := Mover(s, l); var s' := Apply(s, l);
            && s'.next >= s.next && t < s'.next
            && (l.NewStarter? || l.NewCloser? ==> !HoldsLock(s'.threads[t]) && s'.holder == s.holder)
            && (l.Advance? || l.Timeout? ==> t in s.threads)
            && (t in s.threads ==>
                  || (HoldsLock(s.threads[t]) == HoldsLock(s'.threads[t]) && s'.holder == s.holder)
                  || (!HoldsLock(s.threads[t]) && HoldsLock(s'.threads[t]) && s.holder == -1 && s'.holder == t)
                  || (HoldsLock(s.threads[t]) && !HoldsLock(s'.threads[t]) && s'.holder == -1))
  {
  }

  lemma StepKeepsLock(s: System, l: Label)
    requires LockInv(s) && Enabled(s, l)
    ensures LockInv(Apply(s, l))
  {
    if l != GroupEmpty {
      StepMoves(s, l);
      StepMovesLock(s, l);
      hide Apply, HoldsLock;
    }
  }

  lemma StepKeepsGroup(s: System, l: Label)
    requires Inv(s) && Enabled(s, l)
    ensures GroupInv(Apply(s, l))
  {
    if l == GroupEmpty {
      var t :| t in s.threads && WaitStarted(s.threads[t]);
      assert t in At(s.threads, Winner);
    } else {
      hide Count;
      StepMoves(s, l);
      MoveCounts(s, Mover(s, l), Apply(s, l).threads[Mover(s, l)]);
    }
  }

  /** What a step does to the closers' counters is what it does to the program point of the thread it moves. */
  lemma StepMovesClosers(s: System, l: Label)
    requires Enabled(s, l) && l != GroupEmpty
    ensures var t := Mover(s, l); var s' := Apply(s, l);
            && s'.memoryCloses - s.memoryCloses
               == One(PastMemory(s'.threads[t])) - One(t in s.threads && l.Advance? && PastMemory(s.threads[t]))
            && s'.redisCloses - s.redisCloses
               == One(PastRedis(s'.threads[t])) - One(t in s.threads && l.Advance? && PastRedis(s.threads[t]))
            && (l.Timeout? ==> t in s.threads && !PastMemory(s.threads[t]) && Winner(s.threads[t]))
            && (s.closed ==> s'.closed) && s'.waitDone == s.waitDone
            && (l.Timeout? || l.NewStarter? || l.NewCloser? ==> s'.closed == s.closed)
  {
  }

  /** Exactly the step that sets closed makes a winner, and nobody stops being one. */
  lemma StepMovesWinner(s: System, l: Label)
    requires Enabled(s, l) && l != GroupEmpty
    ensures var t := Mover(s, l); var s' := Apply(s, l);
            One(Winner(s'.threads[t])) - One(l.Advance? && Winner(s.threads[t])) - One(l.Timeout?)
            == One(s'.closed) - One(s.closed)
  {
  }

  /** A closer gets past the wait on time only after the wait group has reported. */
  lemma StepMovesOnTime(s: System, l: Label)
    requires Enabled(s, l) && l != GroupEmpty
    ensures var t := Mover(s, l); var p := Apply(s, l).threads[t];
            OnTime(p) ==> s.waitDone || (t in s.threads && OnTime(s.threads[t]))
  {
  }

  lemma StepKeepsClosers(s: System, l: Label)
    requires Inv(s) && Enabled(s, l)
    ensures CloserInv(Apply(s, l))
  {
    if l != GroupEmpty {
      hide Count;
      var t := Mover(s, l);
      assert t in s.threads <==> l.Advance? || l.Timeout?;
      StepMoves(s, l);
      StepMovesClosers(s, l);
      StepMovesWinner(s, l);
      StepMovesOnTime(s, l);
      MoveCounts(s, t, Apply(s, l).threads[t]);
      hide Apply, Winner, PastMemory, OnTime;
    }
  }

  lemma StepKeepsInv(s: System, l: Label)
    requires Inv(s) && Enabled(s, l)
    ensures Inv(Apply(s, l))
  {
    StepKeepsLock(s, l);
    StepKeepsGroup(s, l);
    StepKeepsClosers(s, l);
  }

  lemma {:induction false} EveryRun(s: System, run: seq<Label>)
    requires Inv(s) && CanRun(s, run)
    ensures Inv(Run(s, run))
    decreases |run|
  {
    if run == [] {
    } else {
      StepKeepsInv(s, run[0]);
      EveryRun(Apply(s, run[0]), run[1..]);
    }
  }

  /** No addition to the wait group after closed is set, and each layer is closed at most once. */
  lemma ShutdownSafety(run: seq<Label>)
    requires CanRun(BEGIN, run)
    ensures var s := Run(BEGIN, run);
            && s.lateAdds == 0
            && 0 <= s.redisCloses <= s.memoryCloses <= 1
            && (s.memoryCloses > 0 ==> s.closed)
  {
    EveryRun(BEGIN, run);
    var s := Run(BEGIN, run);
    CountSubset(s.threads, PastRedis, PastMemory);
    CountSubset(s.threads, PastMemory, Winner);
  }

  /** Once the manager is closed and nobody is on his way, each layer has been closed exactly once. */
  lemma ClosedExactlyOnce(run: seq<Label>)
    requires CanRun(BEGIN, run)
    requires var s := Run(BEGIN, run); s.closed && forall t :: t in s.threads ==> Finished(s.threads[t])
    ensures Run(BEGIN, run).memoryCloses == 1 && Run(BEGIN, run).redisCloses == 1
  {
    EveryRun(BEGIN, run);
    var s := Run(BEGIN, run);
    assert At(s.threads, Winner) == At(s.threads, PastMemory) == At(s.threads, PastRedis);
  }

  lemma {:induction false} WaitDoneStays(s: System, run: seq<Label>)
    requires s.waitDone && CanRun(s, run)
    ensures Run(s, run).waitDone
    decreases |run|
  {
    if run == [] {
    } else {
      WaitDoneStays(Apply(s, run[0]), run[1..]);
    }
  }

  /**
   * From the moment a closer that did not time out is about to close the memory layer,
   * no background function is running, none will ever start, and the wait group stays empty.
   */
  lemma OnTimeMeansQuiet(before: seq<Label>, t: nat, after: seq<Label>)
    requires CanRun(BEGIN, before)
    requires var s := Run(BEGIN, before); t in s.threads && OnTime(s.threads[t]) && CanRun(s, after)
    ensures var end := Run(Run(BEGIN, before), after);
            && end.waitGroup == 0
            && forall u :: u in end.threads ==> !Tracked(end.threads[u])
  {
    EveryRun(BEGIN, before);
    var s := Run(BEGIN, before);
    EveryRun(s, after);
    WaitDoneStays(s, after);
    var end := Run(s, after);
    forall u | u in end.threads ensures !Tracked(end.threads[u]) {
      CountZero(end.threads, Tracked, u);
    }
  }

  /**
   * Nobody waits in vain: even if no timer ever fires, as long as a thread has not finished
   * some thread can take a step or the wait group is ready to report that it is empty.
   */
  lemma NeverStuck(run: seq<Label>, t: nat)
    requires CanRun(BEGIN, run)
    requires var s := Run(BEGIN, run); t in s.threads && !Finished(s.threads[t])
    ensures var s := Run(BEGIN, run);
            || (exists u :: u in s.threads && Enabled(s, Advance(u)))
            || (!s.waitDone && Enabled(s, GroupEmpty))
  {
    EveryRun(BEGIN, run);
    var s := Run(BEGIN, run);
    if s.holder != -1 {
      assert Enabled(s, Advance(s.holder));
    } else if s.threads[t].CloseWaiting? && !s.waitDone && s.waitGroup != 0 {
      var u :| u in At(s.threads, Tracked);
      assert Enabled(s, Advance(u));
    } else if s.threads[t].CloseWaiting? && !s.waitDone {
      assert WaitStarted(s.threads[t]);
    } else {
      assert Enabled(s, Advance(t));
    }
  }

  // ---- Who is refused, who is told to stop, and who timed out ----

  /** The closer has cancelled the shutdown context. */
  ghost predicate PastCancel(p: Thread) {
    p.CloseCancelled? || p.CloseWaiting? || p.CloseMemory? || p.CloseRedis? || p.CloseOver?
  }

  ghost predicate CancelInv(s: System) {
    && (s.cancelled ==> s.closed)
    && (forall t :: t in s.threads && s.threads[t].CloseWon? ==> s.closed)
    && (forall t :: t in s.threads && PastCancel(s.threads[t]) ==> s.cancelled)
  }

  lemma {:induction false} RunKeepsCancel(s: System, run: seq<Label>)
    requires CancelInv(s) && CanRun(s, run)
    ensures CancelInv(Run(s, run))
    decreases |run|
  {
    if run == [] {
    } else {
      RunKeepsCancel(Apply(s, run[0]), run[1..]);
    }
  }

  /** Before a closer waits for background functions it has told them to stop; nobody else ever does. */
  lemma CancelledBeforeWaiting(run: seq<Label>)
    requires CanRun(BEGIN, run)
    ensures var s := Run(BEGIN, run);
            && (s.cancelled ==> s.closed)
            && (forall t :: t in s.threads && PastCancel(s.threads[t]) ==> s.cancelled)
  {
    RunKeepsCancel(BEGIN, run);
  }

  ghost predicate NobodyCloses(s: System) {
    !s.closed && forall t :: t in s.threads ==>
      && !s.threads[t].StartRefused? && !s.threads[t].ReturnedNil?
      && !s.threads[t].Closing? && !s.threads[t].CloseLocked? && !s.threads[t].CloseLost?
  }

  lemma {:induction false} NobodyRefused(s: System, run: seq<Label>)
    requires NobodyCloses(s) && CanRun(s, run) && NewCloser !in run
    ensures NobodyCloses(Run(s, run))
    decreases |run|
  {
    if run == [] {
    } else {
      assert run[0] in run && forall l :: l in run[1..] ==> l in run;
      NobodyRefused(Apply(s, run[0]), run[1..]);
    }
  }

  /** As long as nobody closes the manager, no background function is refused. */
  lemma RefusedOnlyWhenClosing(run: seq<Label>, t: nat)
    requires CanRun(BEGIN, run) && NewCloser !in run && t in Run(BEGIN, run).threads
    ensures !Run(BEGIN, run).threads[t].StartRefused? && !Run(BEGIN, run).threads[t].ReturnedNil?
  {
    NobodyRefused(BEGIN, run);
  }

  /** The thread has not got past the test of closed. */
  ghost predicate NotStarted(s: System, t: nat) {
    t in s.threads ==> s.threads[t].Starting? || s.threads[t].StartLocked? || s.threads[t].StartRefused?
                       || s.threads[t].ReturnedNil?
  }

  /** Once the manager is closed, a background function that has not been let through by then never runs. */
  lemma {:induction false} NoneStartsLater(s: System, run: seq<Label>, t: nat)
    requires Inv(s) && s.closed && CanRun(s, run) && t in s.threads && NotStarted(s, t)
    ensures t in Run(s, run).threads && NotStarted(Run(s, run), t)
    decreases |run|
  {
    if run == [] {
    } else {
      StepKeepsInv(s, run[0]);
      assert t in Apply(s, run[0]).threads && NotStarted(Apply(s, run[0]), t);
      hide Apply, Inv;
      NoneStartsLater(Apply(s, run[0]), run[1..], t);
    }
  }

  lemma NoneStartsAfterClose(before: seq<Label>, t: nat, after: seq<Label>)
    requires CanRun(BEGIN, before)
    requires var s := Run(BEGIN, before); s.closed && t in s.threads && NotStarted(s, t) && CanRun(s, after)
    ensures var end := Run(Run(BEGIN, before), after);
            t in end.threads && !Tracked(end.threads[t]) && !end.threads[t].BackgroundOver?
  {
    EveryRun(BEGIN, before);
    NoneStartsLater(Run(BEGIN, before), after, t);
  }

  /** Past its wait, with the verdict of the wait. */
  ghost predicate PastWait(p: Thread) {
    p.CloseMemory? || p.CloseRedis? || p.CloseOver?
  }

  lemma VerdictStep(s: System, l: Label, t: nat)
    requires Inv(s) && Enabled(s, l)
    ensures var s' := Apply(s, l);
            && (t in s.threads && PastWait(s.threads[t]) ==>
                  l != Timeout(t) && PastWait(s'.threads[t]) && s'.threads[t].timedOut == s.threads[t].timedOut)
            && (t in s'.threads && PastWait(s'.threads[t]) && !(t in s.threads && PastWait(s.threads[t])) ==>
                  (s'.threads[t].timedOut <==> l == Timeout(t)))
            && (l == Timeout(t) ==> t in s'.threads && PastWait(s'.threads[t]))
  {
  }

  lemma {:induction false} VerdictOfWait(s: System, run: seq<Label>, t: nat)
    requires Inv(s) && CanRun(s, run)
    requires t in Run(s, run).threads && PastWait(Run(s, run).threads[t])
    ensures Run(s, run).threads[t].timedOut <==>
              if t in s.threads && PastWait(s.threads[t]) then s.threads[t].timedOut else Timeout(t) in run
    ensures t in s.threads && PastWait(s.threads[t]) ==> Timeout(t) !in run
    decreases |run|
  {
    if run == [] {
    } else {
      var l, s' := run[0], Apply(s, run[0]);
      VerdictStep(s, l, t);
      StepKeepsInv(s, l);
      hide Apply, Inv;
      VerdictOfWait(s', run[1..], t);
      assert Timeout(t) in run <==> l == Timeout(t) || Timeout(t) in run[1..];
    }
  }

  /** A closer reports a timeout exactly if its own timer fired before the wait group reported. */
  lemma TimedOutIff(run: seq<Label>, t: nat)
    requires CanRun(BEGIN, run) && t in Run(BEGIN, run).threads && PastWait(Run(BEGIN, run).threads[t])
    ensures Run(BEGIN, run).threads[t].timedOut <==> Timeout(t) in run
  {
    VerdictOfWait(BEGIN, run, t);
  }

  // ---- The timeout branch gives no such guarantee ----

  ghost predicate Reachable(s: System) {
    exists run :: CanRun(BEGIN, run) && Run(BEGIN, run) == s
  }

  lemma {:induction false} RunSnoc(s: System, run: seq<Label>, l: Label)
    requires CanRun(s, run) && Enabled(Run(s, run), l)
    ensures CanRun(s, run + [l]) && Run(s, run + [l]) == Apply(Run(s, run), l)
    decreases |run|
  {
    if run == [] {
      assert [l][1..] == [];
    } else {
      RunSnoc(Apply(s, run[0]), run[1..], l);
      assert (run + [l])[1..] == run[1..] + [l];
    }
  }

  lemma ReachableStep(s: System, l: Label) returns (s': System)
    requires Reachable(s) && Enabled(s, l)
    ensures s' == Apply(s, l) && Reachable(s')
  {
    var run :| CanRun(BEGIN, run) && Run(BEGIN, run) == s;
    RunSnoc(BEGIN, run, l);
    s' := Apply(s, l);
  }

  /** A manager with one thread, not yet closed. */
  ghost function Single(p: Thread, holder: int, waitGroup: int): System {
    System(map[0 := p], 1, holder, false, false, waitGroup, false, 0, 0, 0)
  }

  lemma SingleStep(p: Thread, holder: int, waitGroup: int)
    requires Reachable(Single(p, holder, waitGroup)) && (p.Starting? ==> holder == -1)
    requires p.Starting? || p.StartLocked? || p.StartApproved? || p.StartAdded? || p.Spawning?
    ensures Reachable(Single(Next(p, false), if Locks(p) then 0 else if Unlocks(p) then -1 else holder,
                             waitGroup + One(p.StartApproved?)))
  {
    var s := ReachableStep(Single(p, holder, waitGroup), Advance(0));
    assert map[0 := p][0 := Next(p, false)] == map[0 := Next(p, false)];
  }

  /** One background function is running and the manager is open. */
  lemma OneRunning()
    ensures Reachable(Single(BackgroundRunning, -1, 1))
  {
    assert CanRun(BEGIN, []);
    var s := ReachableStep(BEGIN, NewStarter);
    assert s == Single(Starting, -1, 0);
    hide Reachable, Apply;
    SingleStep(Starting, -1, 0);
    SingleStep(StartLocked, 0, 0);
    SingleStep(StartApproved, 0, 0);
    SingleStep(StartAdded, 0, 1);
    SingleStep(Spawning, -1, 1);
  }

  /** A background function is running while thread 1 is at `p`. */
  ghost function Beside(p: Thread, holder: int, closed: bool, cancelled: bool, memoryCloses: int): System {
    System(map[0 := BackgroundRunning, 1 := p], 2, holder, closed, cancelled, 1, false, memoryCloses, 0, 0)
  }

  lemma BesideStep(p: Thread, holder: int, closed: bool, cancelled: bool)
    requires Reachable(Beside(p, holder, closed, cancelled, 0)) && (p.Closing? ==> holder == -1)
    requires p.Closing? || p.CloseLocked? || p.CloseWon? || p.CloseCancelled? || p.CloseMemory?
    ensures Reachable(Beside(Next(p, closed), if Locks(p) then 1 else if Unlocks(p) then -1 else holder,
                             closed || p.CloseLocked?, cancelled || p.CloseWon?, One(p.CloseMemory?)))
  {
    var s := ReachableStep(Beside(p, holder, closed, cancelled, 0), Advance(1));
    var q := Next(p, closed);
    assert map[0 := BackgroundRunning, 1 := p][1 := q] == map[0 := BackgroundRunning, 1 := q];
  }

  lemma CloserWaits() returns (s: System)
    requires Reachable(Beside(Closing, -1, false, false, 0))
    ensures s == Beside(CloseWaiting, -1, true, true, 0) && Reachable(s)
  {
    hide Reachable, Apply;
    BesideStep(Closing, -1, false, false);
    BesideStep(CloseLocked, 1, false, false);
    BesideStep(CloseWon, 1, true, false);
    BesideStep(CloseCancelled, 1, true, true);
    s := Beside(CloseWaiting, -1, true, true, 0);
  }

  /** After a timeout the memory layer is closed while a background function is still running. */
  lemma TimeoutClosesUnderBackground() returns (s: System)
    ensures Reachable(s) && s.memoryCloses == 1 && s.waitGroup == 1
    ensures 0 in s.threads && s.threads[0] == BackgroundRunning
  {
    OneRunning();
    s := ReachableStep(Single(BackgroundRunning, -1, 1), NewCloser);
    assert s == Beside(Closing, -1, false, false, 0);
    s := CloserWaits();
    s := ReachableStep(s, Timeout(1));
    assert s == Beside(CloseMemory(true), -1, true, true, 0);
    BesideStep(CloseMemory(true), -1, true, true);
    s := Beside(CloseRedis(true), -1, true, true, 1);
  }
}
