// Many calls, health checks and `Close` at one Redis link at once: every access to the
// connected flag and to the error count of internal/cache/redis.go is a step of its own.
// A queued write is in flight from the moment it is queued.

module LinkProtocol {
  import opened Errors
  import opened RedisLink

  /** What the server answers to a call. */
  datatype Answer = Done | NoSuchKey | Fault

  datatype Thread =
    // a call that found the link up, or a write of the asynchronous worker
    | InFlight             // sent to the server
    | Failing              // about to lock and count an error
    | Counted(count: int)  // holds the lock: about to compare its count with the threshold
    | Clearing             // about to swap the error count for zero
    | Swapped(had: int)    // about to restore the connection if it swapped out an error
    // a health check, or `Reconnect`, which goes on like a check that loaded the flag as down
    | Pinging(was: bool)   // loaded the flag, sent the ping
    | Dropping             // the ping failed on a link that was up: about to lock and drop it
    | Restoring            // the ping succeeded on a link that was down: about to set the flag
    | Restored             // about to zero the error count
    | Over

  datatype System = System(connected: bool, errors: int, threads: map<nat, Thread>, next: nat)

  datatype Label =
    | Arrive                         // a call loads the flag; it is refused at once when the link is down
    | Reply(t: nat, answer: Answer)
    | Count(t: nat)
    | Compare(t: nat)
    | Swap(t: nat)
    | Revive(t: nat)
    | Check                          // the health worker loads the flag
    | Pong(t: nat, ok: bool)
    | Drop(t: nat)
    | Restore(t: nat)
    | Wipe(t: nat)
    | Reconnect                      // a caller asks for a new connection
    | Mark                           // Close sets the flag to false

  const BEGIN := System(true, 0, map[], 0)

  ghost predicate LockFree(s: System) {
    forall t :: t in s.threads ==> !s.threads[t].Counted?
  }

  ghost predicate Enabled(s: System, l: Label) {
    match l
    case Arrive => true
    case Reply(t, _) => t in s.threads && s.threads[t].InFlight?
    case Count(t) => t in s.threads && s.threads[t].Failing? && LockFree(s)
    case Compare(t) => t in s.threads && s.threads[t].Counted?
    case Swap(t) => t in s.threads && s.threads[t].Clearing?
    case Revive(t) => t in s.threads && s.threads[t].Swapped?
    case Check => true
    case Reconnect => true
    case Pong(t, _) => t in s.threads && s.threads[t].Pinging?
    case Drop(t) => t in s.threads && s.threads[t].Dropping? && LockFree(s)
    case Restore(t) => t in s.threads && s.threads[t].Restoring?
    case Wipe(t) => t in s.threads && s.threads[t].Restored?
    case Mark => true
  }

  ghost function Move(s: System, t: nat, p: Thread): System {
    s.(threads := s.threads[t := p])
  }

  ghost function Apply(s: System, l: Label): System
    requires Enabled(s, l)
  {
    match l
    case Arrive => if s.connected then Move(s, s.next, InFlight).(next := s.next + 1) else s
    case Reply(t, answer) =>
      Move(s, t, match answer case Done => Clearing case NoSuchKey => Over case Fault => Failing)
    case Count(t) => Move(s, t, Counted(s.errors + 1)).(errors := s.errors + 1)
    case Compare(t) =>
      Move(s, t, Over).(connected := s.connected && s.threads[t].count < DISCONNECT_ERROR_THRESHOLD)
    case Swap(t) => Move(s, t, Swapped(s.errors)).(errors := 0)
    case Revive(t) => Move(s, t, Over).(connected := s.connected || s.threads[t].had > 0)
    case Check => Move(s, s.next, Pinging(s.connected)).(next := s.next + 1)
    case Reconnect => Move(s, s.next, Pinging(false)).(next := s.next + 1)
    case Pong(t, ok) =>
      Move(s, t, if ok != s.threads[t].was then (if ok then Restoring else Dropping) else Over)
    case Drop(t) => Move(s, t, Over).(connected := false)
    case Restore(t) => Move(s, t, Restored).(connected := true)
    case Wipe(t) => Move(s, t, Over).(errors := 0)
    case Mark => s.(connected := false)
  }

  ghost predicate CanRun(s: System, run: seq<Label>)
    decreases |run|
  {
    run == [] || (Enabled(s, run[0]) && CanRun(Apply(s, run[0]), run[1..]))
  }

  ghost function Run(s: System, run: seq<Label>): System
    requires CanRun(s, run)
    decreases |run|
  {
    if run == [] then s else Run(Apply(s, run[0]), run[1..])
  }

  ghost predicate NoNewPing(run: seq<Label>) {
    forall i :: 0 <= i < |run| ==> run[i] != Check && run[i] != Reconnect
  }

  /** One holder of the lock, and a proper count. */
  ghost predicate Inv(s: System) {
    && 0 <= s.errors
    && (forall t :: t in s.threads ==> t < s.next)
    && (forall t, u :: t in s.threads && u in s.threads && s.threads[t].Counted? && s.threads[u].Counted? ==> t == u)
  }

  lemma StepKeepsInv(s: System, l: Label)
    requires Inv(s) && Enabled(s, l)
    ensures Inv(Apply(s, l))
  {
  }

  lemma {:induction false} RunKeepsInv(s: System, run: seq<Label>)
    requires Inv(s) && CanRun(s, run)
    ensures Inv(Run(s, run))
    decreases |run|
  {
    if run == [] {
    } else {
      StepKeepsInv(s, run[0]);
      RunKeepsInv(Apply(s, run[0]), run[1..]);
    }
  }

  // ---- Where a run leaves the flag ----

  /** What a step sets the flag to, if it does. */
  ghost function Sets(s: System, l: Label): Option<bool>
    requires Enabled(s, l)
  {
    match l
    case Compare(t) => if s.threads[t].count >= DISCONNECT_ERROR_THRESHOLD then Some(false) else None
    case Revive(t) => if s.threads[t].had > 0 then Some(true) else None
    case Drop(_) => Some(false)
    case Restore(_) => Some(true)
    case Mark => Some(false)
    case _ => None
  }

  ghost function LastSet(s: System, run: seq<Label>): Option<bool>
    requires CanRun(s, run)
    decreases |run|
  {
    if run == [] then None
    else
      var later := LastSet(Apply(s, run[0]), run[1..]);
      if later.Some? then later else Sets(s, run[0])
  }

  /**
   * In every interleaving, half-done calls and checks included, the flag ends as the last step left it
   * that counted to five, swapped out an error, acted on a ping that contradicted its loaded flag, or
   * closed. No other step, and no ping that agrees with its loaded flag, has a say.
   */
  lemma {:induction false} EndsWhereLastSet(s: System, run: seq<Label>)
    requires CanRun(s, run)
    ensures Run(s, run).connected == if LastSet(s, run).Some? then LastSet(s, run).value else s.connected
    decreases |run|
  {
    if run == [] {
    } else {
      EndsWhereLastSet(Apply(s, run[0]), run[1..]);
    }
  }

  // ---- When the link can come back ----

  /** The thread may end in success. */
  ghost predicate MayClear(p: Thread) {
    p.InFlight? || p.Clearing?
  }

  /** The thread may still put an error on record. */
  ghost predicate MayFail(p: Thread) {
    p.InFlight? || p.Failing?
  }

  /** The thread is going to set the flag, or will if its ping succeeds. */
  ghost predicate MayRestore(p: Thread) {
    p == Pinging(false) || p.Restoring? || (p.Swapped? && p.had > 0)
  }

  /** Some call may succeed with an error on record that is there already or comes from another call. */
  ghost predicate MayClearError(s: System) {
    exists c :: c in s.threads && MayClear(s.threads[c])
                && (s.errors > 0 || exists f :: f in s.threads && f != c && MayFail(s.threads[f]))
  }

  ghost predicate CanRevive(s: System) {
    s.connected || (exists t :: t in s.threads && MayRestore(s.threads[t])) || MayClearError(s)
  }

  /** Without a new ping nothing that cannot bring the link back ever can. */
  lemma HopelessStep(s: System, l: Label)
    requires Inv(s) && !CanRevive(s) && Enabled(s, l) && l != Check && l != Reconnect
    ensures !CanRevive(Apply(s, l))
  {
    var s' := Apply(s, l);
    if l.Count? {
      forall c | c in s'.threads ensures !MayClear(s'.threads[c]) {
        assert MayFail(s.threads[l.t]);
      }
    } else if l.Swap? {
      assert MayClear(s.threads[l.t]) && s.errors == 0;
    }
  }

  /** Such a link is down for good: every later call is refused. */
  lemma {:induction false} DownForGood(s: System, run: seq<Label>)
    requires Inv(s) && !CanRevive(s) && CanRun(s, run) && NoNewPing(run)
    ensures !Run(s, run).connected && !CanRevive(Run(s, run))
    ensures Apply(Run(s, run), Arrive) == Run(s, run)
    decreases |run|
  {
    if run == [] {
    } else {
      assert run[0] != Check && run[0] != Reconnect;
      HopelessStep(s, run[0]);
      StepKeepsInv(s, run[0]);
      hide CanRevive, Apply, Inv;
      DownForGood(Apply(s, run[0]), run[1..]);
    }
  }

  ghost predicate CanComeBack(s: System) {
    exists run :: CanRun(s, run) && NoNewPing(run) && Run(s, run).connected
  }

  lemma ComesBackLater(s: System, l: Label)
    requires Enabled(s, l) && l != Check && l != Reconnect && CanComeBack(Apply(s, l))
    ensures CanComeBack(s)
  {
    var rest :| CanRun(Apply(s, l), rest) && NoNewPing(rest) && Run(Apply(s, l), rest).connected;
    var run := [l] + rest;
    assert run[1..] == rest;
    assert CanRun(s, run) && NoNewPing(run) && Run(s, run).connected;
  }

  lemma ComesBackNow(s: System)
    requires s.connected
    ensures CanComeBack(s)
  {
    assert CanRun(s, []) && NoNewPing([]);
  }

  lemma RestorerComesBack(s: System, t: nat)
    requires t in s.threads && MayRestore(s.threads[t])
    ensures CanComeBack(s)
    decreases s.threads[t].Pinging?
  {
    hide CanComeBack;
    if s.threads[t].Pinging? {
      RestorerComesBack(Apply(s, Pong(t, true)), t);
      ComesBackLater(s, Pong(t, true));
    } else {
      var l := if s.threads[t].Restoring? then Restore(t) else Revive(t);
      ComesBackNow(Apply(s, l));
      ComesBackLater(s, l);
    }
  }

  /** A call that succeeds with an error on record brings the link back. */
  lemma ClearerComesBack(s: System, c: nat)
    requires c in s.threads && MayClear(s.threads[c]) && s.errors > 0
    ensures CanComeBack(s)
    decreases s.threads[c].InFlight?
  {
    hide CanComeBack;
    if s.threads[c].InFlight? {
      ClearerComesBack(Apply(s, Reply(c, Done)), c);
      ComesBackLater(s, Reply(c, Done));
    } else {
      RestorerComesBack(Apply(s, Swap(c)), c);
      ComesBackLater(s, Swap(c));
    }
  }

  lemma FailerComesBack(s: System, c: nat, f: nat)
    requires Inv(s) && c in s.threads && MayClear(s.threads[c])
    requires f in s.threads && f != c && MayFail(s.threads[f])
    ensures CanComeBack(s)
    decreases !LockFree(s), s.threads[f].InFlight?
  {
    hide CanComeBack;
    if !LockFree(s) {
      var h :| h in s.threads && s.threads[h].Counted?;
      FailerComesBack(Apply(s, Compare(h)), c, f);
      ComesBackLater(s, Compare(h));
    } else if s.threads[f].InFlight? {
      FailerComesBack(Apply(s, Reply(f, Fault)), c, f);
      ComesBackLater(s, Reply(f, Fault));
    } else {
      ClearerComesBack(Apply(s, Count(f)), c);
      ComesBackLater(s, Count(f));
    }
  }

  /**
   * Without new health checks and `Reconnect`, and so always once `Close` has waited for its health
   * worker and nobody asks for a new connection, the link can be up at some later time exactly when
   * it is up, or a thread is about to set the flag, or a call in flight can succeed with an error on
   * record.
   */
  lemma ComesBackIff(s: System)
    requires Inv(s)
    ensures CanComeBack(s) <==> CanRevive(s)
  {
    if s.connected {
      ComesBackNow(s);
    } else if t :| t in s.threads && MayRestore(s.threads[t]) {
      RestorerComesBack(s, t);
    } else if MayClearError(s) {
      var c :| c in s.threads && MayClear(s.threads[c])
               && (s.errors > 0 || exists f :: f in s.threads && f != c && MayFail(s.threads[f]));
      if s.errors > 0 {
        ClearerComesBack(s, c);
      } else {
        var f :| f in s.threads && f != c && MayFail(s.threads[f]);
        FailerComesBack(s, c, f);
      }
    } else {
      forall run | CanRun(s, run) && NoNewPing(run) ensures !Run(s, run).connected {
        DownForGood(s, run);
      }
    }
  }

  lemma RunOne(s: System, l: Label)
    requires Enabled(s, l)
    ensures CanRun(s, [l]) && Run(s, [l]) == Apply(s, l)
  {
    assert [l][1..] == [];
  }

  lemma RunThree(s: System, l1: Label, l2: Label, l3: Label)
    requires Enabled(s, l1) && Enabled(Apply(s, l1), l2) && Enabled(Apply(Apply(s, l1), l2), l3)
    ensures CanRun(s, [l1, l2, l3])
    ensures Run(s, [l1, l2, l3]) == Apply(Apply(Apply(s, l1), l2), l3)
  {
    hide Apply, Enabled;
    var s2 := Apply(Apply(s, l1), l2);
    RunOne(s2, l3);
    assert [l1, l2, l3][1..] == [l2, l3] && [l2, l3][1..] == [l3];
  }

  /** With health checks the link can always come back: one ping is enough. */
  lemma CheckBringsBack(s: System) returns (run: seq<Label>)
    requires !s.connected
    ensures CanRun(s, run) && Run(s, run).connected
  {
    var t := s.next;
    RunThree(s, Check, Pong(t, true), Restore(t));
    run := [Check, Pong(t, true), Restore(t)];
  }

  // ---- Down for good without Close ----

  ghost predicate Reachable(s: System) {
    exists run :: CanRun(BEGIN, run) && NoNewPing(run) && Mark !in run && Run(BEGIN, run) == s
  }

  lemma {:induction false} RunSnoc(s: System, run: seq<Label>, l: Label)
    requires CanRun(s, run) && Enabled(Run(s, run), l)
    ensures CanRun(s, run + [l]) && Run(s, run + [l]) == Apply(Run(s, run), l)
    decreases |run|
  {
    if run == [] {
      assert [l][1..] == [];
    } else {
      RunSnoc(Apply(s, run[0]), run[1..], l);
      assert (run + [l])[1..] == run[1..] + [l];
    }
  }

  lemma ReachableStep(s: System, l: Label) returns (s': System)
    requires Reachable(s) && Enabled(s, l) && l != Check && l != Reconnect && l != Mark
    ensures s' == Apply(s, l) && Reachable(s')
  {
    var run :| CanRun(BEGIN, run) && NoNewPing(run) && Mark !in run && Run(BEGIN, run) == s;
    RunSnoc(BEGIN, run, l);
    s' := Apply(s, l);
  }

  ghost predicate AllOver(s: System) {
    forall t :: t in s.threads ==> s.threads[t] == Over
  }

  /** One failing call after another. */
  lemma {:induction false} FailInTurn(n: nat) returns (s: System)
    requires n < DISCONNECT_ERROR_THRESHOLD
    ensures Reachable(s) && s.connected && s.errors == n && AllOver(s)
  {
    if n == 0 {
      s := BEGIN;
      assert CanRun(BEGIN, []) && NoNewPing([]);
    } else {
      s := FailInTurn(n - 1);
      hide Reachable;
      var t := s.next;
      s := ReachableStep(s, Arrive);
      s := ReachableStep(s, Reply(t, Fault));
      s := ReachableStep(s, Count(t));
      s := ReachableStep(s, Compare(t));
    }
  }

  lemma LastFailure(s: System, t: nat) returns (s': System)
    requires Reachable(s) && s.connected && s.errors == 4 && AllOver(s) && t == s.next
    ensures Reachable(s') && s'.connected && s'.errors == 5
    ensures s'.threads == s.threads[t := Counted(5)] && s'.next == t + 1
  {
    hide Reachable;
    s' := ReachableStep(s, Arrive);
    s' := ReachableStep(s', Reply(t, Fault));
    s' := ReachableStep(s', Count(t));
  }

  lemma StepsKeepInv(s: System)
    requires Reachable(s)
    ensures Inv(s)
  {
    var run :| CanRun(BEGIN, run) && NoNewPing(run) && Mark !in run && Run(BEGIN, run) == s;
    RunKeepsInv(BEGIN, run);
  }

  /**
   * Without health checks and `Reconnect` five failures in a row take the link down for good, `Close`
   * or not: with no call in flight nobody is let through any more who could clear the errors.
   */
  lemma FiveFailuresAreFinal() returns (s: System)
    ensures Reachable(s) && AllOver(s) && !s.connected && s.errors == DISCONNECT_ERROR_THRESHOLD
    ensures !CanComeBack(s)
  {
    s := FailInTurn(4);
    var t := s.next;
    s := LastFailure(s, t);
    s := ReachableStep(s, Compare(t));
    StepsKeepInv(s);
    ComesBackIff(s);
  }

  lemma SuccessBeside(s: System, a: nat, b: nat) returns (s': System)
    requires Reachable(s) && s.connected && s.errors == 4 && AllOver(s) && a == s.next && b == a + 1
    ensures Reachable(s') && s'.connected && s'.errors == 0
    ensures s'.threads == s.threads[a := Counted(5)][b := Swapped(5)]
  {
    hide Reachable;
    s' := LastFailure(s, a);
    s' := ReachableStep(s', Arrive);
    s' := ReachableStep(s', Reply(b, Done));
    s' := ReachableStep(s', Swap(b));
  }

  /**
   * A success that swaps out the fifth failure before its compare-and-swap is lost: the link goes
   * down with no error on record, and with nothing in flight it stays down.
   */
  lemma LostRevival() returns (s: System)
    ensures Reachable(s) && AllOver(s) && !s.connected && s.errors == 0
    ensures !CanComeBack(s)
  {
    s := FailInTurn(4);
    var a, b := s.next, s.next + 1;
    s := SuccessBeside(s, a, b);
    s := ReachableStep(s, Revive(b));
    s := ReachableStep(s, Compare(a));
    StepsKeepInv(s);
    ComesBackIff(s);
  }

  // ---- Checks and failures that straddle ----

  ghost predicate LeadsTo(s: System, t: System) {
    exists run :: CanRun(s, run) && Run(s, run) == t
  }

  lemma Onwards(s: System, t: System, l: Label) returns (t': System)
    requires LeadsTo(s, t) && Enabled(t, l)
    ensures t' == Apply(t, l) && LeadsTo(s, t')
  {
    var run :| CanRun(s, run) && Run(s, run) == t;
    RunSnoc(s, run, l);
    t' := Apply(t, l);
  }

  lemma Nowhere(s: System)
    ensures LeadsTo(s, s)
  {
    assert CanRun(s, []) && Run(s, []) == s;
  }

  ghost function ViewOf(s: System): Link {
    Link(s.connected, s.errors)
  }

  /** The thread is where event `e` takes it from when nothing comes between. */
  ghost predicate ReadyFor(p: Thread, e: Event) {
    match e
    case Failed => p.InFlight?
    case Succeeded => p.InFlight?
    case Checked(was, _) => p == Pinging(was)
    case Closing => false
  }

  /** The end of a call or of a check with nothing coming between its steps is the event that stands for it. */
  lemma WholeEvent(s: System, x: nat, e: Event) returns (t: System)
    requires x in s.threads && ReadyFor(s.threads[x], e) && LockFree(s)
    ensures LeadsTo(s, t) && t == s.(connected := t.connected, errors := t.errors, threads := s.threads[x := Over])
    ensures ViewOf(t) == Step(ViewOf(s), e)
  {
    hide LeadsTo;
    Nowhere(s);
    match e {
      case Failed =>
        t := Onwards(s, s, Reply(x, Fault));
        t := Onwards(s, t, Count(x));
        t := Onwards(s, t, Compare(x));
      case Succeeded =>
        t := Onwards(s, s, Reply(x, Done));
        t := Onwards(s, t, Swap(x));
        t := Onwards(s, t, Revive(x));
      case Checked(was, ok) =>
        t := Onwards(s, s, Pong(x, ok));
        if ok && !was {
          t := Onwards(s, t, Restore(x));
          t := Onwards(s, t, Wipe(x));
        } else if was && !ok {
          t := Onwards(s, t, Drop(x));
        }
    }
  }

  /** A check under way when `Close` marks the link had loaded it as up; its ping succeeds, and it is down for good. */
  lemma CheckStraddlesMark() returns (t: System)
    ensures LeadsTo(BEGIN, t) && AllOver(t) && !t.connected && !CanComeBack(t)
  {
    Nowhere(BEGIN);
    t := Onwards(BEGIN, BEGIN, Check);
    t := Onwards(BEGIN, t, Mark);
    t := Onwards(BEGIN, t, Pong(0, true));
    ComesBackIff(t);
  }

  /** With an error on record, a check loads the mark, a write in flight revives the link, the ping fails: it is up. */
  lemma CheckStraddlesRevival(s: System, w: nat) returns (t: System)
    requires s.errors > 0 && w in s.threads && s.threads[w].InFlight? && w != s.next
    ensures LeadsTo(s, t) && t.connected && t.errors == 0
    ensures t.threads == s.threads[s.next := Over][w := Over]
  {
    hide LeadsTo;
    var c := s.next;
    Nowhere(s);
    t := Onwards(s, s, Mark);
    t := Onwards(s, t, Check);
    t := Onwards(s, t, Reply(w, Done));
    t := Onwards(s, t, Swap(w));
    t := Onwards(s, t, Revive(w));
    t := Onwards(s, t, Pong(c, false));
  }

  lemma RestoreStarts(s: System, w: nat) returns (t: System)
    requires w in s.threads && w != s.next
    ensures LeadsTo(s, t) && t == s.(connected := true, threads := s.threads[s.next := Restored], next := s.next + 1)
  {
    hide LeadsTo;
    Nowhere(s);
    t := Onwards(s, s, Mark);
    t := Onwards(s, t, Check);
    t := Onwards(s, t, Pong(s.next, true));
    t := Onwards(s, t, Restore(s.next));
  }

  lemma FailureCounted(s: System, t: System, w: nat) returns (t': System)
    requires LeadsTo(s, t) && t.errors == 4 && w in t.threads && t.threads[w].InFlight? && LockFree(t)
    ensures LeadsTo(s, t') && t' == t.(connected := false, errors := 5, threads := t.threads[w := Over])
  {
    hide LeadsTo;
    t' := Onwards(s, t, Reply(w, Fault));
    t' := Onwards(s, t', Count(w));
    t' := Onwards(s, t', Compare(w));
  }

  /**
   * A check restores the connection in two steps. If a write's fifth failure is counted between them
   * the link ends down with no error on record, although either order of check and failure as wholes
   * would leave it up.
   */
  lemma FailureSplitsRestore(s: System, w: nat) returns (t: System)
    requires s.errors == 4 && w in s.threads && s.threads[w].InFlight? && w != s.next && LockFree(s)
    ensures LeadsTo(s, t) && !t.connected && t.errors == 0
    ensures t.threads == s.threads[s.next := Over][w := Over]
    ensures Step(Step(Step(Link(s.connected, 4), Closing), Checked(false, true)), Failed).connected
    ensures Step(Step(Step(Link(s.connected, 4), Closing), Failed), Checked(false, true)).connected
  {
    var c := s.next;
    t := RestoreStarts(s, w);
    t := FailureCounted(s, t, w);
    t := Onwards(s, t, Wipe(c));
  }
}
