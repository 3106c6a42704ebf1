// The Redis layer object of internal/cache/redis.go: when it calls itself connected, and
// what its operations, its asynchronous queue and its shutdown do. The server is an
// abstract map; whether a client call succeeds is an input.

module RedisLink {
  import opened Errors
  import opened Outcomes

  datatype Link = Link(connected: bool, errors: int)

  const DISCONNECT_ERROR_THRESHOLD := 5

  datatype Event =
    | Failed          // a client call failed: handleError
    | Succeeded       // a client call succeeded: clearError
    // a health check ends: `was` is the flag it loaded before its ping, `ok` the answer. Only an
    // answer that differs from the loaded flag has an effect, wherever the flag stands by then.
    | Checked(was: bool, ok: bool)
    | Closing         // the first thing Close does

  function Step(l: Link, e: Event): Link {
    match e
    case Failed => Link(l.connected && l.errors + 1 < DISCONNECT_ERROR_THRESHOLD, l.errors + 1)
    case Succeeded => Link(l.connected || l.errors > 0, 0)
    case Checked(was, ok) => if ok == was then l else if ok then Link(true, 0) else l.(connected := false)
    case Closing => l.(connected := false)
  }

  function Follow(l: Link, log: seq<Event>): Link
    decreases |log|
  {
    if log == [] then l else Step(Follow(l, log[..|log| - 1]), log[|log| - 1])
  }

  lemma FollowSnoc(l: Link, log: seq<Event>, e: Event)
    ensures Follow(l, log + [e]) == Step(Follow(l, log), e)
  {
    assert (log + [e])[..|log|] == log;
  }

  lemma {:induction false} FollowAppend(l: Link, a: seq<Event>, b: seq<Event>)
    ensures Follow(l, a + b) == Follow(Follow(l, a), b)
    decreases |b|
  {
    if b == [] {
      assert a + b == a;
    } else {
      var n := |b| - 1;
      FollowAppend(l, a, b[..n]);
      assert (a + b)[..|a| + n] == a + b[..n];
    }
  }

  /** The event wipes the error count clean: a success, or a health check that restores the connection. */
  ghost predicate Wipes(e: Event) {
    e == Succeeded || e == Checked(false, true)
  }

  /** Failed calls since the count was last wiped. */
  ghost function FailuresSinceWipe(log: seq<Event>): nat
    decreases |log|
  {
    if log == [] then 0
    else
      var n := |log| - 1;
      if Wipes(log[n]) then 0 else FailuresSinceWipe(log[..n]) + (if log[n] == Failed then 1 else 0)
  }

  /**
   * The error count is the number of failed calls since the last success or the last check that
   * restored the connection, and a link with five of them on record is never connected.
   */
  lemma {:induction false} ErrorCountMeaning(up: bool, log: seq<Event>)
    ensures var l := Follow(Link(up, 0), log);
            && l.errors == FailuresSinceWipe(log)
            && (l.connected ==> l.errors < DISCONNECT_ERROR_THRESHOLD)
    decreases |log|
  {
    if log == [] {
    } else {
      ErrorCountMeaning(up, log[..|log| - 1]);
    }
  }

  /** A failing call takes a connected link down exactly when it is the fifth since the count was wiped. */
  lemma DisconnectsOnFifth(up: bool, log: seq<Event>)
    requires Follow(Link(up, 0), log).connected
    ensures !Follow(Link(up, 0), log + [Failed]).connected
            <==> FailuresSinceWipe(log) == DISCONNECT_ERROR_THRESHOLD - 1
  {
    ErrorCountMeaning(up, log);
    FollowSnoc(Link(up, 0), log, Failed);
  }

  /** What the next event does to the link, over every history. */
  lemma LinkAfter(up: bool, log: seq<Event>, was: bool, ok: bool)
    ensures var l := Link(up, 0);
            && (Follow(l, log + [Checked(was, ok)]).connected <==> if ok == was then Follow(l, log).connected else ok)
            && !Follow(l, log + [Closing]).connected
            && (Follow(l, log + [Succeeded]).connected <==> Follow(l, log).connected || FailuresSinceWipe(log) > 0)
            && (Follow(l, log + [Failed]).connected ==> Follow(l, log).connected)
  {
    ErrorCountMeaning(up, log);
    FollowSnoc(Link(up, 0), log, Checked(was, ok));
    FollowSnoc(Link(up, 0), log, Closing);
    FollowSnoc(Link(up, 0), log, Succeeded);
    FollowSnoc(Link(up, 0), log, Failed);
  }

  // ---- What can happen to the link after Close has marked it as down ----

  function Outcome(ok: bool): Event {
    if ok then Succeeded else Failed
  }

  /** The link after a stretch of writes. */
  function Drained(l: Link, oks: seq<bool>): Link
    decreases |oks|
  {
    if oks == [] then l else Step(Drained(l, oks[..|oks| - 1]), Outcome(oks[|oks| - 1]))
  }

  /** No drained write succeeds while an error is on record. */
  ghost predicate NoRevival(errors: int, oks: seq<bool>) {
    forall j :: 0 <= j < |oks| && oks[j] ==> errors == 0 && forall i :: 0 <= i < j ==> oks[i]
  }

  lemma NoRevivalSnoc(errors: int, oks: seq<bool>, ok: bool)
    ensures NoRevival(errors, oks + [ok])
            <==> NoRevival(errors, oks) && (ok ==> errors == 0 && forall i :: 0 <= i < |oks| ==> oks[i])
  {
    var all := oks + [ok];
    assert forall i :: 0 <= i < |oks| ==> all[i] == oks[i];
    if NoRevival(errors, all) {
      forall j | 0 <= j < |oks| && oks[j] ensures errors == 0 && forall i :: 0 <= i < j ==> oks[i] {
        assert all[j];
      }
      assert ok ==> all[|oks|];
    }
  }

  lemma {:induction false} TrailingAll(oks: seq<bool>)
    ensures TrailingFailures(oks) <= |oks|
    ensures TrailingFailures(oks) == |oks| <==> forall i :: 0 <= i < |oks| ==> !oks[i]
    decreases |oks|
  {
    if oks == [] {
    } else {
      TrailingAll(oks[..|oks| - 1]);
      if TrailingFailures(oks) < |oks| && !oks[|oks| - 1] {
        var i :| 0 <= i < |oks| - 1 && oks[..|oks| - 1][i];
        assert oks[i];
      }
    }
  }

  /** A clean count after at least one drained write means no failure yet, or a success seen after one. */
  lemma RevivedBefore(errors: int, oks: seq<bool>)
    requires TrailingFailures(oks) == 0
    ensures (forall i :: 0 <= i < |oks| ==> oks[i]) || !NoRevival(errors, oks)
  {
    if oks != [] && NoRevival(errors, oks) {
      assert oks[|oks| - 1];
    }
  }

  /** The errors on record after a stretch of writes that starts with `errors` of them. */
  ghost function OnRecord(errors: int, oks: seq<bool>): int {
    TrailingFailures(oks) + (if TrailingFailures(oks) == |oks| then errors else 0)
  }

  /** A stretch of writes on a link that is down. */
  lemma {:induction false} DrainedState(errors: int, oks: seq<bool>)
    requires errors >= 0
    ensures var l := Drained(Link(false, errors), oks);
            && l.errors == OnRecord(errors, oks)
            && (l.connected <==> !NoRevival(errors, oks) && TrailingFailures(oks) < DISCONNECT_ERROR_THRESHOLD)
    decreases |oks|
  {
    if oks == [] {
    } else {
      var n := |oks| - 1;
      var front := oks[..n];
      assert front + [oks[n]] == oks;
      DrainedState(errors, front);
      NoRevivalSnoc(errors, front, oks[n]);
      TrailingAll(front);
      TrailingAll(oks);
      if TrailingFailures(front) == 0 {
        RevivedBefore(errors, front);
      }
    }
  }

  /** A stretch of writes on a link that is up. */
  lemma {:induction false} DrainedFromUp(errors: int, oks: seq<bool>)
    requires 0 <= errors < DISCONNECT_ERROR_THRESHOLD
    ensures var l := Drained(Link(true, errors), oks);
            l.errors == OnRecord(errors, oks) && (l.connected <==> OnRecord(errors, oks) < DISCONNECT_ERROR_THRESHOLD)
    decreases |oks|
  {
    if oks == [] {
    } else {
      DrainedFromUp(errors, oks[..|oks| - 1]);
      TrailingAll(oks[..|oks| - 1]);
    }
  }

  /** A health check that nothing comes between: it loads the flag as it stands. */
  function CheckNow(l: Link, ok: bool): Link {
    Step(l, Checked(l.connected, ok))
  }

  /** Health checks one after the other. */
  function CheckedInTurn(l: Link, pings: seq<bool>): Link
    decreases |pings|
  {
    if pings == [] then l else CheckNow(CheckedInTurn(l, pings[..|pings| - 1]), pings[|pings| - 1])
  }

  /** They leave the answer of the last one, and no error on record once one restored the connection. */
  lemma {:induction false} ChecksAnswer(l: Link, pings: seq<bool>)
    requires l.connected ==> l.errors == 0
    ensures CheckedInTurn(l, pings) == Link(if pings == [] then l.connected else pings[|pings| - 1],
                                            if true in pings then 0 else l.errors)
    decreases |pings|
  {
    if pings == [] {
    } else {
      var front := pings[..|pings| - 1];
      assert pings == front + [pings[|pings| - 1]];
      ChecksAnswer(l, front);
    }
  }

  /**
   * `Close` marks the link as down and waits for the health worker, then for the drain. A check may be
   * under way at the mark, with the flag `under` that it loaded, and more may follow. They leave the
   * link up exactly if the last of them succeeded, but for a check that had loaded the flag as up: it
   * has no say. If they leave it up, it ends down exactly when the drain ends with five failures;
   * otherwise exactly when no drained write succeeds with an error on record, or with five failures.
   */
  lemma ChecksThenDrain(before: Link, under: Option<bool>, answer: bool, pings: seq<bool>, oks: seq<bool>)
    requires before.errors >= 0
    ensures var marked := Step(before, Closing);
            var started := if under.Some? then Step(marked, Checked(under.value, answer)) else marked;
            var up := if pings != [] then pings[|pings| - 1] else under == Some(false) && answer;
            var errors := if (under == Some(false) && answer) || true in pings then 0 else before.errors;
            !Drained(CheckedInTurn(started, pings), oks).connected <==>
              (!up && NoRevival(errors, oks)) || TrailingFailures(oks) >= DISCONNECT_ERROR_THRESHOLD
  {
    var marked := Step(before, Closing);
    var started := if under.Some? then Step(marked, Checked(under.value, answer)) else marked;
    ChecksAnswer(started, pings);
    var l := CheckedInTurn(started, pings);
    if l.connected {
      DrainedFromUp(0, oks);
    } else {
      DrainedState(l.errors, oks);
    }
  }

  // ---- The same when checks and writes interleave, and a check can straddle either ----

  /** The check moves the flag. */
  ghost predicate Switches(e: Event) {
    e.Checked? && e.ok != e.was
  }

  /** The number of events up to and including the last check that moves the flag. */
  ghost function ThroughLastSwitch(events: seq<Event>): (n: nat)
    ensures n <= |events|
    ensures n > 0 ==> Switches(events[n - 1])
    ensures forall i :: n <= i < |events| ==> !Switches(events[i])
    decreases |events|
  {
    if events == [] || Switches(events[|events| - 1]) then |events| else ThroughLastSwitch(events[..|events| - 1])
  }

  ghost function WriteOf(e: Event): seq<bool> {
    if e == Succeeded || e == Failed then [e == Succeeded] else []
  }

  /** The writes among the events, in order. */
  ghost function Writes(events: seq<Event>): seq<bool>
    decreases |events|
  {
    if events == [] then []
    else
      var e := events[|events| - 1];
      Writes(events[..|events| - 1]) + WriteOf(e)
  }

  lemma WritesSnoc(events: seq<Event>, e: Event)
    ensures Writes(events + [e]) == Writes(events) + WriteOf(e)
  {
    assert (events + [e])[..|events|] == events;
  }

  lemma {:induction false} WritesAppend(a: seq<Event>, b: seq<Event>)
    ensures Writes(a + b) == Writes(a) + Writes(b)
    decreases |b|
  {
    if b == [] {
      assert a + b == a;
    } else {
      var n := |b| - 1;
      var front, e := b[..n], b[n];
      assert b == front + [e] && a + b == (a + front) + [e];
      hide Writes, WriteOf;
      WritesAppend(a, front);
      WritesSnoc(front, e);
      WritesSnoc(a + front, e);
      var x, y, z := Writes(a), Writes(front), WriteOf(e);
      assert (x + y) + z == x + (y + z);
    }
  }

  lemma DrainedSnoc(l: Link, oks: seq<bool>, e: Event)
    requires !Switches(e) && e != Closing
    ensures Drained(l, oks + WriteOf(e)) == Step(Drained(l, oks), e)
  {
    if WriteOf(e) == [] {
      assert oks + [] == oks;
    } else {
      assert (oks + [e == Succeeded])[..|oks|] == oks;
    }
  }

  lemma {:induction false} WritesDrain(l: Link, events: seq<Event>)
    requires forall i :: 0 <= i < |events| ==> !Switches(events[i]) && events[i] != Closing
    ensures Follow(l, events) == Drained(l, Writes(events))
    decreases |events|
  {
    if events == [] {
    } else {
      hide Drained, WriteOf, Switches;
      var n := |events| - 1;
      WritesDrain(l, events[..n]);
      DrainedSnoc(l, Writes(events[..n]), events[n]);
    }
  }

  lemma {:induction false} ErrorsNotNegative(l: Link, events: seq<Event>)
    requires l.errors >= 0
    ensures Follow(l, events).errors >= 0
    decreases |events|
  {
    if events == [] {
    } else {
      ErrorsNotNegative(l, events[..|events| - 1]);
    }
  }

  /** A check that moves the flag decides by itself where the link is. */
  lemma SwitchDecides(l: Link, events: seq<Event>, n: nat)
    requires 0 < n <= |events| && Switches(events[n - 1])
    ensures var l' := Follow(l, events[..n]);
            if events[n - 1].ok then l' == Link(true, 0) else !l'.connected
  {
    assert events[..n][..n - 1] == events[..n - 1];
  }

  /**
   * Whatever ends of health checks and writes follow once `Close` has marked the link as down, in any
   * order, and whatever flags the checks had loaded: where the link ends is decided by the last check
   * that moved the flag and the writes after it. If it restored the connection, the link is down
   * exactly when the writes end with five failures. If it dropped it, or there was none, exactly when
   * no write succeeds with an error on record or the writes end with five failures.
   */
  lemma DownAfterCloseIff(before: Link, events: seq<Event>)
    requires before.errors >= 0 && Closing !in events
    ensures var n := ThroughLastSwitch(events);
            var errors := Follow(Step(before, Closing), events[..n]).errors;
            var oks := Writes(events[n..]);
            !Follow(Step(before, Closing), events).connected <==>
              || (!(n > 0 && events[n - 1].ok) && NoRevival(errors, oks))
              || TrailingFailures(oks) >= DISCONNECT_ERROR_THRESHOLD
  {
    var n := ThroughLastSwitch(events);
    var down := Step(before, Closing);
    var l := Follow(down, events[..n]);
    forall i | n <= i < |events| ensures events[i] != Closing {
      assert events[i] in events;
    }
    assert events == events[..n] + events[n..];
    FollowAppend(down, events[..n], events[n..]);
    WritesDrain(l, events[n..]);
    ErrorsNotNegative(down, events[..n]);
    if n > 0 {
      SwitchDecides(down, events, n);
    }
    hide Follow, Drained, Writes, NoRevival;
    if l.connected {
      DrainedFromUp(0, Writes(events[n..]));
    } else {
      DrainedState(l.errors, Writes(events[n..]));
    }
  }

  /** Said of the errors on record when `Close` begins. */
  ghost predicate EndsDown(errors: int, events: seq<Event>) {
    var n := ThroughLastSwitch(events);
    var oks := Writes(events[n..]);
    || (!(n > 0 && events[n - 1].ok) && NoRevival(Follow(Link(false, errors), events[..n]).errors, oks))
    || TrailingFailures(oks) >= DISCONNECT_ERROR_THRESHOLD
  }

  /**
   * Two checks that straddle what moves the flag. One loaded the flag as up before the mark and its
   * ping succeeds: the link stays down. One loaded the mark, a write then revives the link, and its
   * ping fails: the link stays up.
   */
  lemma StraddlingChecks(errors: nat)
    ensures !Follow(Step(Link(true, errors), Closing), [Checked(true, true)]).connected
    ensures Follow(Step(Link(true, 1), Closing), [Succeeded, Checked(false, false)]).connected
  {
    assert [Succeeded, Checked(false, false)][..1] == [Succeeded];
    assert [Succeeded][..0] == [];
  }
}

module RedisClass {
  import opened Errors
  import opened RedisLink
  import opened Outcomes
  import opened AsyncWriter

  /** A lookup that finds the link at `l`: the server holds `held` under the key, or the call fails with `fault`. */
  function Lookup<T>(l: Link, held: Option<T>, fault: Option<Error>): (Link, Option<T>, Option<Error>) {
    if !l.connected then (l, None, Some(RedisUnavailable))
    else if fault.Some? then (Step(l, Failed), None, Some(Wrapped("redis", fault.value)))
    else match held
      case None => (l, None, Some(CacheMiss))
      case Some(v) => (Step(l, Succeeded), held, None)
  }

  /** What a fire-and-forget write is told: `room` says whether the queue has room for it. */
  function Submit(l: Link, room: bool): Option<Error> {
    if !l.connected then Some(RedisUnavailable) else if !room then Some(WriteQueueFull) else None
  }

  /** Whose step is next while `Close` waits: the health worker's, with the answer of its ping, or the other one's. */
  datatype Turn = Health(pingOk: bool) | Worker

  /** The health worker has finished its last check when the turns are over. */
  ghost predicate HealthWorkerDone(checking: bool, turns: seq<Turn>)
    decreases |turns|
  {
    if turns == [] then !checking
    else HealthWorkerDone(if turns[0].Health? then !checking else checking, turns[1..])
  }

  /** What a turn does to the link, if anything: loading the flag is no event, and neither is an idle worker. */
  function TurnEvent(checking: Option<bool>, turn: Turn, n: nat, ok: bool): seq<RedisLink.Event> {
    match turn
    case Health(pingOk) => if checking.None? then [] else [Checked(checking.value, pingOk)]
    case Worker => if n == 0 then [] else [RedisLink.Outcome(ok)]
  }

  /** The flag the health worker has in hand after a turn. */
  function CheckingAfter(l: Link, checking: Option<bool>, turn: Turn): Option<bool> {
    if turn.Worker? then checking else if checking.None? then Some(l.connected) else None
  }

  function StepIfAny(l: Link, e: seq<RedisLink.Event>): Link {
    if e == [] then l else Step(l, e[0])
  }

  /**
   * What happens to the link while `Close` waits: the health worker loads the flag in one turn and ends
   * its check in another (`checking` is the flag it has loaded, if it is between the two); the other
   * worker has `n` writes to go after `done` others.
   */
  ghost function WhileClosing(l: Link, checking: Option<bool>, turns: seq<Turn>, n: nat, done: nat, ok: nat -> bool)
    : seq<RedisLink.Event>
    decreases |turns|, n
  {
    if turns == [] && n == 0 then []
    else
      var turn, rest := if turns == [] then Worker else turns[0], if turns == [] then [] else turns[1..];
      var e := TurnEvent(checking, turn, n, ok(done));
      var served := if turn.Worker? && n > 0 then 1 else 0;
      e + WhileClosing(StepIfAny(l, e), CheckingAfter(l, checking, turn), rest, n - served, done + served, ok)
  }

  ghost function FirstOks(n: nat, ok: nat -> bool): (oks: seq<bool>)
    ensures |oks| == n
  {
    seq(n, i requires 0 <= i => ok(i))
  }

  lemma NextWhileClosing(l: Link, checking: Option<bool>, turns: seq<Turn>, i: nat, n: nat, done: nat,
                         ok: nat -> bool, log: seq<RedisLink.Event>)
    requires i <= |turns| && (i < |turns| || n > 0) && HealthWorkerDone(checking.Some?, turns[i..])
    ensures var turn, rest := if i < |turns| then turns[i] else Worker, turns[if i < |turns| then i + 1 else i..];
            var e := TurnEvent(checking, turn, n, ok(done));
            var served := if turn.Worker? && n > 0 then 1 else 0;
            && HealthWorkerDone(CheckingAfter(l, checking, turn).Some?, rest)
            && log + WhileClosing(l, checking, turns[i..], n, done, ok)
               == (log + e)
                  + WhileClosing(StepIfAny(l, e), CheckingAfter(l, checking, turn), rest, n - served, done + served, ok)
  {
    if i < |turns| {
      assert turns[i..][1..] == turns[i + 1..];
    } else {
      assert turns[i..] == [];
    }
  }

  lemma NothingWhileClosing(l: Link, checking: Option<bool>, turns: seq<Turn>, done: nat, ok: nat -> bool)
    requires turns == [] && HealthWorkerDone(checking.Some?, turns)
    ensures WhileClosing(l, checking, turns, 0, done, ok) == [] && checking.None?
  {
  }

  // ---- What happens while `Close` waits, turn by turn ----

  /** Between two turns: how many events there have been, the flag in the health worker's hand, the writes to go. */
  datatype Moment = Moment(at: nat, flag: Option<bool>, left: nat)

  /**
   * A turn takes moment `a` to moment `b`. The worker's turn is its next write, if there is one. The
   * health worker's turn loads the flag as it then stands or, with a flag in hand, is the end of the
   * check with that flag and the answer of the ping. Number `total - left` is the next write's.
   */
  ghost predicate TurnHappens(l: Link, events: seq<RedisLink.Event>, turn: Turn, ok: nat -> bool, total: nat,
                              a: Moment, b: Moment)
  {
    && a.at <= b.at <= |events| && a.left <= total
    && match turn
       case Worker =>
         if a.left == 0 then b == a
         else b == Moment(a.at + 1, a.flag, a.left - 1)
              && events[a.at] == if ok(total - a.left) then Succeeded else Failed
       case Health(pingOk) =>
         if a.flag.None? then b == Moment(a.at, Some(Follow(l, events[..a.at]).connected), a.left)
         else b == Moment(a.at + 1, None, a.left) && events[a.at] == Checked(a.flag.value, pingOk)
  }

  ghost function Shifted(m: Moment, more: nat): Moment {
    m.(at := m.at + more)
  }

  /** A turn happens just so behind an earlier event, or none. */
  lemma TurnHappensLater(l: Link, e: seq<RedisLink.Event>, rest: seq<RedisLink.Event>, turn: Turn, ok: nat -> bool,
                         total: nat, a: Moment, b: Moment)
    requires |e| <= 1 && TurnHappens(StepIfAny(l, e), rest, turn, ok, total, a, b)
    ensures TurnHappens(l, e + rest, turn, ok, total, Shifted(a, |e|), Shifted(b, |e|))
  {
    var events := e + rest;
    assert events[..a.at + |e|] == e + rest[..a.at];
    FollowAppend(l, e, rest[..a.at]);
    assert Follow(l, e) == StepIfAny(l, e) by {
      if e != [] {
        assert e[..0] == [];
      }
    }
  }

  /** The events of as many writes. */
  ghost function Remaining(n: nat, done: nat, ok: nat -> bool): seq<RedisLink.Event> {
    if n == 0 then [] else [if ok(done) then Succeeded else Failed] + Remaining(n - 1, done + 1, ok)
  }

  /** The outcomes of `n` writes from number `done` on. */
  ghost function NextOks(n: nat, done: nat, ok: nat -> bool): (oks: seq<bool>)
    ensures |oks| == n && forall i :: 0 <= i < n ==> oks[i] == ok(done + i)
  {
    if n == 0 then [] else [ok(done)] + NextOks(n - 1, done + 1, ok)
  }

  /** The turns happen one after the other, and then the writes that are left. */
  ghost predicate GoesThrough(l: Link, events: seq<RedisLink.Event>, turns: seq<Turn>, ok: nat -> bool, total: nat,
                              moments: seq<Moment>)
  {
    && |moments| == |turns| + 1
    && (forall i :: 0 <= i < |turns| ==> TurnHappens(l, events, turns[i], ok, total, moments[i], moments[i + 1]))
    && var last := moments[|turns|];
       && last.at <= |events| && last.left <= total
       && events[last.at..] == Remaining(last.left, total - last.left, ok)
  }

  lemma GoesThroughLater(l: Link, e: seq<RedisLink.Event>, rest: seq<RedisLink.Event>, turns: seq<Turn>,
                         ok: nat -> bool, total: nat, first: Moment, tail: seq<Moment>) returns (moments: seq<Moment>)
    requires turns != [] && |e| <= 1 && GoesThrough(StepIfAny(l, e), rest, turns[1..], ok, total, tail)
    requires TurnHappens(l, e + rest, turns[0], ok, total, first, Shifted(tail[0], |e|))
    ensures GoesThrough(l, e + rest, turns, ok, total, moments)
    ensures |moments| == |turns| + 1 && moments[0] == first
    ensures |tail| == |turns| && moments[|turns|].flag == tail[|turns| - 1].flag
  {
    hide TurnHappens, StepIfAny, Remaining;
    moments := [first] + seq(|tail|, i requires 0 <= i < |tail| => Shifted(tail[i], |e|));
    forall i | 0 <= i < |turns|
      ensures TurnHappens(l, e + rest, turns[i], ok, total, moments[i], moments[i + 1])
    {
      if i > 0 {
        assert TurnHappens(StepIfAny(l, e), rest, turns[1..][i - 1], ok, total, tail[i - 1], tail[i]);
        TurnHappensLater(l, e, rest, turns[i], ok, total, tail[i - 1], tail[i]);
      }
    }
    assert (e + rest)[tail[|turns| - 1].at + |e|..] == rest[tail[|turns| - 1].at..];
  }

  lemma {:induction false} DrainEvents(l: Link, checking: Option<bool>, n: nat, done: nat, ok: nat -> bool)
    ensures WhileClosing(l, checking, [], n, done, ok) == Remaining(n, done, ok)
    decreases n
  {
    if n == 0 {
    } else {
      hide StepIfAny;
      var e := TurnEvent(checking, Worker, n, ok(done));
      DrainEvents(StepIfAny(l, e), checking, n - 1, done + 1, ok);
    }
  }

  lemma NoTurns(l: Link, checking: Option<bool>, n: nat, done: nat, ok: nat -> bool)
    ensures GoesThrough(l, WhileClosing(l, checking, [], n, done, ok), [], ok, done + n, [Moment(0, checking, n)])
    ensures HealthWorkerDone(checking.Some?, []) ==> checking.None?
  {
    DrainEvents(l, checking, n, done, ok);
    hide WhileClosing, Remaining;
    var events := WhileClosing(l, checking, [], n, done, ok);
    assert events[0..] == events;
  }

  lemma FirstTurnFirst(l: Link, checking: Option<bool>, turns: seq<Turn>, n: nat, done: nat, ok: nat -> bool)
    requires turns != []
    ensures var e := TurnEvent(checking, turns[0], n, ok(done));
            var served := if turns[0].Worker? && n > 0 then 1 else 0;
            var checking' := CheckingAfter(l, checking, turns[0]);
            && WhileClosing(l, checking, turns, n, done, ok)
               == e + WhileClosing(StepIfAny(l, e), checking', turns[1..], n - served, done + served, ok)
            && (HealthWorkerDone(checking.Some?, turns) ==> HealthWorkerDone(checking'.Some?, turns[1..]))
  {
  }

  lemma FirstTurnHappens(l: Link, checking: Option<bool>, turn: Turn, n: nat, done: nat, ok: nat -> bool,
                         rest: seq<RedisLink.Event>)
    ensures var e := TurnEvent(checking, turn, n, ok(done));
            && |e| <= 1
            && TurnHappens(l, e + rest, turn, ok, done + n, Moment(0, checking, n),
                           Moment(|e|, CheckingAfter(l, checking, turn), if turn.Worker? && n > 0 then n - 1 else n))
  {
    assert Follow(l, (TurnEvent(checking, turn, n, ok(done)) + rest)[..0]) == l;
  }

  /**
   * The events of `Close` are those of its turns, one after the other, and then one for each write that
   * is left: every ping is answered with the flag that stood when its check began, whatever has
   * happened since, and the writes come in order.
   */
  lemma {:induction false} ClosingTurns(l: Link, checking: Option<bool>, turns: seq<Turn>, n: nat, done: nat,
                                        ok: nat -> bool) returns (moments: seq<Moment>)
    ensures GoesThrough(l, WhileClosing(l, checking, turns, n, done, ok), turns, ok, done + n, moments)
    ensures |moments| == |turns| + 1 && moments[0] == Moment(0, checking, n)
    ensures HealthWorkerDone(checking.Some?, turns) ==> moments[|turns|].flag.None?
    decreases |turns|
  {
    hide WhileClosing, TurnHappens, GoesThrough, TurnEvent, StepIfAny, CheckingAfter, HealthWorkerDone;
    if turns == [] {
      moments := [Moment(0, checking, n)];
      NoTurns(l, checking, n, done, ok);
    } else {
      var turn, rest := turns[0], turns[1..];
      var e := TurnEvent(checking, turn, n, ok(done));
      var served := if turn.Worker? && n > 0 then 1 else 0;
      var l', checking' := StepIfAny(l, e), CheckingAfter(l, checking, turn);
      var left, later := n - served, done + served;
      var tail := ClosingTurns(l', checking', rest, left, later, ok);
      var events := WhileClosing(l', checking', rest, left, later, ok);
      assert later + left == done + n && Shifted(tail[0], |e|) == Moment(|e|, checking', left);
      FirstTurnHappens(l, checking, turn, n, done, ok, events);
      FirstTurnFirst(l, checking, turns, n, done, ok);
      hide Shifted;
      moments := GoesThroughLater(l, e, events, turns, ok, done + n, Moment(0, checking, n), tail);
    }
  }

  lemma {:induction false} ClosingHappensOnce(l: Link, checking: Option<bool>, turns: seq<Turn>, n: nat, done: nat,
                                              ok: nat -> bool)
    ensures Closing !in WhileClosing(l, checking, turns, n, done, ok)
    decreases |turns|, n
  {
    if turns == [] && n == 0 {
    } else {
      var turn, rest := if turns == [] then Worker else turns[0], if turns == [] then [] else turns[1..];
      var e := TurnEvent(checking, turn, n, ok(done));
      var served := if turn.Worker? && n > 0 then 1 else 0;
      ClosingHappensOnce(StepIfAny(l, e), CheckingAfter(l, checking, turn), rest, n - served, done + served, ok);
    }
  }

  lemma TurnWrites(checking: Option<bool>, turn: Turn, n: nat, ok: bool)
    ensures Writes(TurnEvent(checking, turn, n, ok)) == if turn.Worker? && n > 0 then [ok] else []
  {
    var e := TurnEvent(checking, turn, n, ok);
    assert e == [] || e[..0] == [];
  }

  lemma NextOksFrom(n: nat, done: nat, ok: nat -> bool, served: nat)
    requires served <= 1 && served <= n
    ensures (if served == 1 then [ok(done)] else []) + NextOks(n - served, done + served, ok) == NextOks(n, done, ok)
  {
  }

  /** The writes among them are all the queued ones, in order. */
  lemma {:induction false} ClosingWrites(l: Link, checking: Option<bool>, turns: seq<Turn>, n: nat, done: nat,
                                         ok: nat -> bool)
    ensures Writes(WhileClosing(l, checking, turns, n, done, ok)) == NextOks(n, done, ok)
    decreases |turns|, n
  {
    if turns == [] && n == 0 {
    } else {
      hide Writes, NextOks, TurnEvent, StepIfAny, CheckingAfter;
      var turn, rest := if turns == [] then Worker else turns[0], if turns == [] then [] else turns[1..];
      var e := TurnEvent(checking, turn, n, ok(done));
      var served := if turn.Worker? && n > 0 then 1 else 0;
      var l', checking' := StepIfAny(l, e), CheckingAfter(l, checking, turn);
      ClosingWrites(l', checking', rest, n - served, done + served, ok);
      TurnWrites(checking, turn, n, ok(done));
      NextOksFrom(n, done, ok, served);
      WritesAppend(e, WhileClosing(l', checking', rest, n - served, done + served, ok));
    }
  }

  lemma WhereCloseLeaves(before: Link, checking: Option<bool>, turns: seq<Turn>, n: nat, ok: nat -> bool)
    requires before.errors >= 0
    ensures var events := WhileClosing(Link(false, before.errors), checking, turns, n, 0, ok);
            && Writes(events) == FirstOks(n, ok)
            && (!Follow(Link(false, before.errors), events).connected <==> EndsDown(before.errors, events))
  {
    var marked := Link(false, before.errors);
    assert marked == Step(before, Closing);
    hide WhileClosing;
    ClosingWrites(marked, checking, turns, n, 0, ok);
    ClosingHappensOnce(marked, checking, turns, n, 0, ok);
    DownAfterCloseIff(before, WhileClosing(marked, checking, turns, n, 0, ok));
    assert FirstOks(n, ok) == NextOks(n, 0, ok);
  }

  /** The two straddling checks as `Close` meets them: one under way at the mark, one around a reviving write. */
  lemma CloseMeetsStraddlingChecks(errors: nat, ok: nat -> bool)
    requires ok(0)
    ensures WhileClosing(Link(false, errors), Some(true), [Health(true)], 0, 0, ok) == [Checked(true, true)]
    ensures WhileClosing(Link(false, 1), None, [Health(false), Worker, Health(false)], 1, 0, ok)
         == [Succeeded, Checked(false, false)]
  {
    var turns := [Health(false), Worker, Health(false)];
    assert turns[1..] == [Worker, Health(false)] && turns[1..][1..] == [Health(false)];
    assert [Health(false)][1..] == [] && [Health(true)][1..] == [];
    assert WhileClosing(Link(true, 0), Some(false), [Health(false)], 0, 1, ok) == [Checked(false, false)];
    assert WhileClosing(Link(false, 1), Some(false), [Worker, Health(false)], 1, 0, ok)
        == [Succeeded, Checked(false, false)];
  }

  class RedisCache {
    const maxPendingWrites: nat
    var connected: bool
    var errorCount: int
    var writeQueue: seq<WriteOp>
    var pendingWrites: int
    var droppedWrites: int
    var sets: int
    var store: map<string, string>   // the server
    var checking: Option<bool>       // the flag the health worker has loaded, while its ping is under way
    ghost var log: seq<RedisLink.Event>
    ghost var up: bool               // whether the first ping succeeded

    ghost function View(): Link
      reads this
    {
      Link(connected, errorCount)
    }

    ghost predicate Valid()
      reads this
    {
      && View() == Follow(Link(up, 0), log)
      && pendingWrites == |writeQueue| <= maxPendingWrites
    }

    constructor (maxPendingWrites: nat, pingOk: bool, store: map<string, string>)
      ensures Valid() && log == [] && connected == pingOk && errorCount == 0
      ensures this.maxPendingWrites == maxPendingWrites && this.store == store
      ensures writeQueue == [] && droppedWrites == 0 && sets == 0 && checking.None?
    {
      this.maxPendingWrites := maxPendingWrites;
      connected, errorCount, up, log := pingOk, 0, pingOk, [];
      writeQueue, pendingWrites, droppedWrites, sets := [], 0, 0, 0;
      this.store, checking := store, None;
    }

    method HandleError()
      modifies `connected, `errorCount, `log
      ensures View() == Step(old(View()), Failed) && log == old(log) + [Failed]
      ensures old(View()) == Follow(Link(up, 0), old(log)) ==> View() == Follow(Link(up, 0), log)
    {
      FollowSnoc(Link(up, 0), log, Failed);
      errorCount := errorCount + 1;
      if errorCount >= DISCONNECT_ERROR_THRESHOLD {
        connected := false;
      }
      log := log + [Failed];
    }

    method ClearError()
      modifies `connected, `errorCount, `log
      ensures View() == Step(old(View()), Succeeded) && log == old(log) + [Succeeded]
      ensures old(View()) == Follow(Link(up, 0), old(log)) ==> View() == Follow(Link(up, 0), log)
    {
      FollowSnoc(Link(up, 0), log, Succeeded);
      var had := errorCount;
      errorCount := 0;
      if had > 0 {
        connected := true;
      }
      log := log + [Succeeded];
    }

    /** The health check loads the flag and sends its ping. */
    method StartHealthCheck()
      requires checking.None?
      modifies `checking
      ensures checking == Some(connected)
    {
      checking := Some(connected);
    }

    /** The answer to the ping: whatever has happened since, the flag loaded before it decides what is done. */
    method FinishHealthCheck(pingOk: bool)
      requires Valid() && checking.Some?
      modifies `connected, `errorCount, `checking, `log
      ensures Valid() && checking.None? && View() == Step(old(View()), Checked(old(checking).value, pingOk))
      ensures log == old(log) + [Checked(old(checking).value, pingOk)]
    {
      hide Follow;
      ghost var e := Checked(checking.value, pingOk);
      FollowSnoc(Link(up, 0), log, e);
      var wasConnected := checking.value;
      if !pingOk {
        if wasConnected {
          connected := false;
        }
      } else if !wasConnected {
        connected := true;
        errorCount := 0;
      }
      checking := None;
      log := log + [e];
    }

    /** A whole check that nothing comes between: the link ends up exactly if the ping succeeds. */
    method PerformHealthCheck(pingOk: bool)
      requires Valid() && checking.None?
      modifies `connected, `errorCount, `checking, `log
      ensures Valid() && checking.None? && connected == pingOk
      ensures log == old(log) + [Checked(old(connected), pingOk)]
      ensures errorCount == if !old(connected) && pingOk then 0 else old(errorCount)
    {
      StartHealthCheck();
      FinishHealthCheck(pingOk);
    }

    /** Like a check that has loaded the flag as down, on a caller's demand. */
    method Reconnect(pingOk: bool, fault: Error) returns (err: Option<Error>)
      requires Valid()
      modifies `connected, `errorCount, `log
      ensures Valid() && log == old(log) + [Checked(false, pingOk)]
      ensures err == if pingOk then None else Some(fault)
      ensures View() == if pingOk then Link(true, 0) else old(View())
    {
      hide Follow;
      FollowSnoc(Link(up, 0), log, Checked(false, pingOk));
      log := log + [Checked(false, pingOk)];
      if !pingOk {
        return Some(fault);
      }
      connected := true;
      errorCount := 0;
      return None;
    }

    /** A read. A call that fails gives its `fault`; a miss leaves the error count alone. */
    method Get(key: string, fault: Option<Error>) returns (value: Option<string>, err: Option<Error>)
      requires Valid()
      modifies `connected, `errorCount, `log
      ensures Valid()
      ensures (View(), value, err) == Lookup(old(View()), if key in store then Some(store[key]) else None, fault)
      ensures !old(connected) ==> value == None && err == Some(RedisUnavailable)
      ensures old(connected) && fault.Some? ==> value == None && err == Some(Wrapped("redis", fault.value))
      ensures old(connected) && fault.None? && key !in store ==> value == None && err == Some(CacheMiss)
      ensures old(connected) && fault.None? && key in store ==> value == Some(store[key]) && err == None
      ensures log == if !old(connected) then old(log)
                     else if fault.Some? then old(log) + [Failed]
                     else if key in store then old(log) + [Succeeded]
                     else old(log)
    {
      if !connected {
        return None, Some(RedisUnavailable);
      }
      if fault.Some? {
        HandleError();
        return None, Some(Wrapped("redis", fault.value));
      }
      if key !in store {
        return None, Some(CacheMiss);
      }
      ClearError();
      return Some(store[key]), None;
    }

    method SetAsync(op: WriteOp) returns (err: Option<Error>)
      requires Valid()
      modifies `writeQueue, `pendingWrites, `droppedWrites
      ensures Valid()
      ensures if |old(writeQueue)| < maxPendingWrites
              then err == None && writeQueue == old(writeQueue) + [op] && droppedWrites == old(droppedWrites)
              else && err == Some(WriteQueueFull) && writeQueue == old(writeQueue)
                   && droppedWrites == old(droppedWrites) + 1
    {
      if |writeQueue| < maxPendingWrites {
        writeQueue := writeQueue + [op];
        pendingWrites := pendingWrites + 1;
        return None;
      } else {
        droppedWrites := droppedWrites + 1;
        return Some(WriteQueueFull);
      }
    }

    /** A write, queued when it may be forgotten and sent at once otherwise. */
    method Set(op: WriteOp, fireAndForget: bool, fault: Option<Error>) returns (err: Option<Error>)
      requires Valid()
      modifies `connected, `errorCount, `log, `writeQueue, `pendingWrites, `droppedWrites, `sets, `store
      ensures Valid()
      ensures !old(connected) ==>
                err == Some(RedisUnavailable) && unchanged(`store, `writeQueue, `droppedWrites, `log)
      ensures fireAndForget ==> err == Submit(old(View()), |old(writeQueue)| < maxPendingWrites)
      ensures old(connected) && fireAndForget ==>
                && unchanged(`store, `log, `connected)
                && if |old(writeQueue)| < maxPendingWrites
                   then err == None && writeQueue == old(writeQueue) + [op] && droppedWrites == old(droppedWrites)
                   else err == Some(WriteQueueFull) && writeQueue == old(writeQueue)
                        && droppedWrites == old(droppedWrites) + 1
      ensures old(connected) && !fireAndForget ==>
                && unchanged(`writeQueue, `droppedWrites)
                && (if fault.None? then store == old(store)[op.key := op.value] && err == None
                    else store == old(store) && err == Some(Wrapped("redis", fault.value)))
                && log == old(log) + [if fault.None? then Succeeded else Failed]
                && sets == old(sets) + (if fault.None? then 1 else 0)
    {
      if !connected {
        return Some(RedisUnavailable);
      }
      if fireAndForget {
        err := SetAsync(op);
        return err;
      }
      if fault.Some? {
        HandleError();
        return Some(Wrapped("redis", fault.value));
      }
      store := store[op.key := op.value];
      sets := sets + 1;
      ClearError();
      return None;
    }

    /** The worker writes the operation it has received; the queue no longer holds it. */
    method ExecuteWrite(op: WriteOp, ok: bool)
      requires View() == Follow(Link(up, 0), log)
      modifies `connected, `errorCount, `log, `pendingWrites, `sets, `store
      ensures View() == Follow(Link(up, 0), log) && View() == Step(old(View()), RedisLink.Outcome(ok))
      ensures log == old(log) + [RedisLink.Outcome(ok)]
      ensures store == Stored(old(store), op, ok) == if ok then old(store)[op.key := op.value] else old(store)
      ensures sets == old(sets) + (if ok then 1 else 0)
      ensures pendingWrites == old(pendingWrites) - 1
    {
      hide Follow;
      if !ok {
        HandleError();
      } else {
        store := store[op.key := op.value];
        sets := sets + 1;
        ClearError();
      }
      pendingWrites := pendingWrites - 1;
    }

    /** The worker's next write. */
    method ServeNext(ok: bool)
      requires Valid() && writeQueue != []
      modifies `connected, `errorCount, `log, `writeQueue, `pendingWrites, `sets, `store
      ensures Valid() && View() == Step(old(View()), RedisLink.Outcome(ok)) && writeQueue == old(writeQueue)[1..]
      ensures store == Stored(old(store), old(writeQueue)[0], ok)
      ensures log == old(log) + [RedisLink.Outcome(ok)]
    {
      hide Follow;
      var op := writeQueue[0];
      writeQueue := writeQueue[1..];
      ExecuteWrite(op, ok);
    }

    /** The first `n` of the operations `all` have been written, and the others are queued. */
    ghost predicate WrittenSoFar(start: map<string, string>, all: seq<WriteOp>, n: nat, ok: nat -> bool)
      reads this
    {
      n <= |all| && writeQueue == all[n..] && store == Replayed(start, all[..n], FirstOks(n, ok))
    }

    lemma WriteSoFar(start: map<string, string>, all: seq<WriteOp>, n: nat, ok: nat -> bool)
      requires WrittenSoFar(start, all, n, ok) && writeQueue != []
      ensures n < |all| && writeQueue[1..] == all[n + 1..]
      ensures Stored(store, writeQueue[0], ok(n)) == Replayed(start, all[..n + 1], FirstOks(n + 1, ok))
    {
      ReplayedSnoc(start, all[..n], FirstOks(n, ok), all[n], ok(n));
      assert all[..n + 1] == all[..n] + [all[n]];
      assert FirstOks(n + 1, ok) == FirstOks(n, ok) + [ok(n)];
    }

    /** One step of either worker. */
    method TakeTurn(turn: Turn, ok: bool)
      requires Valid()
      modifies `connected, `errorCount, `checking, `log, `writeQueue, `pendingWrites, `sets, `store
      ensures Valid() && checking == CheckingAfter(old(View()), old(checking), turn)
      ensures var e := TurnEvent(old(checking), turn, |old(writeQueue)|, ok);
              log == old(log) + e && View() == StepIfAny(old(View()), e)
      // The same without naming the events: a load logs nothing, an answer acts with the flag that was loaded.
      ensures turn.Health? && old(checking).None? ==> checking == Some(connected) && log == old(log)
      ensures turn.Health? && old(checking).Some? ==>
                checking.None? && log == old(log) + [Checked(old(checking).value, turn.pingOk)]
      ensures turn.Worker? ==>
                checking == old(checking)
                && log == old(log) + (if old(writeQueue) == [] then [] else if ok then [Succeeded] else [Failed])
      ensures if turn.Worker? && old(writeQueue) != []
              then writeQueue == old(writeQueue)[1..] && store == Stored(old(store), old(writeQueue)[0], ok)
              else writeQueue == old(writeQueue) && store == old(store)
    {
      hide Follow;
      match turn {
        case Health(pingOk) =>
          if checking.None? {
            StartHealthCheck();
          } else {
            FinishHealthCheck(pingOk);
          }
        case Worker =>
          if |writeQueue| > 0 {
            ServeNext(ok);
          }
      }
    }

    /** Waits for the health worker, while the other worker goes on writing, and then until the queue is drained. */
    method AwaitWorkers(turns: seq<Turn>, ok: nat -> bool)
      requires Valid() && HealthWorkerDone(checking.Some?, turns)
      modifies `connected, `errorCount, `checking, `log, `writeQueue, `pendingWrites, `sets, `store
      ensures Valid() && writeQueue == [] && checking.None?
      ensures log == old(log) + WhileClosing(old(View()), old(checking), turns, |old(writeQueue)|, 0, ok)
      ensures store == Replayed(old(store), old(writeQueue), FirstOks(|old(writeQueue)|, ok))
    {
      hide Follow, Step, Replayed, WhileClosing, HealthWorkerDone, Stored, FirstOks;
      hide TurnEvent, CheckingAfter, StepIfAny;
      ghost var all, start := writeQueue, store;
      ghost var events := WhileClosing(View(), checking, turns, |writeQueue|, 0, ok);
      assert FirstOks(0, ok) == [] && all[..0] == [] && turns[0..] == turns && log + events == old(log) + events;
      ReplayedNone(start);
      var written, i := 0, 0;
      while i < |turns| || |writeQueue| > 0
        invariant 0 <= i <= |turns| && Valid() && HealthWorkerDone(checking.Some?, turns[i..])
        invariant WrittenSoFar(start, all, written, ok)
        invariant log + WhileClosing(View(), checking, turns[i..], |writeQueue|, written, ok) == old(log) + events
        decreases |turns| - i, |writeQueue|
      {
        NextWhileClosing(View(), checking, turns, i, |writeQueue|, written, ok, log);
        var turn := if i < |turns| then turns[i] else Worker;
        var served := if turn.Worker? && |writeQueue| > 0 then 1 else 0;
        if served == 1 {
          WriteSoFar(start, all, written, ok);
        }
        TakeTurn(turn, ok(written));
        written := written + served;
        if i < |turns| {
          i := i + 1;
        }
      }
      NothingWhileClosing(View(), checking, turns[i..], written, ok);
      assert log + [] == log && all[..|all|] == all;
    }

    /**
     * Marks the link as down and waits: first for the health worker, which may be in the middle of a
     * check, while the other worker goes on writing (`turns` says whose step comes next), then until the
     * queue is drained. `ok` says which writes succeed.
     */
    method Close(turns: seq<Turn>, ok: nat -> bool)
      requires Valid() && HealthWorkerDone(checking.Some?, turns)
      modifies this
      ensures Valid() && writeQueue == [] && pendingWrites == 0 && checking.None?
      ensures var marked := Step(old(View()), Closing);
              var events := WhileClosing(marked, old(checking), turns, |old(writeQueue)|, 0, ok);
              && log == old(log) + [Closing] + events
              && View() == Follow(marked, events)
      // Where that leaves the link: the last check that moved the flag and the writes after it decide.
      ensures var events := log[|old(log)| + 1..];
              Writes(events) == FirstOks(|old(writeQueue)|, ok) && (!connected <==> EndsDown(old(errorCount), events))
      ensures store == Replayed(old(store), old(writeQueue), FirstOks(|old(writeQueue)|, ok))
    {
      hide Follow, Replayed, WhileClosing, HealthWorkerDone;
      FollowSnoc(Link(up, 0), log, Closing);
      ErrorCountMeaning(up, log);
      ghost var events := WhileClosing(Link(false, errorCount), checking, turns, |writeQueue|, 0, ok);
      WhereCloseLeaves(View(), checking, turns, |writeQueue|, ok);
      connected := false;
      log := log + [Closing];
      FollowAppend(Link(up, 0), log, events);
      assert (log + events)[|log|..] == events;
      hide Writes, EndsDown, FirstOks;
      AwaitWorkers(turns, ok);
    }
  }
}
