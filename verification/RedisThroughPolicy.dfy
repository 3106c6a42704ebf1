// The manager's lookups and fire-and-forget writes in Redis end to end: the policy of
// internal/resilience/policy.go around the Redis layer of internal/cache/redis.go, as `getFromRedis`
// and `setToRedis` of internal/cache/manager.go put them together. Each call is a fresh closure;
// breaker and link live on.

module RedisThroughPolicy {
  import opened Errors
  import opened Environment
  import opened BreakerSpec
  import opened Backoff
  import opened RetrySpec
  import opened PolicySpec
  import RedisLink
  import RedisClass

  const NEVER := Context(None, Cancelled)

  /** The link after `n` lookups of one key. */
  ghost function LinkAfterLookups(l: RedisLink.Link, held: Option<Bytes>, fault: Option<Error>, n: nat): RedisLink.Link
  {
    if n == 0 then l else RedisClass.Lookup(LinkAfterLookups(l, held, fault, n - 1), held, fault).0
  }

  /** The operation is the lookup of one key in a Redis layer whose link stands at `l`. */
  ghost predicate LooksUp(script: Script, l: RedisLink.Link, held: Option<Bytes>, fault: Option<Error>) {
    forall i: nat ::
      var (_, value, err) := RedisClass.Lookup(LinkAfterLookups(l, held, fault, i), held, fault);
      script.reply(i) == Reply(value, err)
  }

  /** Lookups of an absent key leave the link as it is. */
  lemma {:induction false} AbsentKeyLeavesLink(l: RedisLink.Link, n: nat)
    ensures LinkAfterLookups(l, None, None, n) == l
  {
    if n == 0 {
    } else {
      AbsentKeyLeavesLink(l, n - 1);
    }
  }

  /** On a server that only fails, each lookup is one more error until the fifth takes the link down. */
  lemma {:induction false} DeadServerLink(l: RedisLink.Link, held: Option<Bytes>, fault: Error, n: nat)
    requires l.connected && 0 <= l.errors < RedisLink.DISCONNECT_ERROR_THRESHOLD
    ensures LinkAfterLookups(l, held, Some(fault), n) ==
            if l.errors + n < RedisLink.DISCONNECT_ERROR_THRESHOLD then RedisLink.Link(true, l.errors + n)
            else RedisLink.Link(false, RedisLink.DISCONNECT_ERROR_THRESHOLD)
  {
    if n == 0 {
    } else {
      DeadServerLink(l, held, fault, n - 1);
    }
  }

  /** Both are, to the policy, an operation that always fails with an error worth repeating. */
  lemma LookupAlwaysFails(script: Script, l: RedisLink.Link, held: Option<Bytes>, fault: Option<Error>)
    requires l.connected && 0 <= l.errors < RedisLink.DISCONNECT_ERROR_THRESHOLD
    requires LooksUp(script, l, held, fault) && (if fault.Some? then IsRetryable(fault.value) else held.None?)
    ensures AlwaysFails(script)
    ensures fault.None? ==> forall i: nat :: script.reply(i) == Reply(None, Some(CacheMiss))
  {
    forall i: nat
      ensures script.reply(i).err.Some? && IsRetryable(script.reply(i).err.value)
      ensures fault.None? ==> script.reply(i) == Reply(None, Some(CacheMiss))
    {
      if fault.None? {
        AbsentKeyLeavesLink(l, i);
      } else {
        DeadServerLink(l, held, fault.value, i);
      }
      var (_, value, err) := RedisClass.Lookup(LinkAfterLookups(l, held, fault, i), held, fault);
      assert script.reply(i) == Reply(value, err);
    }
  }

  /**
   * One lookup of an absent key, with the circuit closed: Redis is asked not once but as often as the
   * policy calls a failing operation, the link stays as it is, and the caller is told of a miss exactly
   * when every attempt was used; otherwise of an open circuit.
   */
  lemma AbsentKeyLookup(p: RetryConfig, c: Config, script: Script, draws: nat -> Fraction, w: World, l: RedisLink.Link)
    requires p.Valid() && c.Valid() && w.calls == 0
    requires w.breaker.state == Closed && 0 <= w.breaker.fails < c.failureThreshold
    requires l.connected && 0 <= l.errors < RedisLink.DISCONNECT_ERROR_THRESHOLD && LooksUp(script, l, None, None)
    ensures var o := Run(p, Env(Some(c), script, NEVER, draws), w);
            var total := CallCount(p, c, draws, c.failureThreshold - w.breaker.fails);
            && o.w.calls == total >= 1
            && o.err == Some(if total == p.maxAttempts then CacheMiss else CircuitOpen)
            && LinkAfterLookups(l, None, None, total) == l
  {
    hide RunFrom;
    LookupAlwaysFails(script, l, None, None);
    ComposedCallCount(p, c, Env(Some(c), script, NEVER, draws), w);
    AbsentKeyLeavesLink(l, CallCount(p, c, draws, c.failureThreshold - w.breaker.fails));
  }

  /** The first `n` of the lookups that a link at `l` still lets through to the server. */
  ghost function ReachServer(l: RedisLink.Link, held: Option<Bytes>, fault: Option<Error>, n: nat): nat {
    if n == 0 then 0
    else ReachServer(l, held, fault, n - 1) + (if LinkAfterLookups(l, held, fault, n - 1).connected then 1 else 0)
  }

  lemma {:induction false} ReachDeadServer(l: RedisLink.Link, held: Option<Bytes>, fault: Error, n: nat)
    requires l.connected && 0 <= l.errors < RedisLink.DISCONNECT_ERROR_THRESHOLD
    ensures var left := RedisLink.DISCONNECT_ERROR_THRESHOLD - l.errors;
            ReachServer(l, held, Some(fault), n) == if n <= left then n else left
  {
    if n == 0 {
    } else {
      ReachDeadServer(l, held, fault, n - 1);
      DeadServerLink(l, held, fault, n - 1);
    }
  }

  /**
   * One lookup on a server that only fails, with an error worth repeating: of the calls the policy
   * makes, exactly those up to the fifth error reach the server.
   */
  lemma DeadServerLookup(p: RetryConfig, c: Config, script: Script, draws: nat -> Fraction, w: World,
                         l: RedisLink.Link, held: Option<Bytes>, fault: Error)
    requires p.Valid() && c.Valid() && w.calls == 0 && IsRetryable(fault)
    requires w.breaker.state == Closed && 0 <= w.breaker.fails < c.failureThreshold
    requires l.connected && 0 <= l.errors < RedisLink.DISCONNECT_ERROR_THRESHOLD
    requires LooksUp(script, l, held, Some(fault))
    ensures var o := Run(p, Env(Some(c), script, NEVER, draws), w);
            var left := RedisLink.DISCONNECT_ERROR_THRESHOLD - l.errors;
            && o.w.calls == CallCount(p, c, draws, c.failureThreshold - w.breaker.fails)
            && ReachServer(l, held, Some(fault), o.w.calls) == (if o.w.calls <= left then o.w.calls else left)
            && (LinkAfterLookups(l, held, Some(fault), o.w.calls).connected <==> o.w.calls < left)
  {
    hide RunFrom;
    LookupAlwaysFails(script, l, held, Some(fault));
    ComposedCallCount(p, c, Env(Some(c), script, NEVER, draws), w);
    var o := Run(p, Env(Some(c), script, NEVER, draws), w);
    ReachDeadServer(l, held, fault, o.w.calls);
    DeadServerLink(l, held, fault, o.w.calls);
  }

  /** If the failure is not worth repeating (a refused connection, say), one call and one error are all there is. */
  lemma RefusedServerLookup(p: RetryConfig, c: Config, script: Script, draws: nat -> Fraction, w: World,
                            l: RedisLink.Link, held: Option<Bytes>, fault: Error)
    requires p.Valid() && c.Valid() && w.calls == 0 && !IsRetryable(fault)
    requires w.breaker.state == Closed && 0 <= w.breaker.fails < c.failureThreshold
    requires l.connected && LooksUp(script, l, held, Some(fault))
    ensures var o := Run(p, Env(Some(c), script, NEVER, draws), w);
            && o.w.calls == 1 && o.err == Some(Wrapped("redis", fault))
            && (o.w.breaker.state == Open <==> w.breaker.fails + 1 == c.failureThreshold)
            && LinkAfterLookups(l, held, Some(fault), 1).errors == l.errors + 1
  {
    var (_, value, err) := RedisClass.Lookup(LinkAfterLookups(l, held, Some(fault), 0), held, Some(fault));
    assert script.reply(0) == Reply(value, err);
  }

  /** One lookup of a key that is there, with the circuit closed: one call, which clears both records of failures. */
  lemma PresentKeyLookup(p: RetryConfig, c: Config, script: Script, draws: nat -> Fraction, w: World,
                         l: RedisLink.Link, v: Bytes)
    requires p.Valid() && c.Valid() && w.calls == 0 && w.breaker.state == Closed
    requires l.connected && LooksUp(script, l, Some(v), None)
    ensures var o := Run(p, Env(Some(c), script, NEVER, draws), w);
            && o.w.calls == 1 && o.err == None && o.result == Some(v)
            && o.w.breaker == w.breaker.(fails := 0)
            && LinkAfterLookups(l, Some(v), None, 1) == RedisLink.Link(true, 0)
  {
    var (_, value, err) := RedisClass.Lookup(LinkAfterLookups(l, Some(v), None, 0), Some(v), None);
    assert script.reply(0) == Reply(value, err);
  }

  // ---- Fire-and-forget writes ----

  /** The operation hands one write to the queue; `room` says which attempts find room. */
  ghost predicate Submits(script: Script, l: RedisLink.Link, room: nat -> bool) {
    forall i: nat :: script.reply(i) == Reply(None, RedisClass.Submit(l, room(i)))
  }

  /** How often the write is counted as dropped by its first `n` attempts. */
  ghost function Drops(l: RedisLink.Link, room: nat -> bool, n: nat): nat {
    if n == 0 then 0 else Drops(l, room, n - 1) + (if l.connected && !room(n - 1) then 1 else 0)
  }

  lemma {:induction false} EveryAttemptDrops(l: RedisLink.Link, room: nat -> bool, n: nat)
    requires l.connected && forall i :: 0 <= i < n ==> !room(i)
    ensures Drops(l, room, n) == n
  {
    if n == 0 {
    } else {
      EveryAttemptDrops(l, room, n - 1);
    }
  }

  /** A write that meets a full queue, or a link that is down, fails on every attempt with an error worth repeating. */
  lemma RefusedSubmitAlwaysFails(script: Script, l: RedisLink.Link, room: nat -> bool)
    requires Submits(script, l, room) && (l.connected ==> forall i: nat :: !room(i))
    ensures AlwaysFails(script)
  {
    forall i: nat ensures script.reply(i).err.Some? && IsRetryable(script.reply(i).err.value) {
      assert script.reply(i) == Reply(None, RedisClass.Submit(l, room(i)));
    }
  }

  /**
   * One such write is not forgotten at once: it is repeated, with waits, as often as the policy calls a
   * failing operation. Each attempt at a full queue counts one more dropped write, and the caller is
   * told of the queue or the link exactly when every attempt was used; otherwise of an open circuit.
   */
  lemma RefusedWrite(p: RetryConfig, c: Config, script: Script, draws: nat -> Fraction, w: World,
                     l: RedisLink.Link, room: nat -> bool)
    requires p.Valid() && c.Valid() && w.calls == 0
    requires w.breaker.state == Closed && 0 <= w.breaker.fails < c.failureThreshold
    requires Submits(script, l, room) && (l.connected ==> forall i: nat :: !room(i))
    ensures var o := Run(p, Env(Some(c), script, NEVER, draws), w);
            var total := CallCount(p, c, draws, c.failureThreshold - w.breaker.fails);
            && o.w.calls == total >= 1
            && o.err == Some(if total < p.maxAttempts then CircuitOpen
                             else if l.connected then WriteQueueFull else RedisUnavailable)
            && (l.connected ==> Drops(l, room, total) == total)
            && (o.w.breaker.state == Open <==> p.maxAttempts >= c.failureThreshold - w.breaker.fails)
  {
    hide RunFrom;
    var env := Env(Some(c), script, NEVER, draws);
    RefusedSubmitAlwaysFails(script, l, room);
    ComposedCallCount(p, c, env, w);
    OpensCircuitIff(p, c, env, w);
    var total := CallCount(p, c, draws, c.failureThreshold - w.breaker.fails);
    LastCallBounds(p, c, draws, c.failureThreshold - w.breaker.fails);
    assert script.reply(total - 1) == Reply(None, RedisClass.Submit(l, room(total - 1)));
    if l.connected {
      EveryAttemptDrops(l, room, total);
    }
  }

  /**
   * If the queue has room at attempt number `k + 1`, in time for retry and breaker, the write is queued
   * and the caller told so, although it has been counted as dropped `k` times.
   */
  lemma LateRoom(p: RetryConfig, c: Config, script: Script, draws: nat -> Fraction, w: World,
                 l: RedisLink.Link, room: nat -> bool, k: nat)
    requires p.Valid() && c.Valid() && w.calls == 0 && l.connected && Submits(script, l, room)
    requires w.breaker.state == Closed && 0 <= w.breaker.fails && w.breaker.fails + k < c.failureThreshold
    requires k < p.maxAttempts && room(k) && forall i :: 0 <= i < k ==> !room(i)
    ensures var o := Run(p, Env(Some(c), script, NEVER, draws), w);
            && o.w.calls == k + 1 && o.err == None && Drops(l, room, k + 1) == k
            && o.w.breaker == w.breaker.(fails := 0)
  {
    hide RunFrom;
    forall i: nat | i <= k ensures script.reply(i).err == if i < k then Some(WriteQueueFull) else None {
      assert script.reply(i) == Reply(None, RedisClass.Submit(l, room(i)));
    }
    SucceedsAt(p, c, Env(Some(c), script, NEVER, draws), w, 1, k);
    EveryAttemptDrops(l, room, k);
  }

  // ---- Many calls ----

  /** One lookup or write, `pause` after the call before. */
  datatype Request = Request(script: Script, draws: nat -> Fraction, pause: nat)

  ghost function Served(p: RetryConfig, c: Config, r: Request, w: World): Outcome {
    Run(p, Env(Some(c), r.script, NEVER, r.draws), w.(calls := 0, now := w.now + r.pause))
  }

  ghost function AfterAll(p: RetryConfig, c: Config, requests: seq<Request>, w: World): World
    decreases |requests|
  {
    if requests == [] then w
    else Served(p, c, requests[|requests| - 1], AfterAll(p, c, requests[..|requests| - 1], w)).w
  }

  lemma NotNegative(a: int, b: int)
    requires a >= 0 && b >= 0
    ensures a * b >= 0
  {
  }

  /**
   * Failing calls one after the other, however far apart: each leaves `maxAttempts` failures on
   * record, and the circuit is open from the call on that completes the threshold, and not before.
   */
  lemma {:induction false} FailingCallsOpenIff(p: RetryConfig, c: Config, requests: seq<Request>, w: World)
    requires p.Valid() && c.Valid()
    requires w.breaker.state == Closed && 0 <= w.breaker.fails < c.failureThreshold
    requires forall i :: 0 <= i < |requests| ==> AlwaysFails(requests[i].script)
    ensures var b := AfterAll(p, c, requests, w).breaker;
            && (b.state == Open <==> w.breaker.fails + |requests| * p.maxAttempts >= c.failureThreshold)
            && (b.state != Open ==> b.state == Closed && b.fails == w.breaker.fails + |requests| * p.maxAttempts)
    decreases |requests|
  {
    hide RunFrom;
    if requests == [] {
    } else {
      var n := |requests| - 1;
      var r := requests[n];
      FailingCallsOpenIff(p, c, requests[..n], w);
      var before := AfterAll(p, c, requests[..n], w);
      var start := before.(calls := 0, now := before.now + r.pause);
      var env := Env(Some(c), r.script, NEVER, r.draws);
      assert |requests| * p.maxAttempts == n * p.maxAttempts + p.maxAttempts;
      if before.breaker.state == Closed {
        NotNegative(n, p.maxAttempts);
        OpensCircuitIff(p, c, env, start);
      } else {
        StaysOpenPhase(p, c, env, start, 1);
      }
    }
  }

  /**
   * Lookups of absent keys are such lookups: with the default attempts and threshold the
   * second one opens the circuit, however far apart they are.
   */
  lemma AbsentKeysOpenIff(p: RetryConfig, c: Config, requests: seq<Request>, links: seq<RedisLink.Link>, w: World)
    requires p.Valid() && c.Valid() && |links| == |requests|
    requires w.breaker == INITIAL
    requires forall i :: 0 <= i < |requests| ==>
               && links[i].connected && 0 <= links[i].errors < RedisLink.DISCONNECT_ERROR_THRESHOLD
               && LooksUp(requests[i].script, links[i], None, None)
    ensures AfterAll(p, c, requests, w).breaker.state == Open <==> |requests| * p.maxAttempts >= c.failureThreshold
    ensures p.maxAttempts == RetryConfig.DEFAULTS.maxAttempts ==>
            c.failureThreshold == Config.DEFAULTS.failureThreshold ==>
              (AfterAll(p, c, requests, w).breaker.state == Open <==> |requests| >= 2)
  {
    hide AfterAll, LooksUp, AlwaysFails;
    forall i | 0 <= i < |requests| ensures AlwaysFails(requests[i].script) {
      LookupAlwaysFails(requests[i].script, links[i], None, None);
    }
    FailingCallsOpenIff(p, c, requests, w);
  }

  /** So are fire-and-forget writes that meet a full queue or a link that is down: they close Redis to reads. */
  lemma RefusedWritesOpenIff(p: RetryConfig, c: Config, requests: seq<Request>, links: seq<RedisLink.Link>,
                             rooms: seq<nat -> bool>, w: World)
    requires p.Valid() && c.Valid() && |links| == |requests| == |rooms|
    requires w.breaker == INITIAL
    requires forall i :: 0 <= i < |requests| ==>
               && Submits(requests[i].script, links[i], rooms[i])
               && (links[i].connected ==> forall j: nat :: !rooms[i](j))
    ensures AfterAll(p, c, requests, w).breaker.state == Open <==> |requests| * p.maxAttempts >= c.failureThreshold
  {
    hide AfterAll, AlwaysFails;
    forall i | 0 <= i < |requests| ensures AlwaysFails(requests[i].script) {
      RefusedSubmitAlwaysFails(requests[i].script, links[i], rooms[i]);
    }
    FailingCallsOpenIff(p, c, requests, w);
  }

  /** While the circuit is open and the period is not over, no key can be read from Redis, present or not. */
  lemma PresentKeysAreRefused(p: RetryConfig, c: Config, r: Request, w: World)
    requires p.Valid() && w.breaker.state == Open && w.now + r.pause < w.breaker.openedAt + c.openDuration
    ensures var o := Served(p, c, r, w);
            o.err == Some(CircuitOpen) && o.w.calls == 0 && o.w.breaker == w.breaker
  {
  }
}
