// What clients can read from the two layers: provenance of every value, and exactly when a
// write or a removal is what later reads see.

module Coherence {
  import opened Layers

  ghost predicate IntroducesOnly(run: seq<Label>, p: Entry -> bool) {
    forall i :: 0 <= i < |run| ==> Introduces(run[i], p)
  }

  /** However the run goes on, unless it writes an entry violating `p`, it returns none. */
  ghost predicate ReadsSatisfy(s: System, p: Entry -> bool) {
    forall run :: CanRun(s, run) && IntroducesOnly(run, p) ==> ReturnsOnly(s, Run(s, run), p)
  }

  lemma {:induction false} RunKeepsEverywhere(s: System, run: seq<Label>, p: Entry -> bool)
    requires Everywhere(s, p) && CanRun(s, run) && IntroducesOnly(run, p)
    ensures Everywhere(Run(s, run), p) && ReturnsOnly(s, Run(s, run), p)
    decreases |run|
  {
    if run == [] {
    } else {
      hide Apply, Everywhere;
      assert Introduces(run[0], p);
      StepKeepsEverywhere(s, run[0], p);
      RunKeepsEverywhere(Apply(s, run[0]), run[1..], p);
    }
  }

  // ---- Every violating entry can be brought to light ----

  ghost predicate Exposes(s: System, run: seq<Label>, p: Entry -> bool) {
    CanRun(s, run) && IntroducesOnly(run, p) && !ReturnsOnly(s, Run(s, run), p)
  }

  lemma ExposeLater(s: System, l: Label, rest: seq<Label>, p: Entry -> bool) returns (run: seq<Label>)
    requires Enabled(s, l) && !l.BeginWrite? && Apply(s, l).returned == s.returned
    requires Exposes(Apply(s, l), rest, p)
    ensures Exposes(s, run, p)
  {
    run := [l] + rest;
    assert run[1..] == rest;
  }

  lemma ExposeNow(s: System, l: Label, found: Store, k: string, p: Entry -> bool) returns (run: seq<Label>)
    requires Enabled(s, l) && !l.BeginWrite? && Apply(s, l).returned == s.returned + [found]
    requires k in found && !p(Entry(k, found[k]))
    ensures Exposes(s, run, p)
  {
    run := [l];
    RunOne(s, l);
    assert Run(s, run).returned[|s.returned|] == found;
  }

  lemma FromMemory(s: System, k: string, p: Entry -> bool) returns (run: seq<Label>)
    requires k in s.memory && !p(Entry(k, s.memory[k]))
    ensures Exposes(s, run, p)
  {
    var begin, read := BeginRead([k], true, false, false), ReadMemory(s.next, false);
    var s1 := Apply(s, begin);
    var s2 := Apply(s1, read);
    run := ExposeNow(s2, ReadRedis(s.next, false), map[k := s.memory[k]], k, p);
    run := ExposeLater(s1, read, run, p);
    run := ExposeLater(s, begin, run, p);
  }

  lemma Smaller(m: Store, h: string)
    requires h in m
    ensures |m - {h}| < |m|
  {
    assert (m - {h}).Keys == m.Keys - {h};
  }

  lemma TakingOver(found: Store, hits: Store, h: string)
    requires h in hits
    ensures found[h := hits[h]] + (hits - {h}) == found + hits
  {
  }

  lemma TakeOverStep(s: System, c: nat, h: string)
    requires Enabled(s, TakeOver(c, h))
    ensures var q := s.clients[c]; var s' := Apply(s, TakeOver(c, h));
            && c in s'.clients && s'.returned == s.returned
            && s'.clients[c] == Fetched(q.found[h := q.hits[h]], q.hits - {h}, q.populates)
            && s'.clients[c].found + s'.clients[c].hits == q.found + q.hits
            && |s'.clients[c].hits| < |q.hits|
  {
    TakingOver(s.clients[c].found, s.clients[c].hits, h);
    Smaller(s.clients[c].hits, h);
  }

  lemma FromFound(s: System, c: nat, k: string, p: Entry -> bool) returns (run: seq<Label>)
    requires c in s.clients && s.clients[c].Fetched? && s.clients[c].hits == map[]
    requires var found := s.clients[c].found; k in found && !p(Entry(k, found[k]))
    ensures Exposes(s, run, p)
  {
    hide Exposes;
    run := ExposeNow(s, Return(c), s.clients[c].found, k, p);
  }

  lemma {:induction false} FromFetched(s: System, c: nat, k: string, p: Entry -> bool) returns (run: seq<Label>)
    requires c in s.clients && s.clients[c].Fetched?
    requires var all := s.clients[c].found + s.clients[c].hits; k in all && !p(Entry(k, all[k]))
    ensures Exposes(s, run, p)
    decreases |s.clients[c].hits|
  {
    hide Exposes, Apply;
    if s.clients[c].hits == map[] {
      run := FromFound(s, c, k, p);
    } else {
      var h :| h in s.clients[c].hits;
      TakeOverStep(s, c, h);
      run := FromFetched(Apply(s, TakeOver(c, h)), c, k, p);
      run := ExposeLater(s, TakeOver(c, h), run, p);
    }
  }

  lemma FromRedis(s: System, k: string, p: Entry -> bool) returns (run: seq<Label>)
    requires k in s.redis && !p(Entry(k, s.redis[k]))
    ensures Exposes(s, run, p)
  {
    var begin, read := BeginRead([k], false, true, false), ReadRedis(s.next, true);
    var s1 := Apply(s, begin);
    var s2 := Apply(s1, read);
    assert s2.clients[s.next] == Fetched(map[], Lookup(s.redis, [k]), false);
    assert Lookup(s.redis, [k]) == map[k := s.redis[k]];
    run := FromFetched(s2, s.next, k, p);
    run := ExposeLater(s1, read, run, p);
    run := ExposeLater(s, begin, run, p);
  }

  lemma {:induction false} FromQueue(s: System, i: nat, p: Entry -> bool) returns (run: seq<Label>)
    requires i < |s.queue| && !p(s.queue[i])
    ensures Exposes(s, run, p)
    decreases i
  {
    if i == 0 {
      run := FromRedis(Apply(s, WorkerWrites(true)), s.queue[0].key, p);
      run := ExposeLater(s, WorkerWrites(true), run, p);
    } else {
      run := FromQueue(Apply(s, WorkerWrites(false)), i - 1, p);
      run := ExposeLater(s, WorkerWrites(false), run, p);
    }
  }

  lemma FromPopulate(s: System, e: Entry, p: Entry -> bool) returns (run: seq<Label>)
    requires e in s.populates && !p(e)
    ensures Exposes(s, run, p)
  {
    run := FromMemory(Apply(s, Populate(e, true)), e.key, p);
    run := ExposeLater(s, Populate(e, true), run, p);
  }

  lemma {:induction false} FromReading(s: System, c: nat, k: string, p: Entry -> bool) returns (run: seq<Label>)
    requires c in s.clients && s.clients[c].Reading?
    requires k in s.clients[c].found && !p(Entry(k, s.clients[c].found[k]))
    ensures Exposes(s, run, p)
    decreases |s.clients[c].todo|
  {
    if s.clients[c].todo == [] {
      run := ExposeNow(s, ReadRedis(c, false), s.clients[c].found, k, p);
    } else {
      run := FromReading(Apply(s, ReadMemory(c, true)), c, k, p);
      run := ExposeLater(s, ReadMemory(c, true), run, p);
    }
  }

  lemma FromMemoryWrite(s: System, c: nat, k: string, p: Entry -> bool) returns (run: seq<Label>)
    requires Enabled(s, WriteMemory(c, k, true)) && !p(Entry(k, s.clients[c].memory[k]))
    ensures Exposes(s, run, p)
  {
    run := FromMemory(Apply(s, WriteMemory(c, k, true)), k, p);
    run := ExposeLater(s, WriteMemory(c, k, true), run, p);
  }

  lemma FromRedisWrite(s: System, c: nat, k: string, p: Entry -> bool) returns (run: seq<Label>)
    requires Enabled(s, WriteRedis(c, k, true)) && !p(Entry(k, s.clients[c].redis[k]))
    ensures Exposes(s, run, p)
  {
    var s' := Apply(s, WriteRedis(c, k, true));
    if s.clients[c].queued {
      run := FromQueue(s', |s.queue|, p);
    } else {
      run := FromRedis(s', k, p);
    }
    run := ExposeLater(s, WriteRedis(c, k, true), run, p);
  }

  lemma SkipMemoryWrite(s: System, c: nat, h: string)
    requires Enabled(s, WriteMemory(c, h, false))
    ensures var q := s.clients[c]; var s' := Apply(s, WriteMemory(c, h, false));
            && c in s'.clients && s'.returned == s.returned
            && s'.clients[c] == Writing(q.memory - {h}, q.redis, q.queued)
            && |s'.clients[c].memory| < |q.memory|
  {
    Smaller(s.clients[c].memory, h);
  }

  lemma {:induction false} FromWriting(s: System, c: nat, k: string, p: Entry -> bool) returns (run: seq<Label>)
    requires c in s.clients && s.clients[c].Writing?
    requires k in s.clients[c].redis && !p(Entry(k, s.clients[c].redis[k]))
    ensures Exposes(s, run, p)
    decreases |s.clients[c].memory|
  {
    hide Apply, Exposes;
    if s.clients[c].memory != map[] {
      var h :| h in s.clients[c].memory;
      SkipMemoryWrite(s, c, h);
      run := FromWriting(Apply(s, WriteMemory(c, h, false)), c, k, p);
      run := ExposeLater(s, WriteMemory(c, h, false), run, p);
    } else {
      run := FromRedisWrite(s, c, k, p);
    }
  }

  lemma FromClient(s: System, c: nat, p: Entry -> bool) returns (run: seq<Label>)
    requires c in s.clients && !Carries(s.clients[c], p)
    ensures Exposes(s, run, p)
  {
    match s.clients[c]
    case Reading(_, found, _, _, _) =>
      var k :| k in found && !p(Entry(k, found[k]));
      run := FromReading(s, c, k, p);
    case Fetched(found, hits, _) =>
      var k :| k in found + hits && !p(Entry(k, (found + hits)[k]));
      run := FromFetched(s, c, k, p);
    case Writing(memory, redis, _) =>
      if !All(memory, p) {
        var k :| k in memory && !p(Entry(k, memory[k]));
        run := FromMemoryWrite(s, c, k, p);
      } else {
        var k :| k in redis && !p(Entry(k, redis[k]));
        run := FromWriting(s, c, k, p);
      }
    case _ =>
      run := [];
  }

  lemma Expose(s: System, p: Entry -> bool) returns (run: seq<Label>)
    requires !Everywhere(s, p)
    ensures Exposes(s, run, p)
  {
    if !All(s.memory, p) {
      var k :| k in s.memory && !p(Entry(k, s.memory[k]));
      run := FromMemory(s, k, p);
    } else if !All(s.redis, p) {
      var k :| k in s.redis && !p(Entry(k, s.redis[k]));
      run := FromRedis(s, k, p);
    } else if i: int :| 0 <= i < |s.queue| && !p(s.queue[i]) {
      run := FromQueue(s, i, p);
    } else if e :| e in s.populates && !p(e) {
      run := FromPopulate(s, e, p);
    } else {
      var c :| c in s.clients && !Carries(s.clients[c], p);
      run := FromClient(s, c, p);
    }
  }

  /**
   * From a state on, reads return only entries satisfying `p` if and only if every entry in
   * either layer, in the write queue, in a pending populate and in any client's hands does.
   */
  lemma ReadsSatisfyIff(s: System, p: Entry -> bool)
    ensures ReadsSatisfy(s, p) <==> Everywhere(s, p)
  {
    if Everywhere(s, p) {
      forall run | CanRun(s, run) && IntroducesOnly(run, p) ensures ReturnsOnly(s, Run(s, run), p) {
        RunKeepsEverywhere(s, run, p);
      }
    } else {
      var run := Expose(s, p);
    }
  }

  /** `k` holds nothing but `v`. */
  ghost function Only(k: string, v: string): Entry -> bool {
    (e: Entry) => e.key == k ==> e.value == v
  }

  ghost function Nothing(k: string): Entry -> bool {
    (e: Entry) => e.key != k
  }

  /**
   * After a write of `v` under `k`, and until another value is written there, reads of `k` give
   * `v` or nothing exactly when no other value for `k` is left in a layer, in the queue, in a
   * pending populate or in a client's hands. An older populate still pending breaks it.
   */
  lemma WriteIsWhatIsReadIff(s: System, k: string, v: string)
    ensures ReadsSatisfy(s, Only(k, v)) <==> Everywhere(s, Only(k, v))
    ensures forall e :: e in s.populates && e.key == k && e.value != v ==> !ReadsSatisfy(s, Only(k, v))
  {
    ReadsSatisfyIff(s, Only(k, v));
  }

  /** A removed key stays unreadable until the next write exactly when nothing for it is left anywhere. */
  lemma RemovedStaysRemovedIff(s: System, k: string)
    ensures ReadsSatisfy(s, Nothing(k)) <==> Everywhere(s, Nothing(k))
    ensures forall e :: e in s.populates && e.key == k ==> !ReadsSatisfy(s, Nothing(k))
  {
    ReadsSatisfyIff(s, Nothing(k));
  }

  // ---- A write or a removal while nothing else is under way for the key ----

  /** The client has business with `k`. */
  ghost predicate Mentions(q: Client, k: string) {
    match q
    case Reading(todo, found, missing, _, _) => k in todo || k in found || k in missing
    case Fetched(found, hits, _) => k in found || k in hits
    case Writing(memory, redis, _) => k in memory || k in redis
    case Deleting(fromMemory, fromRedis) => k in fromMemory || k in fromRedis
    case Over => false
  }

  /** Nothing for `k` is under way but what client `c` may be doing, and what is queued satisfies `p`. */
  ghost predicate QuietBut(s: System, c: nat, k: string, p: Entry -> bool) {
    && (forall i :: 0 <= i < |s.queue| && s.queue[i].key == k ==> p(s.queue[i]))
    && (forall e :: e in s.populates ==> e.key != k)
    && (forall d :: d in s.clients && d != c ==> !Mentions(s.clients[d], k))
    && (forall d :: d in s.clients ==> d < s.next)
  }

  /** Nothing at all is under way for `k`. */
  ghost predicate Quiet(s: System, k: string) {
    QuietBut(s, s.next, k, Nothing(k))
  }

  /** No other read, write or removal of `k` begins. */
  ghost predicate LeavesAlone(l: Label, k: string) {
    match l
    case BeginRead(keys, _, _, _) => k !in keys
    case BeginWrite(items, _, _, _) => k !in items
    case BeginDelete(doomed, _, _) => k !in doomed
    case _ => true
  }

  ghost predicate Undisturbed(run: seq<Label>, k: string) {
    forall i :: 0 <= i < |run| ==> LeavesAlone(run[i], k)
  }

  /** No step of client `c` for `k` fails. */
  ghost predicate NoFailure(run: seq<Label>, c: nat, k: string) {
    forall i :: 0 <= i < |run| ==> run[i] !in {WriteMemory(c, k, false), WriteRedis(c, k, false),
                                               DeleteMemory(c, k, false), DeleteRedis(c, k, false)}
  }

  /** Neither layer loses `k` by itself. */
  ghost predicate NoLoss(run: seq<Label>, k: string) {
    forall i :: 0 <= i < |run| ==> run[i] != Evict(k) && run[i] != Expire(k)
  }

  /** Client `c` writes or removes, and what it still has to write under `k` satisfies `p`. */
  ghost predicate Changing(s: System, c: nat, k: string, p: Entry -> bool) {
    && c in s.clients
    && match s.clients[c]
       case Writing(memory, redis, _) =>
         (k in memory ==> p(Entry(k, memory[k]))) && (k in redis ==> p(Entry(k, redis[k])))
       case Deleting(_, _) => true
       case _ => false
  }

  ghost predicate ToMemory(q: Client, k: string) {
    (q.Writing? && k in q.memory) || (q.Deleting? && k in q.fromMemory)
  }

  ghost predicate ToRedis(q: Client, k: string) {
    (q.Writing? && k in q.redis) || (q.Deleting? && k in q.fromRedis)
  }

  ghost predicate Holds(m: Store, k: string, p: Entry -> bool) {
    k in m ==> p(Entry(k, m[k]))
  }

  /** A layer that client `c` is done with holds nothing against `p`. */
  ghost predicate Applied(s: System, c: nat, k: string, p: Entry -> bool)
    requires c in s.clients
  {
    var q := s.clients[c];
    && (!ToMemory(q, k) ==> Holds(s.memory, k, p))
    && (!ToRedis(q, k) && (q.Writing? ==> !q.queued) ==> Holds(s.redis, k, p))
  }

  /** A layer that writing client `c` is done with holds `k`. */
  ghost predicate Kept(s: System, c: nat, k: string)
    requires c in s.clients
  {
    var q := s.clients[c];
    && (!ToMemory(q, k) ==> k in s.memory)
    && (!ToRedis(q, k) && (q.Writing? ==> !q.queued) ==> k in s.redis)
  }

  /** A client's step gives it no business with a key it had none with. */
  lemma MovedMentions(s: System, l: Label, k: string)
    requires Enabled(s, l) && MovesClient(l) && !Mentions(s.clients[l.c], k)
    ensures !Mentions(Moved(s, l), k)
    ensures l.TakeOver? || l.WriteMemory? || l.RepeatRedis? || l.WriteRedis? || l.DeleteMemory? || l.DeleteRedis? ==>
              l.k != k
  {
  }

  lemma StartedMentions(l: Label, k: string)
    requires StartsClient(l) && LeavesAlone(l, k)
    ensures !Mentions(Started(l), k)
  {
  }

  /** The changing client's own step. */
  lemma OwnStep(s: System, l: Label, k: string, p: Entry -> bool)
    requires Enabled(s, l) && MovesClient(l) && Changing(s, l.c, k, p)
    requires l.WriteMemory? || l.RepeatRedis? || l.WriteRedis? || l.DeleteMemory? || l.DeleteRedis?
    ensures Changing(s.(clients := s.clients[l.c := Moved(s, l)]), l.c, k, p)
    ensures Moved(s, l).Writing? == s.clients[l.c].Writing?
    ensures Moved(s, l).Writing? ==> Moved(s, l).queued == s.clients[l.c].queued
    ensures ToMemory(Moved(s, l), k) <==>
              ToMemory(s.clients[l.c], k) && !((l.WriteMemory? || l.DeleteMemory?) && l.k == k)
    ensures ToRedis(Moved(s, l), k) <==>
              ToRedis(s.clients[l.c], k) && !((l.WriteRedis? || l.DeleteRedis?) && l.k == k)
  {
  }

  /** The label is a step of the changing client `c` for `k`. */
  ghost predicate OwnFor(l: Label, c: nat, k: string) {
    && (l.WriteMemory? || l.RepeatRedis? || l.WriteRedis? || l.DeleteMemory? || l.DeleteRedis?)
    && l.c == c && l.k == k
  }

  /** Only the changing client's own steps, the queue and losses bear on `k` in a layer. */
  lemma LayersStep(s: System, l: Label, c: nat, k: string, p: Entry -> bool)
    requires Enabled(s, l) && QuietBut(s, c, k, p) && Changing(s, c, k, p)
    ensures !OwnFor(l, c, k) ==>
              && (k in MemoryAfter(s, l) ==> k in s.memory && MemoryAfter(s, l)[k] == s.memory[k])
              && (k in s.memory && l != Evict(k) ==> k in MemoryAfter(s, l))
              && (k in RedisAfter(s, l) ==>
                    p(Entry(k, RedisAfter(s, l)[k])) || (k in s.redis && RedisAfter(s, l)[k] == s.redis[k]))
              && (k in s.redis && l != Expire(k) ==> k in RedisAfter(s, l))
    ensures OwnFor(l, c, k) && s.clients[c].Writing? ==>
              var q := s.clients[c];
              && MemoryAfter(s, l) == (if l.WriteMemory? && l.ok then s.memory[k := q.memory[k]] else s.memory)
              && RedisAfter(s, l) == (if l.RepeatRedis? || (l.WriteRedis? && l.ok && !q.queued)
                                      then s.redis[k := q.redis[k]] else s.redis)
    ensures OwnFor(l, c, k) && s.clients[c].Deleting? ==>
              && MemoryAfter(s, l) == (if l.DeleteMemory? && l.ok then s.memory - {k} else s.memory)
              && RedisAfter(s, l) == (if l.DeleteRedis? && l.ok then s.redis - {k} else s.redis)
  {
    if MovesClient(l) && l.c != c {
      MovedMentions(s, l, k);
    }
  }

  /** What is left to do for `k` is changed by the changing client's own steps only. */
  lemma ClientStep(s: System, l: Label, c: nat, k: string, p: Entry -> bool)
    requires Enabled(s, l) && QuietBut(s, c, k, p) && Changing(s, c, k, p)
    ensures var s' := Apply(s, l);
            && s'.memory == MemoryAfter(s, l) && s'.redis == RedisAfter(s, l)
            && c in s'.clients
            && s'.clients[c].Writing? == s.clients[c].Writing?
            && (s'.clients[c].Writing? ==> s'.clients[c].queued == s.clients[c].queued)
            && (ToMemory(s'.clients[c], k) <==>
                  ToMemory(s.clients[c], k) && !(OwnFor(l, c, k) && (l.WriteMemory? || l.DeleteMemory?)))
            && (ToRedis(s'.clients[c], k) <==>
                  ToRedis(s.clients[c], k) && !(OwnFor(l, c, k) && (l.WriteRedis? || l.DeleteRedis?)))
  {
    hide MemoryAfter, RedisAfter, QueueAfter, PopulatesAfter, ReturnedAfter, Moved, Started, Mentions;
    if MovesClient(l) && l.c == c {
      OwnStep(s, l, k, p);
    }
  }

  lemma QueueStep(s: System, l: Label, c: nat, k: string, p: Entry -> bool)
    requires Enabled(s, l) && QuietBut(s, c, k, p) && Changing(s, c, k, p)
    ensures forall i :: 0 <= i < |QueueAfter(s, l)| && QueueAfter(s, l)[i].key == k ==> p(QueueAfter(s, l)[i])
    ensures forall e :: e in PopulatesAfter(s, l) ==> e.key != k
  {
    if MovesClient(l) && l.c != c {
      MovedMentions(s, l, k);
    }
  }

  lemma StepKeepsQuiet(s: System, l: Label, c: nat, k: string, p: Entry -> bool)
    requires Enabled(s, l) && LeavesAlone(l, k) && QuietBut(s, c, k, p) && Changing(s, c, k, p)
    ensures QuietBut(Apply(s, l), c, k, p) && Changing(Apply(s, l), c, k, p)
  {
    hide MemoryAfter, RedisAfter, QueueAfter, PopulatesAfter, ReturnedAfter, Moved, Started, Mentions;
    QueueStep(s, l, c, k, p);
    if StartsClient(l) {
      StartedMentions(l, k);
    } else if MovesClient(l) {
      if l.c == c {
        OwnStep(s, l, k, p);
      } else {
        MovedMentions(s, l, k);
      }
    }
  }

  lemma StepKeepsApplied(s: System, l: Label, c: nat, k: string, p: Entry -> bool)
    requires Enabled(s, l) && LeavesAlone(l, k) && QuietBut(s, c, k, p) && Changing(s, c, k, p)
    requires c in Apply(s, l).clients && NoFailure([l], c, k)
    requires s.clients[c].Deleting? ==> p == Nothing(k)
    ensures Applied(s, c, k, p) ==> Applied(Apply(s, l), c, k, p)
    ensures s.clients[c].Writing? && Kept(s, c, k) && NoLoss([l], k) ==> Kept(Apply(s, l), c, k)
  {
    assert [l][0] == l;
    ClientStep(s, l, c, k, p);
    LayersStep(s, l, c, k, p);
    hide MemoryAfter, RedisAfter, QueueAfter, PopulatesAfter, ReturnedAfter, Moved, Started, Mentions;
    hide Enabled, QuietBut, LeavesAlone, ToMemory, ToRedis, MovesClient, StartsClient;
  }

  /** Client `c` has nothing left to do for `k`. */
  ghost predicate DoneWith(s: System, c: nat, k: string) {
    c in s.clients && !ToMemory(s.clients[c], k) && !ToRedis(s.clients[c], k)
  }

  lemma StepKeepsKind(s: System, l: Label, c: nat, k: string, p: Entry -> bool)
    requires Enabled(s, l) && QuietBut(s, c, k, p) && Changing(s, c, k, p)
    ensures c in Apply(s, l).clients && Apply(s, l).clients[c].Writing? == s.clients[c].Writing?
    ensures s.clients[c].Writing? ==> Apply(s, l).clients[c].queued == s.clients[c].queued
  {
    hide MemoryAfter, RedisAfter, QueueAfter, PopulatesAfter, ReturnedAfter, Moved;
    if MovesClient(l) && l.c == c {
      OwnStep(s, l, k, p);
    }
  }

  lemma {:induction false} RunKeepsQuiet(s: System, run: seq<Label>, c: nat, k: string, p: Entry -> bool)
    requires CanRun(s, run) && Undisturbed(run, k) && QuietBut(s, c, k, p) && Changing(s, c, k, p)
    ensures QuietBut(Run(s, run), c, k, p) && Changing(Run(s, run), c, k, p)
    ensures Run(s, run).clients[c].Writing? == s.clients[c].Writing?
    ensures s.clients[c].Writing? ==> Run(s, run).clients[c].queued == s.clients[c].queued
    decreases |run|
  {
    if run == [] {
    } else {
      assert LeavesAlone(run[0], k);
      StepKeepsQuiet(s, run[0], c, k, p);
      StepKeepsKind(s, run[0], c, k, p);
      hide Apply, QuietBut, Changing;
      RunKeepsQuiet(Apply(s, run[0]), run[1..], c, k, p);
    }
  }

  lemma ChangingKinds(s: System, c: nat, k: string, p: Entry -> bool)
    requires Changing(s, c, k, p)
    ensures c in s.clients && s.clients[c].Deleting? == !s.clients[c].Writing?
  {
  }

  lemma HeadAndTail(run: seq<Label>, c: nat, k: string)
    requires run != []
    ensures Undisturbed(run, k) ==> LeavesAlone(run[0], k) && Undisturbed(run[1..], k)
    ensures NoFailure(run, c, k) ==> NoFailure([run[0]], c, k) && NoFailure(run[1..], c, k)
    ensures NoLoss(run, k) ==> NoLoss([run[0]], k) && NoLoss(run[1..], k)
  {
    assert forall i :: 0 <= i < |run| - 1 ==> run[1..][i] == run[i + 1];
  }

  lemma {:induction false} RunKeepsApplied(s: System, run: seq<Label>, c: nat, k: string, p: Entry -> bool)
    requires CanRun(s, run) && Undisturbed(run, k) && NoFailure(run, c, k)
    requires QuietBut(s, c, k, p) && Changing(s, c, k, p) && Applied(s, c, k, p)
    requires s.clients[c].Deleting? ==> p == Nothing(k)
    ensures c in Run(s, run).clients && Applied(Run(s, run), c, k, p)
    ensures s.clients[c].Writing? && Kept(s, c, k) && NoLoss(run, k) ==> Kept(Run(s, run), c, k)
    decreases |run|
  {
    if run == [] {
    } else {
      var l := run[0];
      HeadAndTail(run, c, k);
      hide Apply, Enabled, QuietBut, Changing, Applied, Kept, Undisturbed, NoFailure, NoLoss, LeavesAlone;
      StepKeepsQuiet(s, l, c, k, p);
      StepKeepsKind(s, l, c, k, p);
      StepKeepsApplied(s, l, c, k, p);
      assert Apply(s, l).clients[c].Deleting? ==> s.clients[c].Deleting? by {
        ChangingKinds(s, c, k, p);
        ChangingKinds(Apply(s, l), c, k, p);
      }
      RunKeepsApplied(Apply(s, l), run[1..], c, k, p);
    }
  }

  /** When nothing else is under way, what is read later is decided by the two layers alone. */
  lemma LayersDecide(s: System, c: nat, k: string, p: Entry -> bool)
    requires QuietBut(s, c, k, p) && Changing(s, c, k, p) && forall e: Entry :: e.key != k ==> p(e)
    ensures DoneWith(s, c, k) ==> (ReadsSatisfy(s, p) <==> Holds(s.memory, k, p) && Holds(s.redis, k, p))
  {
    hide ReadsSatisfy;
    ReadsSatisfyIff(s, p);
    forall d | d in s.clients && d != c ensures Carries(s.clients[d], p) {
      assert !Mentions(s.clients[d], k);
    }
    assert Holds(s.memory, k, p) ==> All(s.memory, p);
    assert Holds(s.redis, k, p) ==> All(s.redis, p);
  }

  lemma WriteBegins(s: System, k: string, items: Store, async: bool)
    requires Quiet(s, k) && k in items
    ensures var s1 := Apply(s, BeginWrite(items, true, true, async)); var p := Only(k, items[k]);
            && QuietBut(s1, s.next, k, p) && Changing(s1, s.next, k, p)
            && s1.clients[s.next] == Writing(items, items, async)
            && Applied(s1, s.next, k, p) && Kept(s1, s.next, k)
  {
    var s1 := Apply(s, BeginWrite(items, true, true, async));
    assert s1.clients == s.clients[s.next := Writing(items, items, async)];
  }

  lemma RemovalBegins(s: System, k: string, doomed: set<string>)
    requires Quiet(s, k) && k in doomed
    ensures var s1 := Apply(s, BeginDelete(doomed, true, true));
            && QuietBut(s1, s.next, k, Nothing(k)) && Changing(s1, s.next, k, Nothing(k))
            && s1.clients[s.next] == Deleting(doomed, doomed)
            && Applied(s1, s.next, k, Nothing(k))
  {
    var s1 := Apply(s, BeginDelete(doomed, true, true));
    assert s1.clients == s.clients[s.next := Deleting(doomed, doomed)];
  }

  /**
   * A write of `v` under `k` to both layers, with other keys or alone, begins while nothing is under
   * way for `k`, and no other read, write or removal of `k` begins before it is done with `k`; all
   * other clients, the queue, populates, evictions and expiries do what they like. Then later reads
   * of `k` give `v` or nothing exactly when neither layer holds another value. For a write that
   * waits for Redis and meets no failure that is so, and unless `k` is lost both layers hold `v`.
   */
  lemma QuietWrite(s: System, k: string, items: Store, async: bool, rest: seq<Label>)
    requires Quiet(s, k) && k in items
    requires var s1 := Apply(s, BeginWrite(items, true, true, async));
             CanRun(s1, rest) && Undisturbed(rest, k) && DoneWith(Run(s1, rest), s.next, k)
    ensures var t := Run(Apply(s, BeginWrite(items, true, true, async)), rest);
            var p := Only(k, items[k]);
            && (ReadsSatisfy(t, p) <==> Holds(t.memory, k, p) && Holds(t.redis, k, p))
            && (NoFailure(rest, s.next, k) ==> Holds(t.memory, k, p))
            && (NoFailure(rest, s.next, k) && !async ==> ReadsSatisfy(t, p))
            && (NoFailure(rest, s.next, k) && NoLoss(rest, k) ==>
                  && k in t.memory && t.memory[k] == items[k]
                  && (!async ==> k in t.redis && t.redis[k] == items[k]))
  {
    var c, p := s.next, Only(k, items[k]);
    var s1 := Apply(s, BeginWrite(items, true, true, async));
    WriteBegins(s, k, items, async);
    hide CanRun, Run, ReadsSatisfy, Apply, QuietBut, Changing, Undisturbed, NoFailure, NoLoss, Quiet;
    RunKeepsQuiet(s1, rest, c, k, p);
    LayersDecide(Run(s1, rest), c, k, p);
    if NoFailure(rest, c, k) {
      RunKeepsApplied(s1, rest, c, k, p);
    }
  }

  /** The same for a removal, which leaves nothing to read until the next write. */
  lemma QuietRemoval(s: System, k: string, doomed: set<string>, rest: seq<Label>)
    requires Quiet(s, k) && k in doomed
    requires var s1 := Apply(s, BeginDelete(doomed, true, true));
             CanRun(s1, rest) && Undisturbed(rest, k) && DoneWith(Run(s1, rest), s.next, k)
    ensures var t := Run(Apply(s, BeginDelete(doomed, true, true)), rest);
            && (ReadsSatisfy(t, Nothing(k)) <==> k !in t.memory && k !in t.redis)
            && (NoFailure(rest, s.next, k) ==> ReadsSatisfy(t, Nothing(k)))
  {
    var c, p := s.next, Nothing(k);
    var s1 := Apply(s, BeginDelete(doomed, true, true));
    RemovalBegins(s, k, doomed);
    hide CanRun, Run, ReadsSatisfy, Apply, QuietBut, Changing, Undisturbed, NoFailure, Quiet;
    RunKeepsQuiet(s1, rest, c, k, p);
    LayersDecide(Run(s1, rest), c, k, p);
    if NoFailure(rest, c, k) {
      RunKeepsApplied(s1, rest, c, k, p);
    }
  }

  lemma RunTwo(s: System, l: Label, m: Label)
    requires Enabled(s, l) && Enabled(Apply(s, l), m)
    ensures CanRun(s, [l, m]) && Run(s, [l, m]) == Apply(Apply(s, l), m)
  {
    hide Apply, Enabled;
    RunOne(Apply(s, l), m);
    assert [l, m][1..] == [m];
  }

  lemma SuccessfulWrite(c: nat, k: string)
    ensures var rest := [WriteMemory(c, k, true), WriteRedis(c, k, true)];
            Undisturbed(rest, k) && NoFailure(rest, c, k) && NoLoss(rest, k)
  {
  }

  lemma MemoryWritten(s: System, c: nat, k: string, v: string)
    requires c in s.clients && s.clients[c] == Writing(map[k := v], map[k := v], false)
    ensures Enabled(s, WriteMemory(c, k, true))
    ensures var s' := Apply(s, WriteMemory(c, k, true));
            c in s'.clients && s'.clients[c] == Writing(map[], map[k := v], false)
  {
    assert map[k := v] - {k} == map[];
  }

  lemma RedisWritten(s: System, c: nat, k: string, v: string)
    requires c in s.clients && s.clients[c] == Writing(map[], map[k := v], false)
    ensures Enabled(s, WriteRedis(c, k, true)) && DoneWith(Apply(s, WriteRedis(c, k, true)), c, k)
  {
    hide MemoryAfter, RedisAfter, QueueAfter, PopulatesAfter, ReturnedAfter;
  }

  /** Left alone, a write to both layers is done after two steps; `QuietWrite` is about all its runs. */
  lemma UninterruptedWrite(s: System, k: string, v: string) returns (rest: seq<Label>)
    requires Quiet(s, k)
    ensures Undisturbed(rest, k) && NoFailure(rest, s.next, k) && NoLoss(rest, k)
    ensures var s1 := Apply(s, BeginWrite(map[k := v], true, true, false));
            CanRun(s1, rest) && DoneWith(Run(s1, rest), s.next, k)
  {
    var c := s.next;
    var s1 := Apply(s, BeginWrite(map[k := v], true, true, false));
    hide Apply, Enabled, Quiet, QuietBut, Changing, Applied, Kept, CanRun, Run, DoneWith;
    hide Undisturbed, NoFailure, NoLoss;
    SuccessfulWrite(c, k);
    WriteBegins(s, k, map[k := v], false);
    MemoryWritten(s1, c, k, v);
    RedisWritten(Apply(s1, WriteMemory(c, k, true)), c, k, v);
    RunTwo(s1, WriteMemory(c, k, true), WriteRedis(c, k, true));
    rest := [WriteMemory(c, k, true), WriteRedis(c, k, true)];
  }

  // ---- Provenance ----

  ghost function Begin(redis: Store): System {
    System(map[], redis, [], multiset{}, map[], 0, {}, [])
  }

  lemma {:induction false} WrittenGrows(s: System, run: seq<Label>)
    requires CanRun(s, run)
    ensures s.written <= Run(s, run).written
    ensures forall i :: 0 <= i < |run| && run[i].BeginWrite? ==> Entries(run[i].items) <= Run(s, run).written
    decreases |run|
  {
    if run == [] {
    } else {
      var s' := Apply(s, run[0]);
      WrittenGrows(s', run[1..]);
      forall i | 0 <= i < |run| && run[i].BeginWrite? ensures Entries(run[i].items) <= Run(s, run).written {
        if i == 0 {
          assert Entries(run[0].items) <= s'.written;
        } else {
          assert run[i] == run[1..][i - 1];
        }
      }
    }
  }

  /** Every value ever returned for a key was written under that key before, or was in Redis at the start. */
  lemma Provenance(redis: Store, run: seq<Label>)
    requires CanRun(Begin(redis), run)
    ensures var s := Run(Begin(redis), run);
            forall i, k :: 0 <= i < |s.returned| && k in s.returned[i] ==>
              Entry(k, s.returned[i][k]) in s.written + Entries(redis)
  {
    var s0 := Begin(redis);
    var s := Run(s0, run);
    var known := s.written + Entries(redis);
    var p := (e: Entry) => e in known;
    WrittenGrows(s0, run);
    forall i | 0 <= i < |run| ensures Introduces(run[i], p) {
      if run[i].BeginWrite? {
        forall k | k in run[i].items ensures p(Entry(k, run[i].items[k])) {
          assert Entry(k, run[i].items[k]) in Entries(run[i].items);
        }
      }
    }
    assert Everywhere(s0, p);
    RunKeepsEverywhere(s0, run, p);
    forall i, k | 0 <= i < |s.returned| && k in s.returned[i]
      ensures Entry(k, s.returned[i][k]) in known
    {
      assert All(s.returned[i], p);
    }
  }
}
