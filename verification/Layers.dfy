// The two cache layers of internal/cache/manager.go under concurrent use: reads and writes
// of any number of clients, the asynchronous Redis queue, and background populates of the
// memory layer. Every access to a layer is one step, and any access that can fail may fail.
// Whether the bounded queue has room is an input here.

module Layers {
  datatype Entry = Entry(key: string, value: string)
  type Store = map<string, string>

  datatype Client =
    // Get or GetMany: keys still to look up in memory, values found, keys missed
    | Reading(todo: seq<string>, found: Store, missing: seq<string>, usesRedis: bool, populates: bool)
    // Redis has answered: values found, answers still to be taken over
    | Fetched(found: Store, hits: Store, populates: bool)
    // Set or SetMany: entries still to be written to memory and then to Redis
    | Writing(memory: Store, redis: Store, queued: bool)
    // Delete: keys still to be removed from memory and then from Redis
    | Deleting(fromMemory: set<string>, fromRedis: set<string>)
    | Over

  datatype System = System(memory: Store, redis: Store, queue: seq<Entry>, populates: multiset<Entry>,
                           clients: map<nat, Client>, next: nat,
                           written: set<Entry>, returned: seq<Store>)

  datatype Label =
    | BeginRead(keys: seq<string>, usesMemory: bool, usesRedis: bool, fills: bool)
    | ReadMemory(c: nat, fails: bool)
    | ReadRedis(c: nat, answers: bool)
    | TakeOver(c: nat, k: string)
    | Return(c: nat)
    | BeginWrite(items: Store, usesMemory: bool, usesRedis: bool, async: bool)
    | WriteMemory(c: nat, k: string, ok: bool)
    | RepeatRedis(c: nat, k: string)          // the write took effect but an error came back, and it will be repeated
    | WriteRedis(c: nat, k: string, ok: bool) // the last attempt
    | BeginDelete(doomed: set<string>, usesMemory: bool, usesRedis: bool)
    | DeleteMemory(c: nat, k: string, ok: bool)
    | DeleteRedis(c: nat, k: string, ok: bool)
    | WorkerWrites(ok: bool)
    | Populate(e: Entry, ok: bool)
    | Evict(k: string)
    | Expire(k: string)

  ghost predicate Enabled(s: System, l: Label) {
    match l
    case ReadMemory(c, _) => c in s.clients && s.clients[c].Reading? && s.clients[c].todo != []
    case ReadRedis(c, _) => c in s.clients && s.clients[c].Reading? && s.clients[c].todo == []
    case TakeOver(c, k) => c in s.clients && s.clients[c].Fetched? && k in s.clients[c].hits
    case Return(c) => c in s.clients && s.clients[c].Fetched? && s.clients[c].hits == map[]
    case WriteMemory(c, k, _) => c in s.clients && s.clients[c].Writing? && k in s.clients[c].memory
    case WriteRedis(c, k, _) =>
      c in s.clients && s.clients[c].Writing? && s.clients[c].memory == map[] && k in s.clients[c].redis
    case RepeatRedis(c, k) =>
      && c in s.clients && s.clients[c].Writing? && !s.clients[c].queued
      && s.clients[c].memory == map[] && k in s.clients[c].redis
    case DeleteMemory(c, k, _) => c in s.clients && s.clients[c].Deleting? && k in s.clients[c].fromMemory
    case DeleteRedis(c, k, _) =>
      c in s.clients && s.clients[c].Deleting? && s.clients[c].fromMemory == {} && k in s.clients[c].fromRedis
    case WorkerWrites(_) => s.queue != []
    case Populate(e, _) => e in s.populates
    case _ => true
  }

  ghost function Entries(m: Store): set<Entry> {
    set k | k in m :: Entry(k, m[k])
  }

  /** The answer of Redis to a batch of keys. */
  function Lookup(m: Store, keys: seq<string>): Store {
    map k | k in keys && k in m :: m[k]
  }

  ghost function Put(m: Store, e: Entry, ok: bool): Store {
    if ok then m[e.key := e.value] else m
  }

  ghost predicate StartsClient(l: Label) {
    l.BeginRead? || l.BeginWrite? || l.BeginDelete?
  }

  ghost predicate MovesClient(l: Label) {
    || l.ReadMemory? || l.ReadRedis? || l.TakeOver? || l.Return?
    || l.WriteMemory? || l.RepeatRedis? || l.WriteRedis? || l.DeleteMemory? || l.DeleteRedis?
  }

  // A label's effect on each component.

  ghost function MemoryAfter(s: System, l: Label): Store
    requires Enabled(s, l)
  {
    match l
    case WriteMemory(c, k, ok) => Put(s.memory, Entry(k, s.clients[c].memory[k]), ok)
    case DeleteMemory(_, k, ok) => if ok then s.memory - {k} else s.memory
    case Populate(e, ok) => Put(s.memory, e, ok)
    case Evict(k) => s.memory - {k}
    case _ => s.memory
  }

  ghost function RedisAfter(s: System, l: Label): Store
    requires Enabled(s, l)
  {
    match l
    case RepeatRedis(c, k) => Put(s.redis, Entry(k, s.clients[c].redis[k]), true)
    case WriteRedis(c, k, ok) => Put(s.redis, Entry(k, s.clients[c].redis[k]), ok && !s.clients[c].queued)
    case DeleteRedis(_, k, ok) => if ok then s.redis - {k} else s.redis
    case WorkerWrites(ok) => Put(s.redis, s.queue[0], ok)
    case Expire(k) => s.redis - {k}
    case _ => s.redis
  }

  ghost function QueueAfter(s: System, l: Label): seq<Entry>
    requires Enabled(s, l)
  {
    match l
    case WriteRedis(c, k, ok) =>
      if ok && s.clients[c].queued then s.queue + [Entry(k, s.clients[c].redis[k])] else s.queue
    case WorkerWrites(_) => s.queue[1..]
    case _ => s.queue
  }

  ghost function PopulatesAfter(s: System, l: Label): multiset<Entry>
    requires Enabled(s, l)
  {
    match l
    case TakeOver(c, k) =>
      if s.clients[c].populates then s.populates + multiset{Entry(k, s.clients[c].hits[k])} else s.populates
    case Populate(e, _) => s.populates - multiset{e}
    case _ => s.populates
  }

  /** The client a label starts. */
  ghost function Started(l: Label): Client
    requires StartsClient(l)
  {
    match l
    case BeginRead(keys, usesMemory, usesRedis, fills) =>
      Reading(if usesMemory then keys else [], map[], if usesMemory then [] else keys, usesRedis, fills)
    case BeginWrite(items, usesMemory, usesRedis, async) =>
      Writing(if usesMemory then items else map[], if usesRedis then items else map[], async)
    case BeginDelete(doomed, usesMemory, usesRedis) =>
      Deleting(if usesMemory then doomed else {}, if usesRedis then doomed else {})
  }

  /** Redis is asked and answers. */
  ghost predicate Answered(q: Client, answers: bool)
    requires q.Reading?
  {
    q.missing != [] && q.usesRedis && answers
  }

  /** Where a label takes its client. */
  ghost function Moved(s: System, l: Label): Client
    requires Enabled(s, l) && MovesClient(l)
  {
    var q := s.clients[l.c];
    match l
    case ReadMemory(_, fails) =>
      var k := q.todo[0];
      if k in s.memory && !fails
      then q.(todo := q.todo[1..], found := q.found[k := s.memory[k]])
      else q.(todo := q.todo[1..], missing := q.missing + [k])
    case ReadRedis(_, answers) =>
      if Answered(q, answers) then Fetched(q.found, Lookup(s.redis, q.missing), q.populates) else Over
    case TakeOver(_, k) => q.(found := q.found[k := q.hits[k]], hits := q.hits - {k})
    case Return(_) => Over
    case WriteMemory(_, k, _) => q.(memory := q.memory - {k})
    case RepeatRedis(_, _) => q
    case WriteRedis(_, k, _) => q.(redis := q.redis - {k})
    case DeleteMemory(_, k, _) => q.(fromMemory := q.fromMemory - {k})
    case DeleteRedis(_, k, _) => q.(fromRedis := q.fromRedis - {k})
  }

  ghost function ReturnedAfter(s: System, l: Label): seq<Store>
    requires Enabled(s, l)
  {
    match l
    case ReadRedis(c, answers) =>
      if Answered(s.clients[c], answers) then s.returned else s.returned + [s.clients[c].found]
    case Return(c) => s.returned + [s.clients[c].found]
    case _ => s.returned
  }

  ghost function Apply(s: System, l: Label): System
    requires Enabled(s, l)
  {
    System(MemoryAfter(s, l), RedisAfter(s, l), QueueAfter(s, l), PopulatesAfter(s, l),
           if StartsClient(l) then s.clients[s.next := Started(l)]
           else if MovesClient(l) then s.clients[l.c := Moved(s, l)]
           else s.clients,
           if StartsClient(l) then s.next + 1 else s.next,
           if l.BeginWrite? then s.written + Entries(l.items) else s.written,
           ReturnedAfter(s, l))
  }

  ghost predicate CanRun(s: System, run: seq<Label>)
    decreases |run|
  {
    run == [] || (Enabled(s, run[0]) && CanRun(Apply(s, run[0]), run[1..]))
  }

  ghost function Run(s: System, run: seq<Label>): System
    requires CanRun(s, run)
    decreases |run|
  {
    if run == [] then s else Run(Apply(s, run[0]), run[1..])
  }

  lemma {:induction false} RunAppend(s: System, a: seq<Label>, b: seq<Label>)
    requires CanRun(s, a) && CanRun(Run(s, a), b)
    ensures CanRun(s, a + b) && Run(s, a + b) == Run(Run(s, a), b)
    decreases |a|
  {
    hide Apply;
    if a == [] {
      assert a + b == b;
    } else {
      RunAppend(Apply(s, a[0]), a[1..], b);
      assert (a + b)[1..] == a[1..] + b;
    }
  }

  lemma RunOne(s: System, l: Label)
    requires Enabled(s, l)
    ensures CanRun(s, [l]) && Run(s, [l]) == Apply(s, l)
  {
    assert [l][1..] == [];
  }

  // ---- What can be read, from a given state on ----

  ghost predicate All(m: Store, p: Entry -> bool) {
    forall k :: k in m ==> p(Entry(k, m[k]))
  }

  /** Entries a client may still write, queue or return. */
  ghost predicate Carries(c: Client, p: Entry -> bool) {
    match c
    case Reading(_, found, _, _, _) => All(found, p)
    case Fetched(found, hits, _) => All(found + hits, p)
    case Writing(memory, redis, _) => All(memory, p) && All(redis, p)
    case Deleting(_, _) => true
    case Over => true
  }

  /** Every entry in a layer, in the queue, in a pending populate or in a client's hands satisfies `p`. */
  ghost predicate Everywhere(s: System, p: Entry -> bool) {
    && All(s.memory, p)
    && All(s.redis, p)
    && (forall i :: 0 <= i < |s.queue| ==> p(s.queue[i]))
    && (forall e :: e in s.populates ==> p(e))
    && (forall c :: c in s.clients ==> Carries(s.clients[c], p))
  }

  /** The label starts no write of an entry that violates `p`. */
  ghost predicate Introduces(l: Label, p: Entry -> bool) {
    l.BeginWrite? ==> All(l.items, p)
  }

  ghost predicate ReturnsOnly(before: System, after: System, p: Entry -> bool) {
    && before.returned <= after.returned
    && forall i :: |before.returned| <= i < |after.returned| ==> All(after.returned[i], p)
  }

  lemma StepMemory(s: System, l: Label, p: Entry -> bool)
    requires Enabled(s, l) && All(s.memory, p)
    requires l.Populate? ==> p(l.e)
    requires MovesClient(l) ==> Carries(s.clients[l.c], p)
    ensures All(MemoryAfter(s, l), p)
  {
  }

  lemma StepRedis(s: System, l: Label, p: Entry -> bool)
    requires Enabled(s, l) && All(s.redis, p)
    requires l.WorkerWrites? ==> p(s.queue[0])
    requires MovesClient(l) ==> Carries(s.clients[l.c], p)
    ensures All(RedisAfter(s, l), p)
  {
  }

  lemma StepQueue(s: System, l: Label, p: Entry -> bool)
    requires Enabled(s, l) && forall i :: 0 <= i < |s.queue| ==> p(s.queue[i])
    requires MovesClient(l) ==> Carries(s.clients[l.c], p)
    ensures forall i :: 0 <= i < |QueueAfter(s, l)| ==> p(QueueAfter(s, l)[i])
  {
  }

  lemma StepPopulates(s: System, l: Label, p: Entry -> bool)
    requires Enabled(s, l) && forall e :: e in s.populates ==> p(e)
    requires MovesClient(l) ==> Carries(s.clients[l.c], p)
    ensures forall e :: e in PopulatesAfter(s, l) ==> p(e)
  {
    if l.TakeOver? {
      var q := s.clients[l.c];
      assert (q.found + q.hits)[l.k] == q.hits[l.k];
    }
  }

  lemma StepClient(s: System, l: Label, p: Entry -> bool)
    requires Enabled(s, l) && MovesClient(l)
    requires All(s.memory, p) && All(s.redis, p) && Carries(s.clients[l.c], p)
    ensures Carries(Moved(s, l), p)
  {
    if l.TakeOver? {
      var q := s.clients[l.c];
      assert q.found[l.k := q.hits[l.k]] + (q.hits - {l.k}) == q.found + q.hits;
    }
  }

  lemma StartCarries(l: Label, p: Entry -> bool)
    requires StartsClient(l) && Introduces(l, p)
    ensures Carries(Started(l), p)
  {
  }

  lemma StepReturned(s: System, l: Label, p: Entry -> bool)
    requires Enabled(s, l)
    requires MovesClient(l) ==> Carries(s.clients[l.c], p)
    ensures s.returned <= ReturnedAfter(s, l)
    ensures forall i :: |s.returned| <= i < |ReturnedAfter(s, l)| ==> All(ReturnedAfter(s, l)[i], p)
  {
    if l.Return? {
      assert s.clients[l.c].found + map[] == s.clients[l.c].found;
    }
  }

  lemma StepKeepsEverywhere(s: System, l: Label, p: Entry -> bool)
    requires Enabled(s, l) && Everywhere(s, p) && Introduces(l, p)
    ensures Everywhere(Apply(s, l), p)
    ensures ReturnsOnly(s, Apply(s, l), p)
  {
    hide MemoryAfter, RedisAfter, QueueAfter, PopulatesAfter, ReturnedAfter, Moved, Started, Carries, All;
    StepMemory(s, l, p);
    StepRedis(s, l, p);
    StepQueue(s, l, p);
    StepPopulates(s, l, p);
    StepReturned(s, l, p);
    if StartsClient(l) {
      StartCarries(l, p);
    } else if MovesClient(l) {
      StepClient(s, l, p);
    }
  }
}
