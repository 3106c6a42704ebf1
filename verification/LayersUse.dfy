// Single clients of the two layers: what a read left alone returns, and runs in which a
// background populate undoes a newer write or a removal.

module LayersUse {
  import opened Layers

  ghost predicate LeadsTo(s: System, t: System) {
    exists run :: CanRun(s, run) && Run(s, run) == t
  }

  lemma Nowhere(s: System)
    ensures LeadsTo(s, s)
  {
    assert CanRun(s, []) && Run(s, []) == s;
  }

  lemma Onwards(s: System, t: System, l: Label) returns (t': System)
    requires LeadsTo(s, t) && Enabled(t, l)
    ensures t' == Apply(t, l) && LeadsTo(s, t')
  {
    hide Apply, Enabled;
    var run :| CanRun(s, run) && Run(s, run) == t;
    RunOne(t, l);
    RunAppend(s, run, [l]);
    t' := Apply(t, l);
  }

  // ---- A read left alone ----

  /** The entries of the layer under the given keys. */
  ghost predicate IsPart(part: Store, layer: Store, keys: seq<string>) {
    && (forall k :: k in part <==> k in keys && k in layer)
    && (forall k :: k in part ==> part[k] == layer[k])
  }

  /** The keys among the given ones that the layer does not hold. */
  ghost predicate AreMissing(missing: seq<string>, layer: Store, keys: seq<string>) {
    forall k :: k in missing <==> k in keys && k !in layer
  }

  /** Client `c` of `t` differs from `s`, and nothing else but what has been returned and scheduled. */
  ghost predicate OnlyClient(s: System, t: System, c: nat) {
    && t.memory == s.memory && t.redis == s.redis && t.queue == s.queue
    && c in t.clients && t.clients == s.clients[c := t.clients[c]]
  }

  lemma ReadOne(t: System, c: nat, keys: seq<string>, done: nat)
    requires c in t.clients && t.clients[c].Reading? && done < |keys|
    requires var q := t.clients[c];
             q.todo == keys[done..]
             && IsPart(q.found, t.memory, keys[..done]) && AreMissing(q.missing, t.memory, keys[..done])
    ensures Enabled(t, ReadMemory(c, false))
    ensures var u := Apply(t, ReadMemory(c, false)); var q := t.clients[c];
            && c in u.clients && u == t.(clients := t.clients[c := u.clients[c]])
            && var r := u.clients[c];
               && r.Reading? && r.todo == keys[done + 1..] && r.usesRedis == q.usesRedis && r.populates == q.populates
               && IsPart(r.found, t.memory, keys[..done + 1]) && AreMissing(r.missing, t.memory, keys[..done + 1])
  {
    assert keys[done..][1..] == keys[done + 1..] && keys[..done + 1] == keys[..done] + [keys[done]];
  }

  /** The memory part of a read: every key is looked up once. */
  lemma {:induction false} ReadsMemory(s: System, t: System, c: nat, keys: seq<string>, done: nat) returns (u: System)
    requires LeadsTo(s, t) && c in t.clients && t.clients[c].Reading? && done <= |keys|
    requires var q := t.clients[c];
             q.todo == keys[done..]
             && IsPart(q.found, t.memory, keys[..done]) && AreMissing(q.missing, t.memory, keys[..done])
    ensures LeadsTo(s, u) && c in u.clients && u == t.(clients := t.clients[c := u.clients[c]])
    ensures var q, r := t.clients[c], u.clients[c];
            r.Reading? && r.todo == [] && r.usesRedis == q.usesRedis && r.populates == q.populates
            && IsPart(r.found, t.memory, keys) && AreMissing(r.missing, t.memory, keys)
    decreases |keys| - done
  {
    hide LeadsTo, Apply, Enabled, IsPart, AreMissing;
    if done == |keys| {
      u := t;
      assert keys[..done] == keys && keys[done..] == [];
      assert t.clients[c := t.clients[c]] == t.clients;
    } else {
      ReadOne(t, c, keys, done);
      var next := Onwards(s, t, ReadMemory(c, false));
      u := ReadsMemory(s, next, c, keys, done + 1);
    }
  }

  ghost function Scheduled(hits: Store, populates: bool): multiset<Entry> {
    if populates then multiset(Entries(hits)) else multiset{}
  }

  lemma SplitEntries(hits: Store, k: string, populates: bool)
    requires k in hits
    ensures Scheduled(hits, populates)
         == (if populates then multiset{Entry(k, hits[k])} else multiset{}) + Scheduled(hits - {k}, populates)
    ensures |hits - {k}| < |hits|
  {
    var rest := hits - {k};
    assert rest.Keys == hits.Keys - {k};
    forall e ensures e in Entries(hits) <==> e in {Entry(k, hits[k])} + Entries(rest) {
      assert e in Entries(hits) <==> e.key in hits && hits[e.key] == e.value;
      assert e in Entries(rest) <==> e.key in rest && rest[e.key] == e.value;
    }
    assert Entries(hits) == {Entry(k, hits[k])} + Entries(rest);
    assert Entry(k, hits[k]) !in Entries(rest);
  }

  lemma TakeOne(t: System, c: nat, k: string)
    requires c in t.clients && t.clients[c].Fetched? && k in t.clients[c].hits
    ensures Enabled(t, TakeOver(c, k))
    ensures var q := t.clients[c]; var hits := q.hits - {k};
            && Apply(t, TakeOver(c, k))
               == t.(populates := t.populates + (if q.populates then multiset{Entry(k, q.hits[k])} else multiset{}),
                     clients := t.clients[c := Fetched(q.found[k := q.hits[k]], hits, q.populates)])
            && q.found[k := q.hits[k]] + hits == q.found + q.hits
  {
  }

  lemma ReturnOne(t: System, c: nat, populates: bool)
    requires c in t.clients && t.clients[c].Fetched? && t.clients[c].hits == map[]
    ensures Enabled(t, Return(c))
    ensures Apply(t, Return(c))
         == t.(returned := t.returned + [t.clients[c].found], clients := t.clients[c := Over])
    ensures t.clients[c].found + t.clients[c].hits == t.clients[c].found
    ensures t.populates + Scheduled(t.clients[c].hits, populates) == t.populates
  {
  }

  /** Redis's answers are taken over one by one, each scheduled for memory if the read fills it. */
  lemma {:induction false} TakesOver(s: System, t: System, c: nat) returns (u: System)
    requires LeadsTo(s, t) && c in t.clients && t.clients[c].Fetched?
    ensures LeadsTo(s, u)
    ensures var q := t.clients[c];
            u == t.(returned := t.returned + [q.found + q.hits], clients := t.clients[c := Over],
                    populates := t.populates + Scheduled(q.hits, q.populates))
    decreases |t.clients[c].hits|
  {
    hide LeadsTo, Apply, Enabled, Entries, Scheduled;
    var q := t.clients[c];
    if q.hits == map[] {
      ReturnOne(t, c, q.populates);
      u := Onwards(s, t, Return(c));
    } else {
      var k :| k in q.hits;
      SplitEntries(q.hits, k, q.populates);
      TakeOne(t, c, k);
      var next := Onwards(s, t, TakeOver(c, k));
      u := TakesOver(s, next, c);
      assert next.clients[c := Over] == t.clients[c := Over];
    }
  }

  lemma AskRedis(t: System, c: nat, answers: bool)
    requires c in t.clients && t.clients[c].Reading? && t.clients[c].todo == []
    ensures Enabled(t, ReadRedis(c, answers))
    ensures var q := t.clients[c];
            Apply(t, ReadRedis(c, answers)) ==
              if q.missing != [] && q.usesRedis && answers
              then t.(clients := t.clients[c := Fetched(q.found, Lookup(t.redis, q.missing), q.populates)])
              else t.(clients := t.clients[c := Over], returned := t.returned + [q.found])
  {
  }

  lemma BeginReading(s: System, keys: seq<string>, usesMemory: bool, usesRedis: bool, fills: bool)
    ensures Enabled(s, BeginRead(keys, usesMemory, usesRedis, fills))
    ensures var q := Reading(if usesMemory then keys else [], map[], if usesMemory then [] else keys, usesRedis, fills);
            Apply(s, BeginRead(keys, usesMemory, usesRedis, fills))
            == s.(clients := s.clients[s.next := q], next := s.next + 1)
  {
  }

  /** The part of memory a read at its level sees. */
  ghost function Seen(memory: Store, usesMemory: bool): Store {
    if usesMemory then memory else map[]
  }

  /** A read up to the moment it asks Redis. */
  lemma ReadStarts(s: System, keys: seq<string>, usesMemory: bool, usesRedis: bool, fills: bool) returns (t: System)
    ensures LeadsTo(s, t) && s.next in t.clients
    ensures t == s.(clients := s.clients[s.next := t.clients[s.next]], next := s.next + 1)
    ensures var q := t.clients[s.next];
            q.Reading? && q.todo == [] && q.usesRedis == usesRedis && q.populates == fills
            && IsPart(q.found, Seen(s.memory, usesMemory), keys)
            && AreMissing(q.missing, Seen(s.memory, usesMemory), keys)
  {
    hide LeadsTo, Apply, Enabled;
    var c := s.next;
    Nowhere(s);
    BeginReading(s, keys, usesMemory, usesRedis, fills);
    t := Onwards(s, s, BeginRead(keys, usesMemory, usesRedis, fills));
    if usesMemory {
      assert keys[0..] == keys && keys[..0] == [];
      t := ReadsMemory(s, t, c, keys, 0);
    }
  }

  /** What is found in memory and in Redis together. */
  lemma Together(found: Store, missing: seq<string>, memory: Store, redis: Store, asked: bool, keys: seq<string>)
    requires IsPart(found, memory, keys) && AreMissing(missing, memory, keys)
    ensures var hits := if missing != [] && asked then Lookup(redis, missing) else map[];
            && (forall k :: k in hits <==> k in keys && k !in memory && asked && k in redis)
            && (forall k :: k in hits ==> hits[k] == redis[k])
            && (forall k :: k in found + hits <==> k in hits || (k in keys && k in memory))
            && (forall k :: k in found + hits ==> (found + hits)[k] == if k in hits then redis[k] else memory[k])
  {
  }

  /** The rest of it. */
  lemma ReadEnds(s: System, t: System, c: nat, answers: bool, hits: Store) returns (u: System)
    requires LeadsTo(s, t) && c in t.clients && t.clients[c].Reading? && t.clients[c].todo == []
    requires var q := t.clients[c];
             hits == if q.missing != [] && q.usesRedis && answers then Lookup(t.redis, q.missing) else map[]
    ensures LeadsTo(s, u)
    ensures u == t.(returned := t.returned + [t.clients[c].found + hits], clients := t.clients[c := Over],
                    populates := t.populates + Scheduled(hits, t.clients[c].populates))
  {
    hide LeadsTo, Apply, Enabled, Lookup;
    var q := t.clients[c];
    AskRedis(t, c, answers);
    u := Onwards(s, t, ReadRedis(c, answers));
    if q.missing != [] && q.usesRedis && answers {
      hide Scheduled;
      u := TakesOver(s, u, c);
      assert u.clients == t.clients[c := Over];
    } else {
      assert Entries(hits) == {} && q.found + hits == q.found;
      assert t.populates + multiset{} == t.populates;
    }
  }

  /**
   * A read left alone returns memory's values and, for the keys memory does not hold, Redis's if it
   * answers; it changes neither layer, and schedules each of Redis's values for memory once if it fills it.
   */
  lemma LoneRead(s: System, keys: seq<string>, usesMemory: bool, usesRedis: bool, fills: bool, answers: bool)
    returns (t: System, result: Store, hits: Store)
    ensures LeadsTo(s, t)
    ensures t == s.(returned := s.returned + [result], clients := s.clients[s.next := Over], next := s.next + 1,
                    populates := s.populates + Scheduled(hits, fills))
    ensures var memory := Seen(s.memory, usesMemory);
            && (forall k :: k in hits <==> k in keys && k !in memory && usesRedis && answers && k in s.redis)
            && (forall k :: k in hits ==> hits[k] == s.redis[k])
            && (forall k :: k in result <==> k in hits || (k in keys && k in memory))
            && (forall k :: k in result ==> result[k] == if k in hits then s.redis[k] else memory[k])
  {
    hide LeadsTo, Apply, Enabled, IsPart, AreMissing, Seen, Lookup;
    var c := s.next;
    t := ReadStarts(s, keys, usesMemory, usesRedis, fills);
    var q := t.clients[c];
    Together(q.found, q.missing, Seen(s.memory, usesMemory), s.redis, usesRedis && answers, keys);
    hits := if q.missing != [] && usesRedis && answers then Lookup(s.redis, q.missing) else map[];
    result := q.found + hits;
    t := ReadEnds(s, t, c, answers, hits);
    assert t.clients == s.clients[c := Over];
  }

  /** A key whose read in memory fails is asked of Redis like one that memory does not hold. */
  lemma FailedReadGoesToRedis(s: System, k: string, fills: bool) returns (t: System, hits: Store)
    requires k in s.redis
    ensures LeadsTo(s, t) && t.returned == s.returned + [map[k := s.redis[k]]]
    ensures t.memory == s.memory && t.redis == s.redis
    ensures hits == map[k := s.redis[k]] && t.populates == s.populates + Scheduled(hits, fills)
  {
    hide LeadsTo;
    var c := s.next;
    Nowhere(s);
    t := Onwards(s, s, BeginRead([k], true, true, fills));
    t := Onwards(s, t, ReadMemory(c, true));
    assert t.clients[c] == Reading([], map[], [k], true, fills);
    hits := Lookup(s.redis, [k]);
    assert hits == map[k := s.redis[k]] && map[] + hits == hits;
    hide Apply, Enabled, Scheduled;
    t := ReadEnds(s, t, c, true, hits);
  }

  // ---- A write and a removal left alone ----

  lemma LoneWrite(s: System, t: System, k: string, v: string) returns (u: System)
    requires LeadsTo(s, t)
    ensures LeadsTo(s, u) && u.memory == t.memory[k := v] && u.redis == t.redis[k := v]
    ensures u.populates == t.populates && u.queue == t.queue
  {
    hide LeadsTo;
    var c := t.next;
    var items := map[k := v];
    u := Onwards(s, t, BeginWrite(items, true, true, false));
    assert u.clients[c] == Writing(items, items, false);
    u := Onwards(s, u, WriteMemory(c, k, true));
    assert u.clients[c] == Writing(map[], items, false);
    u := Onwards(s, u, WriteRedis(c, k, true));
  }

  lemma LoneRemoval(s: System, t: System, k: string) returns (u: System)
    requires LeadsTo(s, t)
    ensures LeadsTo(s, u) && u.memory == t.memory - {k} && u.redis == t.redis - {k}
    ensures u.populates == t.populates && u.queue == t.queue
  {
    hide LeadsTo;
    var c := t.next;
    u := Onwards(s, t, BeginDelete({k}, true, true));
    assert u.clients[c] == Deleting({k}, {k});
    u := Onwards(s, u, DeleteMemory(c, k, true));
    assert u.clients[c] == Deleting({}, {k});
    u := Onwards(s, u, DeleteRedis(c, k, true));
  }

  // ---- Populates that come late ----

  lemma PopulateOne(t: System, e: Entry)
    requires e in t.populates
    ensures Enabled(t, Populate(e, true))
    ensures var u := Apply(t, Populate(e, true)); u.memory == t.memory[e.key := e.value] && u.redis == t.redis
  {
  }

  lemma ScheduledOne(hits: Store, k: string, before: multiset<Entry>)
    requires k in hits
    ensures Entry(k, hits[k]) in before + Scheduled(hits, true)
  {
    assert Entry(k, hits[k]) in Entries(hits);
  }

  /**
   * From every state in which Redis alone holds a key, some run ends with the key written anew in both
   * layers, or removed from both, and with a read left alone that returns the old value: the populate
   * of an earlier read came last.
   */
  lemma LatePopulateUndoes(s: System, k: string, v: string, removal: bool)
    returns (t: System, u: System, result: Store)
    requires k !in s.memory && k in s.redis
    ensures LeadsTo(s, t)
    ensures if removal then k !in t.redis else k in t.redis && t.redis[k] == v
    ensures LeadsTo(t, u) && u.returned == t.returned + [result] && k in result && result[k] == s.redis[k]
  {
    hide LeadsTo, Apply, Enabled, Scheduled, Entries;
    var pending := Entry(k, s.redis[k]);
    var found, hits;
    t, found, hits := LoneRead(s, [k], true, true, true, true);
    ScheduledOne(hits, k, s.populates);
    if removal {
      t := LoneRemoval(s, t, k);
    } else {
      t := LoneWrite(s, t, k, v);
    }
    PopulateOne(t, pending);
    t := Onwards(s, t, Populate(pending, true));
    var more;
    u, result, more := LoneRead(t, [k], true, true, true, true);
  }
}
