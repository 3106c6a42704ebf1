// The cache manager object of internal/cache/manager.go as one caller drives it: batch
// reads and writes over the two layers, with the loops of the source. Failures of a layer
// and answers of the resilience policy are inputs; encoding is a partial function.

module ManagerSpec {
  import opened Errors
  import opened Layers

  datatype Level = MemoryOnly | RedisOnly | MemoryThenRedis | AllLayers | UnknownLevel {
    predicate IncludesMemory() {
      MemoryOnly? || MemoryThenRedis? || AllLayers?
    }

    predicate IncludesRedis() {
      RedisOnly? || MemoryThenRedis? || AllLayers?
    }
  }

  /** What a lookup at `level` sees for one key: memory first, then Redis if it answers. */
  function Visible(memory: Store, redis: Store, level: Level, redisUp: bool, k: string): Option<string> {
    if level.IncludesMemory() && k in memory then Some(memory[k])
    else if level.IncludesRedis() && redisUp && k in redis then Some(redis[k])
    else None
  }

  /** The batch result: exactly the requested keys that are visible, with what is visible. */
  ghost predicate Pointwise(result: Store, keys: seq<string>, memory: Store, redis: Store, level: Level,
                            redisUp: bool)
  {
    && (forall k :: k in result <==> k in keys && Visible(memory, redis, level, redisUp, k).Some?)
    && (forall k :: k in result ==> result[k] == Visible(memory, redis, level, redisUp, k).value)
  }

  /** What a batch read takes over from Redis, and so schedules for memory. */
  ghost function Hits(keys: seq<string>, memory: Store, redis: Store, level: Level, redisUp: bool): Store {
    if level.IncludesRedis() && redisUp
    then map k | k in keys && k in redis && !(level.IncludesMemory() && k in memory) :: redis[k]
    else map[]
  }

  /** The part of a store under the given keys. */
  function Restricted(m: Store, keys: set<string>): Store {
    map k | k in m && k in keys :: m[k]
  }

  /** The entries of the memory layer that a read delivers; a read that fails counts as a miss. */
  function Readable(memory: Store, readable: string -> bool): Store {
    map k | k in memory && readable(k) :: memory[k]
  }

  /** A layer after a write at `level`, if the layer took it. */
  function Written(layer: Store, takes: bool, key: string, data: string): Store {
    if takes then layer[key := data] else layer
  }

  function Removed(layer: Store, takes: bool, key: string): Store {
    if takes then layer - {key} else layer
  }

  /** A layer after the removal of many keys, of which it drops those that `takes` lets it. */
  function RemovedAll(layer: Store, asked: bool, keys: seq<string>, takes: string -> bool): Store {
    if asked then layer - (set k | k in keys && takes(k)) else layer
  }

  lemma RemovedAllMeaning(layer: Store, asked: bool, keys: seq<string>, takes: string -> bool)
    ensures var after := RemovedAll(layer, asked, keys, takes);
            && (forall k :: k in after <==> k in layer && !(asked && k in keys && takes(k)))
            && (forall k :: k in after ==> after[k] == layer[k])
  {
  }

  lemma RemovedAllNone(layer: Store, asked: bool, takes: string -> bool)
    ensures RemovedAll(layer, asked, [], takes) == layer
  {
  }

  lemma RemovedAllNext(layer: Store, asked: bool, keys: seq<string>, i: nat, takes: string -> bool)
    requires i < |keys|
    ensures Removed(RemovedAll(layer, asked, keys[..i], takes), asked && takes(keys[i]), keys[i])
         == RemovedAll(layer, asked, keys[..i + 1], takes)
  {
    assert keys[..i + 1] == keys[..i] + [keys[i]];
  }

  /**
   * A write at one level, read at another while Redis answers: the reader sees what was written exactly
   * when the first layer that it looks at and that holds the key took the write or held the same value
   * before. So a write at the Redis-only level stays hidden behind an older value in memory, and a
   * two-layer write that memory refused, and that was reported as failed, can be visible all the same.
   */
  lemma WriteVisibleIff(memory: Store, redis: Store, memoryTakes: bool, redisTakes: bool, read: Level,
                        key: string, data: string)
    ensures var seen := Visible(Written(memory, memoryTakes, key, data), Written(redis, redisTakes, key, data),
                                read, true, key);
            seen == Some(data) <==>
              if read.IncludesMemory() && (memoryTakes || key in memory) then memoryTakes || memory[key] == data
              else read.IncludesRedis() && (redisTakes || (key in redis && redis[key] == data))
  {
  }

  /** A removal makes a key invisible to a reader exactly when no layer it looks at still holds it. */
  lemma RemovalInvisibleIff(memory: Store, redis: Store, memoryTakes: bool, redisTakes: bool, read: Level, key: string)
    ensures Visible(Removed(memory, memoryTakes, key), Removed(redis, redisTakes, key), read, true, key) == None
            <==> (read.IncludesMemory() && key in memory ==> memoryTakes)
                 && (read.IncludesRedis() && key in redis ==> redisTakes)
  {
  }

  /**
   * Once its background populates have run, what a two-layer batch read returned can be read
   * from memory alone, even with Redis gone.
   */
  lemma PopulatesMakeReadsLocal(keys: seq<string>, memory: Store, redis: Store, later: Store, level: Level, k: string)
    requires level.IncludesMemory() && level.IncludesRedis() && k in keys
    ensures Visible(memory + Hits(keys, memory, redis, level, true), later, MemoryOnly, false, k)
         == Visible(memory, redis, level, true, k)
  {
  }

  /**
   * Populates change no two-layer read exactly when they meet no different value in memory. A
   * batch read at the Redis-only level populates memory too, and can overwrite such a value.
   */
  lemma PopulatesInvisibleIff(memory: Store, redis: Store, hits: Store)
    requires forall k :: k in hits ==> k in redis && hits[k] == redis[k]
    ensures (forall k :: Visible(memory + hits, redis, MemoryThenRedis, true, k)
                      == Visible(memory, redis, MemoryThenRedis, true, k))
            <==> (forall k :: k in hits && k in memory ==> memory[k] == hits[k])
  {
    if forall k :: Visible(memory + hits, redis, MemoryThenRedis, true, k)
                == Visible(memory, redis, MemoryThenRedis, true, k) {
      forall k | k in hits && k in memory ensures memory[k] == hits[k] {
        assert Visible(memory + hits, redis, MemoryThenRedis, true, k) == Some(hits[k]);
      }
    }
  }
}

module ManagerClass {
  import opened Errors
  import opened Layers
  import opened ManagerSpec

  /** What a failed read in memory is reported as. */
  const UNREADABLE := Wrapped("memory", Other(5))

  /** What a value that cannot be decoded is reported as. */
  const UNDECODABLE := Other(6)

  /** What a single read of a key is told, from what the layers hold under it and how they and the policy answer. */
  function Answer(inMemory: Option<string>, inRedis: Option<string>, level: Level, readable: bool, connected: bool,
                  refusal: Option<Error>, decode: string -> Option<string>): (Option<string>, Option<Error>)
  {
    var found := if level.IncludesMemory() && readable && inMemory.Some? then inMemory
                 else if level.IncludesRedis() && connected && refusal.None? then inRedis
                 else None;
    if found.Some? then
      var value := decode(found.value);
      (value, if value.None? then Some(UNDECODABLE) else None)
    else
      (None, Some(if level.MemoryOnly? && !readable then UNREADABLE
                  else if !level.IncludesRedis() then CacheMiss
                  else if !connected then RedisUnavailable
                  else if refusal.Some? then refusal.value
                  else CacheMiss))
  }

  function Held(layer: Store, k: string): Option<string> {
    if k in layer then Some(layer[k]) else None
  }

  datatype Batch = Batch(found: Store) | BatchFails(error: Error)

  ghost predicate AllEncodable(items: Store, encode: string -> Option<string>) {
    forall k :: k in items ==> encode(items[k]).Some?
  }

  function Encoded(items: Store, encode: string -> Option<string>): Store
    requires AllEncodable(items, encode)
  {
    map k | k in items :: encode(items[k]).value
  }

  /** What memory finds and Redis adds is the pointwise result. */
  lemma BatchIsPointwise(keys: seq<string>, memory: Store, redis: Store, level: Level, redisUp: bool,
                         found: Store, missing: seq<string>, hits: Store)
    requires forall k :: k in found <==> k in keys && level.IncludesMemory() && k in memory
    requires forall k :: k in found ==> found[k] == memory[k]
    requires forall k :: k in missing <==> k in keys && !(level.IncludesMemory() && k in memory)
    requires hits == if |missing| > 0 && level.IncludesRedis() && redisUp
                     then Lookup(redis, missing) else map[]
    ensures Pointwise(found + hits, keys, memory, redis, level, redisUp)
    ensures hits == Hits(keys, memory, redis, level, redisUp)
  {
    forall k ensures k in hits <==> k in Hits(keys, memory, redis, level, redisUp) {
      if k in Hits(keys, memory, redis, level, redisUp) {
        assert k in missing;
      }
    }
  }

  lemma OverrideAdd(m: Store, more: Store, k: string, v: string)
    ensures (m + more)[k := v] == m + more[k := v]
  {
  }

  lemma EntriesNone()
    ensures Entries(map[]) == {}
  {
  }

  lemma EntriesAdd(m: Store, k: string, v: string)
    requires k !in m
    ensures multiset(Entries(m[k := v])) == multiset(Entries(m)) + multiset{Entry(k, v)}
  {
    assert Entries(m[k := v]) == Entries(m) + {Entry(k, v)} by {
      forall e | e in Entries(m) + {Entry(k, v)} ensures e in Entries(m[k := v]) {
        assert e.key in m[k := v];
      }
    }
  }

  /** A batch result and what it schedules, key by key. */
  lemma KeyByKey(keys: seq<string>, memory: Store, readable: string -> bool, redis: Store, level: Level, up: bool,
                 results: Store)
    requires Pointwise(results, keys, Readable(memory, readable), redis, level, up)
    ensures forall k :: k in results ==> k in keys
    ensures forall k :: k in keys ==>
              if level !in {RedisOnly, UnknownLevel} && k in memory && readable(k) then
                k in results && results[k] == memory[k]
              else
                && (k in results <==> level !in {MemoryOnly, UnknownLevel} && up && k in redis)
                && (k in results ==> results[k] == redis[k])
    ensures forall e :: multiset(Entries(Hits(keys, Readable(memory, readable), redis, level, up)))[e] ==
              if e.key in keys && !(level !in {RedisOnly, UnknownLevel} && e.key in memory && readable(e.key))
                 && level !in {MemoryOnly, UnknownLevel} && up && e.key in redis && redis[e.key] == e.value
              then 1 else 0
  {
    forall e: Entry
      ensures e in Entries(Hits(keys, Readable(memory, readable), redis, level, up)) <==>
                e.key in keys && !(level !in {RedisOnly, UnknownLevel} && e.key in memory && readable(e.key))
                && level !in {MemoryOnly, UnknownLevel} && up && e.key in redis && redis[e.key] == e.value
    {
      var hits := Hits(keys, Readable(memory, readable), redis, level, up);
      assert e in Entries(hits) <==> e.key in hits && hits[e.key] == e.value;
    }
  }

  class Manager {
    const validKey: string -> bool
    var memory: Store
    var redis: Store
    var connected: bool                // whether the Redis layer calls itself available
    var closed: bool
    var background: multiset<Entry>    // populates scheduled and not yet run

    constructor (validKey: string -> bool, redis: Store, connected: bool)
      ensures this.validKey == validKey && memory == map[] && this.redis == redis
      ensures this.connected == connected && !closed && background == multiset{}
    {
      this.validKey := validKey;
      memory, this.redis, this.connected := map[], redis, connected;
      closed, background := false, multiset{};
    }

    ghost predicate ValidKeys(keys: seq<string>)
    {
      forall k :: k in keys ==> validKey(k)
    }

    method RunBackground(e: Entry)
      modifies `background
      ensures background == if closed then old(background) else old(background) + multiset{e}
    {
      if closed {
        return;
      }
      background := background + multiset{e};
    }

    method ValidateKeys(keys: seq<string>) returns (ok: bool)
      ensures ok <==> ValidKeys(keys)
    {
      for i := 0 to |keys|
        invariant forall j :: 0 <= j < i ==> validKey(keys[j])
      {
        if !validKey(keys[i]) {
          assert keys[i] in keys;
          return false;
        }
      }
      return true;
    }

    /** The memory part of a batch read: what it finds and, in order, what it misses or cannot read. */
    method ReadMemory(keys: seq<string>, readable: string -> bool) returns (results: Store, missingKeys: seq<string>)
      ensures forall k :: k in results <==> k in keys && k in memory && readable(k)
      ensures forall k :: k in results ==> results[k] == memory[k]
      ensures forall k :: k in missingKeys <==> k in keys && !(k in memory && readable(k))
    {
      results, missingKeys := map[], [];
      for i := 0 to |keys|
        invariant forall k :: k in results <==> k in keys[..i] && k in memory && readable(k)
        invariant forall k :: k in results ==> results[k] == memory[k]
        invariant forall k :: k in missingKeys <==> k in keys[..i] && !(k in memory && readable(k))
      {
        var key := keys[i];
        if key in memory && readable(key) {
          results := results[key := memory[key]];
        } else {
          missingKeys := missingKeys + [key];
        }
        assert keys[..i + 1] == keys[..i] + [key];
      }
      assert keys[..|keys|] == keys;
    }

    /** Takes over Redis's answers one by one, scheduling a background populate for each. */
    method TakeOver(found: Store, hits: Store) returns (results: Store)
      requires !closed
      modifies `background
      ensures results == found + hits
      ensures background == old(background) + multiset(Entries(hits))
    {
      hide Entries;
      results := found;
      var todo := hits.Keys;
      ghost var taken: Store := map[];
      EntriesNone();
      while todo != {}
        invariant todo <= hits.Keys && taken.Keys == hits.Keys - todo
        invariant forall k :: k in taken ==> taken[k] == hits[k]
        invariant results == found + taken
        invariant background == old(background) + multiset(Entries(taken))
        decreases |todo|
      {
        var k :| k in todo;
        EntriesAdd(taken, k, hits[k]);
        OverrideAdd(found, taken, k, hits[k]);
        results := results[k := hits[k]];
        RunBackground(Entry(k, hits[k]));
        todo := todo - {k};
        taken := taken[k := hits[k]];
      }
      assert taken == hits;
    }

    /** The lookup of a batch read whose arguments have been checked. */
    method LookUpMany(keys: seq<string>, level: Level, readable: string -> bool, answers: bool)
      returns (results: Store)
      requires !closed
      modifies `background
      ensures var m, up := Readable(memory, readable), connected && answers;
              && Pointwise(results, keys, m, redis, level, up)
              && background == old(background) + multiset(Entries(Hits(keys, m, redis, level, up)))
      // The same key by key: memory if it delivers, otherwise Redis if it answers, and each of Redis's values
      // scheduled for memory once.
      ensures forall k :: k in results ==> k in keys
      ensures forall k :: k in keys ==>
                if level !in {RedisOnly, UnknownLevel} && k in memory && readable(k) then
                  k in results && results[k] == memory[k]
                else
                  && (k in results <==> level !in {MemoryOnly, UnknownLevel} && connected && answers && k in redis)
                  && (k in results ==> results[k] == redis[k])
      ensures forall e :: background[e] == old(background)[e] +
                (if e.key in keys && !(level !in {RedisOnly, UnknownLevel} && e.key in memory && readable(e.key))
                    && level !in {MemoryOnly, UnknownLevel} && connected && answers
                    && e.key in redis && redis[e.key] == e.value then 1 else 0)
    {
      hide Entries, Pointwise, Hits;
      var found: Store := map[];
      var missingKeys := keys;
      if level.IncludesMemory() {
        found, missingKeys := ReadMemory(keys, readable);
      }
      var redisResults: Store := map[];
      EntriesNone();
      results := found;
      if |missingKeys| > 0 && level.IncludesRedis() && connected && answers {
        redisResults := Lookup(redis, missingKeys);
        results := TakeOver(found, redisResults);
      }
      assert results == found + redisResults;
      BatchIsPointwise(keys, Readable(memory, readable), redis, level, connected && answers,
                       found, missingKeys, redisResults);
      KeyByKey(keys, memory, readable, redis, level, connected && answers, results);
    }

    /** Reads many keys; `readable` tells whose reads in memory succeed, `answers` whether Redis answers the batch. */
    method GetMany(keys: seq<string>, level: Level, readable: string -> bool, answers: bool) returns (r: Batch)
      modifies `background
      ensures closed ==> r == BatchFails(ManagerClosed)
      ensures !closed && keys == [] ==> r == Batch(map[])
      ensures !closed && keys != [] && !ValidKeys(keys) ==> r == BatchFails(InvalidKey)
      ensures !closed && ValidKeys(keys) ==>
                var m, up := Readable(memory, readable), connected && answers;
                && r.Batch? && Pointwise(r.found, keys, m, redis, level, up)
                && background == old(background) + multiset(Entries(Hits(keys, m, redis, level, up)))
      // The same key by key: memory if it delivers, otherwise Redis if it answers, and each of Redis's values
      // scheduled for memory once.
      ensures !closed && ValidKeys(keys) ==>
                && (forall k :: k in r.found ==> k in keys)
                && (forall k :: k in keys ==>
                      if level !in {RedisOnly, UnknownLevel} && k in memory && readable(k) then
                        k in r.found && r.found[k] == memory[k]
                      else
                        && (k in r.found <==>
                              level !in {MemoryOnly, UnknownLevel} && connected && answers && k in redis)
                        && (k in r.found ==> r.found[k] == redis[k]))
                && (forall e :: background[e] == old(background)[e] +
                      (if e.key in keys && !(level !in {RedisOnly, UnknownLevel} && e.key in memory && readable(e.key))
                          && level !in {MemoryOnly, UnknownLevel} && connected && answers
                          && e.key in redis && redis[e.key] == e.value then 1 else 0))
      ensures r.BatchFails? ==> background == old(background)
    {
      if closed {
        return BatchFails(ManagerClosed);
      }
      if |keys| == 0 {
        EntriesNone();
        assert Hits(keys, Readable(memory, readable), redis, level, connected && answers) == map[];
        KeyByKey(keys, memory, readable, redis, level, connected && answers, map[]);
        return Batch(map[]);
      }
      var ok := ValidateKeys(keys);
      if !ok {
        return BatchFails(InvalidKey);
      }
      var found := LookUpMany(keys, level, readable, answers);
      return Batch(found);
    }

    method GetFromRedis(key: string, refusal: Option<Error>) returns (value: Option<string>, err: Option<Error>)
      ensures value == if connected && refusal.None? && key in redis then Some(redis[key]) else None
      ensures value.Some? ==> err == None
      ensures value.None? ==> err == Some(if !connected then RedisUnavailable
                                          else if refusal.Some? then refusal.value else CacheMiss)
    {
      if !connected {
        return None, Some(RedisUnavailable);
      }
      if refusal.Some? {
        return None, refusal;
      }
      if key in redis {
        return Some(redis[key]), None;
      }
      return None, Some(CacheMiss);
    }

    method GetFromMemory(key: string, readable: bool) returns (value: Option<string>, err: Option<Error>)
      ensures value == if readable && key in memory then Some(memory[key]) else None
      ensures err == if !readable then Some(UNREADABLE) else if key in memory then None else Some(CacheMiss)
    {
      if !readable {
        return None, Some(UNREADABLE);
      }
      if key in memory {
        return Some(memory[key]), None;
      }
      return None, Some(CacheMiss);
    }

    method GetFromBothLayers(key: string, readable: bool, refusal: Option<Error>)
      returns (value: Option<string>, err: Option<Error>)
      requires !closed
      modifies `background
      ensures value == if readable && key in memory then Some(memory[key])
                       else if connected && refusal.None? && key in redis then Some(redis[key]) else None
      ensures value.Some? ==> err == None
      ensures value.None? ==> err == Some(if !connected then RedisUnavailable
                                          else if refusal.Some? then refusal.value else CacheMiss)
      ensures background == if !(readable && key in memory) && value.Some?
                            then old(background) + multiset{Entry(key, value.value)} else old(background)
    {
      if readable && key in memory {
        return Some(memory[key]), None;
      }
      value, err := GetFromRedis(key, refusal);
      if err.Some? {
        return None, err;
      }
      RunBackground(Entry(key, value.value));
    }

    /**
     * Reads one key. `readable` tells whether the read in memory succeeds, and `refusal` is what the
     * resilience policy ends with instead of Redis's answer; a miss in Redis reaches the caller as a
     * miss only if the policy passes it on. A value that is found but cannot be decoded is an error,
     * though it has been scheduled for memory by then.
     */
    method Get(key: string, level: Level, readable: bool, refusal: Option<Error>, decode: string -> Option<string>)
      returns (value: Option<string>, err: Option<Error>)
      modifies `background
      ensures closed ==> err == Some(ManagerClosed)
      ensures !closed && !validKey(key) ==> err == Some(InvalidKey)
      ensures err.Some? ==> value == None
      ensures !closed && validKey(key) ==>
                (value, err) == Answer(Held(memory, key), Held(redis, key), level, readable, connected, refusal, decode)
      ensures closed || !validKey(key) ==> background == old(background)
      ensures !closed && validKey(key) ==>
                var fromMemory := level !in {RedisOnly, UnknownLevel} && readable && key in memory;
                var fromRedis := level !in {MemoryOnly, UnknownLevel} && connected && refusal.None? && key in redis;
                var found := if fromMemory then Some(memory[key]) else if fromRedis then Some(redis[key]) else None;
                && found == Visible(if readable then memory else map[], redis, level, connected && refusal.None?, key)
                && value == (if found.Some? then decode(found.value) else None)
                && (value.Some? <==> err.None?)
                && (found.Some? && value.None? ==> err == Some(UNDECODABLE))
                && (found.None? ==>
                      err == Some(if level.MemoryOnly? && !readable then UNREADABLE
                                  else if level in {MemoryOnly, UnknownLevel} then CacheMiss
                                  else if !connected then RedisUnavailable
                                  else if refusal.Some? then refusal.value
                                  else CacheMiss))
                && background == if found.Some? && level !in {RedisOnly, UnknownLevel} && !fromMemory
                                 then old(background) + multiset{Entry(key, found.value)} else old(background)
    {
      if closed {
        return None, Some(ManagerClosed);
      }
      if !validKey(key) {
        return None, Some(InvalidKey);
      }
      var data: Option<string>;
      match level {
        case MemoryOnly =>
          data, err := GetFromMemory(key, readable);
        case RedisOnly =>
          data, err := GetFromRedis(key, refusal);
        case MemoryThenRedis =>
          data, err := GetFromBothLayers(key, readable, refusal);
        case AllLayers =>
          data, err := GetFromBothLayers(key, readable, refusal);
        case UnknownLevel =>
          return None, Some(CacheMiss);
      }
      if err.Some? {
        return None, err;
      }
      value := decode(data.value);
      if value.None? {
        err := Some(UNDECODABLE);
      }
    }

    /**
     * Writes one item. `reply` is what the policy returns for the Redis call and `applied`
     * whether Redis took the value at once. With both layers only memory decides the result.
     */
    method Set(key: string, value: string, level: Level, fireAndForget: bool, encode: string -> Option<string>,
               memoryOk: bool, reply: Option<Error>, applied: bool)
      returns (err: Option<Error>)
      modifies `memory, `redis
      ensures closed ==> err == Some(ManagerClosed)
      ensures !closed && !validKey(key) ==> err == Some(InvalidKey)
      ensures closed || !validKey(key) || encode(value).None? ==>
                err.Some? && memory == old(memory) && redis == old(redis)
      ensures !closed && validKey(key) && encode(value).Some? ==>
                var data := encode(value).value;
                var asked := level.IncludesRedis() && (connected || fireAndForget);
                && memory == Written(old(memory), level.IncludesMemory() && memoryOk, key, data)
                && redis == Written(old(redis), asked && connected && applied, key, data)
                && (level.IncludesMemory() ==> (err.None? <==> memoryOk))
                && (level.RedisOnly? ==> err == if asked then reply else Some(RedisUnavailable))
                && (level.UnknownLevel? ==> err.None?)
      ensures !closed && validKey(key) ==>
                err == if encode(value).None? then Some(Other(1))
                       else if level.UnknownLevel? then None
                       else if !level.RedisOnly? then (if memoryOk then None else Some(Wrapped("memory", Other(2))))
                       else if !connected && !fireAndForget then Some(RedisUnavailable)
                       else reply
      // Of the written key each layer that took it holds the new value, and no other key is touched.
      ensures !closed && validKey(key) && encode(value).Some? && memoryOk && level !in {RedisOnly, UnknownLevel} ==>
                key in memory && memory[key] == encode(value).value
      ensures !closed && validKey(key) && encode(value).Some? && connected && applied
              && level !in {MemoryOnly, UnknownLevel} ==>
                key in redis && redis[key] == encode(value).value
      ensures !memoryOk || level in {RedisOnly, UnknownLevel} ==> memory == old(memory)
      ensures !connected || !applied || level in {MemoryOnly, UnknownLevel} ==> redis == old(redis)
      ensures memory - {key} == old(memory) - {key} && redis - {key} == old(redis) - {key}
    {
      if closed {
        return Some(ManagerClosed);
      }
      if !validKey(key) {
        return Some(InvalidKey);
      }
      if encode(value).None? {
        return Some(Other(1));
      }
      var data := encode(value).value;
      var memErr: Option<Error> := None;
      if level.IncludesMemory() {
        if memoryOk {
          memory := memory[key := data];
        } else {
          memErr := Some(Wrapped("memory", Other(2)));
        }
      }
      var redisErr: Option<Error> := None;
      if level.IncludesRedis() {
        if !connected && !fireAndForget {
          redisErr := Some(RedisUnavailable);
        } else {
          redisErr := reply;
          if connected && applied {
            redis := redis[key := data];
          }
        }
      }
      return if level.RedisOnly? then redisErr else memErr;
    }

    /** The memory loop of a batch write. */
    method WriteMemory(data: Store, takes: string -> bool) returns (failed: bool)
      modifies `memory
      ensures memory == old(memory) + Restricted(data, set k | k in data && takes(k))
      ensures failed <==> exists k :: k in data && !takes(k)
    {
      failed := false;
      var todo := data.Keys;
      ghost var taken: Store := map[];
      while todo != {}
        invariant todo <= data.Keys
        invariant forall k :: k in taken <==> k in data && k !in todo && takes(k)
        invariant forall k :: k in taken ==> taken[k] == data[k]
        invariant memory == old(memory) + taken
        invariant failed <==> exists k :: k in data && k !in todo && !takes(k)
        decreases |todo|
      {
        var k :| k in todo;
        todo := todo - {k};
        if takes(k) {
          OverrideAdd(old(memory), taken, k, data[k]);
          memory := memory[k := data[k]];
          taken := taken[k := data[k]];
        } else {
          failed := true;
        }
      }
      assert taken == Restricted(data, set k | k in data && takes(k));
    }

    /** The write of a batch whose items have been checked and encoded. */
    method StoreMany(data: Store, level: Level, memoryTakes: string -> bool, redisTakes: set<string>)
      returns (err: Option<Error>)
      modifies `memory, `redis
      ensures memory == (if level.IncludesMemory()
                         then old(memory) + Restricted(data, set k | k in data && memoryTakes(k))
                         else old(memory))
      ensures redis == (if level.IncludesRedis() && connected then old(redis) + Restricted(data, redisTakes)
                        else old(redis))
      ensures err.None? <==> !level.IncludesMemory() || forall k :: k in data ==> memoryTakes(k)
      ensures var usesMemory := !level.RedisOnly? && !level.UnknownLevel?;
              && (forall k :: k in data && usesMemory && memoryTakes(k) ==> k in memory && memory[k] == data[k])
              && (forall k :: !(k in data && usesMemory && memoryTakes(k)) ==>
                    (k in memory <==> k in old(memory)) && (k in memory ==> memory[k] == old(memory)[k]))
      ensures var usesRedis := !level.MemoryOnly? && !level.UnknownLevel?;
              && (forall k :: k in data && usesRedis && connected && k in redisTakes ==>
                    k in redis && redis[k] == data[k])
              && (forall k :: !(k in data && usesRedis && connected && k in redisTakes) ==>
                    (k in redis <==> k in old(redis)) && (k in redis ==> redis[k] == old(redis)[k]))
    {
      var failed := false;
      if level.IncludesMemory() {
        failed := WriteMemory(data, memoryTakes);
      }
      if level.IncludesRedis() && connected {
        redis := redis + Restricted(data, redisTakes);
      }
      if failed {
        return Some(Wrapped("memory", Other(2)));
      }
      return None;
    }

    /**
     * Writes many items. Nothing is written unless every item can be encoded; memory loses the
     * items it cannot take and that is reported; what Redis fails to take is not.
     */
    method SetMany(items: Store, level: Level, encode: string -> Option<string>,
                   memoryTakes: string -> bool, redisTakes: set<string>)
      returns (err: Option<Error>)
      modifies `memory, `redis
      ensures closed ==> err == Some(ManagerClosed)
      ensures !closed && items != map[] && (exists k :: k in items && !validKey(k)) ==> err == Some(InvalidKey)
      ensures closed || !AllEncodable(items, encode) || !(forall k :: k in items ==> validKey(k)) ==>
                memory == old(memory) && redis == old(redis) && (err.Some? || items == map[])
      ensures !closed && AllEncodable(items, encode) && (forall k :: k in items ==> validKey(k)) ==>
                var data := Encoded(items, encode);
                && memory == (if level.IncludesMemory()
                              then old(memory) + Restricted(data, set k | k in data && memoryTakes(k))
                              else old(memory))
                && redis == (if level.IncludesRedis() && connected then old(redis) + Restricted(data, redisTakes)
                             else old(redis))
                && (err.None? <==> !level.IncludesMemory() || forall k :: k in items ==> memoryTakes(k))
      // Item by item: a layer that is written to takes the encoded value or keeps what it had.
      ensures !closed && AllEncodable(items, encode) && (forall k :: k in items ==> validKey(k)) ==>
                var usesMemory := !level.RedisOnly? && !level.UnknownLevel?;
                var usesRedis := !level.MemoryOnly? && !level.UnknownLevel?;
                && (forall k :: k in items && usesMemory && memoryTakes(k) ==>
                      k in memory && Some(memory[k]) == encode(items[k]))
                && (forall k :: k in items && usesRedis && connected && k in redisTakes ==>
                      k in redis && Some(redis[k]) == encode(items[k]))
      ensures var usesMemory := !level.RedisOnly? && !level.UnknownLevel?;
              var usesRedis := !level.MemoryOnly? && !level.UnknownLevel?;
              && (forall k :: !(k in items && usesMemory && memoryTakes(k)) ==>
                    (k in memory <==> k in old(memory)) && (k in memory ==> memory[k] == old(memory)[k]))
              && (forall k :: !(k in items && usesRedis && connected && k in redisTakes) ==>
                    (k in redis <==> k in old(redis)) && (k in redis ==> redis[k] == old(redis)[k]))
    {
      if closed {
        return Some(ManagerClosed);
      }
      if |items| == 0 {
        assert items == map[];
        assert Encoded(items, encode) == map[];
        return None;
      }
      if k :| k in items && !validKey(k) {
        return Some(InvalidKey);
      }
      if k :| k in items && encode(items[k]).None? {
        return Some(Other(1));
      }
      var data := Encoded(items, encode);
      hide Restricted;
      err := StoreMany(data, level, memoryTakes, redisTakes);
    }

    /** Removes one key; the Redis layer is asked without going through the policy. */
    method Delete(key: string, level: Level, memoryOk: bool, redisOk: bool) returns (err: Option<Error>)
      modifies `memory, `redis
      ensures closed ==> err == Some(ManagerClosed) && memory == old(memory) && redis == old(redis)
      ensures !closed && !validKey(key) ==> err == Some(InvalidKey) && memory == old(memory) && redis == old(redis)
      ensures !closed && validKey(key) ==>
                && memory == Removed(old(memory), level.IncludesMemory() && memoryOk, key)
                && redis == Removed(old(redis), level.IncludesRedis() && connected && redisOk, key)
                && (err.None? <==>
                      (level.IncludesMemory() ==> memoryOk) && (level.IncludesRedis() ==> connected && redisOk))
      ensures !closed && validKey(key) ==>
                err == if !level.RedisOnly? && !level.UnknownLevel? && !memoryOk then Some(Wrapped("memory", Other(3)))
                       else if level.MemoryOnly? || level.UnknownLevel? then None
                       else if !connected then Some(RedisUnavailable)
                       else if !redisOk then Some(Wrapped("redis", Other(4))) else None
      // A layer that is asked and agrees loses the key, and no other key is touched.
      ensures !closed && validKey(key) && memoryOk && level !in {RedisOnly, UnknownLevel} ==> key !in memory
      ensures !closed && validKey(key) && connected && redisOk && level !in {MemoryOnly, UnknownLevel} ==> key !in redis
      ensures !memoryOk || level in {RedisOnly, UnknownLevel} ==> memory == old(memory)
      ensures !connected || !redisOk || level in {MemoryOnly, UnknownLevel} ==> redis == old(redis)
      ensures memory - {key} == old(memory) - {key} && redis - {key} == old(redis) - {key}
    {
      if closed {
        return Some(ManagerClosed);
      }
      if !validKey(key) {
        return Some(InvalidKey);
      }
      var memErr: Option<Error> := None;
      var redisErr: Option<Error> := None;
      if level.IncludesMemory() {
        if memoryOk {
          memory := memory - {key};
        } else {
          memErr := Some(Wrapped("memory", Other(3)));
        }
      }
      if level.IncludesRedis() {
        if !connected {
          redisErr := Some(RedisUnavailable);
        } else if redisOk {
          redis := redis - {key};
        } else {
          redisErr := Some(Wrapped("redis", Other(4)));
        }
      }
      return if memErr.Some? then memErr else redisErr;
    }

    /** Removes many keys, going on after failures, and reports whether all removals succeeded. */
    method DeleteMany(keys: seq<string>, level: Level, memoryOk: string -> bool, redisOk: string -> bool)
      returns (err: Option<Error>)
      modifies `memory, `redis
      ensures closed ==> err == Some(ManagerClosed)
      ensures !closed && !ValidKeys(keys) ==> err == Some(InvalidKey)
      ensures closed || !ValidKeys(keys) ==> memory == old(memory) && redis == old(redis)
      ensures !closed && ValidKeys(keys) ==>
                && memory == RemovedAll(old(memory), level.IncludesMemory(), keys, memoryOk)
                && redis == RemovedAll(old(redis), level.IncludesRedis() && connected, keys, redisOk)
                && (err.None? <==> forall k :: k in keys ==>
                      (level.IncludesMemory() ==> memoryOk(k)) && (level.IncludesRedis() ==> connected && redisOk(k)))
      // Key by key: gone from a layer that is asked and agrees, and as it was otherwise.
      ensures !closed && ValidKeys(keys) ==>
                && (forall k :: k in memory <==>
                      k in old(memory) && !(k in keys && level !in {RedisOnly, UnknownLevel} && memoryOk(k)))
                && (forall k :: k in redis <==>
                      && k in old(redis)
                      && !(k in keys && level !in {MemoryOnly, UnknownLevel} && connected && redisOk(k)))
      ensures (forall k :: k in memory ==> memory[k] == old(memory)[k])
              && (forall k :: k in redis ==> redis[k] == old(redis)[k])
    {
      if closed {
        return Some(ManagerClosed);
      }
      var ok := ValidateKeys(keys);
      if !ok {
        return Some(InvalidKey);
      }
      hide Removed, RemovedAll;
      RemovedAllNone(memory, level.IncludesMemory(), memoryOk);
      RemovedAllNone(redis, level.IncludesRedis() && connected, redisOk);
      assert keys[..0] == [];
      err := None;
      for i := 0 to |keys|
        invariant memory == RemovedAll(old(memory), level.IncludesMemory(), keys[..i], memoryOk)
        invariant redis == RemovedAll(old(redis), level.IncludesRedis() && connected, keys[..i], redisOk)
        invariant err.None? <==> forall k :: k in keys[..i] ==>
                    (level.IncludesMemory() ==> memoryOk(k)) && (level.IncludesRedis() ==> connected && redisOk(k))
      {
        RemovedAllNext(old(memory), level.IncludesMemory(), keys, i, memoryOk);
        RemovedAllNext(old(redis), level.IncludesRedis() && connected, keys, i, redisOk);
        var e := Delete(keys[i], level, memoryOk(keys[i]), redisOk(keys[i]));
        if e.Some? {
          err := e;
        }
        assert keys[..i + 1] == keys[..i] + [keys[i]];
      }
      assert keys[..|keys|] == keys;
      RemovedAllMeaning(old(memory), level.IncludesMemory(), keys, memoryOk);
      RemovedAllMeaning(old(redis), level.IncludesRedis() && connected, keys, redisOk);
    }
  }
}

// What a caller sees across calls, from the contracts of the object alone.
module ManagerUse {
  import opened Errors
  import opened Layers
  import opened ManagerSpec
  import opened ManagerClass

  /** How a single read is answered: whether memory can be read, what the policy refuses with, and how values decode. */
  datatype Reading = Reading(level: Level, readable: bool, refusal: Option<Error>, decode: string -> Option<string>)

  /** How a single write is taken. */
  datatype Writing = Writing(level: Level, fireAndForget: bool, encode: string -> Option<string>,
                             memoryOk: bool, reply: Option<Error>, applied: bool)

  lemma OtherKeyStays(before: Store, after: Store, key: string, other: string)
    requires other != key && before - {key} == after - {key}
    ensures other in before <==> other in after
    ensures other in before ==> before[other] == after[other]
    ensures Held(before, other) == Held(after, other)
  {
    assert other in before <==> other in before - {key};
    assert other in after <==> other in after - {key};
  }

  /** A write changes nothing for the reader of another key, at whatever levels, with whatever failures. */
  method ReadAcrossWrite(m: Manager, other: string, r: Reading, key: string, value: string, w: Writing)
    returns (before: Option<string>, errBefore: Option<Error>, after: Option<string>, errAfter: Option<Error>)
    requires other != key
    modifies m
    ensures before == after && errBefore == errAfter
  {
    hide Visible, Written, Removed, Answer, Held;
    before, errBefore := m.Get(other, r.level, r.readable, r.refusal, r.decode);
    ghost var memory, redis := m.memory, m.redis;
    var err := m.Set(key, value, w.level, w.fireAndForget, w.encode, w.memoryOk, w.reply, w.applied);
    OtherKeyStays(memory, m.memory, key, other);
    OtherKeyStays(redis, m.redis, key, other);
    after, errAfter := m.Get(other, r.level, r.readable, r.refusal, r.decode);
  }

  /** What has been written to memory is what a read that can use memory sees, whatever Redis holds. */
  method ReadAfterWrite(m: Manager, key: string, value: string, w: Writing, r: Reading)
    returns (seen: Option<string>, err: Option<Error>)
    requires !m.closed && m.validKey(key) && w.encode(value).Some?
    requires w.memoryOk && w.level in {MemoryOnly, MemoryThenRedis, AllLayers}
    requires r.readable && r.level in {MemoryOnly, MemoryThenRedis, AllLayers}
    modifies m
    ensures seen == r.decode(w.encode(value).value)
  {
    hide Visible, Written, Removed, Pointwise, Hits, Entries, Readable;
    var written := m.Set(key, value, w.level, w.fireAndForget, w.encode, w.memoryOk, w.reply, w.applied);
    seen, err := m.Get(key, r.level, r.readable, r.refusal, r.decode);
  }

  /** A two-layer removal that both layers report as done leaves nothing to read at any level. */
  method ReadAfterRemoval(m: Manager, key: string, memoryOk: bool, redisOk: bool, r: Reading)
    returns (removed: Option<Error>, seen: Option<string>, err: Option<Error>)
    requires !m.closed && m.validKey(key)
    modifies m
    ensures removed == None ==> seen == None && err.Some?
  {
    hide Visible, Written, Removed, Pointwise, Hits, Entries, Readable;
    removed := m.Delete(key, AllLayers, memoryOk, redisOk);
    seen, err := m.Get(key, r.level, r.readable, r.refusal, r.decode);
  }

  /** A batch read sees what a write has just put into memory, and goes on seeing the other keys there. */
  method BatchAfterWrites(m: Manager, a: string, b: string, values: (string, string), w: Writing, answers: bool)
    returns (r: Batch)
    requires !m.closed && m.validKey(a) && m.validKey(b) && a != b
    requires w.encode(values.0).Some? && w.encode(values.1).Some?
    requires w.memoryOk && w.level in {MemoryOnly, MemoryThenRedis, AllLayers}
    modifies m
    ensures r == Batch(map[a := w.encode(values.0).value, b := w.encode(values.1).value])
  {
    hide Visible, Written, Removed, Pointwise, Hits, Entries, Readable;
    var first := m.Set(a, values.0, w.level, w.fireAndForget, w.encode, w.memoryOk, w.reply, w.applied);
    ghost var memory := m.memory;
    var second := m.Set(b, values.1, w.level, w.fireAndForget, w.encode, w.memoryOk, w.reply, w.applied);
    OtherKeyStays(memory, m.memory, b, a);
    r := m.GetMany([a, b], AllLayers, k => true, answers);
    assert r.found == map[a := w.encode(values.0).value, b := w.encode(values.1).value];
  }
}
