/** app/services/storage.py: three tiers behind the cache.  Each service call is one atomic step; it takes one
    reading of the monotonic clock, one of the wall clock, and the faults its backends will show. */
module Storage {
  import opened Wrappers
  import opened OrderedDict
  import opened TtlCache
  import opened Records
  import opened RedisClient
  import opened Listings

  type Table = map<string, Record>

  // ----- Configuration, faults and state -----

  /** Which backends came up at startup, the retry limit, and the cache's settings: fixed for a run. */
  datatype Config = Config(pgUp: bool, redisUp: bool, retries: nat, ttl: int, size: Capacity)

  /** A PostgreSQL write: it may commit and still raise. */
  datatype Write = Committed | CommittedButRaised | NotCommitted

  /** What the backends do during one call: whether a read answers, how writes go, and which Redis keys
      cannot be read while listing. */
  datatype Faults = Faults(pgReads: bool, redisReads: bool, pgWrite: Write, redisWrites: seq<Attempt>,
                           unreadable: set<string>)

  datatype State = State(cache: Cache<Record>, pg: Table, redis: Table, memory: Table)

  // ----- What each operation does -----

  /** A row needs both timestamps, so storing a record without them raises before it commits. */
  predicate PgStores(w: Write, rec: Record) {
    w != NotCommitted && rec.created.Some? && rec.updated.Some?
  }

  /** The answer of a tier that responded, remembered in the cache when it found something. */
  function Answer(cfg: Config, s: State, table: Table, id: string, now: Instant): (State, Option<Record>) {
    if id in table
    then (s.(cache := CacheSet(s.cache, cfg.size, id, table[id], cfg.ttl as real, now)), Some(table[id]))
    else (s, None)
  }

  function Lookup(cfg: Config, s: State, id: string, now: Instant, f: Faults): (State, Option<Record>) {
    var (cache, hit) := CacheGet(s.cache, id, now);
    var s := s.(cache := cache);
    if hit.Some? then (s, hit)
    else if cfg.pgUp && f.pgReads then Answer(cfg, s, s.pg, id, now)
    else if cfg.redisUp && f.redisReads then Answer(cfg, s, s.redis, id, now)
    else (s, if id in s.memory then Some(s.memory[id]) else None)
  }

  function Listed(cfg: Config, s: State, f: Faults): Table {
    if cfg.pgUp && f.pgReads then s.pg
    else if cfg.redisUp && f.redisReads then s.redis - f.unreadable
    else s.memory
  }

  /** Cache first, then every available backend, then always memory. */
  function WriteAll(cfg: Config, s: State, id: string, rec: Record, now: Instant, f: Faults): State {
    State(CacheSet(s.cache, cfg.size, id, rec, cfg.ttl as real, now),
          if cfg.pgUp && PgStores(f.pgWrite, rec) then s.pg[id := rec] else s.pg,
          if cfg.redisUp && Reaches(f.redisWrites, cfg.retries) then s.redis[id := rec] else s.redis,
          s.memory[id := rec])
  }

  function EraseAll(cfg: Config, s: State, id: string, f: Faults): State {
    State(Drop(s.cache, id),
          if cfg.pgUp && f.pgWrite != NotCommitted then s.pg - {id} else s.pg,
          if cfg.redisUp && Reaches(f.redisWrites, cfg.retries) then s.redis - {id} else s.redis,
          s.memory - {id})
  }

  datatype Op =
    | GetAll
    | Get(id: string)
    | Create(id: string, title: string, description: string)
    | Update(id: string, changes: Changes)
    | Delete(id: string)

  predicate Writes(op: Op, id: string) {
    (op.Create? || op.Update? || op.Delete?) && op.id == id
  }

  datatype Event = Event(op: Op, now: Instant, stamp: Stamp, faults: Faults)

  /** A listing is shown as the table it lists, that is, up to order. */
  datatype Reply = Listing(table: Table) | Found(rec: Record) | Missing | Gone

  function Step(cfg: Config, s: State, e: Event): (State, Reply) {
    match e.op
    case GetAll => (s, Listing(Listed(cfg, s, e.faults)))
    case Get(id) =>
      var (s1, r) := Lookup(cfg, s, id, e.now, e.faults);
      (s1, if r.Some? then Found(r.value) else Missing)
    case Create(id, title, description) =>
      var rec := NewRecord(id, title, description, e.stamp);
      (WriteAll(cfg, s, id, rec, e.now, e.faults), Found(rec))
    case Update(id, changes) =>
      var (s1, r) := Lookup(cfg, s, id, e.now, e.faults);
      if r.None? then (s1, Missing)
      else
        var rec := Amend(r.value, changes, e.stamp);
        (WriteAll(cfg, s1, id, rec, e.now, e.faults), Found(rec))
    case Delete(id) =>
      var (s1, r) := Lookup(cfg, s, id, e.now, e.faults);
      if r.None? then (s1, Missing) else (EraseAll(cfg, s1, id, e.faults), Gone)
  }

  function Run(cfg: Config, s: State, events: seq<Event>): (r: (State, seq<Reply>))
    ensures |r.1| == |events|
    decreases |events|
  {
    if events == [] then (s, [])
    else
      var (s1, reply) := Step(cfg, s, events[0]);
      var (s2, replies) := Run(cfg, s1, events[1..]);
      (s2, [reply] + replies)
  }

  /** Clock readings never decrease, starting at `from`. */
  predicate Ordered(events: seq<Event>, from: Instant) {
    events == [] || (from <= events[0].now && Ordered(events[1..], events[0].now))
  }

  // ----- The backends -----

  class InMemoryBackend {
    var store: Table

    constructor ()
      ensures store == map[]
    {
      store := map[];
    }

    method GetAll() returns (list: seq<Record>)
      ensures Lists(list, store)
    {
      list := ListRows(store, {});
      assert store - {} == store;
    }

    method Get(id: string) returns (r: Option<Record>)
      ensures r == if id in store then Some(store[id]) else None
    {
      r := if id in store then Some(store[id]) else None;
    }

    method Store(id: string, rec: Record)
      modifies this
      ensures store == old(store)[id := rec]
    {
      store := store[id := rec];
    }

    method Delete(id: string)
      modifies this
      ensures store == old(store) - {id}
    {
      store := store - {id};
    }
  }

  /** Each method reports a `BackendError` instead of raising it. */
  class PostgreSQLBackend {
    const available: bool
    var rows: Table

    constructor (available: bool, rows: Table)
      ensures this.available == available && this.rows == rows
    {
      this.available, this.rows := available, rows;
    }

    method GetAll(answers: bool) returns (error: bool, list: seq<Record>)
      ensures error == !answers
      ensures !error ==> Lists(list, rows)
    {
      if !answers {
        return true, [];
      }
      list := ListRows(rows, {});
      assert rows - {} == rows;
      error := false;
    }

    method Get(id: string, answers: bool) returns (error: bool, r: Option<Record>)
      ensures error == !answers
      ensures !error ==> r == if id in rows then Some(rows[id]) else None
    {
      error := !answers;
      r := if answers && id in rows then Some(rows[id]) else None;
    }

    method Store(id: string, rec: Record, w: Write) returns (error: bool)
      modifies this
      ensures rows == if PgStores(w, rec) then old(rows)[id := rec] else old(rows)
      ensures error <==> w != Committed || rec.created.None? || rec.updated.None?
    {
      if rec.created.None? || rec.updated.None? {
        return true;
      }
      if w != NotCommitted {
        rows := rows[id := rec];
      }
      error := w != Committed;
    }

    method Delete(id: string, w: Write) returns (error: bool)
      modifies this
      ensures rows == if w != NotCommitted then old(rows) - {id} else old(rows)
      ensures error <==> if id in old(rows) then w != Committed else w == NotCommitted
    {
      if id in rows {
        if w != NotCommitted {
          rows := rows - {id};
        }
        error := w != Committed;
      } else {
        error := w == NotCommitted;
      }
    }
  }

  class RedisBackend {
    const available: bool
    const server: RedisServer
    const retries: int

    constructor (available: bool, server: RedisServer, retries: int)
      ensures this.available == available && this.server == server && this.retries == retries
    {
      this.available, this.server, this.retries := available, server, retries;
    }

    method GetAll(answers: bool, unreadable: set<string>) returns (error: bool, list: seq<Record>)
      ensures error == !answers
      ensures !error ==> Lists(list, server.db.docs - unreadable)
    {
      if !answers {
        return true, [];
      }
      list := ListRows(server.db.docs, unreadable);
      error := false;
    }

    method Get(id: string, answers: bool) returns (error: bool, r: Option<Record>)
      ensures error == !answers
      ensures !error ==> r == if id in server.db.docs then Some(server.db.docs[id]) else None
    {
      error := !answers;
      r := if answers && id in server.db.docs then Some(server.db.docs[id]) else None;
    }

    /** The retry loop swallows every error, so a store that never takes effect is silent. */
    method Store(id: string, rec: Record, attempts: seq<Attempt>)
      modifies server
      ensures server.db.docs == if Reaches(attempts, Limit(None, retries)) then old(server.db.docs)[id := rec]
                                else old(server.db.docs)
      ensures server.db.counters == old(server.db.counters)
    {
      RetryDocIsOnceOrNever(server.db, SetDoc(id, rec), attempts, Limit(None, retries));
      var _, _, _ := server.RedisOpWithRetry(SetDoc(id, rec), attempts, None, retries);
    }

    method Delete(id: string, attempts: seq<Attempt>)
      modifies server
      ensures server.db.docs == if Reaches(attempts, Limit(None, retries)) then old(server.db.docs) - {id}
                                else old(server.db.docs)
      ensures server.db.counters == old(server.db.counters)
    {
      RetryDocIsOnceOrNever(server.db, DeleteDoc(id), attempts, Limit(None, retries));
      var _, _, _ := server.RedisOpWithRetry(DeleteDoc(id), attempts, None, retries);
    }

    method Incr(key: string, attempts: seq<Attempt>) returns (n: Option<int>)
      modifies server
      ensures (server.db, n) == RetryIncr(available, old(server.db), key, attempts, Limit(None, retries))
    {
      if !available {
        return None;
      }
      var answer, _, _ := server.RedisOpWithRetry(RedisClient.Incr(key), attempts, None, retries);
      n := if answer.Some? && answer.value.Number? then Some(answer.value.n) else None;
    }

    /** Reads a value without changing it, to warm the connection. */
    method GetValue(key: string, attempts: seq<Attempt>) returns (v: Option<int>)
      modifies server
      ensures server.db == old(server.db)
      ensures v.Some? ==> key in server.db.counters && v.value == server.db.counters[key]
    {
      if !available {
        return None;
      }
      RetryReads(server.db, key, attempts, Limit(None, retries));
      var answer, _, _ := server.RedisOpWithRetry(Read(key), attempts, None, retries);
      v := if answer.Some? && answer.value.Value? then answer.value.v else None;
    }
  }

  // ----- The service -----

  class StorageService {
    const pg: PostgreSQLBackend
    const redis: RedisBackend
    const memory: InMemoryBackend
    const cache: TTLCache<Record>

    constructor (pg: PostgreSQLBackend, redis: RedisBackend, memory: InMemoryBackend, cache: TTLCache<Record>)
      ensures this.pg == pg && this.redis == redis && this.memory == memory && this.cache == cache
    {
      this.pg, this.redis, this.memory, this.cache := pg, redis, memory, cache;
    }

    function Settings(): Config {
      Config(pg.available, redis.available, Limit(None, redis.retries), cache.ttl, cache.maxSize)
    }

    function Contents(): State
      reads cache, pg, redis.server, memory
    {
      State(cache.dict, pg.rows, redis.server.db.docs, memory.store)
    }

    method GetAll(f: Faults) returns (list: seq<Record>)
      ensures Lists(list, Listed(Settings(), Contents(), f))
    {
      if pg.available {
        var error, rows := pg.GetAll(f.pgReads);
        if !error {
          return rows;
        }
      }
      if redis.available {
        var error, rows := redis.GetAll(f.redisReads, f.unreadable);
        if !error {
          return rows;
        }
      }
      list := memory.GetAll();
    }

    method Get(id: string, now: Instant, f: Faults) returns (r: Option<Record>)
      modifies cache
      ensures (Contents(), r) == Lookup(Settings(), old(Contents()), id, now, f)
    {
      var cached := cache.Get(id, now);
      if cached.Some? {
        return cached;
      }
      if pg.available {
        var error, result := pg.Get(id, f.pgReads);
        if !error {
          if result.Some? {
            cache.Set(id, result.value, None, now);
          }
          return result;
        }
      }
      if redis.available {
        var error, result := redis.Get(id, f.redisReads);
        if !error {
          if result.Some? {
            cache.Set(id, result.value, None, now);
          }
          return result;
        }
      }
      r := memory.Get(id);
    }

    /** The tail shared by create and update. */
    method StoreEverywhere(id: string, rec: Record, now: Instant, f: Faults)
      modifies cache, pg, redis.server, memory
      ensures Contents() == WriteAll(Settings(), old(Contents()), id, rec, now, f)
      ensures redis.server.db.counters == old(redis.server.db.counters)
    {
      cache.Set(id, rec, None, now);
      if pg.available {
        var _ := pg.Store(id, rec, f.pgWrite);
      }
      if redis.available {
        redis.Store(id, rec, f.redisWrites);
      }
      memory.Store(id, rec);
    }

    method Create(id: string, title: string, description: string, stamp: Stamp, now: Instant, f: Faults)
      returns (rec: Record)
      modifies cache, pg, redis.server, memory
      ensures (Contents(), Found(rec)) ==
              Step(Settings(), old(Contents()), Event(Op.Create(id, title, description), now, stamp, f))
      ensures redis.server.db.counters == old(redis.server.db.counters)
    {
      rec := NewRecord(id, title, description, stamp);
      StoreEverywhere(id, rec, now, f);
    }

    method Update(id: string, changes: Changes, stamp: Stamp, now: Instant, f: Faults) returns (r: Option<Record>)
      modifies cache, pg, redis.server, memory
      ensures (Contents(), if r.Some? then Found(r.value) else Missing) ==
              Step(Settings(), old(Contents()), Event(Op.Update(id, changes), now, stamp, f))
      ensures redis.server.db.counters == old(redis.server.db.counters)
    {
      var existing := Get(id, now, f);
      if existing.None? {
        return None;
      }
      var updated := Amend(existing.value, changes, stamp);
      StoreEverywhere(id, updated, now, f);
      return Some(updated);
    }

    method Delete(id: string, stamp: Stamp, now: Instant, f: Faults) returns (deleted: bool)
      modifies cache, pg, redis.server, memory
      ensures (Contents(), if deleted then Gone else Missing) ==
              Step(Settings(), old(Contents()), Event(Op.Delete(id), now, stamp, f))
      ensures redis.server.db.counters == old(redis.server.db.counters)
    {
      var existing := Get(id, now, f);
      if existing.None? {
        return false;
      }
      var _ := cache.Delete(id);
      if pg.available {
        var _ := pg.Delete(id, f.pgWrite);
      }
      if redis.available {
        redis.Delete(id, f.redisWrites);
      }
      memory.Delete(id);
      return true;
    }
  }

  /** The request GET /count of app/routers/api.py. */
  method CountRequest(redis: RedisBackend, key: string, warm: seq<Attempt>, attempts: seq<Attempt>)
    returns (n: Option<int>)
    modifies redis.server
    ensures (redis.server.db, n) ==
            Count(redis.available, old(redis.server.db), key, warm, attempts, Limit(None, redis.retries))
  {
    RetryReads(redis.server.db, key, warm, Limit(None, redis.retries));
    var _ := redis.GetValue(key, warm);
    n := redis.Incr(key, attempts);
  }
}
