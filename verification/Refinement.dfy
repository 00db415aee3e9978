/** The service against one plain map. */
module Refinement {
  import opened Wrappers
  import opened OrderedDict
  import opened TtlCache
  import CacheRuns
  import opened Records
  import opened RedisClient
  import opened Storage

  // ----- The reference: one map, no cache, no tiers, no clock but the stamps -----

  function PlainStep(m: Table, op: Op, stamp: Stamp): (Table, Reply) {
    match op
    case GetAll => (m, Listing(m))
    case Get(id) => (m, if id in m then Found(m[id]) else Missing)
    case Create(id, title, description) =>
      var rec := NewRecord(id, title, description, stamp);
      (m[id := rec], Found(rec))
    case Update(id, changes) =>
      if id !in m then (m, Missing)
      else
        var rec := Amend(m[id], changes, stamp);
        (m[id := rec], Found(rec))
    case Delete(id) => if id !in m then (m, Missing) else (m - {id}, Gone)
  }

  function PlainRun(m: Table, events: seq<Event>): (r: (Table, seq<Reply>))
    ensures |r.1| == |events|
    decreases |events|
  {
    if events == [] then (m, [])
    else
      var (m1, reply) := PlainStep(m, events[0].op, events[0].stamp);
      var (m2, replies) := PlainRun(m1, events[1..]);
      (m2, [reply] + replies)
  }

  /** From any state and under any faults, a created or updated record says when that was: `updated` is the clock's
      reading, and `created` too if it is new. */
  lemma WritesAreStamped(cfg: Config, s: State, e: Event)
    requires (e.op.Create? || e.op.Update?) && Step(cfg, s, e).1.Found?
    ensures var rec := Step(cfg, s, e).1.rec;
            && rec.updated == Some(e.stamp)
            && (e.op.Create? ==> rec == Record(e.op.id, e.op.title, e.op.description, false, Some(e.stamp), Some(e.stamp)))
  {
  }

  // ----- The cache against a table -----

  /** Every entry that has not expired is the table's record. */
  ghost predicate Coherent(c: Cache<Record>, m: Table, now: Instant) {
    forall k :: k in c.store && !Expired(c.store[k], now) ==> k in m && c.store[k].value == m[k]
  }

  predicate LiveIn(c: Cache<Record>, id: string, now: Instant) {
    id in c.store && !Expired(c.store[id], now)
  }

  lemma CoherentGet(c: Cache<Record>, m: Table, k: string, now: Instant)
    requires Coherent(c, m, now)
    ensures Coherent(CacheGet(c, k, now).0, m, now)
    ensures CacheGet(c, k, now).1.Some? ==> k in m && CacheGet(c, k, now).1.value == m[k]
  {
  }

  lemma CoherentSet(c: Cache<Record>, size: Capacity, m: Table, k: string, v: Record, life: real, now: Instant)
    requires Coherent(c, m, now)
    ensures Coherent(CacheSet(c, size, k, v, life, now), m[k := v], now)
  {
    CacheRuns.MakeRoomPart(c, size, k, now);
  }

  lemma CoherentDrop(c: Cache<Record>, m: Table, k: string, now: Instant)
    requires Coherent(c, m, now)
    ensures Coherent(Drop(c, k), m - {k}, now)
  {
  }

  // ----- Lookups -----

  function Authority(cfg: Config, s: State): Table {
    if cfg.pgUp then s.pg else if cfg.redisUp then s.redis else s.memory
  }

  /** The tier a read reaches once it is past the cache. */
  function Answering(cfg: Config, s: State, f: Faults): Table {
    if cfg.pgUp && f.pgReads then s.pg
    else if cfg.redisUp && f.redisReads then s.redis
    else s.memory
  }

  /** When the cache agrees with the tier the read reaches, a lookup is a lookup in that tier, whatever was
      cached, expired or evicted, and it changes nothing but the cache. */
  lemma LookupIsAuthoritative(cfg: Config, s: State, id: string, now: Instant, f: Faults)
    requires Coherent(s.cache, Answering(cfg, s, f), now)
    ensures var (s', r) := Lookup(cfg, s, id, now, f); var m := Answering(cfg, s, f);
            && s' == s.(cache := s'.cache)
            && Coherent(s'.cache, m, now)
            && r == (if id in m then Some(m[id]) else None)
  {
    var m := Answering(cfg, s, f);
    CoherentGet(s.cache, m, id, now);
    var c := CacheGet(s.cache, id, now).0;
    if id in m {
      CoherentSet(c, cfg.size, m, id, m[id], cfg.ttl as real, now);
      assert m[id := m[id]] == m;
    }
  }

  // ----- Steps -----

  ghost predicate Dated(m: Table) {
    forall k :: k in m ==> m[k].created.Some? && m[k].updated.Some?
  }

  /** Redis answers a listing although some of its keys could not be read: the one read fault that shows. */
  ghost predicate Partial(cfg: Config, e: Event, m: Table) {
    && e.op.GetAll?
    && !(cfg.pgUp && e.faults.pgReads) && cfg.redisUp && e.faults.redisReads
    && exists k :: k in e.faults.unreadable && k in m
  }

  lemma ListingExact(cfg: Config, s: State, e: Event)
    requires e.op.GetAll?
    ensures var m := Answering(cfg, s, e.faults);
            Step(cfg, s, e).1 == Listing(m) <==> !Partial(cfg, e, m)
  {
    var m := Answering(cfg, s, e.faults);
    if exists k :: k in e.faults.unreadable && k in m {
      var k :| k in e.faults.unreadable && k in m;
      assert k !in s.redis - e.faults.unreadable;
    } else {
      assert m - e.faults.unreadable == m;
    }
  }

  /** Writes take effect on the tiers named: whether they raise afterwards does not matter. */
  predicate PgLands(cfg: Config, e: Event) {
    cfg.pgUp ==> e.faults.pgWrite != NotCommitted
  }

  predicate RedisLands(cfg: Config, e: Event) {
    cfg.redisUp ==> Reaches(e.faults.redisWrites, cfg.retries)
  }

  /** The first available tier answers reads and takes writes.  Nothing is said about the others. */
  predicate AuthorityHolds(cfg: Config, e: Event) {
    if cfg.pgUp then e.faults.pgReads && PgLands(cfg, e)
    else if cfg.redisUp then e.faults.redisReads && RedisLands(cfg, e)
    else true
  }

  /** Each reply of the run is the plain map's, except exactly for partial listings. */
  ghost predicate MatchesPlain(cfg: Config, m: Table, events: seq<Event>, replies: seq<Reply>)
    requires |events| == |replies|
    decreases |events|
  {
    events == [] ||
    (var (m1, plain) := PlainStep(m, events[0].op, events[0].stamp);
     (replies[0] == plain <==> !Partial(cfg, events[0], m)) && MatchesPlain(cfg, m1, events[1..], replies[1..]))
  }

  lemma MatchesCons(cfg: Config, m: Table, events: seq<Event>, reply: Reply, replies: seq<Reply>)
    requires |events| == |replies| + 1
    requires reply == PlainStep(m, events[0].op, events[0].stamp).1 <==> !Partial(cfg, events[0], m)
    requires MatchesPlain(cfg, PlainStep(m, events[0].op, events[0].stamp).0, events[1..], replies)
    ensures MatchesPlain(cfg, m, events, [reply] + replies)
  {
    assert ([reply] + replies)[1..] == replies;
  }

  // ----- Authority refinement -----

  ghost predicate AuthorityInv(cfg: Config, s: State, now: Instant) {
    Coherent(s.cache, Authority(cfg, s), now) && (cfg.pgUp ==> Dated(s.pg))
  }

  lemma AuthorityWrite(cfg: Config, s: State, id: string, rec: Record, e: Event)
    requires AuthorityInv(cfg, s, e.now) && AuthorityHolds(cfg, e)
    requires rec.updated.Some? && (cfg.pgUp ==> rec.created.Some?)
    ensures var s' := WriteAll(cfg, s, id, rec, e.now, e.faults);
            AuthorityInv(cfg, s', e.now) && Authority(cfg, s') == Authority(cfg, s)[id := rec]
  {
    CoherentSet(s.cache, cfg.size, Authority(cfg, s), id, rec, cfg.ttl as real, e.now);
  }

  lemma AuthorityErase(cfg: Config, s: State, id: string, e: Event)
    requires AuthorityInv(cfg, s, e.now) && AuthorityHolds(cfg, e)
    ensures var s' := EraseAll(cfg, s, id, e.faults);
            AuthorityInv(cfg, s', e.now) && Authority(cfg, s') == Authority(cfg, s) - {id}
  {
    CoherentDrop(s.cache, Authority(cfg, s), id, e.now);
  }

  lemma AuthorityUpdate(cfg: Config, s: State, e: Event)
    requires AuthorityInv(cfg, s, e.now) && AuthorityHolds(cfg, e) && e.op.Update?
    requires Answering(cfg, s, e.faults) == Authority(cfg, s)
    ensures var (s', r) := Step(cfg, s, e);
            AuthorityInv(cfg, s', e.now) && (Authority(cfg, s'), r) == PlainStep(Authority(cfg, s), e.op, e.stamp)
  {
    LookupIsAuthoritative(cfg, s, e.op.id, e.now, e.faults);
    var (s1, r) := Lookup(cfg, s, e.op.id, e.now, e.faults);
    if r.Some? {
      AuthorityWrite(cfg, s1, e.op.id, Amend(r.value, e.op.changes, e.stamp), e);
    }
  }

  lemma AuthorityDelete(cfg: Config, s: State, e: Event)
    requires AuthorityInv(cfg, s, e.now) && AuthorityHolds(cfg, e) && e.op.Delete?
    requires Answering(cfg, s, e.faults) == Authority(cfg, s)
    ensures var (s', r) := Step(cfg, s, e);
            AuthorityInv(cfg, s', e.now) && (Authority(cfg, s'), r) == PlainStep(Authority(cfg, s), e.op, e.stamp)
  {
    LookupIsAuthoritative(cfg, s, e.op.id, e.now, e.faults);
    var (s1, r) := Lookup(cfg, s, e.op.id, e.now, e.faults);
    if r.Some? {
      AuthorityErase(cfg, s1, e.op.id, e);
    }
  }

  lemma AuthorityStep(cfg: Config, s: State, e: Event)
    requires AuthorityInv(cfg, s, e.now) && AuthorityHolds(cfg, e)
    ensures var (s', r) := Step(cfg, s, e); var m := Authority(cfg, s);
            && AuthorityInv(cfg, s', e.now)
            && Authority(cfg, s') == PlainStep(m, e.op, e.stamp).0
            && (r == PlainStep(m, e.op, e.stamp).1 <==> !Partial(cfg, e, m))
  {
    assert Answering(cfg, s, e.faults) == Authority(cfg, s);
    match e.op
    case GetAll => ListingExact(cfg, s, e);
    case Get(id) => LookupIsAuthoritative(cfg, s, id, e.now, e.faults);
    case Create(id, title, description) => AuthorityWrite(cfg, s, id, NewRecord(id, title, description, e.stamp), e);
    case Update(id, changes) => AuthorityUpdate(cfg, s, e);
    case Delete(id) => AuthorityDelete(cfg, s, e);
  }

  /** If the first available tier (memory if there is none) never fails, every run replies as one plain map
      does, and leaves that tier holding the plain map, whatever the lower tiers hold and however they fail. */
  lemma {:induction false} AuthorityRefinesPlain(cfg: Config, s: State, events: seq<Event>, from: Instant)
    requires AuthorityInv(cfg, s, from) && Ordered(events, from)
    requires forall e :: e in events ==> AuthorityHolds(cfg, e)
    ensures MatchesPlain(cfg, Authority(cfg, s), events, Run(cfg, s, events).1)
    ensures Authority(cfg, Run(cfg, s, events).0) == PlainRun(Authority(cfg, s), events).0
    decreases |events|
  {
    if events != [] {
      var e := events[0];
      AuthorityStep(cfg, s, e);
      var (s1, reply) := Step(cfg, s, e);
      AuthorityRefinesPlain(cfg, s1, events[1..], e.now);
      MatchesCons(cfg, Authority(cfg, s), events, reply, Run(cfg, s1, events[1..]).1);
    }
  }

  // ----- Read faults are transparent -----

  /** Every available tier holds the same table, and the cache agrees with it. */
  ghost predicate InSync(cfg: Config, s: State, now: Instant) {
    && (cfg.pgUp ==> s.pg == s.memory && Dated(s.memory))
    && (cfg.redisUp ==> s.redis == s.memory)
    && Coherent(s.cache, s.memory, now)
  }

  lemma SyncWrite(cfg: Config, s: State, id: string, rec: Record, e: Event)
    requires InSync(cfg, s, e.now) && PgLands(cfg, e) && RedisLands(cfg, e)
    requires rec.updated.Some? && (cfg.pgUp ==> rec.created.Some?)
    ensures var s' := WriteAll(cfg, s, id, rec, e.now, e.faults);
            InSync(cfg, s', e.now) && s'.memory == s.memory[id := rec]
  {
    CoherentSet(s.cache, cfg.size, s.memory, id, rec, cfg.ttl as real, e.now);
  }

  lemma SyncErase(cfg: Config, s: State, id: string, e: Event)
    requires InSync(cfg, s, e.now) && PgLands(cfg, e) && RedisLands(cfg, e)
    ensures var s' := EraseAll(cfg, s, id, e.faults);
            InSync(cfg, s', e.now) && s'.memory == s.memory - {id}
  {
    CoherentDrop(s.cache, s.memory, id, e.now);
  }

  lemma SyncUpdate(cfg: Config, s: State, e: Event)
    requires InSync(cfg, s, e.now) && PgLands(cfg, e) && RedisLands(cfg, e) && e.op.Update?
    requires Answering(cfg, s, e.faults) == s.memory
    ensures var (s', r) := Step(cfg, s, e);
            InSync(cfg, s', e.now) && (s'.memory, r) == PlainStep(s.memory, e.op, e.stamp)
  {
    LookupIsAuthoritative(cfg, s, e.op.id, e.now, e.faults);
    var (s1, r) := Lookup(cfg, s, e.op.id, e.now, e.faults);
    if r.Some? {
      SyncWrite(cfg, s1, e.op.id, Amend(r.value, e.op.changes, e.stamp), e);
    }
  }

  lemma SyncDelete(cfg: Config, s: State, e: Event)
    requires InSync(cfg, s, e.now) && PgLands(cfg, e) && RedisLands(cfg, e) && e.op.Delete?
    requires Answering(cfg, s, e.faults) == s.memory
    ensures var (s', r) := Step(cfg, s, e);
            InSync(cfg, s', e.now) && (s'.memory, r) == PlainStep(s.memory, e.op, e.stamp)
  {
    LookupIsAuthoritative(cfg, s, e.op.id, e.now, e.faults);
    var (s1, r) := Lookup(cfg, s, e.op.id, e.now, e.faults);
    if r.Some? {
      SyncErase(cfg, s1, e.op.id, e);
    }
  }

  lemma SyncStep(cfg: Config, s: State, e: Event)
    requires InSync(cfg, s, e.now) && PgLands(cfg, e) && RedisLands(cfg, e)
    ensures var (s', r) := Step(cfg, s, e);
            && InSync(cfg, s', e.now)
            && s'.memory == PlainStep(s.memory, e.op, e.stamp).0
            && (r == PlainStep(s.memory, e.op, e.stamp).1 <==> !Partial(cfg, e, s.memory))
  {
    assert Answering(cfg, s, e.faults) == s.memory;
    match e.op
    case GetAll => ListingExact(cfg, s, e);
    case Get(id) => LookupIsAuthoritative(cfg, s, id, e.now, e.faults);
    case Create(id, title, description) => SyncWrite(cfg, s, id, NewRecord(id, title, description, e.stamp), e);
    case Update(id, changes) => SyncUpdate(cfg, s, e);
    case Delete(id) => SyncDelete(cfg, s, e);
  }

  /** If the available tiers start equal and writes take effect, then for every pattern of read errors, expiries
      and evictions each reply is the plain map's, with one exact exception: a listing answered by Redis while
      a key of the table could not be read.  The tiers stay equal to the plain map. */
  lemma {:induction false} ReadFaultsAreTransparent(cfg: Config, s: State, events: seq<Event>, from: Instant)
    requires InSync(cfg, s, from) && Ordered(events, from)
    requires forall e :: e in events ==> PgLands(cfg, e) && RedisLands(cfg, e)
    ensures MatchesPlain(cfg, s.memory, events, Run(cfg, s, events).1)
    ensures var s' := Run(cfg, s, events).0;
            && s'.memory == PlainRun(s.memory, events).0
            && (cfg.pgUp ==> s'.pg == s'.memory)
            && (cfg.redisUp ==> s'.redis == s'.memory)
    decreases |events|
  {
    if events != [] {
      var e := events[0];
      SyncStep(cfg, s, e);
      var (s1, reply) := Step(cfg, s, e);
      ReadFaultsAreTransparent(cfg, s1, events[1..], e.now);
      MatchesCons(cfg, s.memory, events, reply, Run(cfg, s1, events[1..]).1);
    }
  }

  /** The exception is real: Redis alone, one stored record, one unreadable key, and an empty listing. */
  lemma PartialListingHappens(rec: Record)
    ensures var cfg := Config(false, true, 3, 300, 1000);
            var m: Table := map["a" := rec];
            var s := State(Empty(), map[], m, m);
            var e := Event(GetAll, 0.0, 0, Faults(true, true, Committed, [], {"a"}));
            InSync(cfg, s, 0.0) && Step(cfg, s, e).1 == Listing(map[]) && PlainStep(m, GetAll, 0).1 == Listing(m)
  {
    var m: Table := map["a" := rec];
    assert m - {"a"} == map[];
  }

  // ----- Partial updates compose -----

  /** The right-biased merge of two updates. */
  function Merge(u1: Changes, u2: Changes): Changes {
    Changes(if u2.title.Some? then u2.title else u1.title,
            if u2.description.Some? then u2.description else u1.description,
            if u2.done.Some? then u2.done else u1.done)
  }

  /** An update in a synchronised state writes one amended record under one id, in every tier and the cache. */
  lemma UpdateEffect(cfg: Config, s: State, id: string, e: Event)
    requires InSync(cfg, s, e.now) && PgLands(cfg, e) && RedisLands(cfg, e)
    requires e.op.Update? && e.op.id == id && id in s.memory
    ensures var s' := Step(cfg, s, e).0; var rec := Amend(s.memory[id], e.op.changes, e.stamp);
            && InSync(cfg, s', e.now)
            && s'.memory == s.memory[id := rec]
            && s'.pg == (if cfg.pgUp then s.pg[id := rec] else s.pg)
            && s'.redis == (if cfg.redisUp then s.redis[id := rec] else s.redis)
            && id in s'.cache.store && s'.cache.store[id] == Entry(rec, e.now + cfg.ttl as real, e.now)
  {
    assert Answering(cfg, s, e.faults) == s.memory;
    LookupIsAuthoritative(cfg, s, id, e.now, e.faults);
    var (s1, r) := Lookup(cfg, s, id, e.now, e.faults);
    SyncWrite(cfg, s1, id, Amend(r.value, e.op.changes, e.stamp), e);
  }

  lemma CoherentLater(cfg: Config, s: State, t: Instant, now: Instant)
    requires InSync(cfg, s, t) && t <= now
    ensures InSync(cfg, s, now)
  {
  }

  lemma PutTwice(m: Table, k: string, v: Record, w: Record)
    ensures m[k := v][k := w] == m[k := w]
    ensures m[k := w] - {k} == m - {k}
  {
  }

  /** Two updates in a row leave every tier, and the cached record, as the single merged update does at the
      time of the second. */
  lemma UpdatesCompose(cfg: Config, s: State, id: string, e1: Event, e2: Event, e: Event)
    requires InSync(cfg, s, e1.now) && e1.now <= e2.now && id in s.memory
    requires forall x :: x in {e1, e2, e} ==> x.op.Update? && x.op.id == id && PgLands(cfg, x) && RedisLands(cfg, x)
    requires e.op.changes == Merge(e1.op.changes, e2.op.changes) && e.now == e2.now && e.stamp == e2.stamp
    ensures var twice, once := Step(cfg, Step(cfg, s, e1).0, e2).0, Step(cfg, s, e).0;
            && twice == once.(cache := twice.cache)
            && id in twice.cache.store && id in once.cache.store
            && twice.cache.store[id] == once.cache.store[id]
  {
    UpdateEffect(cfg, s, id, e1);
    var s1 := Step(cfg, s, e1).0;
    CoherentLater(cfg, s1, e1.now, e2.now);
    UpdateEffect(cfg, s1, id, e2);
    CoherentLater(cfg, s, e1.now, e.now);
    UpdateEffect(cfg, s, id, e);
    var r := s.memory[id];
    var r1, r2 := Amend(r, e1.op.changes, e1.stamp), Amend(r, e.op.changes, e.stamp);
    assert Amend(r1, e2.op.changes, e2.stamp) == r2;
    PutTwice(s.memory, id, r1, r2);
    PutTwice(s.pg, id, r1, r2);
    PutTwice(s.redis, id, r1, r2);
  }

  lemma LookupKeepsTiers(cfg: Config, s: State, id: string, now: Instant, f: Faults)
    ensures var s' := Lookup(cfg, s, id, now, f).0; s' == s.(cache := s'.cache)
  {
  }

  predicate SameElsewhere(m: Table, m': Table, id: string) {
    m' - {id} == m - {id}
  }

  lemma WriteIsLocal(cfg: Config, s: State, id: string, rec: Record, now: Instant, f: Faults)
    ensures var s' := WriteAll(cfg, s, id, rec, now, f);
            SameElsewhere(s.pg, s'.pg, id) && SameElsewhere(s.redis, s'.redis, id) && SameElsewhere(s.memory, s'.memory, id)
  {
    PutTwice(s.pg, id, rec, rec);
    PutTwice(s.redis, id, rec, rec);
    PutTwice(s.memory, id, rec, rec);
  }

  /** Under any faults an update touches no other id in any tier. */
  lemma UpdateIsLocal(cfg: Config, s: State, e: Event)
    requires e.op.Update?
    ensures var s' := Step(cfg, s, e).0; var id := e.op.id;
            SameElsewhere(s.pg, s'.pg, id) && SameElsewhere(s.redis, s'.redis, id) && SameElsewhere(s.memory, s'.memory, id)
  {
    LookupKeepsTiers(cfg, s, e.op.id, e.now, e.faults);
    var (s1, r) := Lookup(cfg, s, e.op.id, e.now, e.faults);
    if r.Some? {
      WriteIsLocal(cfg, s1, e.op.id, Amend(r.value, e.op.changes, e.stamp), e.now, e.faults);
    }
  }

  // ----- Calls that leave an id alone -----

  predicate AgreeOn(m: Table, m': Table, k: string) {
    (k in m <==> k in m') && (k in m ==> m[k] == m'[k])
  }

  /** The tiers of both states agree on `k`. */
  predicate AgreeAt(s: State, s': State, k: string) {
    AgreeOn(s.pg, s'.pg, k) && AgreeOn(s.redis, s'.redis, k) && AgreeOn(s.memory, s'.memory, k)
  }

  /** A listing or a read leaves every tier alone. */
  lemma ReadsKeepTiers(cfg: Config, s: State, e: Event)
    requires e.op.Get? || e.op.GetAll?
    ensures var s' := Step(cfg, s, e).0; s' == s.(cache := s'.cache)
  {
    if e.op.Get? {
      LookupKeepsTiers(cfg, s, e.op.id, e.now, e.faults);
    }
  }

  lemma WriteAgrees(cfg: Config, s: State, id: string, rec: Record, e: Event, k: string)
    requires id != k
    ensures var s' := WriteAll(cfg, s, id, rec, e.now, e.faults); AgreeAt(s, s', k)
  {
  }

  lemma EraseAgrees(cfg: Config, s: State, id: string, e: Event, k: string)
    requires id != k
    ensures var s' := EraseAll(cfg, s, id, e.faults); AgreeAt(s, s', k)
  {
  }

  lemma OtherWritesAgree(cfg: Config, s: State, e: Event, k: string)
    requires (e.op.Create? || e.op.Update? || e.op.Delete?) && e.op.id != k
    ensures var s' := Step(cfg, s, e).0; AgreeAt(s, s', k)
  {
    if e.op.Create? {
      WriteAgrees(cfg, s, e.op.id, NewRecord(e.op.id, e.op.title, e.op.description, e.stamp), e, k);
    } else {
      LookupKeepsTiers(cfg, s, e.op.id, e.now, e.faults);
      var (s1, r) := Lookup(cfg, s, e.op.id, e.now, e.faults);
      if r.Some? && e.op.Update? {
        WriteAgrees(cfg, s1, e.op.id, Amend(r.value, e.op.changes, e.stamp), e, k);
      } else if r.Some? {
        EraseAgrees(cfg, s1, e.op.id, e, k);
      }
    }
  }
}
