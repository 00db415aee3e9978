/** Where the entries of a cache come from, step by step. */
module CacheFrame {
  import opened Wrappers
  import opened TtlCache
  import CacheRuns
  import opened Records
  import opened Storage
  import opened Refinement

  /** The entry was there before, with the same value and deadline: an access never extends a deadline. */
  predicate Kept(c: Cache<Record>, c': Cache<Record>, k: string)
    requires k in c'.store
  {
    k in c.store && c'.store[k].value == c.store[k].value && c'.store[k].expiresAt == c.store[k].expiresAt
  }

  ghost predicate OnlyNew(cfg: Config, c: Cache<Record>, c': Cache<Record>, id: string, r: Option<Record>, now: Instant) {
    forall k :: k in c'.store ==>
      Kept(c, c', k) || (k == id && r == Some(c'.store[k].value) && c'.store[k].expiresAt == now + cfg.ttl as real)
  }

  lemma SetOnlyNew(cfg: Config, c: Cache<Record>, id: string, v: Record, now: Instant)
    ensures OnlyNew(cfg, c, CacheSet(c, cfg.size, id, v, cfg.ttl as real, now), id, Some(v), now)
  {
    CacheRuns.MakeRoomPart(c, cfg.size, id, now);
  }

  lemma GetOnlyNew(cfg: Config, c: Cache<Record>, id: string, now: Instant)
    ensures var (c', hit) := CacheGet(c, id, now);
            && (forall k :: k in c'.store ==> Kept(c, c', k))
            && hit == (if LiveIn(c, id, now) then Some(c.store[id].value) else None)
  {
  }

  lemma LookupFinds(cfg: Config, s: State, id: string, now: Instant, f: Faults)
    ensures var r, m := Lookup(cfg, s, id, now, f).1, Answering(cfg, s, f);
            r == if LiveIn(s.cache, id, now) then Some(s.cache.store[id].value) else if id in m then Some(m[id]) else None
  {
    GetOnlyNew(cfg, s.cache, id, now);
  }

  /** From any state, under any faults, a call on a stored record answers from what a lookup finds: a live entry, however
      stale, else what the tier reached holds; and from the request, for a create. */
  lemma RepliesFollowTheLookup(cfg: Config, s: State, e: Event)
    requires !e.op.GetAll?
    ensures var r, m, id := Step(cfg, s, e).1, Answering(cfg, s, e.faults), e.op.id;
            var found := if LiveIn(s.cache, id, e.now) then Some(s.cache.store[id].value)
                         else if id in m then Some(m[id]) else None;
            match e.op
            case Get(_) => r == if found.Some? then Found(found.value) else Missing
            case Update(_, u) => r == if found.Some? then Found(Amend(found.value, u, e.stamp)) else Missing
            case Delete(_) => r == if found.Some? then Gone else Missing
            case Create(_, title, description) => r == Found(NewRecord(id, title, description, e.stamp))
            case GetAll => true
  {
    if !e.op.Create? {
      LookupFinds(cfg, s, e.op.id, e.now, e.faults);
    }
  }

  lemma LookupFrame(cfg: Config, s: State, id: string, now: Instant, f: Faults)
    ensures var (s', r) := Lookup(cfg, s, id, now, f); var m := Answering(cfg, s, f);
            && OnlyNew(cfg, s.cache, s'.cache, id, r, now)
            && (r.Some? ==>
                  (id in s.cache.store && !Expired(s.cache.store[id], now) && r.value == s.cache.store[id].value) ||
                  (id in m && r.value == m[id]))
            && (r.None? ==> id !in m)
            && (forall k :: k in s'.cache.store ==> Kept(s.cache, s'.cache, k) || (id in m && s'.cache.store[k].value == m[id]))
  {
    var m, c := Answering(cfg, s, f), CacheGet(s.cache, id, now).0;
    GetOnlyNew(cfg, s.cache, id, now);
    LookupFinds(cfg, s, id, now, f);
    if !LiveIn(s.cache, id, now) && id in m {
      UpdateFrame(cfg, s.cache, c, id, None, m[id], now);
    }
  }

  /** PostgreSQL or Redis answers the read. */
  predicate Answered(cfg: Config, f: Faults) {
    (cfg.pgUp && f.pgReads) || (cfg.redisUp && f.redisReads)
  }

  /** The cached entry of an id after a read of it that found `r`: accessed now, and until when it was, or for one TTL. */
  ghost predicate CachedRead(cfg: Config, c: Cache<Record>, c': Cache<Record>, id: string, r: Record, now: Instant) {
    && id in c'.store && c'.store[id].value == r && c'.store[id].lastAccess == now
    && c'.store[id].expiresAt == if LiveIn(c, id, now) then c.store[id].expiresAt else now + cfg.ttl as real
  }

  /** From any state, under any faults: a read that finds a record leaves it cached, unless only memory answered; then,
      and when it finds nothing, the id is not cached. */
  lemma ReadIsCachedIff(cfg: Config, s: State, e: Event)
    requires e.op.Get?
    ensures var (s', r) := Step(cfg, s, e); var id := e.op.id;
            if r.Found? && (Answered(cfg, e.faults) || LiveIn(s.cache, id, e.now))
            then CachedRead(cfg, s.cache, s'.cache, id, r.rec, e.now)
            else id !in s'.cache.store
  {
    LookupFinds(cfg, s, e.op.id, e.now, e.faults);
  }

  lemma UpdateFrame(cfg: Config, c: Cache<Record>, c1: Cache<Record>, id: string, r: Option<Record>, rec: Record, now: Instant)
    requires OnlyNew(cfg, c, c1, id, r, now)
    ensures OnlyNew(cfg, c, CacheSet(c1, cfg.size, id, rec, cfg.ttl as real, now), id, Some(rec), now)
  {
    SetOnlyNew(cfg, c1, id, rec, now);
    var c2 := CacheSet(c1, cfg.size, id, rec, cfg.ttl as real, now);
    forall k | k in c2.store && k != id
      ensures Kept(c, c2, k)
    {
      assert Kept(c1, c2, k) && Kept(c, c1, k);
    }
  }

  lemma UpdateStepFrame(cfg: Config, s: State, e: Event)
    requires e.op.Update?
    ensures var (s', r) := Step(cfg, s, e);
            OnlyNew(cfg, s.cache, s'.cache, e.op.id, if r.Found? then Some(r.rec) else None, e.now)
  {
    LookupFrame(cfg, s, e.op.id, e.now, e.faults);
    var (s1, r) := Lookup(cfg, s, e.op.id, e.now, e.faults);
    if r.Some? {
      UpdateFrame(cfg, s.cache, s1.cache, e.op.id, r, Amend(r.value, e.op.changes, e.stamp), e.now);
    }
  }

  lemma DeleteStepFrame(cfg: Config, s: State, e: Event)
    requires e.op.Delete?
    ensures OnlyNew(cfg, s.cache, Step(cfg, s, e).0.cache, e.op.id, None, e.now)
  {
    LookupFrame(cfg, s, e.op.id, e.now, e.faults);
  }

  /** Over any call, an entry is either kept or holds the record the call returned, from now until the TTL. */
  lemma StepFrame(cfg: Config, s: State, e: Event)
    ensures var (s', r) := Step(cfg, s, e);
            OnlyNew(cfg, s.cache, s'.cache, if e.op.GetAll? then "" else e.op.id,
                    if r.Found? then Some(r.rec) else None, e.now)
  {
    match e.op
    case GetAll =>
    case Get(id) => LookupFrame(cfg, s, id, e.now, e.faults);
    case Create(id, title, description) => SetOnlyNew(cfg, s.cache, id, NewRecord(id, title, description, e.stamp), e.now);
    case Update(_, _) => UpdateStepFrame(cfg, s, e);
    case Delete(_) => DeleteStepFrame(cfg, s, e);
  }
}
