/** The service against one plain map, one record at a time: what is lost of one id never shows in another. */
module PerRecord {
  import opened Wrappers
  import opened TtlCache
  import opened Records
  import opened Storage
  import opened Refinement
  import opened CacheFrame

  /** As far as `k` goes, every available tier holds the same, and the cache agrees with it. */
  ghost predicate InSyncAt(cfg: Config, s: State, k: string, now: Instant) {
    && (cfg.pgUp ==> AgreeOn(s.pg, s.memory, k) && (k in s.memory ==> s.memory[k].created.Some?))
    && (cfg.redisUp ==> AgreeOn(s.redis, s.memory, k))
    && (LiveIn(s.cache, k, now) ==> k in s.memory && s.cache.store[k].value == s.memory[k])
  }

  predicate Addresses(op: Op, k: string) {
    !op.GetAll? && op.id == k
  }

  /** Redis answers the listing and cannot read `k`. */
  predicate Hidden(cfg: Config, e: Event, k: string) {
    !(cfg.pgUp && e.faults.pgReads) && cfg.redisUp && e.faults.redisReads && k in e.faults.unreadable
  }

  /** The reply is the plain map's in what it says of `k`: the whole reply of a call on `k`, and the row of `k` in a
      listing, except exactly when it is hidden. */
  ghost predicate RightAbout(cfg: Config, m: Table, e: Event, reply: Reply, k: string) {
    && (Addresses(e.op, k) ==> reply == PlainStep(m, e.op, e.stamp).1)
    && (e.op.GetAll? ==> reply.Listing? && (AgreeOn(reply.table, m, k) <==> !(Hidden(cfg, e, k) && k in m)))
  }

  ghost predicate AllRightAbout(cfg: Config, m: Table, events: seq<Event>, replies: seq<Reply>, k: string)
    requires |events| == |replies|
    decreases |events|
  {
    events == [] ||
    (RightAbout(cfg, m, events[0], replies[0], k) &&
     AllRightAbout(cfg, PlainStep(m, events[0].op, events[0].stamp).0, events[1..], replies[1..], k))
  }

  lemma RightCons(cfg: Config, m: Table, events: seq<Event>, reply: Reply, replies: seq<Reply>, k: string)
    requires |events| == |replies| + 1 && RightAbout(cfg, m, events[0], reply, k)
    requires AllRightAbout(cfg, PlainStep(m, events[0].op, events[0].stamp).0, events[1..], replies, k)
    ensures AllRightAbout(cfg, m, events, [reply] + replies, k)
  {
    assert ([reply] + replies)[1..] == replies;
  }

  // ----- Calls on the record -----

  lemma LookupAt(cfg: Config, s: State, k: string, now: Instant, f: Faults)
    requires InSyncAt(cfg, s, k, now)
    ensures var (s', r) := Lookup(cfg, s, k, now, f);
            && InSyncAt(cfg, s', k, now)
            && s' == s.(cache := s'.cache)
            && r == (if k in s.memory then Some(s.memory[k]) else None)
  {
    LookupFrame(cfg, s, k, now, f);
    LookupKeepsTiers(cfg, s, k, now, f);
  }

  /** A write that takes effect brings the record into step, whatever state it was in. */
  lemma WriteAt(cfg: Config, s: State, k: string, rec: Record, e: Event)
    requires PgLands(cfg, e) && RedisLands(cfg, e) && rec.updated.Some? && (cfg.pgUp ==> rec.created.Some?)
    ensures var s' := WriteAll(cfg, s, k, rec, e.now, e.faults);
            InSyncAt(cfg, s', k, e.now) && s'.memory == s.memory[k := rec]
  {
  }

  lemma EraseAt(cfg: Config, s: State, k: string, e: Event)
    requires PgLands(cfg, e) && RedisLands(cfg, e)
    ensures var s' := EraseAll(cfg, s, k, e.faults); InSyncAt(cfg, s', k, e.now) && s'.memory == s.memory - {k}
  {
  }

  lemma UpdateAt(cfg: Config, s: State, m: Table, e: Event, k: string)
    requires InSyncAt(cfg, s, k, e.now) && AgreeOn(m, s.memory, k) && e.op.Update? && e.op.id == k
    requires PgLands(cfg, e) && RedisLands(cfg, e)
    ensures var (s', r) := Step(cfg, s, e); var (m', plain) := PlainStep(m, e.op, e.stamp);
            InSyncAt(cfg, s', k, e.now) && AgreeOn(m', s'.memory, k) && r == plain
  {
    LookupAt(cfg, s, k, e.now, e.faults);
    var (s1, r) := Lookup(cfg, s, k, e.now, e.faults);
    if r.Some? {
      WriteAt(cfg, s1, k, Amend(r.value, e.op.changes, e.stamp), e);
    }
  }

  lemma DeleteAt(cfg: Config, s: State, m: Table, e: Event, k: string)
    requires InSyncAt(cfg, s, k, e.now) && AgreeOn(m, s.memory, k) && e.op.Delete? && e.op.id == k
    requires PgLands(cfg, e) && RedisLands(cfg, e)
    ensures var (s', r) := Step(cfg, s, e); var (m', plain) := PlainStep(m, e.op, e.stamp);
            InSyncAt(cfg, s', k, e.now) && AgreeOn(m', s'.memory, k) && r == plain
  {
    LookupAt(cfg, s, k, e.now, e.faults);
    var (s1, r) := Lookup(cfg, s, k, e.now, e.faults);
    if r.Some? {
      EraseAt(cfg, s1, k, e);
    }
  }

  lemma OwnStep(cfg: Config, s: State, m: Table, e: Event, k: string)
    requires InSyncAt(cfg, s, k, e.now) && AgreeOn(m, s.memory, k) && Addresses(e.op, k)
    requires Writes(e.op, k) ==> PgLands(cfg, e) && RedisLands(cfg, e)
    ensures var (s', r) := Step(cfg, s, e); var (m', plain) := PlainStep(m, e.op, e.stamp);
            InSyncAt(cfg, s', k, e.now) && AgreeOn(m', s'.memory, k) && r == plain
  {
    match e.op
    case Get(_) => LookupAt(cfg, s, k, e.now, e.faults);
    case Create(_, title, description) => WriteAt(cfg, s, k, NewRecord(k, title, description, e.stamp), e);
    case Update(_, _) => UpdateAt(cfg, s, m, e, k);
    case Delete(_) => DeleteAt(cfg, s, m, e, k);
  }

  // ----- Other calls -----

  lemma ListedAt(cfg: Config, s: State, m: Table, e: Event, k: string)
    requires InSyncAt(cfg, s, k, e.now) && AgreeOn(m, s.memory, k) && e.op.GetAll?
    ensures RightAbout(cfg, m, e, Step(cfg, s, e).1, k)
  {
  }

  lemma PlainElsewhere(m: Table, e: Event, k: string)
    requires !Addresses(e.op, k)
    ensures AgreeOn(m, PlainStep(m, e.op, e.stamp).0, k)
  {
  }

  /** Calls on other ids, with any faults at all, leave the record in step. */
  lemma OtherStep(cfg: Config, s: State, m: Table, e: Event, k: string)
    requires InSyncAt(cfg, s, k, e.now) && AgreeOn(m, s.memory, k) && !Addresses(e.op, k)
    ensures var s' := Step(cfg, s, e).0;
            InSyncAt(cfg, s', k, e.now) && AgreeOn(PlainStep(m, e.op, e.stamp).0, s'.memory, k)
  {
    PlainElsewhere(m, e, k);
    StepFrame(cfg, s, e);
    if e.op.Get? || e.op.GetAll? {
      ReadsKeepTiers(cfg, s, e);
    } else {
      OtherWritesAgree(cfg, s, e, k);
    }
  }

  lemma StepAt(cfg: Config, s: State, m: Table, e: Event, k: string)
    requires InSyncAt(cfg, s, k, e.now) && AgreeOn(m, s.memory, k)
    requires Writes(e.op, k) ==> PgLands(cfg, e) && RedisLands(cfg, e)
    ensures var (s', r) := Step(cfg, s, e);
            && InSyncAt(cfg, s', k, e.now)
            && AgreeOn(PlainStep(m, e.op, e.stamp).0, s'.memory, k)
            && RightAbout(cfg, m, e, r, k)
  {
    if Addresses(e.op, k) {
      OwnStep(cfg, s, m, e, k);
    } else {
      OtherStep(cfg, s, m, e, k);
      if e.op.GetAll? {
        ListedAt(cfg, s, m, e, k);
      }
    }
  }

  // ----- Runs -----

  /** If the tiers agree on `k` and the writes of `k` take effect, then whatever becomes of any other id, and whatever
      reads fail, entries expire or are evicted, every reply is the plain map's in what it says of `k`, and every
      available tier ends with what the plain map holds under `k`. */
  lemma {:induction false} EachIdOnItsOwn(cfg: Config, s: State, m: Table, events: seq<Event>, from: Instant, k: string)
    requires InSyncAt(cfg, s, k, from) && AgreeOn(m, s.memory, k) && Ordered(events, from)
    requires forall e :: e in events && Writes(e.op, k) ==> PgLands(cfg, e) && RedisLands(cfg, e)
    ensures AllRightAbout(cfg, m, events, Run(cfg, s, events).1, k)
    ensures var s', m' := Run(cfg, s, events).0, PlainRun(m, events).0;
            && AgreeOn(m', s'.memory, k)
            && (cfg.pgUp ==> AgreeOn(m', s'.pg, k))
            && (cfg.redisUp ==> AgreeOn(m', s'.redis, k))
    decreases |events|
  {
    if events != [] {
      var e := events[0];
      StepAt(cfg, s, m, e, k);
      var (s1, reply) := Step(cfg, s, e);
      EachIdOnItsOwn(cfg, s1, PlainStep(m, e.op, e.stamp).0, events[1..], e.now, k);
      RightCons(cfg, m, events, reply, Run(cfg, s1, events[1..]).1, k);
    }
  }

  /** A write that took effect leaves its id in step, whatever state it met. */
  lemma WroteAt(cfg: Config, s: State, w: Event, k: string)
    requires Writes(w.op, k) && PgLands(cfg, w) && RedisLands(cfg, w)
    requires var r := Step(cfg, s, w).1; r != Missing && (cfg.pgUp && r.Found? ==> r.rec.created.Some?)
    ensures var (s', r) := Step(cfg, s, w);
            InSyncAt(cfg, s', k, w.now) && AgreeOn(if r.Found? then map[k := r.rec] else map[], s'.memory, k)
  {
    var r := Step(cfg, s, w).1;
    if w.op.Create? {
      WriteAt(cfg, s, k, r.rec, w);
    } else {
      var s1 := Lookup(cfg, s, k, w.now, w.faults).0;
      if w.op.Update? {
        WriteAt(cfg, s1, k, r.rec, w);
      } else {
        EraseAt(cfg, s1, k, w);
      }
    }
  }

  /** A lost write is not for ever: from any state, however the tiers and the cache differ, a write of an id that finds
      it and takes effect starts a run whose replies are right about the id, counted from what that write replied. */
  lemma WriteHeals(cfg: Config, s: State, w: Event, k: string, events: seq<Event>)
    requires Writes(w.op, k) && PgLands(cfg, w) && RedisLands(cfg, w) && Ordered(events, w.now)
    requires var r := Step(cfg, s, w).1; r != Missing && (cfg.pgUp && r.Found? ==> r.rec.created.Some?)
    requires forall e :: e in events && Writes(e.op, k) ==> PgLands(cfg, e) && RedisLands(cfg, e)
    ensures var (s', r) := Step(cfg, s, w); var m: Table := if r.Found? then map[k := r.rec] else map[];
            AllRightAbout(cfg, m, events, Run(cfg, s', events).1, k)
  {
    var (s', r) := Step(cfg, s, w);
    WroteAt(cfg, s, w, k);
    EachIdOnItsOwn(cfg, s', if r.Found? then map[k := r.rec] else map[], events, w.now, k);
  }
}
