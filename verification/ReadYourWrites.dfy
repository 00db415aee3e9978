/** A written record survives in the cache long enough to be read back. */
module ReadYourWrites {
  import opened Wrappers
  import opened OrderedDict
  import opened TtlCache
  import opened Records
  import opened Storage
  import opened Refinement
  import CacheRuns
  import opened CacheFrame

  /** Since `t0` the entry for `k` has been kept, and of the other keys only `others` have been accessed. */
  ghost predicate Protected(c: Cache<Record>, k: string, v: Record, until: Instant, t0: Instant, others: set<string>) {
    && k in c.store && c.store[k].value == v && c.store[k].expiresAt == until && c.store[k].lastAccess >= t0
    && forall j :: j in c.store && j != k && c.store[j].lastAccess >= t0 ==> j in others
  }

  lemma ProtectedGet(c: Cache<Record>, k: string, v: Record, until: Instant, t0: Instant, others: set<string>,
                     key: string, now: Instant)
    requires Protected(c, k, v, until, t0, others) && t0 <= now <= until
    ensures var (c', r) := CacheGet(c, key, now);
            && Protected(c', k, v, until, t0, if r.Some? && key != k then others + {key} else others)
            && (key == k ==> r == Some(v))
  {
  }

  /** The survival argument: were the entry for `k` the victim, every other slot would hold a key accessed
      since `t0`, so with the new key there would be at least `size` of those. */
  lemma NotTheVictim(c: Cache<Record>, size: Capacity, k: string, v: Record, until: Instant, t0: Instant,
                     others: set<string>, key: string)
    requires Protected(c, k, v, until, t0, others) && Full(c, size, key)
    requires |others + {key}| < size
    ensures Victim(c) != k
  {
    if Victim(c) == k {
      SwapSize(c.store, k, key);
      CacheRuns.SubsetSize(c.store.Keys - {k} + {key}, others + {key});
    }
  }

  lemma SwapSize(m: map<string, Entry<Record>>, k: string, key: string)
    requires k in m && key !in m
    ensures |m.Keys - {k} + {key}| == |m|
  {
    CacheRuns.MapSize(m);
    assert m.Keys == m.Keys - {k} + {k};
  }

  lemma ProtectedRoom(c: Cache<Record>, size: Capacity, k: string, v: Record, until: Instant, t0: Instant,
                      others: set<string>, key: string, now: Instant)
    requires Protected(c, k, v, until, t0, others) && t0 <= now <= until
    requires key != k && |others + {key}| < size
    ensures Protected(MakeRoom(c, size, key, now), k, v, until, t0, others)
  {
    var p := if Full(c, size, key) then Purge(c, now) else c;
    assert Protected(p, k, v, until, t0, others);
    if Full(p, size, key) {
      NotTheVictim(p, size, k, v, until, t0, others, key);
    }
  }

  lemma ProtectedSet(c: Cache<Record>, size: Capacity, k: string, v: Record, until: Instant, t0: Instant,
                     others: set<string>, key: string, value: Record, life: real, now: Instant)
    requires Protected(c, k, v, until, t0, others) && t0 <= now <= until
    requires key != k && |others + {key}| < size
    ensures Protected(CacheSet(c, size, key, value, life, now), k, v, until, t0, others + {key})
  {
    ProtectedRoom(c, size, k, v, until, t0, others, key, now);
  }

  // ----- The service -----

  /** Whether a lookup accesses the cache entry of its id: a hit, or a find in PostgreSQL or Redis, which is
      cached.  A read served by the memory tier accesses none. */
  predicate Accesses(cfg: Config, s: State, id: string, now: Instant, f: Faults) {
    || CacheGet(s.cache, id, now).1.Some?
    || (((cfg.pgUp && f.pgReads) || (cfg.redisUp && f.redisReads)) && id in Answering(cfg, s, f))
  }

  /** The id whose cache entry a call sets or hits. */
  function Touched(cfg: Config, s: State, e: Event): set<string> {
    match e.op
    case GetAll => {}
    case Create(id, _, _) => {id}
    case Update(id, _) => if Step(cfg, s, e).1.Found? then {id} else {}
    case Get(id) => if Accesses(cfg, s, id, e.now, e.faults) then {id} else {}
    case Delete(id) => if Accesses(cfg, s, id, e.now, e.faults) then {id} else {}
  }

  /** All the ids so touched during a run. */
  function AllTouched(cfg: Config, s: State, events: seq<Event>): set<string>
    decreases |events|
  {
    if events == [] then {}
    else Touched(cfg, s, events[0]) + AllTouched(cfg, Step(cfg, s, events[0]).0, events[1..])
  }

  lemma ProtectedLookup(cfg: Config, s: State, k: string, v: Record, until: Instant, t0: Instant, others: set<string>,
                        id: string, now: Instant, f: Faults)
    requires Protected(s.cache, k, v, until, t0, others) && t0 <= now <= until && id != k
    requires Accesses(cfg, s, id, now, f) ==> |others + {id}| < cfg.size
    ensures Protected(Lookup(cfg, s, id, now, f).0.cache, k, v, until, t0,
                      if Accesses(cfg, s, id, now, f) then others + {id} else others)
  {
    ProtectedGet(s.cache, k, v, until, t0, others, id, now);
    var (c, hit) := CacheGet(s.cache, id, now);
    var m := Answering(cfg, s, f);
    if hit.None? && Accesses(cfg, s, id, now, f) {
      ProtectedSet(c, cfg.size, k, v, until, t0, others, id, m[id], cfg.ttl as real, now);
    }
  }

  lemma ProtectedCreate(cfg: Config, s: State, k: string, v: Record, until: Instant, t0: Instant, others: set<string>, e: Event)
    requires Protected(s.cache, k, v, until, t0, others) && t0 <= e.now <= until && e.op.Create? && e.op.id != k
    requires |others + (Touched(cfg, s, e) - {k})| < cfg.size
    ensures Protected(Step(cfg, s, e).0.cache, k, v, until, t0, others + (Touched(cfg, s, e) - {k}))
  {
    assert {e.op.id} - {k} == {e.op.id};
    ProtectedSet(s.cache, cfg.size, k, v, until, t0, others, e.op.id,
                 NewRecord(e.op.id, e.op.title, e.op.description, e.stamp), cfg.ttl as real, e.now);
  }

  lemma TouchedOther(cfg: Config, s: State, k: string, others: set<string>, e: Event)
    requires (e.op.Get? || e.op.Delete?) && e.op.id != k
    ensures others + (Touched(cfg, s, e) - {k}) ==
            if Accesses(cfg, s, e.op.id, e.now, e.faults) then others + {e.op.id} else others
  {
    assert {e.op.id} - {k} == {e.op.id};
  }

  lemma ProtectedFind(cfg: Config, s: State, k: string, v: Record, until: Instant, t0: Instant, others: set<string>, e: Event)
    requires Protected(s.cache, k, v, until, t0, others) && t0 <= e.now <= until && e.op.Get? && e.op.id != k
    requires |others + (Touched(cfg, s, e) - {k})| < cfg.size
    ensures Protected(Step(cfg, s, e).0.cache, k, v, until, t0, others + (Touched(cfg, s, e) - {k}))
  {
    TouchedOther(cfg, s, k, others, e);
    ProtectedLookup(cfg, s, k, v, until, t0, others, e.op.id, e.now, e.faults);
  }

  lemma ProtectedDrop(c: Cache<Record>, k: string, v: Record, until: Instant, t0: Instant, others: set<string>, id: string)
    requires Protected(c, k, v, until, t0, others) && id != k
    ensures Protected(Drop(c, id), k, v, until, t0, others)
  {
  }

  lemma DeleteDrops(cfg: Config, s: State, e: Event)
    requires e.op.Delete?
    ensures var (s1, r) := Lookup(cfg, s, e.op.id, e.now, e.faults);
            Step(cfg, s, e).0.cache == if r.None? then s1.cache else Drop(s1.cache, e.op.id)
  {
  }

  lemma ProtectedDelete(cfg: Config, s: State, k: string, v: Record, until: Instant, t0: Instant, others: set<string>, e: Event)
    requires Protected(s.cache, k, v, until, t0, others) && t0 <= e.now <= until && e.op.Delete? && e.op.id != k
    requires |others + (Touched(cfg, s, e) - {k})| < cfg.size
    ensures Protected(Step(cfg, s, e).0.cache, k, v, until, t0, others + (Touched(cfg, s, e) - {k}))
  {
    var next := others + (Touched(cfg, s, e) - {k});
    TouchedOther(cfg, s, k, others, e);
    ProtectedLookup(cfg, s, k, v, until, t0, others, e.op.id, e.now, e.faults);
    DeleteDrops(cfg, s, e);
    ProtectedDrop(Lookup(cfg, s, e.op.id, e.now, e.faults).0.cache, k, v, until, t0, next, e.op.id);
  }

  lemma UpdateSets(cfg: Config, s: State, e: Event)
    requires e.op.Update?
    ensures var (s1, r) := Lookup(cfg, s, e.op.id, e.now, e.faults);
            Step(cfg, s, e).0.cache ==
            (if r.None? then s1.cache
             else CacheSet(s1.cache, cfg.size, e.op.id, Amend(r.value, e.op.changes, e.stamp), cfg.ttl as real, e.now))
    ensures Touched(cfg, s, e) == if Lookup(cfg, s, e.op.id, e.now, e.faults).1.None? then {} else {e.op.id}
    ensures Accesses(cfg, s, e.op.id, e.now, e.faults) ==> Lookup(cfg, s, e.op.id, e.now, e.faults).1.Some?
  {
  }

  lemma ProtectedUpdate(cfg: Config, s: State, k: string, v: Record, until: Instant, t0: Instant, others: set<string>, e: Event)
    requires Protected(s.cache, k, v, until, t0, others) && t0 <= e.now <= until && e.op.Update? && e.op.id != k
    requires |others + (Touched(cfg, s, e) - {k})| < cfg.size
    ensures Protected(Step(cfg, s, e).0.cache, k, v, until, t0, others + (Touched(cfg, s, e) - {k}))
  {
    var id := e.op.id;
    UpdateSets(cfg, s, e);
    SameSets(others, id, k);
    ProtectedLookup(cfg, s, k, v, until, t0, others, id, e.now, e.faults);
    var (s1, r) := Lookup(cfg, s, id, e.now, e.faults);
    if r.Some? {
      ProtectedSet(s1.cache, cfg.size, k, v, until, t0,
                   if Accesses(cfg, s, id, e.now, e.faults) then others + {id} else others,
                   id, Amend(r.value, e.op.changes, e.stamp), cfg.ttl as real, e.now);
    }
  }

  lemma SameSets(others: set<string>, id: string, k: string)
    requires id != k
    ensures {id} - {k} == {id} && others + {id} + {id} == others + {id} && others + ({} - {k}) == others
  {
  }

  lemma ProtectedRead(cfg: Config, s: State, k: string, v: Record, until: Instant, t0: Instant, others: set<string>, e: Event)
    requires Protected(s.cache, k, v, until, t0, others) && t0 <= e.now <= until && e.op == Op.Get(k)
    ensures Protected(Step(cfg, s, e).0.cache, k, v, until, t0, others) && Step(cfg, s, e).1 == Found(v)
  {
    ProtectedGet(s.cache, k, v, until, t0, others, k, e.now);
  }

  lemma ProtectedStep(cfg: Config, s: State, k: string, v: Record, until: Instant, t0: Instant, others: set<string>, e: Event)
    requires Protected(s.cache, k, v, until, t0, others) && t0 <= e.now <= until && !Writes(e.op, k)
    requires |others + (Touched(cfg, s, e) - {k})| < cfg.size
    ensures Protected(Step(cfg, s, e).0.cache, k, v, until, t0, others + (Touched(cfg, s, e) - {k}))
  {
    match e.op
    case GetAll => assert others + ({} - {k}) == others;
    case Get(id) =>
      if id == k {
        ProtectedRead(cfg, s, k, v, until, t0, others, e);
        assert others + ({k} - {k}) == others;
      } else {
        ProtectedFind(cfg, s, k, v, until, t0, others, e);
      }
    case Create(_, _, _) => ProtectedCreate(cfg, s, k, v, until, t0, others, e);
    case Update(_, _) => ProtectedUpdate(cfg, s, k, v, until, t0, others, e);
    case Delete(_) => ProtectedDelete(cfg, s, k, v, until, t0, others, e);
  }

  lemma {:induction false} ProtectedRun(cfg: Config, s: State, k: string, v: Record, until: Instant, t0: Instant,
                                        others: set<string>, events: seq<Event>, from: Instant)
    requires Protected(s.cache, k, v, until, t0, others) && t0 <= from && Ordered(events, from)
    requires forall e :: e in events ==> e.now <= until && !Writes(e.op, k)
    requires |others + (AllTouched(cfg, s, events) - {k})| < cfg.size
    ensures exists others' :: |others'| < cfg.size && Protected(Run(cfg, s, events).0.cache, k, v, until, t0, others')
    decreases |events|
  {
    if events == [] {
      assert others + ({} - {k}) == others;
    } else {
      var e := events[0];
      var s1 := Step(cfg, s, e).0;
      var next := others + (Touched(cfg, s, e) - {k});
      assert next + (AllTouched(cfg, s1, events[1..]) - {k}) == others + (AllTouched(cfg, s, events) - {k});
      CacheRuns.SubsetSize(next, next + (AllTouched(cfg, s1, events[1..]) - {k}));
      ProtectedStep(cfg, s, k, v, until, t0, others, e);
      ProtectedRun(cfg, s1, k, v, until, t0, next, events[1..], e.now);
    }
  }

  /** A write at an instant after all earlier accesses protects its entry. */
  lemma WriteProtects(cfg: Config, s: State, w: Event)
    requires (w.op.Create? || w.op.Update?) && Step(cfg, s, w).1.Found?
    requires forall j :: j in s.cache.store ==> s.cache.store[j].lastAccess < w.now
    ensures Protected(Step(cfg, s, w).0.cache, w.op.id, Step(cfg, s, w).1.rec, w.now + cfg.ttl as real, w.now, {})
  {
    var k := w.op.id;
    if w.op.Update? {
      var s1 := Lookup(cfg, s, k, w.now, w.faults).0;
      LookupElsewhere(cfg, s, k, w.now, w.faults);
      SetElsewhere(s1.cache, cfg.size, k, Step(cfg, s, w).1.rec, cfg.ttl as real, w.now);
    } else {
      SetElsewhere(s.cache, cfg.size, k, Step(cfg, s, w).1.rec, cfg.ttl as real, w.now);
    }
  }

  ghost predicate Elsewhere(c: Cache<Record>, c': Cache<Record>, k: string) {
    forall j :: j in c'.store && j != k ==> j in c.store && c'.store[j] == c.store[j]
  }

  lemma SetElsewhere(c: Cache<Record>, size: Capacity, k: string, v: Record, life: real, now: Instant)
    ensures Elsewhere(c, CacheSet(c, size, k, v, life, now), k)
  {
    CacheRuns.MakeRoomPart(c, size, k, now);
  }

  lemma LookupElsewhere(cfg: Config, s: State, k: string, now: Instant, f: Faults)
    ensures Elsewhere(s.cache, Lookup(cfg, s, k, now, f).0.cache, k)
  {
    var c := CacheGet(s.cache, k, now).0;
    assert Elsewhere(s.cache, c, k);
    var m := Answering(cfg, s, f);
    if k in m {
      SetElsewhere(c, cfg.size, k, m[k], cfg.ttl as real, now);
    }
  }

  /** A protected record is read back at the end of a run. */
  lemma StillThere(cfg: Config, s: State, k: string, v: Record, until: Instant, t0: Instant, events: seq<Event>, g: Event)
    requires Protected(s.cache, k, v, until, t0, {}) && Ordered(events, t0)
    requires g.op == Op.Get(k) && t0 <= g.now <= until
    requires forall e :: e in events ==> e.now <= g.now && !Writes(e.op, k)
    requires |AllTouched(cfg, s, events) - {k}| < cfg.size
    ensures Step(cfg, Run(cfg, s, events).0, g).1 == Found(v)
  {
    var touched := AllTouched(cfg, s, events) - {k};
    assert {} + touched == touched;
    ProtectedRun(cfg, s, k, v, until, t0, {}, events, t0);
    var end := Run(cfg, s, events).0;
    var others :| |others| < cfg.size && Protected(end.cache, k, v, until, t0, others);
    ProtectedRead(cfg, end, k, v, until, t0, others, g);
  }

  /** After a create or update of `k`, and as long as nothing else writes `k`, a `get` of `k` within the TTL returns
      exactly the written version, whatever the backends do, provided fewer than `size` distinct other ids had
      their cache entries set or hit in between. */
  lemma ReadYourWrite(cfg: Config, s: State, w: Event, events: seq<Event>, g: Event)
    requires (w.op.Create? || w.op.Update?) && Step(cfg, s, w).1.Found? && g.op == Op.Get(w.op.id)
    requires forall j :: j in s.cache.store ==> s.cache.store[j].lastAccess < w.now
    requires Ordered(events, w.now) && w.now <= g.now <= w.now + cfg.ttl as real
    requires forall e :: e in events ==> e.now <= g.now && !Writes(e.op, w.op.id)
    requires |AllTouched(cfg, Step(cfg, s, w).0, events) - {w.op.id}| < cfg.size
    ensures Step(cfg, Run(cfg, Step(cfg, s, w).0, events).0, g).1 == Step(cfg, s, w).1
  {
    var k := w.op.id;
    var (s1, r) := Step(cfg, s, w);
    WriteProtects(cfg, s, w);
    StillThere(cfg, s1, k, r.rec, w.now + cfg.ttl as real, w.now, events, g);
  }

  /** A read that finds its record in the cache, PostgreSQL or Redis, at an instant after all earlier accesses, protects
      the entry. */
  lemma ReadProtects(cfg: Config, s: State, g: Event)
    requires g.op.Get? && Accesses(cfg, s, g.op.id, g.now, g.faults)
    requires forall j :: j in s.cache.store ==> s.cache.store[j].lastAccess < g.now
    ensures var (s', r) := Step(cfg, s, g); var k := g.op.id;
            r.Found? && k in s'.cache.store && Protected(s'.cache, k, r.rec, s'.cache.store[k].expiresAt, g.now, {})
  {
    LookupFinds(cfg, s, g.op.id, g.now, g.faults);
    ReadIsCachedIff(cfg, s, g);
    LookupElsewhere(cfg, s, g.op.id, g.now, g.faults);
  }

  /** Reads repeat: after a `get` of `k` that was answered by anything but memory, and as long as nothing writes `k`, every
      `get` of `k` up to the entry's deadline returns the same record, whatever the backends do, provided fewer than
      `size` distinct other ids had their cache entries set or hit in between. */
  lemma ReadsRepeat(cfg: Config, s: State, g: Event, events: seq<Event>, again: Event)
    requires g.op.Get? && Accesses(cfg, s, g.op.id, g.now, g.faults) && again.op == g.op
    requires forall j :: j in s.cache.store ==> s.cache.store[j].lastAccess < g.now
    requires var deadline := if LiveIn(s.cache, g.op.id, g.now) then s.cache.store[g.op.id].expiresAt
                             else g.now + cfg.ttl as real;
             Ordered(events, g.now) && g.now <= again.now <= deadline
    requires forall e :: e in events ==> e.now <= again.now && !Writes(e.op, g.op.id)
    requires |AllTouched(cfg, Step(cfg, s, g).0, events) - {g.op.id}| < cfg.size
    ensures var r := Step(cfg, s, g).1; r.Found? && Step(cfg, Run(cfg, Step(cfg, s, g).0, events).0, again).1 == r
  {
    ReadProtects(cfg, s, g);
    ReadIsCachedIff(cfg, s, g);
    AccessedIsAnswered(cfg, s, g);
    var (s1, r) := Step(cfg, s, g);
    StillThere(cfg, s1, g.op.id, r.rec, s1.cache.store[g.op.id].expiresAt, g.now, events, again);
  }

  lemma AccessedIsAnswered(cfg: Config, s: State, g: Event)
    requires g.op.Get?
    ensures Accesses(cfg, s, g.op.id, g.now, g.faults) <==>
            Step(cfg, s, g).1.Found? && (Answered(cfg, g.faults) || LiveIn(s.cache, g.op.id, g.now))
  {
    LookupFinds(cfg, s, g.op.id, g.now, g.faults);
  }

  /** In particular a write can be read right back, from a cache of any size. */
  lemma ReadRightBack(cfg: Config, s: State, w: Event, g: Event)
    requires (w.op.Create? || w.op.Update?) && Step(cfg, s, w).1.Found? && g.op == Op.Get(w.op.id)
    requires forall j :: j in s.cache.store ==> s.cache.store[j].lastAccess < w.now
    requires w.now <= g.now <= w.now + cfg.ttl as real
    ensures Step(cfg, Step(cfg, s, w).0, g).1 == Step(cfg, s, w).1
  {
    assert {} - {w.op.id} == {};
    ReadYourWrite(cfg, s, w, [], g);
  }

  // ----- The bound is sharp -----

  /** If the record of `a`, cached until `until`, is still there, so are all of `done`, which were cached later and
      expire later. */
  ghost predicate Outlived(c: Cache<Record>, a: string, t0: Instant, until: Instant, done: set<string>) {
    a in c.store ==>
      && c.store[a].lastAccess == t0 && c.store[a].expiresAt == until
      && forall j :: j in done ==> j in c.store && c.store[j].lastAccess > t0 && c.store[j].expiresAt >= until
  }

  lemma OutlivedRoom(c: Cache<Record>, size: Capacity, a: string, t0: Instant, until: Instant, done: set<string>,
                     key: string, now: Instant)
    requires Outlived(c, a, t0, until, done)
    ensures Outlived(MakeRoom(c, size, key, now), a, t0, until, done)
  {
    var p := if Full(c, size, key) then Purge(c, now) else c;
    assert Outlived(p, a, t0, until, done);
    if Full(p, size, key) && a in p.store {
      var v := Victim(p);
      assert v == a || v !in done;
    }
  }

  lemma OutlivedSet(c: Cache<Record>, size: Capacity, a: string, t0: Instant, until: Instant, done: set<string>,
                    key: string, v: Record, life: real, now: Instant)
    requires Outlived(c, a, t0, until, done) && key != a && now > t0 && now + life >= until
    ensures Outlived(CacheSet(c, size, key, v, life, now), a, t0, until, done + {key})
  {
    OutlivedRoom(c, size, a, t0, until, done, key, now);
  }

  function Ids(creates: seq<Event>): set<string>
    requires forall e :: e in creates ==> e.op.Create?
  {
    set e | e in creates :: e.op.id
  }

  lemma {:induction false} CreatesOutlive(cfg: Config, s: State, a: string, t0: Instant, done: set<string>, creates: seq<Event>)
    requires Outlived(s.cache, a, t0, t0 + cfg.ttl as real, done) && |s.cache.store| <= cfg.size
    requires forall e :: e in creates ==> e.op.Create? && e.op.id != a && e.now > t0 && e.faults.pgWrite == NotCommitted
    ensures var s' := Run(cfg, s, creates).0;
            && Outlived(s'.cache, a, t0, t0 + cfg.ttl as real, done + Ids(creates))
            && |s'.cache.store| <= cfg.size && s'.pg == s.pg
    decreases |creates|
  {
    if creates == [] {
      assert done + Ids(creates) == done;
    } else {
      var e := creates[0];
      var rec := NewRecord(e.op.id, e.op.title, e.op.description, e.stamp);
      OutlivedSet(s.cache, cfg.size, a, t0, t0 + cfg.ttl as real, done, e.op.id, rec, cfg.ttl as real, e.now);
      CacheRuns.SetKeepsSize(s.cache, cfg.size, e.op.id, rec, cfg.ttl as real, e.now);
      CreatesOutlive(cfg, Step(cfg, s, e).0, a, t0, done + {e.op.id}, creates[1..]);
      IdsCons(creates);
      assert done + {e.op.id} + Ids(creates[1..]) == done + Ids(creates);
    }
  }

  lemma IdsCons(creates: seq<Event>)
    requires creates != [] && forall e :: e in creates ==> e.op.Create?
    ensures Ids(creates) == {creates[0].op.id} + Ids(creates[1..])
  {
    assert creates == [creates[0]] + creates[1..];
  }

  /** Sequences of distinct ids name as many as they are long. */
  lemma {:induction false} IdsCount(creates: seq<Event>)
    requires forall e :: e in creates ==> e.op.Create?
    requires forall i, j :: 0 <= i < j < |creates| ==> creates[i].op.id != creates[j].op.id
    ensures |Ids(creates)| == |creates|
  {
    if creates != [] {
      IdsCons(creates);
      IdsCount(creates[1..]);
      assert creates[0].op.id !in Ids(creates[1..]);
    }
  }

  lemma CountedOut(c: Cache<Record>, size: Capacity, a: string, t0: Instant, until: Instant, ids: set<string>)
    requires Outlived(c, a, t0, until, ids) && |c.store| <= size && |ids| == size && a !in ids
    ensures a !in c.store
  {
    if a in c.store {
      assert ids + {a} <= c.store.Keys && |ids + {a}| == size + 1;
      CacheRuns.MapSize(c.store);
      CacheRuns.SubsetSize(ids + {a}, c.store.Keys);
    }
  }

  lemma LostCreate(cfg: Config, s: State, w: Event)
    requires |s.cache.store| <= cfg.size && w.op.Create? && w.faults.pgWrite == NotCommitted
    ensures var s1 := Step(cfg, s, w).0;
            && Outlived(s1.cache, w.op.id, w.now, w.now + cfg.ttl as real, {})
            && |s1.cache.store| <= cfg.size && s1.pg == s.pg
  {
    CacheRuns.SetKeepsSize(s.cache, cfg.size, w.op.id, NewRecord(w.op.id, w.op.title, w.op.description, w.stamp),
                           cfg.ttl as real, w.now);
  }

  lemma NowhereToRead(cfg: Config, s: State, g: Event)
    requires cfg.pgUp && g.op.Get? && g.faults.pgReads && g.op.id !in s.cache.store && g.op.id !in s.pg
    ensures Step(cfg, s, g).1 == Missing
  {
  }

  /** Creates that PostgreSQL never takes, of distinct ids other than `a`, all later than `t0`. */
  ghost predicate LostOthers(creates: seq<Event>, a: string, t0: Instant) {
    && (forall e :: e in creates ==>
          e.op.Create? && e.op.id != a && e.now > t0 && e.faults.pgWrite == NotCommitted)
    && (forall i, j :: 0 <= i < j < |creates| ==> creates[i].op.id != creates[j].op.id)
  }

  lemma IdsOfOthers(creates: seq<Event>, a: string, t0: Instant)
    requires LostOthers(creates, a, t0)
    ensures |Ids(creates)| == |creates| && a !in Ids(creates) && {} + Ids(creates) == Ids(creates)
  {
    IdsCount(creates);
  }

  lemma DrownedOut(cfg: Config, s: State, a: string, t0: Instant, creates: seq<Event>)
    requires Outlived(s.cache, a, t0, t0 + cfg.ttl as real, {}) && |s.cache.store| <= cfg.size
    requires LostOthers(creates, a, t0) && |creates| == cfg.size
    ensures var s' := Run(cfg, s, creates).0; a !in s'.cache.store && s'.pg == s.pg
  {
    IdsOfOthers(creates, a, t0);
    CreatesOutlive(cfg, s, a, t0, {}, creates);
    CountedOut(Run(cfg, s, creates).0.cache, cfg.size, a, t0, t0 + cfg.ttl as real, Ids(creates));
  }

  /** The bound is sharp for every size: a write PostgreSQL never took is missing after as many creates of other,
      distinct ids as the cache has slots. */
  lemma SizeManyLoseTheWrite(cfg: Config, s: State, w: Event, creates: seq<Event>, g: Event)
    requires cfg.pgUp && |s.cache.store| <= cfg.size && |creates| == cfg.size
    requires w.op.Create? && w.op.id !in s.pg && w.faults.pgWrite == NotCommitted
    requires LostOthers(creates, w.op.id, w.now)
    requires g.op == Op.Get(w.op.id) && g.faults.pgReads
    ensures Step(cfg, Run(cfg, Step(cfg, s, w).0, creates).0, g).1 == Missing
  {
    LostCreate(cfg, s, w);
    DrownedOut(cfg, Step(cfg, s, w).0, w.op.id, w.now, creates);
    NowhereToRead(cfg, Run(cfg, Step(cfg, s, w).0, creates).0, g);
  }
}
