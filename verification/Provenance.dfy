/** What stays true of the tiers however the backends fail. */
module Provenance {
  import opened Wrappers
  import opened TtlCache
  import opened Records
  import opened RedisClient
  import opened Storage
  import opened Refinement
  import opened CacheFrame

  // ----- Each tier is the log of the writes it took -----

  datatype Tier = InPg | InRedis | InMemory

  function TableOf(s: State, tier: Tier): Table {
    match tier
    case InPg => s.pg
    case InRedis => s.redis
    case InMemory => s.memory
  }

  /** The tier takes an acknowledged write, whatever becomes of it elsewhere: PostgreSQL if it is up, commits and finds
      both timestamps, Redis if it is up and some attempt within the limit takes effect, memory always. */
  predicate Takes(cfg: Config, tier: Tier, e: Event, r: Reply) {
    match tier
    case InPg =>
      && cfg.pgUp && e.faults.pgWrite != NotCommitted
      && (r.Found? ==> r.rec.created.Some? && r.rec.updated.Some?)
    case InRedis => cfg.redisUp && exists i :: 0 <= i < cfg.retries && At(e.faults.redisWrites, i) != Raises
    case InMemory => true
  }

  /** A write a caller was told about, on a table: nothing but the operation and its reply. */
  function Logged(m: Table, op: Op, r: Reply): Table {
    if (op.Create? || op.Update?) && r.Found? then m[op.id := r.rec]
    else if op.Delete? && r.Gone? then m - {op.id}
    else m
  }

  /** The acknowledged writes that the tier took, replayed on a table. */
  function Replay(cfg: Config, tier: Tier, m: Table, events: seq<Event>, replies: seq<Reply>): Table
    requires |events| == |replies|
    decreases |events|
  {
    if events == [] then m
    else
      var m1 := if Takes(cfg, tier, events[0], replies[0]) then Logged(m, events[0].op, replies[0]) else m;
      Replay(cfg, tier, m1, events[1..], replies[1..])
  }

  lemma WriteTaken(cfg: Config, s: State, tier: Tier, id: string, rec: Record, e: Event)
    ensures TableOf(WriteAll(cfg, s, id, rec, e.now, e.faults), tier) ==
            if Takes(cfg, tier, e, Found(rec)) then TableOf(s, tier)[id := rec] else TableOf(s, tier)
  {
  }

  lemma EraseTaken(cfg: Config, s: State, tier: Tier, id: string, e: Event)
    ensures TableOf(EraseAll(cfg, s, id, e.faults), tier) ==
            if Takes(cfg, tier, e, Gone) then TableOf(s, tier) - {id} else TableOf(s, tier)
  {
  }

  lemma UpdateTaken(cfg: Config, s: State, tier: Tier, e: Event)
    requires e.op.Update?
    ensures var (s', r) := Step(cfg, s, e);
            TableOf(s', tier) == if r.Found? && Takes(cfg, tier, e, r) then TableOf(s, tier)[e.op.id := r.rec]
                                 else TableOf(s, tier)
  {
    LookupKeepsTiers(cfg, s, e.op.id, e.now, e.faults);
    var (s1, r) := Lookup(cfg, s, e.op.id, e.now, e.faults);
    if r.Some? {
      WriteTaken(cfg, s1, tier, e.op.id, Amend(r.value, e.op.changes, e.stamp), e);
    }
  }

  lemma DeleteTaken(cfg: Config, s: State, tier: Tier, e: Event)
    requires e.op.Delete?
    ensures var (s', r) := Step(cfg, s, e);
            TableOf(s', tier) == if r.Gone? && Takes(cfg, tier, e, r) then TableOf(s, tier) - {e.op.id}
                                 else TableOf(s, tier)
  {
    LookupKeepsTiers(cfg, s, e.op.id, e.now, e.faults);
    var (s1, r) := Lookup(cfg, s, e.op.id, e.now, e.faults);
    if r.Some? {
      EraseTaken(cfg, s1, tier, e.op.id, e);
    }
  }

  /** One call from any state, under any faults: no tier's failure keeps a write from another. */
  lemma EachTierTakesItsOwn(cfg: Config, s: State, tier: Tier, e: Event)
    ensures var (s', r) := Step(cfg, s, e);
            TableOf(s', tier) == if Takes(cfg, tier, e, r) then Logged(TableOf(s, tier), e.op, r) else TableOf(s, tier)
  {
    match e.op
    case GetAll =>
    case Get(id) => LookupKeepsTiers(cfg, s, id, e.now, e.faults);
    case Create(id, title, description) => WriteTaken(cfg, s, tier, id, NewRecord(id, title, description, e.stamp), e);
    case Update(_, _) => UpdateTaken(cfg, s, tier, e);
    case Delete(_) => DeleteTaken(cfg, s, tier, e);
  }

  /** Over every run, from any state and under every pattern of failures, each tier is the replay of exactly those
      acknowledged writes that it took itself. */
  lemma {:induction false} EachTierIsItsLog(cfg: Config, s: State, tier: Tier, events: seq<Event>)
    ensures var (s', replies) := Run(cfg, s, events);
            TableOf(s', tier) == Replay(cfg, tier, TableOf(s, tier), events, replies)
    decreases |events|
  {
    if events != [] {
      EachTierTakesItsOwn(cfg, s, tier, events[0]);
      var (s1, r) := Step(cfg, s, events[0]);
      var replies := Run(cfg, s1, events[1..]).1;
      EachTierIsItsLog(cfg, s1, tier, events[1..]);
      assert ([r] + replies)[1..] == replies;
    }
  }

  /** In particular memory is the replay of all acknowledged writes. */
  lemma MemoryIsTheLog(cfg: Config, s: State, events: seq<Event>)
    ensures Run(cfg, s, events).0.memory == Replay(cfg, InMemory, s.memory, events, Run(cfg, s, events).1)
  {
    EachTierIsItsLog(cfg, s, InMemory, events);
  }

  // ----- Every record anywhere has a known origin -----

  type Version = (string, Record)

  ghost predicate Known(m: Table, known: set<Version>) {
    forall k :: k in m ==> (k, m[k]) in known
  }

  ghost predicate KnownCache(c: Cache<Record>, known: set<Version>) {
    forall k :: k in c.store ==> (k, c.store[k].value) in known
  }

  ghost predicate KnownState(s: State, known: set<Version>) {
    Known(s.pg, known) && Known(s.redis, known) && Known(s.memory, known) && KnownCache(s.cache, known)
  }

  ghost predicate KnownReply(e: Event, r: Reply, known: set<Version>) {
    && (r.Found? ==> !e.op.GetAll? && (e.op.id, r.rec) in known)
    && (r.Listing? ==> Known(r.table, known))
  }

  /** The version a call writes. */
  function Wrote(e: Event, r: Reply): set<Version> {
    if (e.op.Create? || e.op.Update?) && r.Found? then {(e.op.id, r.rec)} else {}
  }

  /** Everything written during a run, together with what was there before. */
  function Versions(known: set<Version>, events: seq<Event>, replies: seq<Reply>): set<Version>
    requires |events| == |replies|
    decreases |events|
  {
    if events == [] then known else Versions(known + Wrote(events[0], replies[0]), events[1..], replies[1..])
  }

  lemma {:induction false} VersionsGrow(known: set<Version>, events: seq<Event>, replies: seq<Reply>)
    requires |events| == |replies|
    ensures known <= Versions(known, events, replies)
    decreases |events|
  {
    if events != [] {
      VersionsGrow(known + Wrote(events[0], replies[0]), events[1..], replies[1..]);
    }
  }

  lemma KnownLookup(cfg: Config, s: State, id: string, now: Instant, f: Faults, known: set<Version>)
    requires KnownState(s, known)
    ensures var (s', r) := Lookup(cfg, s, id, now, f);
            KnownState(s', known) && (r.Some? ==> (id, r.value) in known)
  {
    LookupKeepsTiers(cfg, s, id, now, f);
    LookupFrame(cfg, s, id, now, f);
  }

  lemma KnownWrite(cfg: Config, s: State, id: string, rec: Record, now: Instant, f: Faults, known: set<Version>)
    requires KnownState(s, known)
    ensures KnownState(WriteAll(cfg, s, id, rec, now, f), known + {(id, rec)})
  {
    SetOnlyNew(cfg, s.cache, id, rec, now);
  }

  lemma KnownUpdate(cfg: Config, s: State, e: Event, known: set<Version>)
    requires KnownState(s, known) && e.op.Update?
    ensures var (s', r) := Step(cfg, s, e); KnownState(s', known + Wrote(e, r))
  {
    KnownLookup(cfg, s, e.op.id, e.now, e.faults, known);
    var (s1, r) := Lookup(cfg, s, e.op.id, e.now, e.faults);
    if r.Some? {
      KnownWrite(cfg, s1, e.op.id, Amend(r.value, e.op.changes, e.stamp), e.now, e.faults, known);
    }
  }

  lemma KnownDelete(cfg: Config, s: State, e: Event, known: set<Version>)
    requires KnownState(s, known) && e.op.Delete?
    ensures KnownState(Step(cfg, s, e).0, known)
  {
    KnownLookup(cfg, s, e.op.id, e.now, e.faults, known);
  }

  lemma KnownStep(cfg: Config, s: State, e: Event, known: set<Version>)
    requires KnownState(s, known)
    ensures var (s', r) := Step(cfg, s, e);
            KnownState(s', known + Wrote(e, r)) && KnownReply(e, r, known + Wrote(e, r))
  {
    match e.op
    case GetAll =>
    case Get(id) => KnownLookup(cfg, s, id, e.now, e.faults, known);
    case Create(id, title, description) =>
      KnownWrite(cfg, s, id, NewRecord(id, title, description, e.stamp), e.now, e.faults, known);
    case Update(id, changes) => KnownUpdate(cfg, s, e, known);
    case Delete(id) => KnownDelete(cfg, s, e, known);
  }

  /** After every run, under any faults, each record in any tier or the cache, and each record in a reply, is a
      version some create or update of that id wrote, or was there at the start. */
  lemma {:induction false} EveryRecordHasAnOrigin(cfg: Config, s: State, events: seq<Event>, known: set<Version>)
    requires KnownState(s, known)
    ensures var (s', replies) := Run(cfg, s, events); var all := Versions(known, events, replies);
            KnownState(s', all) && forall i :: 0 <= i < |events| ==> KnownReply(events[i], replies[i], all)
    decreases |events|
  {
    if events != [] {
      var e := events[0];
      KnownStep(cfg, s, e, known);
      var (s1, r) := Step(cfg, s, e);
      var replies := Run(cfg, s1, events[1..]).1;
      EveryRecordHasAnOrigin(cfg, s1, events[1..], known + Wrote(e, r));
      VersionsGrow(known + Wrote(e, r), events[1..], replies);
      KnownRepliesCons(events, r, replies, known);
    }
  }

  lemma KnownRepliesCons(events: seq<Event>, r: Reply, replies: seq<Reply>, known: set<Version>)
    requires |events| == |replies| + 1
    requires var rest := Versions(known + Wrote(events[0], r), events[1..], replies);
             && KnownReply(events[0], r, known + Wrote(events[0], r)) && known + Wrote(events[0], r) <= rest
             && forall i :: 0 <= i < |replies| ==> KnownReply(events[1..][i], replies[i], rest)
    ensures var all := Versions(known, events, [r] + replies);
            && all == Versions(known + Wrote(events[0], r), events[1..], replies)
            && forall i :: 0 <= i < |events| ==> KnownReply(events[i], ([r] + replies)[i], all)
  {
    assert ([r] + replies)[1..] == replies;
    var all := Versions(known, events, [r] + replies);
    forall i | 0 <= i < |events|
      ensures KnownReply(events[i], ([r] + replies)[i], all)
    {
      assert i > 0 ==> KnownReply(events[1..][i - 1], replies[i - 1], all);
    }
  }

  // ----- Every version keeps its identity -----

  /** When each id was created. */
  type Births = map<string, Option<Stamp>>

  const MAX_TITLE := 255

  ghost predicate Genuine(known: set<Version>, births: Births) {
    forall v :: v in known ==>
      v.1.id == v.0 && v.0 in births && v.1.created == births[v.0] && |v.1.title| <= MAX_TITLE
  }

  /** What the request models let through. */
  predicate Validated(op: Op) {
    match op
    case Create(_, title, _) => 1 <= |title| <= MAX_TITLE
    case Update(_, changes) => changes.title.Some? ==> |changes.title.value| <= MAX_TITLE
    case _ => true
  }

  function Born(births: Births, e: Event): Births {
    if e.op.Create? then births[e.op.id := Some(e.stamp)] else births
  }

  function AllBorn(births: Births, events: seq<Event>): Births
    decreases |events|
  {
    if events == [] then births else AllBorn(Born(births, events[0]), events[1..])
  }

  /** Requests are validated, and a create draws an id never used before. */
  predicate WellFormedRun(births: Births, events: seq<Event>)
    decreases |events|
  {
    events == [] ||
    (var e := events[0];
     Validated(e.op) && (e.op.Create? ==> e.op.id !in births) && WellFormedRun(Born(births, e), events[1..]))
  }

  lemma GenuineStep(cfg: Config, s: State, e: Event, known: set<Version>, births: Births)
    requires KnownState(s, known) && Genuine(known, births)
    requires Validated(e.op) && (e.op.Create? ==> e.op.id !in births)
    ensures Genuine(known + Wrote(e, Step(cfg, s, e).1), Born(births, e))
  {
    if e.op.Update? {
      KnownLookup(cfg, s, e.op.id, e.now, e.faults, known);
    }
  }

  /** Under any faults every version a run writes carries its own id, the creation time of that id and a title of
      at most 255 characters; with `EveryRecordHasAnOrigin`, so does every record any tier or reply ever holds. */
  lemma {:induction false} EveryVersionIsGenuine(cfg: Config, s: State, events: seq<Event>,
                                                 known: set<Version>, births: Births)
    requires KnownState(s, known) && Genuine(known, births) && WellFormedRun(births, events)
    ensures Genuine(Versions(known, events, Run(cfg, s, events).1), AllBorn(births, events))
    decreases |events|
  {
    if events != [] {
      var e := events[0];
      var (s1, r) := Step(cfg, s, e);
      var replies := Run(cfg, s1, events[1..]).1;
      KnownStep(cfg, s, e, known);
      GenuineStep(cfg, s, e, known, births);
      EveryVersionIsGenuine(cfg, s1, events[1..], known + Wrote(e, r), Born(births, e));
      assert ([r] + replies)[1..] == replies;
    }
  }

  /** Filed under its own id, created when that id was, with a title that fits. */
  predicate Sound(k: string, r: Record, births: Births) {
    r.id == k && k in births && r.created == births[k] && |r.title| <= MAX_TITLE
  }

  ghost predicate SoundTable(m: Table, births: Births) {
    forall k :: k in m ==> Sound(k, m[k], births)
  }

  ghost predicate SoundState(s: State, births: Births) {
    && SoundTable(s.pg, births) && SoundTable(s.redis, births) && SoundTable(s.memory, births)
    && forall k :: k in s.cache.store ==> Sound(k, s.cache.store[k].value, births)
  }

  ghost predicate SoundReply(e: Event, r: Reply, births: Births) {
    && (r.Found? ==> !e.op.GetAll? && Sound(e.op.id, r.rec, births))
    && (r.Listing? ==> SoundTable(r.table, births))
  }

  /** All the versions in a state. */
  function Held(s: State): set<Version> {
    (set k | k in s.pg :: (k, s.pg[k])) + (set k | k in s.redis :: (k, s.redis[k])) +
    (set k | k in s.memory :: (k, s.memory[k])) + (set k | k in s.cache.store :: (k, s.cache.store[k].value))
  }

  lemma SoundIsGenuine(s: State, births: Births)
    requires SoundState(s, births)
    ensures KnownState(s, Held(s)) && Genuine(Held(s), births)
  {
  }

  lemma KnownIsSound(s: State, known: set<Version>, births: Births)
    requires KnownState(s, known) && Genuine(known, births)
    ensures SoundState(s, births)
  {
  }

  lemma KnownReplyIsSound(e: Event, r: Reply, known: set<Version>, births: Births)
    requires KnownReply(e, r, known) && Genuine(known, births)
    ensures SoundReply(e, r, births)
  {
  }

  /** So, however the backends fail, no record anywhere ever sits under another id, changes its creation time or
      outgrows the title column, and none is ever returned that does. */
  lemma IdentityIsNeverLost(cfg: Config, s: State, events: seq<Event>, births: Births)
    requires SoundState(s, births) && WellFormedRun(births, events)
    ensures var (s', replies) := Run(cfg, s, events);
            && SoundState(s', AllBorn(births, events))
            && forall i :: 0 <= i < |events| ==> SoundReply(events[i], replies[i], AllBorn(births, events))
  {
    var (s', replies) := Run(cfg, s, events);
    SoundIsGenuine(s, births);
    EveryRecordHasAnOrigin(cfg, s, events, Held(s));
    EveryVersionIsGenuine(cfg, s, events, Held(s), births);
    var all := Versions(Held(s), events, replies);
    KnownIsSound(s', all, AllBorn(births, events));
    forall i | 0 <= i < |events|
      ensures SoundReply(events[i], replies[i], AllBorn(births, events))
    {
      KnownReplyIsSound(events[i], replies[i], all, AllBorn(births, events));
    }
  }
}
