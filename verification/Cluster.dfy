/** Several processes, each with its own cache and memory tier, over shared PostgreSQL and Redis.
    All calls are read on one time line. */
module Cluster {
  import opened Wrappers
  import opened OrderedDict
  import opened TtlCache
  import opened Records
  import opened Storage
  import opened Refinement
  import opened CacheFrame

  datatype Pod = Pod(cache: Cache<Record>, memory: Table)

  datatype World = World(pods: seq<Pod>, pg: Table, redis: Table)

  datatype Call = Call(pod: nat, event: Event)

  function View(w: World, p: nat): State
    requires p < |w.pods|
  {
    State(w.pods[p].cache, w.pg, w.redis, w.pods[p].memory)
  }

  function WorldStep(cfg: Config, w: World, c: Call): (World, Reply)
    requires c.pod < |w.pods|
  {
    var (s, r) := Step(cfg, View(w, c.pod), c.event);
    (World(w.pods[c.pod := Pod(s.cache, s.memory)], s.pg, s.redis), r)
  }

  predicate Addressed(w: World, calls: seq<Call>) {
    forall c :: c in calls ==> c.pod < |w.pods|
  }

  function After(cfg: Config, w: World, calls: seq<Call>): (w': World)
    requires Addressed(w, calls)
    ensures |w'.pods| == |w.pods|
    decreases |calls|
  {
    if calls == [] then w
    else WorldStep(cfg, After(cfg, w, calls[..|calls| - 1]), calls[|calls| - 1]).0
  }

  /** The shared authority: PostgreSQL if it is up, else Redis. */
  function Shared(cfg: Config, w: World): Table {
    Authority(cfg, State(Empty(), w.pg, w.redis, map[]))
  }

  /** Some shared backend is up and the authority never fails; each pod starts with an empty cache. */
  ghost predicate GoodRun(cfg: Config, w: World, calls: seq<Call>) {
    && (cfg.pgUp || cfg.redisUp) && cfg.ttl >= 0
    && Addressed(w, calls)
    && (forall c :: c in calls ==> AuthorityHolds(cfg, c.event))
    && (forall i, j :: 0 <= i <= j < |calls| ==> calls[i].event.now <= calls[j].event.now)
    && (forall p :: 0 <= p < |w.pods| ==> w.pods[p].cache == Empty())
    && (cfg.pgUp ==> Dated(w.pg))
  }

  /** Right after call `j` the authority held `v` under `k`. */
  ghost predicate HeldAfter(cfg: Config, w: World, calls: seq<Call>, j: nat, k: string, v: Record)
    requires Addressed(w, calls)
  {
    && j < |calls|
    && var m := Shared(cfg, After(cfg, w, calls[..j + 1]));
       k in m && m[k] == v
  }

  /** The cached record was the authority's when its time to live began. */
  ghost predicate Dates(cfg: Config, w: World, calls: seq<Call>, k: string, e: Entry<Record>)
    requires Addressed(w, calls)
  {
    exists j: nat :: HeldAfter(cfg, w, calls, j, k, e.value) && e.expiresAt == calls[j].event.now + cfg.ttl as real
  }

  ghost predicate PodInv(cfg: Config, w: World, calls: seq<Call>, c: Cache<Record>)
    requires Addressed(w, calls)
  {
    forall k :: k in c.store ==>
      Dates(cfg, w, calls, k, c.store[k]) && (cfg.pgUp ==> c.store[k].value.created.Some?)
  }

  ghost predicate WorldInv(cfg: Config, w: World, calls: seq<Call>)
    requires Addressed(w, calls)
  {
    && (forall p :: 0 <= p < |w.pods| ==> PodInv(cfg, w, calls, After(cfg, w, calls).pods[p].cache))
    && (cfg.pgUp ==> Dated(After(cfg, w, calls).pg))
  }

  lemma HeldStays(cfg: Config, w: World, calls: seq<Call>, c: Call, j: nat, k: string, v: Record)
    requires Addressed(w, calls + [c]) && HeldAfter(cfg, w, calls, j, k, v)
    ensures HeldAfter(cfg, w, calls + [c], j, k, v)
  {
    assert (calls + [c])[..j + 1] == calls[..j + 1];
  }

  lemma DatesStays(cfg: Config, w: World, calls: seq<Call>, c: Call, k: string, e: Entry<Record>, e': Entry<Record>)
    requires Addressed(w, calls + [c]) && Dates(cfg, w, calls, k, e)
    requires e'.value == e.value && e'.expiresAt == e.expiresAt
    ensures Dates(cfg, w, calls + [c], k, e')
  {
    var j: nat :| HeldAfter(cfg, w, calls, j, k, e.value) && e.expiresAt == calls[j].event.now + cfg.ttl as real;
    HeldStays(cfg, w, calls, c, j, k, e.value);
    assert (calls + [c])[j] == calls[j];
  }

  ghost predicate AllDated(cfg: Config, s: State) {
    cfg.pgUp ==> Dated(s.pg) && forall k :: k in s.cache.store ==> s.cache.store[k].value.created.Some?
  }

  lemma WriteReaches(cfg: Config, s: State, id: string, rec: Record, e: Event)
    requires (cfg.pgUp || cfg.redisUp) && AuthorityHolds(cfg, e)
    requires cfg.pgUp ==> Dated(s.pg) && rec.created.Some? && rec.updated.Some?
    ensures var s' := WriteAll(cfg, s, id, rec, e.now, e.faults);
            Authority(cfg, s') == Authority(cfg, s)[id := rec] && (cfg.pgUp ==> Dated(s'.pg))
  {
  }

  /** What a call does to the authority: nothing, or what the reply says. */
  lemma AuthorityAfterCall(cfg: Config, s: State, e: Event)
    requires (cfg.pgUp || cfg.redisUp) && AuthorityHolds(cfg, e) && AllDated(cfg, s)
    ensures var (s', r) := Step(cfg, s, e); var m, m' := Authority(cfg, s), Authority(cfg, s');
            && (e.op.Get? || e.op.GetAll? || r.Missing? ==> m' == m)
            && ((e.op.Create? || e.op.Update?) && !r.Missing? ==> r.Found? && m' == m[e.op.id := r.rec])
            && (cfg.pgUp ==> Dated(s'.pg))
            && (cfg.pgUp && r.Found? ==> r.rec.created.Some?)
  {
    if e.op.Create? {
      WriteReaches(cfg, s, e.op.id, NewRecord(e.op.id, e.op.title, e.op.description, e.stamp), e);
    } else if !e.op.GetAll? {
      LookupFrame(cfg, s, e.op.id, e.now, e.faults);
      LookupKeepsTiers(cfg, s, e.op.id, e.now, e.faults);
      var (s1, r) := Lookup(cfg, s, e.op.id, e.now, e.faults);
      if e.op.Update? && r.Some? {
        WriteReaches(cfg, s1, e.op.id, Amend(r.value, e.op.changes, e.stamp), e);
      }
    }
  }

  /** The record returned for a fresh entry is the authority's right after the call. */
  lemma FreshEntryHeld(cfg: Config, s: State, e: Event, k: string)
    requires (cfg.pgUp || cfg.redisUp) && AuthorityHolds(cfg, e)
    requires AllDated(cfg, s)
    requires k in Step(cfg, s, e).0.cache.store && !Kept(s.cache, Step(cfg, s, e).0.cache, k)
    ensures var s' := Step(cfg, s, e).0; var m' := Authority(cfg, s'); var entry := s'.cache.store[k];
            k in m' && m'[k] == entry.value && entry.expiresAt == e.now + cfg.ttl as real
  {
    if !e.op.GetAll? {
      StepFrame(cfg, s, e);
      AuthorityAfterCall(cfg, s, e);
      if e.op.Get? {
        LookupFrame(cfg, s, e.op.id, e.now, e.faults);
      }
    }
  }

  lemma AfterOne(cfg: Config, w: World, calls: seq<Call>, c: Call)
    requires Addressed(w, calls + [c])
    ensures Addressed(w, calls)
    ensures After(cfg, w, calls + [c]) == WorldStep(cfg, After(cfg, w, calls), c).0
  {
    var all := calls + [c];
    assert all[..|all| - 1] == calls && all[|all| - 1] == c;
  }

  lemma CallingPodKeeps(cfg: Config, w: World, calls: seq<Call>, c: Call)
    requires Addressed(w, calls + [c]) && AuthorityHolds(cfg, c.event) && (cfg.pgUp || cfg.redisUp)
    requires Addressed(w, calls) && WorldInv(cfg, w, calls)
    ensures PodInv(cfg, w, calls + [c], Step(cfg, View(After(cfg, w, calls), c.pod), c.event).0.cache)
    ensures cfg.pgUp ==> Dated(After(cfg, w, calls + [c]).pg)
  {
    AfterOne(cfg, w, calls, c);
    var s := View(After(cfg, w, calls), c.pod);
    var s' := Step(cfg, s, c.event).0;
    AuthorityAfterCall(cfg, s, c.event);
    forall k | k in s'.cache.store
      ensures Dates(cfg, w, calls + [c], k, s'.cache.store[k])
      ensures cfg.pgUp ==> s'.cache.store[k].value.created.Some?
    {
      if Kept(s.cache, s'.cache, k) {
        DatesStays(cfg, w, calls, c, k, s.cache.store[k], s'.cache.store[k]);
      } else {
        FreshEntryHeld(cfg, s, c.event, k);
        assert (calls + [c])[..|calls| + 1] == calls + [c];
        assert HeldAfter(cfg, w, calls + [c], |calls|, k, s'.cache.store[k].value);
      }
    }
  }

  lemma OtherPodKeeps(cfg: Config, w: World, calls: seq<Call>, c: Call, cache: Cache<Record>)
    requires Addressed(w, calls + [c]) && Addressed(w, calls) && PodInv(cfg, w, calls, cache)
    ensures PodInv(cfg, w, calls + [c], cache)
  {
    forall k | k in cache.store
      ensures Dates(cfg, w, calls + [c], k, cache.store[k])
    {
      DatesStays(cfg, w, calls, c, k, cache.store[k], cache.store[k]);
    }
  }

  lemma WorldInvStep(cfg: Config, w: World, calls: seq<Call>, c: Call)
    requires Addressed(w, calls + [c]) && AuthorityHolds(cfg, c.event) && (cfg.pgUp || cfg.redisUp)
    requires Addressed(w, calls) && WorldInv(cfg, w, calls)
    ensures WorldInv(cfg, w, calls + [c])
  {
    AfterOne(cfg, w, calls, c);
    CallingPodKeeps(cfg, w, calls, c);
    forall p | 0 <= p < |w.pods|
      ensures PodInv(cfg, w, calls + [c], After(cfg, w, calls + [c]).pods[p].cache)
    {
      if p != c.pod {
        OtherPodKeeps(cfg, w, calls, c, After(cfg, w, calls).pods[p].cache);
      }
    }
  }

  lemma GoodPrefix(cfg: Config, w: World, pre: seq<Call>, c: Call)
    requires GoodRun(cfg, w, pre + [c])
    ensures GoodRun(cfg, w, pre) && AuthorityHolds(cfg, c.event)
  {
    var calls := pre + [c];
    assert forall x :: x in pre ==> x in calls;
    assert c == calls[|pre|];
    forall i, j | 0 <= i <= j < |pre|
      ensures pre[i].event.now <= pre[j].event.now
    {
      assert calls[i] == pre[i] && calls[j] == pre[j];
    }
  }

  lemma NothingYet(cfg: Config, w: World)
    requires GoodRun(cfg, w, [])
    ensures WorldInv(cfg, w, [])
  {
  }

  lemma {:induction false} WorldInvAlways(cfg: Config, w: World, calls: seq<Call>)
    requires GoodRun(cfg, w, calls)
    ensures WorldInv(cfg, w, calls)
    decreases |calls|
  {
    if calls == [] {
      NothingYet(cfg, w);
    } else {
      var pre, c := calls[..|calls| - 1], calls[|calls| - 1];
      assert pre + [c] == calls;
      GoodPrefix(cfg, w, pre, c);
      WorldInvAlways(cfg, w, pre);
      WorldInvStep(cfg, w, pre, c);
    }
  }

  lemma CurrentIsHeld(cfg: Config, w: World, pre: seq<Call>, c: Call, v: Record)
    requires Addressed(w, pre + [c]) && Addressed(w, pre) && c.pod < |w.pods| && c.event.op.Get?
    requires c.event.op.id in Shared(cfg, After(cfg, w, pre)) && v == Shared(cfg, After(cfg, w, pre))[c.event.op.id]
    ensures HeldAfter(cfg, w, pre + [c], |pre|, c.event.op.id, v)
  {
    var calls := pre + [c];
    AfterOne(cfg, w, pre, c);
    LookupKeepsTiers(cfg, View(After(cfg, w, pre), c.pod), c.event.op.id, c.event.now, c.event.faults);
    assert calls[..|pre| + 1] == calls;
  }

  /** A record found by a lookup is the authority's now, or a live cached one. */
  lemma ReadIsDated(cfg: Config, w: World, pre: seq<Call>, c: Call)
    requires GoodRun(cfg, w, pre + [c]) && GoodRun(cfg, w, pre) && c.event.op.Get?
    requires WorldStep(cfg, After(cfg, w, pre), c).1.Found?
    ensures var r, calls, e := WorldStep(cfg, After(cfg, w, pre), c).1.rec, pre + [c], c.event;
            exists j: nat :: HeldAfter(cfg, w, calls, j, e.op.id, r) && e.now - cfg.ttl as real <= calls[j].event.now <= e.now
  {
    var calls, e, s := pre + [c], c.event, View(After(cfg, w, pre), c.pod);
    var r := WorldStep(cfg, After(cfg, w, pre), c).1.rec;
    WorldInvAlways(cfg, w, pre);
    LookupFrame(cfg, s, e.op.id, e.now, e.faults);
    assert calls[|pre|] == c;
    if e.op.id in Authority(cfg, s) && r == Authority(cfg, s)[e.op.id] {
      CurrentIsHeld(cfg, w, pre, c, r);
      assert HeldAfter(cfg, w, calls, |pre|, e.op.id, r) && e.now - cfg.ttl as real <= calls[|pre|].event.now <= e.now;
    } else {
      LiveIsDated(cfg, w, pre, c, e.op.id, s.cache.store[e.op.id]);
    }
  }

  lemma LiveIsDated(cfg: Config, w: World, pre: seq<Call>, c: Call, k: string, entry: Entry<Record>)
    requires GoodRun(cfg, w, pre + [c]) && Addressed(w, pre) && Dates(cfg, w, pre, k, entry)
    requires !Expired(entry, c.event.now)
    ensures exists j: nat :: HeldAfter(cfg, w, pre + [c], j, k, entry.value) &&
                             c.event.now - cfg.ttl as real <= (pre + [c])[j].event.now <= c.event.now
  {
    var calls := pre + [c];
    var j: nat :| HeldAfter(cfg, w, pre, j, k, entry.value) && entry.expiresAt == pre[j].event.now + cfg.ttl as real;
    HeldStays(cfg, w, pre, c, j, k, entry.value);
    assert calls[j] == pre[j] && calls[|pre|] == c;
  }

  lemma AbsenceIsCurrent(cfg: Config, w: World, c: Call)
    requires c.pod < |w.pods| && (cfg.pgUp || cfg.redisUp) && AuthorityHolds(cfg, c.event)
    ensures var r, e := WorldStep(cfg, w, c).1, c.event;
            && (!e.op.GetAll? && r.Missing? ==> e.op.id !in Shared(cfg, w))
            && (e.op.GetAll? ==> (r == Listing(Shared(cfg, w)) <==> !Partial(cfg, e, Shared(cfg, w))))
  {
    var s, e := View(w, c.pod), c.event;
    if e.op.GetAll? {
      ListingExact(cfg, s, e);
    } else if !e.op.Create? {
      LookupFrame(cfg, s, e.op.id, e.now, e.faults);
    }
  }

  /** Over every interleaving of calls on any number of pods: a record returned by `get` was the authority's
      at some moment no more than the TTL ago; "not found" and complete listings are current. */
  lemma BoundedStaleness(cfg: Config, w: World, pre: seq<Call>, c: Call)
    requires GoodRun(cfg, w, pre + [c])
    ensures Addressed(w, pre) && c.pod < |w.pods|
    ensures var e, before := c.event, After(cfg, w, pre);
            var m, r := Shared(cfg, before), WorldStep(cfg, before, c).1;
            && (e.op.Get? && r.Found? ==>
                  exists j: nat :: HeldAfter(cfg, w, pre + [c], j, e.op.id, r.rec) &&
                                   e.now - cfg.ttl as real <= (pre + [c])[j].event.now <= e.now)
            && (!e.op.GetAll? && r.Missing? ==> e.op.id !in m)
            && (e.op.GetAll? ==> (r == Listing(m) <==> !Partial(cfg, e, m)))
  {
    GoodPrefix(cfg, w, pre, c);
    assert c == (pre + [c])[|pre|];
    var before := After(cfg, w, pre);
    AbsenceIsCurrent(cfg, before, c);
    if c.event.op.Get? && WorldStep(cfg, before, c).1.Found? {
      ReadIsDated(cfg, w, pre, c);
    }
  }

  // ----- One process -----

  function Events(calls: seq<Call>): (events: seq<Event>)
    ensures |events| == |calls| && forall i :: 0 <= i < |calls| ==> events[i] == calls[i].event
  {
    seq(|calls|, i requires 0 <= i < |calls| => calls[i].event)
  }

  lemma {:induction false} RunThenStep(cfg: Config, s: State, events: seq<Event>, e: Event)
    ensures Run(cfg, s, events + [e]).0 == Step(cfg, Run(cfg, s, events).0, e).0
    decreases |events|
  {
    var all := events + [e];
    if events == [] {
      assert all[1..] == [];
    } else {
      assert all[0] == events[0] && all[1..] == events[1..] + [e];
      RunThenStep(cfg, Step(cfg, s, events[0]).0, events[1..], e);
    }
  }

  /** A call changes the calling pod and the backends as the service alone would, and no other pod. */
  lemma OneStep(cfg: Config, w: World, c: Call)
    requires c.pod < |w.pods|
    ensures var w' := WorldStep(cfg, w, c).0;
            && View(w', c.pod) == Step(cfg, View(w, c.pod), c.event).0
            && forall p :: 0 <= p < |w.pods| && p != c.pod ==> w'.pods[p] == w.pods[p]
  {
  }

  /** With a single process the cluster is the service: every run ends in the same state. */
  lemma {:induction false} OneProcessIsTheService(cfg: Config, w: World, calls: seq<Call>)
    requires |w.pods| == 1 && Addressed(w, calls)
    ensures View(After(cfg, w, calls), 0) == Run(cfg, View(w, 0), Events(calls)).0
    decreases |calls|
  {
    if calls != [] {
      var pre, c := calls[..|calls| - 1], calls[|calls| - 1];
      assert c in calls && c.pod == 0;
      OneProcessIsTheService(cfg, w, pre);
      OneStep(cfg, After(cfg, w, pre), c);
      RunThenStep(cfg, View(w, 0), Events(pre), c.event);
      assert Events(calls) == Events(pre) + [c.event];
    }
  }

  // ----- Convergence -----

  /** A call that does not write `k` leaves the authority's record of it alone. */
  lemma OtherCallsKeep(cfg: Config, w: World, c: Call, k: string)
    requires c.pod < |w.pods| && !Writes(c.event.op, k)
    ensures AgreeOn(Shared(cfg, w), Shared(cfg, WorldStep(cfg, w, c).0), k)
  {
    if c.event.op.Get? || c.event.op.GetAll? {
      ReadsKeepTiers(cfg, View(w, c.pod), c.event);
    } else {
      OtherWritesAgree(cfg, View(w, c.pod), c.event, k);
    }
  }

  lemma {:induction false} QuietKeeps(cfg: Config, w: World, calls: seq<Call>, j: nat, k: string)
    requires Addressed(w, calls) && j < |calls|
    requires forall i :: j < i < |calls| ==> !Writes(calls[i].event.op, k)
    ensures AgreeOn(Shared(cfg, After(cfg, w, calls[..j + 1])), Shared(cfg, After(cfg, w, calls)), k)
    decreases |calls|
  {
    var n := |calls| - 1;
    if j == n {
      assert calls[..j + 1] == calls;
    } else {
      var pre := calls[..n];
      assert pre + [calls[n]] == calls && pre[..j + 1] == calls[..j + 1];
      QuietKeeps(cfg, w, pre, j, k);
      AfterOne(cfg, w, pre, calls[n]);
      OtherCallsKeep(cfg, After(cfg, w, pre), calls[n], k);
    }
  }

  /** Once nothing has written an id for a whole TTL, `get` on any process returns the authority's current record. */
  lemma QuietForTtlIsCurrent(cfg: Config, w: World, pre: seq<Call>, c: Call)
    requires GoodRun(cfg, w, pre + [c]) && c.event.op.Get?
    requires forall i :: 0 <= i < |pre| && pre[i].event.now >= c.event.now - cfg.ttl as real ==>
               !Writes(pre[i].event.op, c.event.op.id)
    ensures Addressed(w, pre) && c.pod < |w.pods|
    ensures var m := Shared(cfg, After(cfg, w, pre)); var id := c.event.op.id;
            WorldStep(cfg, After(cfg, w, pre), c).1 == (if id in m then Found(m[id]) else Missing)
  {
    var calls, id := pre + [c], c.event.op.id;
    GoodPrefix(cfg, w, pre, c);
    BoundedStaleness(cfg, w, pre, c);
    var r := WorldStep(cfg, After(cfg, w, pre), c).1;
    AfterOne(cfg, w, pre, c);
    OtherCallsKeep(cfg, After(cfg, w, pre), c, id);
    if r.Found? {
      var j: nat :| HeldAfter(cfg, w, calls, j, id, r.rec) && calls[j].event.now >= c.event.now - cfg.ttl as real;
      forall i | j < i < |calls|
        ensures !Writes(calls[i].event.op, id)
      {
        LaterIsRecent(cfg, w, pre, c, j, i);
      }
      QuietKeeps(cfg, w, calls, j, id);
    }
  }

  lemma LaterIsRecent(cfg: Config, w: World, pre: seq<Call>, c: Call, j: nat, i: nat)
    requires GoodRun(cfg, w, pre + [c]) && j <= i <= |pre|
    ensures (pre + [c])[j].event.now <= (pre + [c])[i].event.now
    ensures i < |pre| ==> (pre + [c])[i] == pre[i]
    ensures i == |pre| ==> (pre + [c])[i] == c
  {
  }

  // ----- Writes through a stale entry -----

  lemma EraseReaches(cfg: Config, s: State, id: string, e: Event)
    requires (cfg.pgUp || cfg.redisUp) && AuthorityHolds(cfg, e)
    ensures Authority(cfg, EraseAll(cfg, s, id, e.faults)) == Authority(cfg, s) - {id}
  {
  }

  /** A delete leaves the id out of the authority and the other pods as they were. */
  lemma DeleteReaches(cfg: Config, w: World, c: Call)
    requires (cfg.pgUp || cfg.redisUp) && c.pod < |w.pods| && AuthorityHolds(cfg, c.event) && c.event.op.Delete?
    ensures var w' := WorldStep(cfg, w, c).0;
            && Shared(cfg, w') == Shared(cfg, w) - {c.event.op.id}
            && forall p :: 0 <= p < |w.pods| && p != c.pod ==> w'.pods[p] == w.pods[p]
  {
    var s, e := View(w, c.pod), c.event;
    LookupFrame(cfg, s, e.op.id, e.now, e.faults);
    LookupKeepsTiers(cfg, s, e.op.id, e.now, e.faults);
    var (s1, r) := Lookup(cfg, s, e.op.id, e.now, e.faults);
    if r.Some? {
      EraseReaches(cfg, s1, e.op.id, e);
    } else {
      assert Shared(cfg, w) - {e.op.id} == Shared(cfg, w);
    }
  }

  /** What a lookup finds: a live entry, however stale, before the authority's record. */
  function Base(cfg: Config, w: World, p: nat, id: string, now: Instant): Option<Record>
    requires p < |w.pods|
  {
    var c, m := w.pods[p].cache, Shared(cfg, w);
    if LiveIn(c, id, now) then Some(c.store[id].value) else if id in m then Some(m[id]) else None
  }

  /** An update amends the base, and writes it back whatever has become of it in the authority; without one it
      changes nothing there. */
  lemma UpdateAmendsTheBase(cfg: Config, w: World, c: Call)
    requires (cfg.pgUp || cfg.redisUp) && c.pod < |w.pods| && AuthorityHolds(cfg, c.event) && c.event.op.Update?
    requires AllDated(cfg, View(w, c.pod))
    ensures var e, m := c.event, Shared(cfg, w); var base := Base(cfg, w, c.pod, e.op.id, e.now);
            var (w', r) := WorldStep(cfg, w, c);
            if base.None? then Shared(cfg, w') == m && r == Missing
            else
              var rec := Amend(base.value, e.op.changes, e.stamp);
              Shared(cfg, w') == m[e.op.id := rec] && r == Found(rec)
  {
    var s, e := View(w, c.pod), c.event;
    LookupKeepsTiers(cfg, s, e.op.id, e.now, e.faults);
    var (s1, r) := Lookup(cfg, s, e.op.id, e.now, e.faults);
    if r.Some? {
      WriteReaches(cfg, s1, e.op.id, Amend(r.value, e.op.changes, e.stamp), e);
    }
  }

  /** Exactly when an absent record returns: an update of an id the authority lacks puts it back if and only if the
      pod still holds a live entry for it, and otherwise, and only then, replies "not found". */
  lemma AbsentReturnsIffCached(cfg: Config, w: World, c: Call)
    requires (cfg.pgUp || cfg.redisUp) && c.pod < |w.pods| && AuthorityHolds(cfg, c.event) && c.event.op.Update?
    requires AllDated(cfg, View(w, c.pod)) && c.event.op.id !in Shared(cfg, w)
    ensures var (w', r) := WorldStep(cfg, w, c); var live := LiveIn(w.pods[c.pod].cache, c.event.op.id, c.event.now);
            (c.event.op.id in Shared(cfg, w') <==> live) && (r.Missing? <==> !live)
  {
    UpdateAmendsTheBase(cfg, w, c);
  }

  /** Exactly when an update is the plain map's: no live entry, or one that amends to what the authority's record does. */
  lemma UpdateIsPlainIff(cfg: Config, w: World, c: Call)
    requires (cfg.pgUp || cfg.redisUp) && c.pod < |w.pods| && AuthorityHolds(cfg, c.event) && c.event.op.Update?
    requires AllDated(cfg, View(w, c.pod))
    ensures var (w', r) := WorldStep(cfg, w, c); var m, e, cache := Shared(cfg, w), c.event, w.pods[c.pod].cache;
            (Shared(cfg, w'), r) == PlainStep(m, e.op, e.stamp) <==>
            (LiveIn(cache, e.op.id, e.now) ==>
               e.op.id in m &&
               Amend(cache.store[e.op.id].value, e.op.changes, e.stamp) == Amend(m[e.op.id], e.op.changes, e.stamp))
  {
    UpdateAmendsTheBase(cfg, w, c);
  }

  /** Exactly when a read is the plain map's: no live entry, or one that holds the authority's record. */
  lemma GetIsPlainIff(cfg: Config, w: World, c: Call)
    requires (cfg.pgUp || cfg.redisUp) && c.pod < |w.pods| && AuthorityHolds(cfg, c.event) && c.event.op.Get?
    ensures var (w', r) := WorldStep(cfg, w, c); var m, e, cache := Shared(cfg, w), c.event, w.pods[c.pod].cache;
            (Shared(cfg, w'), r) == PlainStep(m, e.op, e.stamp) <==>
            (LiveIn(cache, e.op.id, e.now) ==> e.op.id in m && cache.store[e.op.id].value == m[e.op.id])
  {
    LookupKeepsTiers(cfg, View(w, c.pod), c.event.op.id, c.event.now, c.event.faults);
  }

  /** Exactly when a delete is the plain map's: no live entry, or a record in the authority too.  What they hold need
      not agree; and the record is gone from the authority in either case (`DeleteReaches`). */
  lemma DeleteIsPlainIff(cfg: Config, w: World, c: Call)
    requires (cfg.pgUp || cfg.redisUp) && c.pod < |w.pods| && AuthorityHolds(cfg, c.event) && c.event.op.Delete?
    ensures var (w', r) := WorldStep(cfg, w, c); var m, e, cache := Shared(cfg, w), c.event, w.pods[c.pod].cache;
            (Shared(cfg, w'), r) == PlainStep(m, e.op, e.stamp) <==> (LiveIn(cache, e.op.id, e.now) ==> e.op.id in m)
  {
    DeleteReaches(cfg, w, c);
    assert c.event.op.id !in Shared(cfg, w) ==> Shared(cfg, w) - {c.event.op.id} == Shared(cfg, w);
  }

  lemma AfterDelete(cfg: Config, w: World, calls: seq<Call>, c: Call)
    requires Addressed(w, calls + [c]) && Addressed(w, calls) && c.pod < |w.pods|
    requires (cfg.pgUp || cfg.redisUp) && AuthorityHolds(cfg, c.event) && c.event.op.Delete?
    ensures var before, after := After(cfg, w, calls), After(cfg, w, calls + [c]);
            && Shared(cfg, after) == Shared(cfg, before) - {c.event.op.id}
            && forall p :: 0 <= p < |w.pods| && p != c.pod ==> after.pods[p] == before.pods[p]
  {
    AfterOne(cfg, w, calls, c);
    DeleteReaches(cfg, After(cfg, w, calls), c);
  }

  // ----- After a quiet TTL -----

  /** A lookup that finds what the authority holds makes the whole call the plain map's. */
  lemma FoundIsPlain(cfg: Config, s: State, e: Event)
    requires (cfg.pgUp || cfg.redisUp) && AuthorityHolds(cfg, e) && AllDated(cfg, s)
    requires e.op.Get? || e.op.Update? || e.op.Delete?
    requires var m := Authority(cfg, s);
             Lookup(cfg, s, e.op.id, e.now, e.faults).1 == if e.op.id in m then Some(m[e.op.id]) else None
    ensures var (s', r) := Step(cfg, s, e); (Authority(cfg, s'), r) == PlainStep(Authority(cfg, s), e.op, e.stamp)
  {
    LookupKeepsTiers(cfg, s, e.op.id, e.now, e.faults);
    var (s1, r) := Lookup(cfg, s, e.op.id, e.now, e.faults);
    if r.Some? && e.op.Update? {
      WriteReaches(cfg, s1, e.op.id, Amend(r.value, e.op.changes, e.stamp), e);
    } else if r.Some? && e.op.Delete? {
      EraseReaches(cfg, s1, e.op.id, e);
    }
  }

  /** The same call as a read. */
  function AsRead(c: Call): Call
    requires !c.event.op.GetAll?
  {
    Call(c.pod, c.event.(op := Op.Get(c.event.op.id)))
  }

  lemma ReadInstead(cfg: Config, w: World, pre: seq<Call>, c: Call)
    requires GoodRun(cfg, w, pre + [c]) && !c.event.op.GetAll?
    ensures GoodRun(cfg, w, pre + [AsRead(c)])
  {
    var calls, asRead := pre + [c], pre + [AsRead(c)];
    assert c == calls[|pre|];
    assert forall x :: x in pre ==> x in calls;
    forall i, j | 0 <= i <= j < |asRead|
      ensures asRead[i].event.now <= asRead[j].event.now
    {
      assert calls[i].event.now <= calls[j].event.now;
    }
  }

  /** Once nothing has written an id for a whole TTL, not only reads but updates and deletes of it, on any process,
      reply and leave the authority as the plain map does. */
  lemma QuietForTtlIsPlain(cfg: Config, w: World, pre: seq<Call>, c: Call)
    requires GoodRun(cfg, w, pre + [c]) && (c.event.op.Get? || c.event.op.Update? || c.event.op.Delete?)
    requires forall i :: 0 <= i < |pre| && pre[i].event.now >= c.event.now - cfg.ttl as real ==>
               !Writes(pre[i].event.op, c.event.op.id)
    ensures Addressed(w, pre) && c.pod < |w.pods|
    ensures var before := After(cfg, w, pre); var (after, r) := WorldStep(cfg, before, c);
            (Shared(cfg, after), r) == PlainStep(Shared(cfg, before), c.event.op, c.event.stamp)
  {
    GoodPrefix(cfg, w, pre, c);
    ReadInstead(cfg, w, pre, c);
    QuietForTtlIsCurrent(cfg, w, pre, AsRead(c));
    WorldInvAlways(cfg, w, pre);
    FoundIsPlain(cfg, View(After(cfg, w, pre), c.pod), c.event);
  }

  /** Since call `d` the authority has not held the id after any call. */
  ghost predicate AbsentSince(cfg: Config, w: World, calls: seq<Call>, d: nat, id: string)
    requires Addressed(w, calls)
  {
    forall n: nat :: d < n <= |calls| ==> AbsentAfter(cfg, w, calls, n, id)
  }

  /** The authority does not hold the id after the first `n` calls. */
  predicate AbsentAfter(cfg: Config, w: World, calls: seq<Call>, n: nat, id: string)
    requires Addressed(w, calls) && n <= |calls|
  {
    id !in Shared(cfg, After(cfg, w, calls[..n]))
  }

  lemma AbsentOneMore(cfg: Config, w: World, pre: seq<Call>, c: Call, d: nat, id: string)
    requires Addressed(w, pre + [c]) && Addressed(w, pre) && AbsentSince(cfg, w, pre, d, id)
    requires id !in Shared(cfg, After(cfg, w, pre + [c]))
    ensures AbsentSince(cfg, w, pre + [c], d, id)
  {
    forall n: nat | d < n <= |pre| + 1
      ensures AbsentAfter(cfg, w, pre + [c], n, id)
    {
      if n <= |pre| {
        assert AbsentAfter(cfg, w, pre, n, id);
        assert (pre + [c])[..n] == pre[..n];
      } else {
        assert (pre + [c])[..n] == pre + [c];
      }
    }
  }

  lemma HeldNoLater(cfg: Config, w: World, calls: seq<Call>, d: nat, id: string, j: nat, v: Record)
    requires Addressed(w, calls) && AbsentSince(cfg, w, calls, d, id) && HeldAfter(cfg, w, calls, j, id, v)
    ensures j <= d
  {
    assert !AbsentAfter(cfg, w, calls, j + 1, id);
  }

  lemma CachedIsDated(cfg: Config, w: World, calls: seq<Call>, p: nat, id: string)
    requires GoodRun(cfg, w, calls) && p < |w.pods| && id in After(cfg, w, calls).pods[p].cache.store
    ensures Dates(cfg, w, calls, id, After(cfg, w, calls).pods[p].cache.store[id])
  {
    WorldInvAlways(cfg, w, calls);
    assert PodInv(cfg, w, calls, After(cfg, w, calls).pods[p].cache);
  }

  lemma Earlier(cfg: Config, w: World, calls: seq<Call>, j: nat, d: nat)
    requires GoodRun(cfg, w, calls) && j <= d < |calls|
    ensures calls[j].event.now <= calls[d].event.now
  {
  }

  /** No entry for an id absent since `d` is still live more than a TTL after `d`. */
  lemma NoLiveEntryLeft(cfg: Config, w: World, pre: seq<Call>, c: Call, d: nat, id: string)
    requires GoodRun(cfg, w, pre) && d < |pre| && c.pod < |w.pods|
    requires AbsentSince(cfg, w, pre, d, id) && c.event.now > pre[d].event.now + cfg.ttl as real
    ensures !LiveIn(After(cfg, w, pre).pods[c.pod].cache, id, c.event.now)
  {
    var cache := After(cfg, w, pre).pods[c.pod].cache;
    if id in cache.store {
      CachedIsDated(cfg, w, pre, c.pod, id);
      var j: nat :| HeldAfter(cfg, w, pre, j, id, cache.store[id].value) &&
                    cache.store[id].expiresAt == pre[j].event.now + cfg.ttl as real;
      HeldNoLater(cfg, w, pre, d, id, j, cache.store[id].value);
      Earlier(cfg, w, pre, j, d);
    }
  }

  lemma StaysAbsent(cfg: Config, w: World, pre: seq<Call>, c: Call, d: nat, id: string)
    requires GoodRun(cfg, w, pre + [c]) && GoodRun(cfg, w, pre) && d < |pre| && c.pod < |w.pods|
    requires AbsentSince(cfg, w, pre, d, id) && c.event.op != Op.Delete(id)
    requires Writes(c.event.op, id) ==> c.event.op.Update? && c.event.now > pre[d].event.now + cfg.ttl as real
    ensures id !in Shared(cfg, After(cfg, w, pre + [c]))
  {
    AfterOne(cfg, w, pre, c);
    assert AbsentAfter(cfg, w, pre, |pre|, id) && pre[..|pre|] == pre;
    var before := After(cfg, w, pre);
    if Writes(c.event.op, id) {
      assert c == (pre + [c])[|pre|];
      WorldInvAlways(cfg, w, pre);
      NoLiveEntryLeft(cfg, w, pre, c, d, id);
      AbsentReturnsIffCached(cfg, before, c);
    } else {
      OtherCallsKeep(cfg, before, c, id);
    }
  }

  /** A delete is final, over every interleaving: if from then on the id is not created, and not updated until a TTL
      has passed, the authority never holds it again, whatever later updates and deletes on any process do. */
  lemma {:induction false} DeleteIsFinal(cfg: Config, w: World, calls: seq<Call>, d: nat, id: string)
    requires GoodRun(cfg, w, calls) && d < |calls| && calls[d].event.op == Op.Delete(id)
    requires forall i :: d < i < |calls| && Writes(calls[i].event.op, id) && calls[i].event.op != Op.Delete(id) ==>
               calls[i].event.op.Update? && calls[i].event.now > calls[d].event.now + cfg.ttl as real
    ensures AbsentSince(cfg, w, calls, d, id)
    decreases |calls|
  {
    var pre, c := calls[..|calls| - 1], calls[|calls| - 1];
    assert pre + [c] == calls && c in calls;
    GoodPrefix(cfg, w, pre, c);
    if d < |pre| {
      DeleteIsFinal(cfg, w, pre, d, id);
    }
    if c.event.op == Op.Delete(id) {
      AfterDelete(cfg, w, pre, c);
    } else {
      StaysAbsent(cfg, w, pre, c, d, id);
    }
    AbsentOneMore(cfg, w, pre, c, d, id);
  }

  // ----- A delete undone within the TTL -----

  const SETTINGS := Config(true, false, 3, 300, 1000)
  const NO_FAULTS := Faults(true, true, Committed, [], {})
  const TWO_PODS := World([Pod(Empty(), map[]), Pod(Empty(), map[])], map[], map[])
  const CREATE := Call(0, Event(Op.Create("a", "t", ""), 0.0, 0, NO_FAULTS))
  const READ := Call(1, Event(Op.Get("a"), 1.0, 1, NO_FAULTS))
  const ERASE := Call(0, Event(Op.Delete("a"), 2.0, 2, NO_FAULTS))
  const AMEND := Call(1, Event(Op.Update("a", Changes(None, None, Some(true))), 3.0, 3, NO_FAULTS))

  lemma AfterCreate()
    ensures var w := After(SETTINGS, TWO_PODS, [CREATE]);
            && w.pg == map["a" := NewRecord("a", "t", "", 0)]
            && w.redis == map[] && w.pods[1] == Pod(Empty(), map[])
  {
    AfterOne(SETTINGS, TWO_PODS, [], CREATE);
    assert [] + [CREATE] == [CREATE];
  }

  lemma AfterRead()
    ensures var w := After(SETTINGS, TWO_PODS, [CREATE, READ]); var rec := NewRecord("a", "t", "", 0);
            && w.pg == map["a" := rec]
            && "a" in w.pods[1].cache.store && w.pods[1].cache.store["a"] == Entry(rec, 301.0, 1.0)
  {
    AfterCreate();
    AfterOne(SETTINGS, TWO_PODS, [CREATE], READ);
    assert [CREATE] + [READ] == [CREATE, READ];
  }

  lemma AfterErase()
    ensures var w := After(SETTINGS, TWO_PODS, [CREATE, READ, ERASE]);
            w.pg == map[] && w.pods[1] == After(SETTINGS, TWO_PODS, [CREATE, READ]).pods[1]
  {
    assert [CREATE, READ] + [ERASE] == [CREATE, READ, ERASE];
    AfterDelete(SETTINGS, TWO_PODS, [CREATE, READ], ERASE);
    AfterRead();
  }

  lemma RunIsGood()
    ensures GoodRun(SETTINGS, TWO_PODS, [CREATE, READ, ERASE, AMEND])
    ensures GoodRun(SETTINGS, TWO_PODS, [CREATE, READ, ERASE])
  {
    assert [CREATE, READ, ERASE] + [AMEND] == [CREATE, READ, ERASE, AMEND];
    GoodPrefix(SETTINGS, TWO_PODS, [CREATE, READ, ERASE], AMEND);
  }

  lemma StillCached()
    ensures var w := After(SETTINGS, TWO_PODS, [CREATE, READ, ERASE]);
            "a" !in Shared(SETTINGS, w) && LiveIn(w.pods[1].cache, "a", 3.0) && AllDated(SETTINGS, View(w, 1))
  {
    AfterRead();
    AfterErase();
    RunIsGood();
    WorldInvAlways(SETTINGS, TWO_PODS, [CREATE, READ, ERASE]);
  }

  /** Within the TTL a delete on one pod can be undone by an update on another: this fault-free run deletes the record
      in its third call and ends with the record back in the authority. */
  lemma DeletedRecordReturns()
    ensures var calls := [CREATE, READ, ERASE, AMEND];
            && GoodRun(SETTINGS, TWO_PODS, calls)
            && "a" !in Shared(SETTINGS, After(SETTINGS, TWO_PODS, calls[..3]))
            && "a" in Shared(SETTINGS, After(SETTINGS, TWO_PODS, calls))
  {
    var pre := [CREATE, READ, ERASE];
    RunIsGood();
    StillCached();
    assert [CREATE, READ, ERASE, AMEND][..3] == pre && pre + [AMEND] == [CREATE, READ, ERASE, AMEND];
    AfterOne(SETTINGS, TWO_PODS, pre, AMEND);
    AbsentReturnsIffCached(SETTINGS, After(SETTINGS, TWO_PODS, pre), AMEND);
  }
}
