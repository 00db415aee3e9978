/** Whole runs of the cache in app/services/cache.py. */
module CacheRuns {
  import opened Wrappers
  import opened OrderedDict
  import opened TtlCache

  datatype Op<+V> = Get(key: string) | Set(key: string, value: V, life: real) | Delete(key: string) | Clear | Len

  datatype Call<+V> = Call(op: Op<V>, now: Instant)

  /** What a call shows.  `Stored` also shows which live entry was evicted. */
  datatype Reply<+V> =
    | Got(found: Option<V>)
    | Stored(evicted: Option<string>)
    | Removed(was: bool)
    | Cleared
    | Count(n: nat)

  function Next<V>(c: Cache<V>, size: Capacity, call: Call<V>): Cache<V> {
    match call.op
    case Get(k) => CacheGet(c, k, call.now).0
    case Set(k, v, life) => CacheSet(c, size, k, v, life, call.now)
    case Delete(k) => Drop(c, k)
    case Clear => Empty()
    case Len => Purge(c, call.now)
  }

  function Answer<V>(c: Cache<V>, size: Capacity, call: Call<V>): Reply<V> {
    match call.op
    case Get(k) => Got(CacheGet(c, k, call.now).1)
    case Set(k, v, life) => Stored(Evicted(c, size, k, call.now))
    case Delete(k) => Removed(k in c.store)
    case Clear => Cleared
    case Len => Count(|Purge(c, call.now).store|)
  }

  function Run<V>(c: Cache<V>, size: Capacity, calls: seq<Call<V>>): (r: (Cache<V>, seq<Reply<V>>))
    ensures |r.1| == |calls|
    decreases |calls|
  {
    if calls == [] then (c, [])
    else
      var (c', replies) := Run(Next(c, size, calls[0]), size, calls[1..]);
      (c', [Answer(c, size, calls[0])] + replies)
  }

  /** Clock readings strictly increase, starting after `after`. */
  predicate Ticking<V>(calls: seq<Call<V>>, after: Instant) {
    calls == [] || (after < calls[0].now && Ticking(calls[1..], calls[0].now))
  }

  // ----- Invariants -----

  /** Accesses happened at distinct instants, none later than `t`. */
  ghost predicate Stamped<V>(m: map<string, Entry<V>>, t: Instant) {
    && (forall k :: k in m ==> m[k].lastAccess <= t)
    && (forall j, k :: j in m && k in m && m[j].lastAccess == m[k].lastAccess ==> j == k)
  }

  ghost predicate Within<V>(a: map<string, Entry<V>>, b: map<string, Entry<V>>) {
    forall k :: k in a ==> k in b && a[k] == b[k]
  }

  ghost predicate Inv<V>(c: Cache<V>, size: Capacity, t: Instant) {
    |c.store| <= size && Stamped(c.store, t)
  }

  lemma SubsetSize(a: set<string>, b: set<string>)
    requires a <= b
    ensures |a| <= |b|
    ensures |a| == |b| ==> a == b
  {
    assert b == a + (b - a);
  }

  lemma MapSize<V>(m: map<string, V>)
    ensures |m| == |m.Keys|
  {
  }

  /** A smaller dictionary: its size, for a subset of the keys. */
  lemma RetainSize<V>(c: Cache<V>, keys: set<string>)
    ensures |Retain(c, keys).store| <= |c.store|
    ensures |Retain(c, keys).store| == |c.store| ==> Retain(c, keys).store == c.store
  {
    SubsetSize(Retain(c, keys).store.Keys, c.store.Keys);
    MapSize(c.store);
    MapSize(Retain(c, keys).store);
  }

  lemma DropSize<V>(c: Cache<V>, k: string)
    requires k in c.store
    ensures |Drop(c, k).store| == |c.store| - 1
  {
    MapSize(c.store);
    MapSize(Drop(c, k).store);
    assert Drop(c, k).store.Keys == c.store.Keys - {k};
  }

  lemma PutSize<V>(c: Cache<V>, k: string, e: Entry<V>)
    ensures |Put(c, k, e).store| == |c.store| + (if k in c.store then 0 else 1)
  {
    MapSize(c.store);
    MapSize(Put(c, k, e).store);
    assert Put(c, k, e).store.Keys == c.store.Keys + {k};
  }

  lemma MakeRoomSize<V>(c: Cache<V>, size: Capacity, key: string, now: Instant)
    requires |c.store| <= size
    ensures var r := MakeRoom(c, size, key, now);
            |r.store| <= size && (key !in r.store ==> |r.store| < size)
  {
    RetainSize(c, LiveKeys(c, now));
    var p := if Full(c, size, key) then Purge(c, now) else c;
    if Full(p, size, key) {
      DropSize(p, Victim(p));
    }
  }

  lemma StampedPut<V>(m: map<string, Entry<V>>, k: string, e: Entry<V>, t: Instant, now: Instant)
    requires Stamped(m, t) && t < now && e.lastAccess == now
    ensures Stamped(m[k := e], now)
  {
  }

  lemma StampedPart<V>(m: map<string, Entry<V>>, m': map<string, Entry<V>>, t: Instant, now: Instant)
    requires Stamped(m, t) && Within(m', m) && t <= now
    ensures Stamped(m', now)
  {
  }

  lemma MakeRoomPart<V>(c: Cache<V>, size: Capacity, key: string, now: Instant)
    ensures Within(MakeRoom(c, size, key, now).store, c.store)
  {
  }

  lemma GetKeepsInv<V>(c: Cache<V>, size: Capacity, k: string, t: Instant, now: Instant)
    requires Inv(c, size, t) && t < now
    ensures Inv(CacheGet(c, k, now).0, size, now)
  {
    if k !in c.store {
      StampedPart(c.store, c.store, t, now);
    } else if Expired(c.store[k], now) {
      RetainKeepsInv(c, size, c.store.Keys - {k}, t, now);
    } else {
      var e := c.store[k].(lastAccess := now);
      PutSize(c, k, e);
      StampedPut(c.store, k, e, t, now);
    }
  }

  lemma RetainKeepsInv<V>(c: Cache<V>, size: Capacity, keys: set<string>, t: Instant, now: Instant)
    requires Inv(c, size, t) && t <= now
    ensures Inv(Retain(c, keys), size, now)
  {
    RetainSize(c, keys);
    StampedPart(c.store, Retain(c, keys).store, t, now);
  }

  lemma SetKeepsInv<V>(c: Cache<V>, size: Capacity, k: string, v: V, life: real, t: Instant, now: Instant)
    requires Inv(c, size, t) && t < now
    ensures Inv(CacheSet(c, size, k, v, life, now), size, now)
  {
    var room := MakeRoom(c, size, k, now);
    MakeRoomSize(c, size, k, now);
    MakeRoomPart(c, size, k, now);
    PutSize(room, k, Entry(v, now + life, now));
    StampedPart(c.store, room.store, t, t);
    StampedPut(room.store, k, Entry(v, now + life, now), t, now);
  }

  lemma InvAfterGet<V>(c: Cache<V>, size: Capacity, call: Call<V>, t: Instant)
    requires Inv(c, size, t) && t < call.now && call.op.Get?
    ensures Inv(Next(c, size, call), size, call.now)
  {
    GetKeepsInv(c, size, call.op.key, t, call.now);
  }

  lemma InvAfterSet<V>(c: Cache<V>, size: Capacity, call: Call<V>, t: Instant)
    requires Inv(c, size, t) && t < call.now && call.op.Set?
    ensures Inv(Next(c, size, call), size, call.now)
  {
    SetKeepsInv(c, size, call.op.key, call.op.value, call.op.life, t, call.now);
  }

  lemma InvAfterDelete<V>(c: Cache<V>, size: Capacity, call: Call<V>, t: Instant)
    requires Inv(c, size, t) && t < call.now && call.op.Delete?
    ensures Inv(Next(c, size, call), size, call.now)
  {
    RetainKeepsInv(c, size, c.store.Keys - {call.op.key}, t, call.now);
  }

  lemma InvAfterLen<V>(c: Cache<V>, size: Capacity, call: Call<V>, t: Instant)
    requires Inv(c, size, t) && t < call.now && call.op.Len?
    ensures Inv(Next(c, size, call), size, call.now)
  {
    RetainKeepsInv(c, size, LiveKeys(c, call.now), t, call.now);
  }

  /** The size bound and the distinctness of accesses survive every call. */
  lemma StepKeepsInv<V>(c: Cache<V>, size: Capacity, call: Call<V>, t: Instant)
    requires Inv(c, size, t) && t < call.now
    ensures Inv(Next(c, size, call), size, call.now)
  {
    match call.op
    case Get(_) => InvAfterGet(c, size, call, t);
    case Set(_, _, _) => InvAfterSet(c, size, call, t);
    case Delete(_) => InvAfterDelete(c, size, call, t);
    case Clear =>
    case Len => InvAfterLen(c, size, call, t);
  }

  lemma SetKeepsSize<V>(c: Cache<V>, size: Capacity, k: string, v: V, life: real, now: Instant)
    requires |c.store| <= size
    ensures |CacheSet(c, size, k, v, life, now).store| <= size
  {
    MakeRoomSize(c, size, k, now);
    PutSize(MakeRoom(c, size, k, now), k, Entry(v, now + life, now));
  }

  lemma GetKeepsSize<V>(c: Cache<V>, k: string, now: Instant)
    ensures |CacheGet(c, k, now).0.store| <= |c.store|
  {
    if k in c.store {
      DropSize(c, k);
      PutSize(c, k, c.store[k].(lastAccess := now));
    }
  }

  /** The size bound alone needs nothing of the clock: readings may repeat or even go back. */
  lemma StepKeepsSize<V>(c: Cache<V>, size: Capacity, call: Call<V>)
    requires |c.store| <= size
    ensures |Next(c, size, call).store| <= size
  {
    match call.op
    case Get(k) => GetKeepsSize(c, k, call.now);
    case Set(k, v, life) => SetKeepsSize(c, size, k, v, life, call.now);
    case Delete(k) => RetainSize(c, c.store.Keys - {k});
    case Clear =>
    case Len => RetainSize(c, LiveKeys(c, call.now));
  }

  /** Over every run, whatever the clock does, the size never exceeds the maximum. */
  lemma {:induction false} RunKeepsSize<V>(c: Cache<V>, size: Capacity, calls: seq<Call<V>>)
    requires |c.store| <= size
    ensures |Run(c, size, calls).0.store| <= size
    decreases |calls|
  {
    if calls != [] {
      StepKeepsSize(c, size, calls[0]);
      RunKeepsSize(Next(c, size, calls[0]), size, calls[1..]);
    }
  }

  /** `set` installs its key, invents nothing, and loses a live entry in exactly one case:
      the key is new, every slot holds a live entry, and the victim's access is the oldest. */
  lemma SetEvictsOnlyTheOldest<V>(c: Cache<V>, size: Capacity, key: string, value: V, life: real, now: Instant)
    requires |c.store| <= size
    ensures var r := CacheSet(c, size, key, value, life, now);
            && key in r.store && r.store[key] == Entry(value, now + life, now)
            && (forall k :: k in r.store && k != key ==> k in c.store && r.store[k] == c.store[k])
            && (forall k :: k in LiveKeys(c, now) && k != key ==>
                  (k !in r.store <==> Evicted(c, size, key, now) == Some(k)))
    ensures Evicted(c, size, key, now).Some? <==> key !in c.store && |LiveKeys(c, now)| == size
    ensures Evicted(c, size, key, now).Some? ==>
              var k := Evicted(c, size, key, now).value;
              k in LiveKeys(c, now) &&
              forall x :: x in c.store && !Expired(c.store[x], now) ==> c.store[k].lastAccess <= c.store[x].lastAccess
  {
    var p := Purge(c, now);
    assert p.store.Keys == LiveKeys(c, now);
    MapSize(p.store);
    RetainSize(c, LiveKeys(c, now));
  }

  // ----- A hit is the last value set -----

  /** The reference: a dictionary that neither expires nor evicts, remembering each value with its deadline. */
  function Log<V>(w: map<string, (V, Instant)>, call: Call<V>): map<string, (V, Instant)> {
    match call.op
    case Get(_) => w
    case Set(k, v, life) => w[k := (v, call.now + life)]
    case Delete(k) => w - {k}
    case Clear => map[]
    case Len => w
  }

  ghost predicate Recorded<V>(m: map<string, Entry<V>>, w: map<string, (V, Instant)>) {
    forall k :: k in m ==> k in w && w[k] == (m[k].value, m[k].expiresAt)
  }

  lemma RecordedPart<V>(m: map<string, Entry<V>>, m': map<string, Entry<V>>, w: map<string, (V, Instant)>)
    requires Recorded(m, w) && Within(m', m)
    ensures Recorded(m', w)
  {
  }

  lemma RecordedPut<V>(m: map<string, Entry<V>>, w: map<string, (V, Instant)>, k: string, e: Entry<V>)
    requires Recorded(m, w)
    ensures Recorded(m[k := e], w[k := (e.value, e.expiresAt)])
  {
  }

  lemma RecordedDrop<V>(m: map<string, Entry<V>>, w: map<string, (V, Instant)>, k: string)
    requires Recorded(m, w)
    ensures Recorded(m - {k}, w - {k})
  {
  }

  lemma RecordedGet<V>(c: Cache<V>, k: string, now: Instant, w: map<string, (V, Instant)>)
    requires Recorded(c.store, w)
    ensures Recorded(CacheGet(c, k, now).0.store, w)
    ensures var r := CacheGet(c, k, now).1;
            r.Some? ==> k in w && r.value == w[k].0 && now <= w[k].1
  {
    if k in c.store && !Expired(c.store[k], now) {
      RecordedPut(c.store, w, k, c.store[k].(lastAccess := now));
      assert w[k := w[k]] == w;
    } else {
      RecordedPart(c.store, c.store - {k}, w);
    }
  }

  lemma RecordedRoom<V>(c: Cache<V>, size: Capacity, k: string, now: Instant, w: map<string, (V, Instant)>)
    requires Recorded(c.store, w)
    ensures Recorded(MakeRoom(c, size, k, now).store, w)
  {
    MakeRoomPart(c, size, k, now);
    RecordedPart(c.store, MakeRoom(c, size, k, now).store, w);
  }

  lemma RecordedSet<V>(c: Cache<V>, size: Capacity, k: string, v: V, life: real, now: Instant, w: map<string, (V, Instant)>)
    requires Recorded(c.store, w)
    ensures Recorded(CacheSet(c, size, k, v, life, now).store, w[k := (v, now + life)])
  {
    RecordedRoom(c, size, k, now, w);
    RecordedPut(MakeRoom(c, size, k, now).store, w, k, Entry(v, now + life, now));
  }

  lemma RecordedLen<V>(c: Cache<V>, now: Instant, w: map<string, (V, Instant)>)
    requires Recorded(c.store, w)
    ensures Recorded(Purge(c, now).store, w)
  {
    RecordedPart(c.store, Purge(c, now).store, w);
  }

  lemma RecordedAfterGet<V>(c: Cache<V>, size: Capacity, call: Call<V>, w: map<string, (V, Instant)>)
    requires Recorded(c.store, w) && call.op.Get?
    ensures Recorded(Next(c, size, call).store, Log(w, call))
  {
    RecordedGet(c, call.op.key, call.now, w);
  }

  lemma RecordedAfterSet<V>(c: Cache<V>, size: Capacity, call: Call<V>, w: map<string, (V, Instant)>)
    requires Recorded(c.store, w) && call.op.Set?
    ensures Recorded(Next(c, size, call).store, Log(w, call))
  {
    RecordedSet(c, size, call.op.key, call.op.value, call.op.life, call.now, w);
  }

  lemma StepRecorded<V>(c: Cache<V>, size: Capacity, call: Call<V>, w: map<string, (V, Instant)>)
    requires Recorded(c.store, w)
    ensures Recorded(Next(c, size, call).store, Log(w, call))
  {
    match call.op
    case Get(_) => RecordedAfterGet(c, size, call, w);
    case Set(_, _, _) => RecordedAfterSet(c, size, call, w);
    case Delete(k) => RecordedDrop(c.store, w, k);
    case Clear =>
    case Len => RecordedLen(c, call.now, w);
  }

  /** The reply is right about `w`, what was last set. */
  ghost predicate Truthful<V>(call: Call<V>, reply: Reply<V>, w: map<string, (V, Instant)>) {
    reply.Got? && reply.found.Some? ==>
      call.op.Get? && call.op.key in w && reply.found.value == w[call.op.key].0 && call.now <= w[call.op.key].1
  }

  /** Each reply of the run is right about what was last set when it was given. */
  ghost predicate AllTruthful<V>(calls: seq<Call<V>>, replies: seq<Reply<V>>, w: map<string, (V, Instant)>)
    requires |calls| == |replies|
    decreases |calls|
  {
    calls == [] ||
    (Truthful(calls[0], replies[0], w) && AllTruthful(calls[1..], replies[1..], Log(w, calls[0])))
  }

  lemma StepTruthful<V>(c: Cache<V>, size: Capacity, call: Call<V>, w: map<string, (V, Instant)>)
    requires Recorded(c.store, w)
    ensures Truthful(call, Answer(c, size, call), w)
  {
    if call.op.Get? {
      RecordedGet(c, call.op.key, call.now, w);
    }
  }

  /** At every point of every run a hit returns the value of the last `set` of that key
      not followed by a delete or clear, and only up to that set's deadline. */
  lemma {:induction false} HitIsLastSet<V>(c: Cache<V>, size: Capacity, calls: seq<Call<V>>, w: map<string, (V, Instant)>)
    requires Recorded(c.store, w)
    ensures AllTruthful(calls, Run(c, size, calls).1, w)
    decreases |calls|
  {
    if calls != [] {
      var c1, reply := Next(c, size, calls[0]), Answer(c, size, calls[0]);
      var replies := Run(c1, size, calls[1..]).1;
      StepTruthful(c, size, calls[0], w);
      StepRecorded(c, size, calls[0], w);
      HitIsLastSet(c1, size, calls[1..], Log(w, calls[0]));
      assert ([reply] + replies)[1..] == replies;
    }
  }

  // ----- An access time is the last use -----

  /** When each key was last set or hit, read off the calls and their replies alone. */
  function Used<V>(u: map<string, Instant>, call: Call<V>, reply: Reply<V>): map<string, Instant> {
    if call.op.Set? || (call.op.Get? && reply.Got? && reply.found.Some?) then u[call.op.key := call.now] else u
  }

  function AllUsed<V>(u: map<string, Instant>, calls: seq<Call<V>>, replies: seq<Reply<V>>): map<string, Instant>
    requires |calls| == |replies|
    decreases |calls|
  {
    if calls == [] then u else AllUsed(Used(u, calls[0], replies[0]), calls[1..], replies[1..])
  }

  ghost predicate Accessed<V>(m: map<string, Entry<V>>, u: map<string, Instant>) {
    forall k :: k in m ==> k in u && m[k].lastAccess == u[k]
  }

  lemma AccessedPart<V>(m: map<string, Entry<V>>, m': map<string, Entry<V>>, u: map<string, Instant>)
    requires Accessed(m, u) && Within(m', m)
    ensures Accessed(m', u)
  {
  }

  lemma AccessedPut<V>(m: map<string, Entry<V>>, u: map<string, Instant>, k: string, e: Entry<V>)
    requires Accessed(m, u)
    ensures Accessed(m[k := e], u[k := e.lastAccess])
  {
  }

  lemma AccessedGet<V>(c: Cache<V>, size: Capacity, call: Call<V>, u: map<string, Instant>)
    requires Accessed(c.store, u) && call.op.Get?
    ensures Accessed(Next(c, size, call).store, Used(u, call, Answer(c, size, call)))
  {
    var k := call.op.key;
    if k in c.store && !Expired(c.store[k], call.now) {
      AccessedPut(c.store, u, k, c.store[k].(lastAccess := call.now));
    } else {
      AccessedPart(c.store, c.store - {k}, u);
    }
  }

  lemma AccessedSet<V>(c: Cache<V>, size: Capacity, call: Call<V>, u: map<string, Instant>)
    requires Accessed(c.store, u) && call.op.Set?
    ensures Accessed(Next(c, size, call).store, Used(u, call, Answer(c, size, call)))
  {
    var room := MakeRoom(c, size, call.op.key, call.now);
    MakeRoomPart(c, size, call.op.key, call.now);
    AccessedPart(c.store, room.store, u);
    AccessedPut(room.store, u, call.op.key, Entry(call.op.value, call.now + call.op.life, call.now));
  }

  lemma StepAccessed<V>(c: Cache<V>, size: Capacity, call: Call<V>, u: map<string, Instant>)
    requires Accessed(c.store, u)
    ensures Accessed(Next(c, size, call).store, Used(u, call, Answer(c, size, call)))
  {
    match call.op
    case Get(_) => AccessedGet(c, size, call, u);
    case Set(_, _, _) => AccessedSet(c, size, call, u);
    case Delete(k) => AccessedPart(c.store, c.store - {k}, u);
    case Clear =>
    case Len => AccessedPart(c.store, Purge(c, call.now).store, u);
  }

  /** After every run the access time of each stored entry is when its key was last set or hit.  With
      `SetEvictsOnlyTheOldest`, the entry evicted is the least recently used one. */
  lemma {:induction false} AccessIsLastUse<V>(c: Cache<V>, size: Capacity, calls: seq<Call<V>>, u: map<string, Instant>)
    requires Accessed(c.store, u)
    ensures Accessed(Run(c, size, calls).0.store, AllUsed(u, calls, Run(c, size, calls).1))
    decreases |calls|
  {
    if calls != [] {
      var c1, reply := Next(c, size, calls[0]), Answer(c, size, calls[0]);
      var replies := Run(c1, size, calls[1..]).1;
      StepAccessed(c, size, calls[0], u);
      AccessIsLastUse(c1, size, calls[1..], Used(u, calls[0], reply));
      assert ([reply] + replies)[1..] == replies;
    }
  }

  // ----- Lazy expiry equals eager expiry -----

  /** A cache that drops what has expired before it does anything else. */
  function EagerNext<V>(c: Cache<V>, size: Capacity, call: Call<V>): Cache<V> {
    Next(Purge(c, call.now), size, call)
  }

  function EagerAnswer<V>(c: Cache<V>, size: Capacity, call: Call<V>): Reply<V> {
    Answer(Purge(c, call.now), size, call)
  }

  function EagerRun<V>(c: Cache<V>, size: Capacity, calls: seq<Call<V>>): (r: (Cache<V>, seq<Reply<V>>))
    ensures |r.1| == |calls|
    decreases |calls|
  {
    if calls == [] then (c, [])
    else
      var (c', replies) := EagerRun(EagerNext(c, size, calls[0]), size, calls[1..]);
      (c', [EagerAnswer(c, size, calls[0])] + replies)
  }

  function Live<V>(m: map<string, Entry<V>>, now: Instant): map<string, Entry<V>> {
    map k | k in m && !Expired(m[k], now) :: m[k]
  }

  lemma PurgeIsLive<V>(c: Cache<V>, now: Instant)
    ensures Purge(c, now).store == Live(c.store, now)
    ensures LiveKeys(c, now) == Live(c.store, now).Keys
  {
  }

  lemma LiveTwice<V>(m: map<string, Entry<V>>, t: Instant, now: Instant)
    requires t <= now
    ensures Live(Live(m, t), now) == Live(m, now)
  {
  }

  lemma LivePut<V>(m: map<string, Entry<V>>, k: string, e: Entry<V>, now: Instant)
    ensures Live(m[k := e], now) == if Expired(e, now) then Live(m, now) - {k} else Live(m, now)[k := e]
  {
  }

  lemma LiveDrop<V>(m: map<string, Entry<V>>, k: string, now: Instant)
    ensures Live(m - {k}, now) == Live(m, now) - {k}
  {
  }

  /** With distinct accesses the victim depends on the contents only, not on the insertion order. */
  lemma VictimUnique<V>(c: Cache<V>, d: Cache<V>, t: Instant)
    requires c.store == d.store && c.store.Keys != {} && Stamped(c.store, t)
    ensures Victim(c) == Victim(d)
  {
    var k := Victim(d);
    assert c.store[Victim(c)].lastAccess == c.store[k].lastAccess;
  }

  lemma EvictAlike<V>(p: Cache<V>, q: Cache<V>, t: Instant, now: Instant)
    requires p.store == q.store && p.store.Keys != {} && Stamped(p.store, t)
    ensures Victim(p) == Victim(q)
    ensures Live(Drop(p, Victim(p)).store, now) == Live(Drop(q, Victim(q)).store, now)
  {
    VictimUnique(p, q, t);
  }

  /** With the same live entries, a purged cache is full only if the other one is, and then holds the live entries. */
  lemma FullAlike<V>(lazy: Cache<V>, eager: Cache<V>, size: Capacity, k: string, now: Instant)
    requires |lazy.store| <= size && Live(lazy.store, now) == eager.store == Live(eager.store, now)
    ensures Full(eager, size, k) ==> Full(lazy, size, k)
    ensures Purge(lazy, now).store == eager.store == Purge(eager, now).store
  {
    RetainSize(lazy, LiveKeys(lazy, now));
    PurgeIsLive(lazy, now);
    PurgeIsLive(eager, now);
  }

  lemma MakeRoomAlike<V>(lazy: Cache<V>, eager: Cache<V>, size: Capacity, k: string, now: Instant, t: Instant)
    requires Inv(lazy, size, t) && t < now && Live(lazy.store, now) == eager.store == Live(eager.store, now)
    ensures Live(MakeRoom(lazy, size, k, now).store, now) == Live(MakeRoom(eager, size, k, now).store, now)
    ensures Evicted(lazy, size, k, now) == Evicted(eager, size, k, now)
  {
    FullAlike(lazy, eager, size, k, now);
    if Full(eager, size, k) {
      var p, q := Purge(lazy, now), Purge(eager, now);
      StampedPart(lazy.store, p.store, t, t);
      EvictAlike(p, q, t, now);
    }
  }

  lemma EagerHoldsLive<V>(lazy: Cache<V>, eager: Cache<V>, t: Instant, now: Instant)
    requires t < now && Live(lazy.store, t) == Live(eager.store, t)
    ensures Live(lazy.store, now) == Purge(eager, now).store == Live(Purge(eager, now).store, now)
  {
    LiveTwice(lazy.store, t, now);
    LiveTwice(eager.store, t, now);
    LiveTwice(eager.store, now, now);
    PurgeIsLive(eager, now);
  }

  /** Replies agree, except that `delete` may find an entry that has already expired. */
  ghost predicate Agree<V>(call: Call<V>, x: Reply<V>, y: Reply<V>) {
    call.op.Delete? || x == y
  }

  lemma AlikeAfterGet<V>(lazy: Cache<V>, eager: Cache<V>, size: Capacity, call: Call<V>)
    requires call.op.Get? && Live(lazy.store, call.now) == eager.store == Live(eager.store, call.now)
    ensures Live(Next(lazy, size, call).store, call.now) == Live(Next(eager, size, call).store, call.now)
    ensures Answer(lazy, size, call) == Answer(eager, size, call)
  {
    GetAlike(lazy, eager, call.op.key, call.now);
  }

  lemma AlikeAfterSet<V>(lazy: Cache<V>, eager: Cache<V>, size: Capacity, call: Call<V>, t: Instant)
    requires Inv(lazy, size, t) && t < call.now
    requires call.op.Set? && Live(lazy.store, call.now) == eager.store == Live(eager.store, call.now)
    ensures Live(Next(lazy, size, call).store, call.now) == Live(Next(eager, size, call).store, call.now)
    ensures Answer(lazy, size, call) == Answer(eager, size, call)
  {
    SetAlike(lazy, eager, size, call.op.key, call.op.value, call.op.life, t, call.now);
  }

  lemma AlikeAfterLen<V>(lazy: Cache<V>, eager: Cache<V>, size: Capacity, call: Call<V>)
    requires call.op.Len? && Live(lazy.store, call.now) == eager.store == Live(eager.store, call.now)
    ensures Live(Next(lazy, size, call).store, call.now) == Live(Next(eager, size, call).store, call.now)
    ensures Answer(lazy, size, call) == Answer(eager, size, call)
  {
    LenAlike(lazy, eager, call.now);
  }

  /** One call on two caches with the same live entries, the second already purged. */
  lemma CallAlike<V>(lazy: Cache<V>, eager: Cache<V>, size: Capacity, call: Call<V>, t: Instant)
    requires Inv(lazy, size, t) && t < call.now
    requires Live(lazy.store, call.now) == eager.store == Live(eager.store, call.now)
    ensures Live(Next(lazy, size, call).store, call.now) == Live(Next(eager, size, call).store, call.now)
    ensures !call.op.Delete? ==> Answer(lazy, size, call) == Answer(eager, size, call)
  {
    match call.op
    case Get(_) => AlikeAfterGet(lazy, eager, size, call);
    case Set(_, _, _) => AlikeAfterSet(lazy, eager, size, call, t);
    case Delete(k) => DeleteAlike(lazy, eager, k, call.now);
    case Clear =>
    case Len => AlikeAfterLen(lazy, eager, size, call);
  }

  lemma LazyStep<V>(lazy: Cache<V>, eager: Cache<V>, size: Capacity, call: Call<V>, t: Instant)
    requires Inv(lazy, size, t) && t < call.now && Live(lazy.store, t) == Live(eager.store, t)
    ensures Live(Next(lazy, size, call).store, call.now) == Live(EagerNext(eager, size, call).store, call.now)
    ensures Agree(call, Answer(lazy, size, call), EagerAnswer(eager, size, call))
  {
    EagerHoldsLive(lazy, eager, t, call.now);
    CallAlike(lazy, Purge(eager, call.now), size, call, t);
  }

  /** The replies of `delete` differ exactly when the lazy cache still holds an expired entry. */
  lemma DeleteDiffersOnExpired<V>(lazy: Cache<V>, eager: Cache<V>, size: Capacity, k: string, t: Instant, now: Instant)
    requires t < now && Live(lazy.store, t) == Live(eager.store, t)
    ensures Answer(lazy, size, Call(Delete(k), now)) != EagerAnswer(eager, size, Call(Delete(k), now)) <==>
            k in lazy.store && Expired(lazy.store[k], now)
  {
    EagerHoldsLive(lazy, eager, t, now);
    DeleteAlike(lazy, Purge(eager, now), k, now);
  }

  lemma LenAlike<V>(lazy: Cache<V>, eager: Cache<V>, now: Instant)
    requires Live(lazy.store, now) == eager.store == Live(eager.store, now)
    ensures Purge(lazy, now).store == Purge(eager, now).store
  {
    PurgeIsLive(lazy, now);
    PurgeIsLive(eager, now);
  }

  lemma SetAlike<V>(lazy: Cache<V>, eager: Cache<V>, size: Capacity, k: string, v: V, life: real, t: Instant, now: Instant)
    requires Inv(lazy, size, t) && t < now
    requires Live(lazy.store, now) == eager.store == Live(eager.store, now)
    ensures Live(CacheSet(lazy, size, k, v, life, now).store, now) == Live(CacheSet(eager, size, k, v, life, now).store, now)
    ensures Evicted(lazy, size, k, now) == Evicted(eager, size, k, now)
  {
    MakeRoomAlike(lazy, eager, size, k, now, t);
    LivePut(MakeRoom(lazy, size, k, now).store, k, Entry(v, now + life, now), now);
    LivePut(MakeRoom(eager, size, k, now).store, k, Entry(v, now + life, now), now);
  }

  lemma DeleteAlike<V>(lazy: Cache<V>, eager: Cache<V>, k: string, now: Instant)
    requires Live(lazy.store, now) == eager.store == Live(eager.store, now)
    ensures Live(Drop(lazy, k).store, now) == Live(Drop(eager, k).store, now)
    ensures k in eager.store <==> k in lazy.store && !Expired(lazy.store[k], now)
  {
    LiveDrop(lazy.store, k, now);
    LiveDrop(eager.store, k, now);
  }

  lemma GetAlike<V>(lazy: Cache<V>, eager: Cache<V>, k: string, now: Instant)
    requires Live(lazy.store, now) == eager.store == Live(eager.store, now)
    ensures Live(CacheGet(lazy, k, now).0.store, now) == Live(CacheGet(eager, k, now).0.store, now)
    ensures CacheGet(lazy, k, now).1 == CacheGet(eager, k, now).1
  {
    assert k in eager.store <==> k in lazy.store && !Expired(lazy.store[k], now);
    if k in eager.store {
      var e := lazy.store[k].(lastAccess := now);
      LivePut(lazy.store, k, e, now);
      LivePut(eager.store, k, e, now);
    } else {
      LiveDrop(lazy.store, k, now);
      assert Live(lazy.store, now) - {k} == Live(lazy.store, now);
    }
  }

  ghost predicate AllAgree<V>(calls: seq<Call<V>>, xs: seq<Reply<V>>, ys: seq<Reply<V>>) {
    |calls| == |xs| == |ys| && forall i :: 0 <= i < |calls| ==> Agree(calls[i], xs[i], ys[i])
  }

  /** Over all runs, dropping expired entries lazily gives the same hits and misses, the same
      lengths and the same evictions as dropping them at every instant. */
  lemma {:induction false} LazyEqualsEager<V>(lazy: Cache<V>, eager: Cache<V>, size: Capacity,
                                              calls: seq<Call<V>>, t: Instant)
    requires Inv(lazy, size, t) && Ticking(calls, t) && Live(lazy.store, t) == Live(eager.store, t)
    ensures AllAgree(calls, Run(lazy, size, calls).1, EagerRun(eager, size, calls).1)
    decreases |calls|
  {
    if calls != [] {
      LazyStep(lazy, eager, size, calls[0], t);
      StepKeepsInv(lazy, size, calls[0], t);
      var l, x := Next(lazy, size, calls[0]), Answer(lazy, size, calls[0]);
      var e, y := EagerNext(eager, size, calls[0]), EagerAnswer(eager, size, calls[0]);
      LazyEqualsEager(l, e, size, calls[1..], calls[0].now);
      AgreeCons(calls, x, y, Run(l, size, calls[1..]).1, EagerRun(e, size, calls[1..]).1);
    }
  }

  lemma AgreeCons<V>(calls: seq<Call<V>>, x: Reply<V>, y: Reply<V>, xs: seq<Reply<V>>, ys: seq<Reply<V>>)
    requires |calls| == |xs| + 1 == |ys| + 1 && Agree(calls[0], x, y) && AllAgree(calls[1..], xs, ys)
    ensures AllAgree(calls, [x] + xs, [y] + ys)
  {
    forall i | 0 <= i < |calls|
      ensures Agree(calls[i], ([x] + xs)[i], ([y] + ys)[i])
    {
      assert i > 0 ==> Agree(calls[1..][i - 1], xs[i - 1], ys[i - 1]);
    }
  }

  lemma OneDelete(c: Cache<int>, k: string, now: Instant)
    ensures Run(c, 1, [Call(Delete(k), now)]).1 == [Removed(k in c.store)]
    ensures EagerRun(c, 1, [Call(Delete(k), now)]).1 == [Removed(k in Purge(c, now).store)]
  {
  }

  /** The exception is real: an expired entry is still deleted with `True` by the lazy cache. */
  lemma LazyDeleteDiffers()
    ensures var calls := [Call(Set("a", 1, 5.0), 1.0), Call(Delete("a"), 10.0)];
            Run(Empty<Entry<int>>(), 1, calls).1[1] == Removed(true) &&
            EagerRun(Empty<Entry<int>>(), 1, calls).1[1] == Removed(false)
  {
    var calls := [Call(Set("a", 1, 5.0), 1.0), Call(Delete("a"), 10.0)];
    assert calls[1..] == [Call(Delete("a"), 10.0)];
    var c := CacheSet(Empty<Entry<int>>(), 1, "a", 1, 5.0, 1.0);
    assert c.store == map["a" := Entry(1, 6.0, 1.0)];
    OneDelete(c, "a", 10.0);
    var e := CacheSet(Purge(Empty<Entry<int>>(), 1.0), 1, "a", 1, 5.0, 1.0);
    OneDelete(e, "a", 10.0);
  }

  // ----- A larger cache never misses where a smaller one hits -----

  /** The live entries of the smaller cache are all in the larger one, which holds no more
      extra entries than it has extra slots. */
  ghost predicate Covers<V>(small: Cache<V>, large: Cache<V>, gap: int, now: Instant) {
    CoversLive(Live(small.store, now), Live(large.store, now), gap)
  }

  ghost predicate CoversLive<V>(a: map<string, Entry<V>>, b: map<string, Entry<V>>, gap: int) {
    Within(a, b) && |b| - |a| <= gap
  }

  lemma SetGap(a: set<string>, b: set<string>)
    requires a <= b
    ensures |b - a| == |b| - |a|
  {
    assert b == a + (b - a);
  }

  /** Cutting two nested maps down by the same test can only close the gap between their sizes. */
  lemma GapShrinks<V>(a: map<string, Entry<V>>, b: map<string, Entry<V>>, a': map<string, Entry<V>>, b': map<string, Entry<V>>)
    requires Within(a, b) && Within(a', b') && Within(b', b)
    requires forall k :: k in a && k in b' ==> k in a'
    ensures |b'| - |a'| <= |b| - |a|
  {
    SetGap(a.Keys, b.Keys);
    SetGap(a'.Keys, b'.Keys);
    SubsetSize(b'.Keys - a'.Keys, b.Keys - a.Keys);
    MapSize(a); MapSize(b); MapSize(a'); MapSize(b');
  }

  lemma CoversLater<V>(small: Cache<V>, large: Cache<V>, gap: int, t: Instant, now: Instant)
    requires Covers(small, large, gap, t) && t <= now
    ensures Covers(small, large, gap, now)
  {
    var a, b := Live(small.store, t), Live(large.store, t);
    LiveTwice(small.store, t, now);
    LiveTwice(large.store, t, now);
    assert Within(Live(a, now), Live(b, now));
    GapShrinks(a, b, Live(a, now), Live(b, now));
  }

  lemma PutCount<V>(m: map<string, V>, k: string, v: V)
    ensures |m[k := v]| == |m| + (if k in m then 0 else 1)
  {
    assert m[k := v].Keys == m.Keys + {k};
    MapSize(m);
    MapSize(m[k := v]);
  }

  lemma DropCount<V>(m: map<string, V>, k: string)
    ensures |m - {k}| == |m| - (if k in m then 1 else 0)
  {
    assert (m - {k}).Keys == m.Keys - {k};
    MapSize(m);
    MapSize(m - {k});
  }

  lemma GetLive<V>(c: Cache<V>, k: string, now: Instant)
    ensures var m := Live(c.store, now);
            && Live(CacheGet(c, k, now).0.store, now) == (if k in m then m[k := m[k].(lastAccess := now)] else m)
            && CacheGet(c, k, now).1 == (if k in m then Some(m[k].value) else None)
  {
    if k in Live(c.store, now) {
      LivePut(c.store, k, c.store[k].(lastAccess := now), now);
    } else {
      LiveDrop(c.store, k, now);
      assert Live(c.store, now) - {k} == Live(c.store, now);
    }
  }

  lemma CoversGet<V>(small: Cache<V>, large: Cache<V>, gap: int, k: string, now: Instant)
    requires Covers(small, large, gap, now)
    ensures Covers(CacheGet(small, k, now).0, CacheGet(large, k, now).0, gap, now)
    ensures CacheGet(small, k, now).1.Some? ==> CacheGet(small, k, now).1 == CacheGet(large, k, now).1
  {
    GetLive(small, k, now);
    GetLive(large, k, now);
    var a, b := Live(small.store, now), Live(large.store, now);
    if k in b {
      PutCount(b, k, b[k].(lastAccess := now));
    }
    if k in a {
      PutCount(a, k, a[k].(lastAccess := now));
    }
  }

  /** The live entries left once room is made. */
  function LiveRoom<V>(m: map<string, Entry<V>>, evicted: Option<string>): map<string, Entry<V>> {
    if evicted.Some? then m - {evicted.value} else m
  }

  lemma MakeRoomLive<V>(c: Cache<V>, size: Capacity, k: string, now: Instant)
    requires |c.store| <= size
    ensures Live(MakeRoom(c, size, k, now).store, now) == LiveRoom(Live(c.store, now), Evicted(c, size, k, now))
    ensures Evicted(c, size, k, now).Some? <==> k !in c.store && |Live(c.store, now)| == size
  {
    PurgeIsLive(c, now);
    LiveTwice(c.store, now, now);
    RetainSize(c, LiveKeys(c, now));
    var p := Purge(c, now);
    if Full(p, size, k) {
      LiveDrop(p.store, Victim(p), now);
    }
  }

  /** An eviction from the larger cache is either of an entry the smaller one lacks, or of the
      smaller one's own victim. */
  lemma EvictTogether<V>(small: Cache<V>, large: Cache<V>, c: Capacity, c': Capacity, k: string, t: Instant, now: Instant)
    requires Inv(small, c, t) && Inv(large, c', t) && Covers(small, large, c' - c, now)
    requires Evicted(large, c', k, now).Some?
    ensures Evicted(small, c, k, now).Some?
    ensures var v := Evicted(large, c', k, now).value;
            v in Live(small.store, now) ==> Evicted(small, c, k, now).value == v
  {
    MakeRoomLive(small, c, k, now);
    MakeRoomLive(large, c', k, now);
    RetainSize(small, LiveKeys(small, now));
    PurgeIsLive(small, now);
    PurgeIsLive(large, now);
    var v := Evicted(large, c', k, now).value;
    assert k !in Live(large.store, now);
    if v in Live(small.store, now) {
      var w := Evicted(small, c, k, now).value;
      assert small.store[w].lastAccess == small.store[v].lastAccess by {
        assert w in Live(large.store, now) && Live(large.store, now)[w] == Live(small.store, now)[w];
      }
    }
  }

  lemma CoversRoom<V>(small: Cache<V>, large: Cache<V>, c: Capacity, c': Capacity, k: string, t: Instant, now: Instant)
    requires Inv(small, c, t) && Inv(large, c', t) && Covers(small, large, c' - c, now)
    ensures Within(LiveRoom(Live(small.store, now), Evicted(small, c, k, now)),
                   LiveRoom(Live(large.store, now), Evicted(large, c', k, now)))
  {
    if Evicted(large, c', k, now).Some? {
      EvictTogether(small, large, c, c', k, t, now);
    }
  }

  lemma RoomCount<V>(c: Cache<V>, size: Capacity, k: string, now: Instant)
    requires |c.store| <= size
    ensures var m, ev := Live(c.store, now), Evicted(c, size, k, now);
            && |LiveRoom(m, ev)| == |m| - (if ev.Some? then 1 else 0)
            && (k in LiveRoom(m, ev) <==> k in m)
            && |m| <= size
            && (k !in m && ev.None? ==> |m| < size)
            && (ev.Some? ==> k !in m && |m| == size)
  {
    MakeRoomLive(c, size, k, now);
    PurgeIsLive(c, now);
    RetainSize(c, LiveKeys(c, now));
    var m, ev := Live(c.store, now), Evicted(c, size, k, now);
    if ev.Some? {
      DropCount(m, ev.value);
    }
  }

  /** The live entries after an entry is written over `m`. */
  function Written<V>(m: map<string, Entry<V>>, k: string, e: Entry<V>, now: Instant): map<string, Entry<V>> {
    if Expired(e, now) then m - {k} else m[k := e]
  }

  lemma SetLive<V>(c: Cache<V>, size: Capacity, k: string, v: V, life: real, now: Instant)
    requires |c.store| <= size
    ensures Live(CacheSet(c, size, k, v, life, now).store, now) ==
            Written(LiveRoom(Live(c.store, now), Evicted(c, size, k, now)), k, Entry(v, now + life, now), now)
  {
    MakeRoomLive(c, size, k, now);
    LivePut(MakeRoom(c, size, k, now).store, k, Entry(v, now + life, now), now);
  }

  lemma WrittenCovers<V>(a: map<string, Entry<V>>, b: map<string, Entry<V>>, k: string, e: Entry<V>, gap: int, now: Instant)
    requires Within(a, b)
    requires |b| + (if k in b then 0 else 1) - (|a| + (if k in a then 0 else 1)) <= gap
    requires |b| - (if k in b then 1 else 0) - (|a| - (if k in a then 1 else 0)) <= gap
    ensures CoversLive(Written(a, k, e, now), Written(b, k, e, now), gap)
  {
    PutCount(a, k, e); PutCount(b, k, e);
    DropCount(a, k); DropCount(b, k);
  }

  lemma CoversSet<V>(small: Cache<V>, large: Cache<V>, c: Capacity, c': Capacity,
                     k: string, v: V, life: real, t: Instant, now: Instant)
    requires Inv(small, c, t) && Inv(large, c', t) && Covers(small, large, c' - c, now)
    ensures Covers(CacheSet(small, c, k, v, life, now), CacheSet(large, c', k, v, life, now), c' - c, now)
  {
    var a := LiveRoom(Live(small.store, now), Evicted(small, c, k, now));
    var b := LiveRoom(Live(large.store, now), Evicted(large, c', k, now));
    assert Within(a, b) by {
      CoversRoom(small, large, c, c', k, t, now);
    }
    RoomCount(small, c, k, now);
    RoomCount(large, c', k, now);
    if Evicted(large, c', k, now).Some? {
      EvictTogether(small, large, c, c', k, t, now);
    }
    WrittenCovers(a, b, k, Entry(v, now + life, now), c' - c, now);
    SetLive(small, c, k, v, life, now);
    SetLive(large, c', k, v, life, now);
  }

  lemma CoversDelete<V>(small: Cache<V>, large: Cache<V>, gap: int, k: string, now: Instant)
    requires Covers(small, large, gap, now)
    ensures Covers(Drop(small, k), Drop(large, k), gap, now)
  {
    LiveDrop(small.store, k, now);
    LiveDrop(large.store, k, now);
    DropCount(Live(small.store, now), k);
    DropCount(Live(large.store, now), k);
  }

  lemma LenKeepsLive<V>(c: Cache<V>, size: Capacity, call: Call<V>)
    requires call.op.Len?
    ensures Live(Next(c, size, call).store, call.now) == Live(c.store, call.now)
  {
    PurgeIsLive(c, call.now);
    LiveTwice(c.store, call.now, call.now);
  }

  lemma CoversClear<V>(gap: int, now: Instant)
    requires gap >= 0
    ensures Covers(Empty<Entry<V>>(), Empty<Entry<V>>(), gap, now)
  {
    assert Live(Empty<Entry<V>>().store, now) == map[];
  }

  lemma CoversStep<V>(small: Cache<V>, large: Cache<V>, c: Capacity, c': Capacity, call: Call<V>, t: Instant)
    requires c <= c' && Inv(small, c, t) && Inv(large, c', t) && Covers(small, large, c' - c, t) && t < call.now
    ensures Covers(Next(small, c, call), Next(large, c', call), c' - c, call.now)
  {
    CoversLater(small, large, c' - c, t, call.now);
    match call.op
    case Get(_) => CoversAfterGet(small, large, c, c', call, t);
    case Set(_, _, _) => CoversAfterSet(small, large, c, c', call, t);
    case Delete(_) => CoversAfterDelete(small, large, c, c', call, t);
    case Clear => CoversClear<V>(c' - c, call.now);
    case Len => CoversAfterLen(small, large, c, c', call, t);
  }

  lemma CoversAfterGet<V>(small: Cache<V>, large: Cache<V>, c: Capacity, c': Capacity, call: Call<V>, t: Instant)
    requires c <= c' && Inv(small, c, t) && Inv(large, c', t) && Covers(small, large, c' - c, call.now) && call.op.Get?
    ensures Covers(Next(small, c, call), Next(large, c', call), c' - c, call.now)
  {
    CoversGet(small, large, c' - c, call.op.key, call.now);
  }

  lemma CoversAfterSet<V>(small: Cache<V>, large: Cache<V>, c: Capacity, c': Capacity, call: Call<V>, t: Instant)
    requires c <= c' && Inv(small, c, t) && Inv(large, c', t) && Covers(small, large, c' - c, call.now) && call.op.Set?
    ensures Covers(Next(small, c, call), Next(large, c', call), c' - c, call.now)
  {
    CoversSet(small, large, c, c', call.op.key, call.op.value, call.op.life, t, call.now);
  }

  lemma CoversAfterDelete<V>(small: Cache<V>, large: Cache<V>, c: Capacity, c': Capacity, call: Call<V>, t: Instant)
    requires c <= c' && Inv(small, c, t) && Inv(large, c', t) && Covers(small, large, c' - c, call.now) && call.op.Delete?
    ensures Covers(Next(small, c, call), Next(large, c', call), c' - c, call.now)
  {
    CoversDelete(small, large, c' - c, call.op.key, call.now);
  }

  lemma CoversAfterLen<V>(small: Cache<V>, large: Cache<V>, c: Capacity, c': Capacity, call: Call<V>, t: Instant)
    requires c <= c' && Inv(small, c, t) && Inv(large, c', t) && Covers(small, large, c' - c, call.now) && call.op.Len?
    ensures Covers(Next(small, c, call), Next(large, c', call), c' - c, call.now)
  {
    LenKeepsLive(small, c, call);
    LenKeepsLive(large, c', call);
  }

  ghost predicate HitKept<V>(x: Reply<V>, y: Reply<V>) {
    x.Got? && x.found.Some? ==> x == y
  }

  lemma HitCovered<V>(small: Cache<V>, large: Cache<V>, c: Capacity, c': Capacity, call: Call<V>, t: Instant)
    requires c <= c' && Covers(small, large, c' - c, t) && t < call.now
    ensures HitKept(Answer(small, c, call), Answer(large, c', call))
  {
    if call.op.Get? {
      CoversLater(small, large, c' - c, t, call.now);
      CoversGet(small, large, c' - c, call.op.key, call.now);
    }
  }

  /** Two caches fit to be run side by side. */
  ghost predicate Nested<V>(small: Cache<V>, large: Cache<V>, c: Capacity, c': Capacity, t: Instant) {
    c <= c' && Inv(small, c, t) && Inv(large, c', t) && Covers(small, large, c' - c, t)
  }

  lemma NestedStep<V>(small: Cache<V>, large: Cache<V>, c: Capacity, c': Capacity, call: Call<V>, t: Instant)
    requires Nested(small, large, c, c', t) && t < call.now
    ensures Nested(Next(small, c, call), Next(large, c', call), c, c', call.now)
  {
    CoversStep(small, large, c, c', call, t);
    StepKeepsInv(small, c, call, t);
    StepKeepsInv(large, c', call, t);
  }

  lemma NestedAtStart<V>(c: Capacity, c': Capacity, t: Instant)
    requires c <= c'
    ensures Nested(Empty<Entry<V>>(), Empty<Entry<V>>(), c, c', t)
  {
    CoversClear<V>(c' - c, t);
  }

  ghost predicate AllHitsKept<V>(xs: seq<Reply<V>>, ys: seq<Reply<V>>) {
    |xs| == |ys| && forall i :: 0 <= i < |xs| ==> HitKept(xs[i], ys[i])
  }

  lemma HitsKeptCons<V>(x: Reply<V>, y: Reply<V>, xs: seq<Reply<V>>, ys: seq<Reply<V>>)
    requires HitKept(x, y) && AllHitsKept(xs, ys)
    ensures AllHitsKept([x] + xs, [y] + ys)
  {
  }

  /** One run on two caches: whenever the smaller one hits, so does the larger one, with the same value. */
  lemma {:induction false} LargerNeverMissesMore<V>(small: Cache<V>, large: Cache<V>, c: Capacity, c': Capacity,
                                                    calls: seq<Call<V>>, t: Instant)
    requires Nested(small, large, c, c', t) && Ticking(calls, t)
    ensures AllHitsKept(Run(small, c, calls).1, Run(large, c', calls).1)
    decreases |calls|
  {
    if calls != [] {
      var s1, x := Next(small, c, calls[0]), Answer(small, c, calls[0]);
      var l1, y := Next(large, c', calls[0]), Answer(large, c', calls[0]);
      HitCovered(small, large, c, c', calls[0], t);
      NestedStep(small, large, c, c', calls[0], t);
      LargerNeverMissesMore(s1, l1, c, c', calls[1..], calls[0].now);
      HitsKeptCons(x, y, Run(s1, c, calls[1..]).1, Run(l1, c', calls[1..]).1);
    }
  }

  /** After every run each live entry of the smaller cache is in the larger one with the same
      value, deadline and last access. */
  lemma {:induction false} LargerHoldsMore<V>(small: Cache<V>, large: Cache<V>, c: Capacity, c': Capacity,
                                              calls: seq<Call<V>>, t: Instant, now: Instant)
    requires Nested(small, large, c, c', t) && Ticking(calls, t)
    requires now == (if calls == [] then t else calls[|calls| - 1].now)
    ensures Within(Live(Run(small, c, calls).0.store, now), Live(Run(large, c', calls).0.store, now))
    decreases |calls|
  {
    if calls != [] {
      NestedStep(small, large, c, c', calls[0], t);
      LargerHoldsMore(Next(small, c, calls[0]), Next(large, c', calls[0]), c, c', calls[1..], calls[0].now, now);
    }
  }

  /** Two caches that start empty, as the service's does: at no point of any run does the smaller one hit where the
      larger one misses or differs, nor hold a live entry that the larger one lacks. */
  lemma LargerFromTheStart<V>(c: Capacity, c': Capacity, calls: seq<Call<V>>, t: Instant)
    requires c <= c' && Ticking(calls, t)
    ensures var now := if calls == [] then t else calls[|calls| - 1].now;
            var (small, xs) := Run(Empty(), c, calls); var (large, ys) := Run(Empty(), c', calls);
            AllHitsKept(xs, ys) && Within(Live(small.store, now), Live(large.store, now))
  {
    NestedAtStart<V>(c, c', t);
    LargerNeverMissesMore(Empty(), Empty(), c, c', calls, t);
    LargerHoldsMore(Empty(), Empty(), c, c', calls, t, if calls == [] then t else calls[|calls| - 1].now);
  }
}
