/** What the cache of app/services/cache.py answers, from the calls made and the answers given alone. */
module CacheReference {
  import opened Wrappers
  import opened OrderedDict
  import opened TtlCache
  import opened CacheRuns

  /** What was last set under a key, until when it may be returned, and when it was last set or returned. */
  datatype Memo<+V> = Memo(value: V, deadline: Instant, used: Instant)

  type Memory<V> = map<string, Memo<V>>

  predicate Alive<V>(w: Memory<V>, k: string, now: Instant) {
    k in w && now <= w[k].deadline
  }

  function AliveKeys<V>(w: Memory<V>, now: Instant): set<string> {
    set k | k in w && Alive(w, k, now)
  }

  function Without<V>(w: Memory<V>, lost: Option<string>): Memory<V> {
    if lost.Some? then w - {lost.value} else w
  }

  function Remember<V>(w: Memory<V>, call: Call<V>, reply: Reply<V>): Memory<V> {
    match call.op
    case Get(k) => if k in w && reply.Got? && reply.found.Some? then w[k := w[k].(used := call.now)] else w
    case Set(k, v, life) =>
      Without(w, if reply.Stored? then reply.evicted else None)[k := Memo(v, call.now + life, call.now)]
    case Delete(k) => w - {k}
    case Clear => map[]
    case Len => w
  }

  /** A get returns exactly what was last set and is neither deleted, evicted nor past its deadline.  A set evicts if and
      only if its key is not alive and `size` others are, and then a least recently used one.  A length counts the keys
      alive.  A delete finds every key alive, and none that was not set. */
  ghost predicate Right<V>(w: Memory<V>, size: Capacity, call: Call<V>, reply: Reply<V>) {
    match call.op
    case Get(k) => reply == Got(if Alive(w, k, call.now) then Some(w[k].value) else None)
    case Set(k, _, _) =>
      && reply.Stored?
      && (reply.evicted.Some? <==> !Alive(w, k, call.now) && |AliveKeys(w, call.now)| == size)
      && (reply.evicted.Some? ==> LeastUsed(w, reply.evicted.value, call.now))
    case Delete(k) => reply.Removed? && (Alive(w, k, call.now) ==> reply.was) && (reply.was ==> k in w)
    case Clear => reply.Cleared?
    case Len => reply == Count(|AliveKeys(w, call.now)|)
  }

  ghost predicate LeastUsed<V>(w: Memory<V>, k: string, now: Instant) {
    Alive(w, k, now) && forall x :: x in w && Alive(w, x, now) ==> w[k].used <= w[x].used
  }

  ghost predicate AllRight<V>(w: Memory<V>, size: Capacity, calls: seq<Call<V>>, replies: seq<Reply<V>>)
    requires |calls| == |replies|
    decreases |calls|
  {
    calls == [] ||
    (Right(w, size, calls[0], replies[0]) && AllRight(Remember(w, calls[0], replies[0]), size, calls[1..], replies[1..]))
  }

  /** Clock readings never decrease. */
  predicate Onward<V>(calls: seq<Call<V>>, from: Instant) {
    calls == [] || (from <= calls[0].now && Onward(calls[1..], calls[0].now))
  }

  // ----- The cache against the memory -----

  function Noted<V>(e: Entry<V>): Memo<V> {
    Memo(e.value, e.expiresAt, e.lastAccess)
  }

  /** What is stored is remembered, and what is alive is stored. */
  ghost predicate Mirrors<V>(m: map<string, Entry<V>>, w: Memory<V>, now: Instant) {
    && (forall k :: k in m ==> k in w && w[k] == Noted(m[k]))
    && (forall k :: k in w && Alive(w, k, now) ==> k in m)
  }

  lemma AliveIsLive<V>(c: Cache<V>, w: Memory<V>, now: Instant)
    requires Mirrors(c.store, w, now)
    ensures LiveKeys(c, now) == AliveKeys(w, now)
  {
  }

  lemma MirrorsGet<V>(c: Cache<V>, w: Memory<V>, size: Capacity, call: Call<V>)
    requires Mirrors(c.store, w, call.now) && call.op.Get?
    ensures var reply := Answer(c, size, call);
            Right(w, size, call, reply) && Mirrors(Next(c, size, call).store, Remember(w, call, reply), call.now)
  {
  }

  lemma MirrorsPurge<V>(c: Cache<V>, w: Memory<V>, now: Instant)
    requires Mirrors(c.store, w, now)
    ensures Mirrors(Purge(c, now).store, w, now)
  {
  }

  lemma MirrorsDrop<V>(c: Cache<V>, w: Memory<V>, k: string, now: Instant)
    requires Mirrors(c.store, w, now)
    ensures Mirrors(Drop(c, k).store, w - {k}, now)
  {
  }

  lemma MirrorsRoom<V>(c: Cache<V>, w: Memory<V>, size: Capacity, k: string, now: Instant)
    requires Mirrors(c.store, w, now)
    ensures Mirrors(MakeRoom(c, size, k, now).store, Without(w, Evicted(c, size, k, now)), now)
  {
    if Full(c, size, k) {
      var p := Purge(c, now);
      MirrorsPurge(c, w, now);
      if Full(p, size, k) {
        MirrorsDrop(p, w, Victim(p), now);
      }
    }
  }

  lemma MirrorsPut<V>(c: Cache<V>, w: Memory<V>, k: string, e: Entry<V>, now: Instant)
    requires Mirrors(c.store, w, now)
    ensures Mirrors(Put(c, k, e).store, w[k := Noted(e)], now)
  {
  }

  lemma MirrorsCacheSet<V>(c: Cache<V>, w: Memory<V>, size: Capacity, k: string, v: V, life: real, now: Instant)
    requires Mirrors(c.store, w, now)
    ensures Mirrors(CacheSet(c, size, k, v, life, now).store,
                    Without(w, Evicted(c, size, k, now))[k := Memo(v, now + life, now)], now)
  {
    MirrorsRoom(c, w, size, k, now);
    MirrorsPut(MakeRoom(c, size, k, now), Without(w, Evicted(c, size, k, now)), k, Entry(v, now + life, now), now);
  }

  lemma MirrorsSet<V>(c: Cache<V>, w: Memory<V>, size: Capacity, call: Call<V>)
    requires Mirrors(c.store, w, call.now) && call.op.Set?
    ensures Mirrors(Next(c, size, call).store, Remember(w, call, Answer(c, size, call)), call.now)
  {
    MirrorsCacheSet(c, w, size, call.op.key, call.op.value, call.op.life, call.now);
  }

  lemma FullOfLive<V>(c: Cache<V>, size: Capacity, now: Instant)
    requires |c.store| <= size && |LiveKeys(c, now)| == size
    ensures LiveKeys(c, now) == c.store.Keys
  {
    MapSize(c.store);
    SubsetSize(LiveKeys(c, now), c.store.Keys);
  }

  lemma RightSet<V>(c: Cache<V>, w: Memory<V>, size: Capacity, call: Call<V>)
    requires |c.store| <= size && Mirrors(c.store, w, call.now) && call.op.Set?
    ensures Right(w, size, call, Answer(c, size, call))
  {
    var k := call.op.key;
    AliveIsLive(c, w, call.now);
    SetEvictsOnlyTheOldest(c, size, k, call.op.value, call.op.life, call.now);
    if |LiveKeys(c, call.now)| == size {
      FullOfLive(c, size, call.now);
    }
  }

  lemma MirrorsDelete<V>(c: Cache<V>, w: Memory<V>, size: Capacity, call: Call<V>)
    requires Mirrors(c.store, w, call.now) && call.op.Delete?
    ensures var reply := Answer(c, size, call);
            Right(w, size, call, reply) && Mirrors(Next(c, size, call).store, Remember(w, call, reply), call.now)
  {
  }

  lemma MirrorsLen<V>(c: Cache<V>, w: Memory<V>, size: Capacity, call: Call<V>)
    requires Mirrors(c.store, w, call.now) && call.op.Len?
    ensures var reply := Answer(c, size, call);
            Right(w, size, call, reply) && Mirrors(Next(c, size, call).store, Remember(w, call, reply), call.now)
  {
    AliveIsLive(c, w, call.now);
    PurgeIsLive(c, call.now);
    MapSize(Purge(c, call.now).store);
  }

  lemma MirrorsStep<V>(c: Cache<V>, w: Memory<V>, size: Capacity, call: Call<V>)
    requires |c.store| <= size && Mirrors(c.store, w, call.now)
    ensures var reply := Answer(c, size, call);
            Right(w, size, call, reply) && Mirrors(Next(c, size, call).store, Remember(w, call, reply), call.now)
  {
    match call.op
    case Get(_) => MirrorsGet(c, w, size, call);
    case Set(_, _, _) =>
      RightSet(c, w, size, call);
      MirrorsSet(c, w, size, call);
    case Delete(_) => MirrorsDelete(c, w, size, call);
    case Clear =>
    case Len => MirrorsLen(c, w, size, call);
  }

  /** Over every run, every answer of the cache is right about the calls and answers before it. */
  lemma {:induction false} EveryAnswerIsRight<V>(c: Cache<V>, w: Memory<V>, size: Capacity, calls: seq<Call<V>>, from: Instant)
    requires |c.store| <= size && Mirrors(c.store, w, from) && Onward(calls, from)
    ensures AllRight(w, size, calls, Run(c, size, calls).1)
    decreases |calls|
  {
    if calls != [] {
      var c1, reply := Next(c, size, calls[0]), Answer(c, size, calls[0]);
      var replies := Run(c1, size, calls[1..]).1;
      MirrorsStep(c, w, size, calls[0]);
      StepKeepsSize(c, size, calls[0]);
      EveryAnswerIsRight(c1, Remember(w, calls[0], reply), size, calls[1..], calls[0].now);
      assert ([reply] + replies)[1..] == replies;
    }
  }

  // ----- When an expired entry is dropped -----

  /** Right after a get, a delete finds its key exactly if the get did: an expired entry was dropped by then. */
  lemma DeleteAfterGet<V>(c: Cache<V>, size: Capacity, k: string, now: Instant, later: Instant)
    ensures var get := Call(Get(k), now);
            Answer(Next(c, size, get), size, Call(Delete(k), later)) == Removed(Answer(c, size, get) != Got(None))
  {
  }

  /** Right after a length, exactly the keys it counted are stored. */
  lemma StoredAfterLen<V>(c: Cache<V>, size: Capacity, now: Instant)
    ensures var len := Call(Len, now);
            forall k: string :: k in Next(c, size, len).store <==> k in c.store && now <= c.store[k].expiresAt
  {
  }

  /** A get or a delete leaves every other entry as it was, expired or not. */
  lemma OthersAreSpared<V>(c: Cache<V>, size: Capacity, call: Call<V>, k: string)
    requires (call.op.Get? || call.op.Delete?) && k != call.op.key
    ensures var c' := Next(c, size, call);
            (k in c'.store <==> k in c.store) && (k in c.store ==> c'.store[k] == c.store[k])
  {
  }

  /** A set that need not make room leaves every other entry as it was, expired or not. */
  lemma SetSparesTheExpired<V>(c: Cache<V>, size: Capacity, k: string, v: V, life: real, now: Instant)
    requires |c.store| < size || k in c.store
    ensures CacheSet(c, size, k, v, life, now).store == c.store[k := Entry(v, now + life, now)]
  {
  }

  // ----- Ties -----

  /** At which call each key was last inserted: overwriting a stored key does not move it. */
  function Inserted<V>(b: map<string, nat>, c: Cache<V>, call: Call<V>, n: nat): map<string, nat> {
    if call.op.Set? && call.op.key !in c.store then b[call.op.key := n] else b
  }

  function AllInserted<V>(b: map<string, nat>, c: Cache<V>, size: Capacity, calls: seq<Call<V>>, n: nat): map<string, nat>
    decreases |calls|
  {
    if calls == [] then b else AllInserted(Inserted(b, c, calls[0], n), Next(c, size, calls[0]), size, calls[1..], n + 1)
  }

  /** The keys stand in the order in which they were inserted, all before call `n`. */
  ghost predicate InOrder(order: seq<string>, b: map<string, nat>, n: nat) {
    && (forall k :: k in order ==> k in b && b[k] < n)
    && (forall i, j :: 0 <= i < j < |order| ==> b[order[i]] < b[order[j]])
  }

  lemma TailInOrder(order: seq<string>, b: map<string, nat>, n: nat)
    requires order != [] && InOrder(order, b, n)
    ensures InOrder(order[1..], b, n) && forall k :: k in order[1..] ==> b[order[0]] < b[k]
  {
    forall k | k in order[1..]
      ensures b[order[0]] < b[k]
    {
      var j :| 0 <= j < |order[1..]| && order[1..][j] == k;
      assert order[j + 1] == k;
    }
  }

  lemma ConsInOrder(k: string, rest: seq<string>, b: map<string, nat>, n: nat)
    requires InOrder(rest, b, n) && k in b && b[k] < n && forall x :: x in rest ==> b[k] < b[x]
    ensures InOrder([k] + rest, b, n)
  {
  }

  lemma {:induction false} KeepInOrder(order: seq<string>, keys: set<string>, b: map<string, nat>, n: nat)
    requires InOrder(order, b, n)
    ensures InOrder(Keep(order, keys), b, n)
  {
    if order != [] {
      var kept := Keep(order[1..], keys);
      TailInOrder(order, b, n);
      KeepInOrder(order[1..], keys, b, n);
      if order[0] in keys {
        ConsInOrder(order[0], kept, b, n);
      }
    }
  }

  lemma RetainInOrder<V>(c: Cache<V>, keys: set<string>, b: map<string, nat>, n: nat)
    requires InOrder(c.order, b, n)
    ensures InOrder(Retain(c, keys).order, b, n)
  {
    KeepInOrder(c.order, keys, b, n);
  }

  lemma PutInOrder<V>(c: Cache<V>, k: string, e: Entry<V>, b: map<string, nat>, n: nat)
    requires InOrder(c.order, b, n)
    ensures InOrder(Put(c, k, e).order, if k in c.store then b else b[k := n], n + 1)
  {
    if k !in c.store {
      assert k !in Elements(c.order);
    }
  }

  lemma RoomInOrder<V>(c: Cache<V>, size: Capacity, k: string, now: Instant, b: map<string, nat>, n: nat)
    requires InOrder(c.order, b, n)
    ensures InOrder(MakeRoom(c, size, k, now).order, b, n)
    ensures k in MakeRoom(c, size, k, now).store <==> k in c.store
  {
    RetainInOrder(c, LiveKeys(c, now), b, n);
    var p := if Full(c, size, k) then Purge(c, now) else c;
    if Full(p, size, k) {
      RetainInOrder(p, p.store.Keys - {Victim(p)}, b, n);
    }
  }

  lemma LaterInOrder(order: seq<string>, b: map<string, nat>, n: nat)
    requires InOrder(order, b, n)
    ensures InOrder(order, b, n + 1)
  {
  }

  lemma GetInOrder<V>(c: Cache<V>, k: string, now: Instant, b: map<string, nat>, n: nat)
    requires InOrder(c.order, b, n)
    ensures InOrder(CacheGet(c, k, now).0.order, b, n + 1)
  {
    LaterInOrder(c.order, b, n);
    if k in c.store {
      RetainInOrder(c, c.store.Keys - {k}, b, n + 1);
      PutInOrder(c, k, c.store[k].(lastAccess := now), b, n);
    }
  }

  lemma StepInOrder<V>(c: Cache<V>, size: Capacity, call: Call<V>, b: map<string, nat>, n: nat)
    requires InOrder(c.order, b, n)
    ensures InOrder(Next(c, size, call).order, Inserted(b, c, call, n), n + 1)
  {
    LaterInOrder(c.order, b, n);
    match call.op
    case Get(k) => GetInOrder(c, k, call.now, b, n);
    case Set(k, v, life) =>
      RoomInOrder(c, size, k, call.now, b, n);
      PutInOrder(MakeRoom(c, size, k, call.now), k, Entry(v, call.now + life, call.now), b, n);
    case Delete(k) => RetainInOrder(c, c.store.Keys - {k}, b, n + 1);
    case Clear =>
    case Len => RetainInOrder(c, LiveKeys(c, call.now), b, n + 1);
  }

  /** Over every run the keys stand in the order of their insertion. */
  lemma {:induction false} RunInOrder<V>(c: Cache<V>, size: Capacity, calls: seq<Call<V>>, b: map<string, nat>, n: nat)
    requires InOrder(c.order, b, n)
    ensures InOrder(Run(c, size, calls).0.order, AllInserted(b, c, size, calls, n), n + |calls|)
    decreases |calls|
  {
    if calls != [] {
      StepInOrder(c, size, calls[0], b, n);
      RunInOrder(Next(c, size, calls[0]), size, calls[1..], Inserted(b, c, calls[0], n), n + 1);
    }
  }

  lemma {:induction false} FirstOfTheLeast<V>(store: map<string, Entry<V>>, order: seq<string>, n: nat) returns (i: nat)
    requires 0 < n <= |order| && forall x :: x in order ==> x in store
    ensures i < n && FirstLeast(store, order, n) == order[i]
    ensures forall j :: 0 <= j < i ==> store[order[i]].lastAccess < store[order[j]].lastAccess
  {
    if n == 1 {
      i := 0;
    } else {
      i := FirstOfTheLeast(store, order, n - 1);
      if store[order[n - 1]].lastAccess < store[order[i]].lastAccess {
        assert forall j :: 0 <= j < n - 1 ==> store[FirstLeast(store, order, n - 1)].lastAccess <= store[order[j]].lastAccess;
        i := n - 1;
      }
    }
  }

  /** Of several least recently used keys the victim is the one inserted first. */
  lemma TiesGoByInsertion<V>(c: Cache<V>, b: map<string, nat>, n: nat, k: string)
    requires InOrder(c.order, b, n) && k in c.store && k != Victim(c)
    ensures var v := Victim(c);
            v in b && k in b && (c.store[v].lastAccess < c.store[k].lastAccess ||
                                 (c.store[v].lastAccess == c.store[k].lastAccess && b[v] < b[k]))
  {
    assert forall x :: x in c.order <==> x in Elements(c.order);
    var i := FirstOfTheLeast(c.store, c.order, |c.order|);
    var j :| 0 <= j < |c.order| && c.order[j] == k;
  }
}
