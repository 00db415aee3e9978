/** app/services/redis_client.py and the Redis half of app/services/storage.py: a server whose
    commands may fail before or after taking effect, and the bounded retry around them. */
module RedisClient {
  import opened Wrappers
  import opened Records

  datatype Db = Db(docs: map<string, Record>, counters: map<string, int>)

  datatype Command = SetDoc(id: string, doc: Record) | DeleteDoc(id: string) | Incr(key: string) | Read(key: string)

  /** No caller reads the answer to a write: it is `Done`. */
  datatype Answer = Done | Number(n: int) | Value(v: Option<int>)

  function Execute(db: Db, cmd: Command): (Db, Answer) {
    match cmd
    case SetDoc(id, doc) => (db.(docs := db.docs[id := doc]), Done)
    case DeleteDoc(id) => (db.(docs := db.docs - {id}), Done)
    case Incr(key) =>
      var n := (if key in db.counters then db.counters[key] else 0) + 1;
      (db.(counters := db.counters[key := n]), Number(n))
    case Read(key) => (db, Value(if key in db.counters then Some(db.counters[key]) else None))
  }

  /** How one attempt goes.  An attempt the server carried out may still raise at the client. */
  datatype Attempt = Succeeds | AppliedButRaises | Raises

  /** The environment decides each attempt; attempts it says nothing about raise. */
  function At(attempts: seq<Attempt>, i: nat): Attempt {
    if i < |attempts| then attempts[i] else Raises
  }

  predicate TakesEffect(a: Attempt) {
    a != Raises
  }

  /** `n` executions of one command. */
  function Repeat(db: Db, cmd: Command, n: nat): Db {
    if n == 0 then db else Execute(Repeat(db, cmd, n - 1), cmd).0
  }

  /** How many of the first `n` attempts took effect. */
  function Effects(attempts: seq<Attempt>, n: nat): (r: nat)
    ensures r <= n
  {
    if n == 0 then 0 else Effects(attempts, n - 1) + (if TakesEffect(At(attempts, n - 1)) then 1 else 0)
  }

  /** The number of attempts made: up to and including the first success, at most `limit`. */
  function Made(attempts: seq<Attempt>, limit: nat): (n: nat)
    ensures n <= limit
    ensures forall i :: 0 <= i < n - 1 ==> At(attempts, i) != Succeeds
    ensures n < limit ==> n > 0 && At(attempts, n - 1) == Succeeds
  {
    if limit == 0 then 0
    else
      var m := Made(attempts, limit - 1);
      if m > 0 && At(attempts, m - 1) == Succeeds then m else limit
  }

  lemma MadeUpToSuccess(attempts: seq<Attempt>, n: nat, limit: nat)
    requires n < limit && At(attempts, n) == Succeeds
    requires forall i :: 0 <= i < n ==> At(attempts, i) != Succeeds
    ensures Made(attempts, limit) == n + 1
  {
  }

  lemma MadeAllInVain(attempts: seq<Attempt>, limit: nat)
    requires forall i :: 0 <= i < limit ==> At(attempts, i) != Succeeds
    ensures Made(attempts, limit) == limit
  {
  }

  predicate Succeeded(attempts: seq<Attempt>, limit: nat) {
    var n := Made(attempts, limit);
    n > 0 && At(attempts, n - 1) == Succeeds
  }

  /** `retries or settings.redis_retry_attempts`, as the length of the range looped over. */
  function Limit(retries: Option<int>, default: int): nat {
    var n := if retries.None? || retries.value == 0 then default else retries.value;
    if n < 0 then 0 else n
  }

  /** `n` attempts are configured: by an argument that is neither absent nor zero, else by the setting. */
  predicate Configured(retries: Option<int>, default: int, n: nat) {
    if retries == None || retries == Some(0) then default == n else retries.value == n
  }

  lemma ConfiguredLimit(retries: Option<int>, default: int)
    ensures forall n: nat :: Configured(retries, default, n) <==>
                             n == Limit(retries, default) && !Negative(retries, default)
  {
  }

  /** The number of attempts asked for is negative. */
  predicate Negative(retries: Option<int>, default: int) {
    if retries == None || retries == Some(0) then default < 0 else retries.value < 0
  }

  function RetryDb(db: Db, cmd: Command, attempts: seq<Attempt>, limit: nat): Db {
    Repeat(db, cmd, Effects(attempts, Made(attempts, limit)))
  }

  function RetryAnswer(db: Db, cmd: Command, attempts: seq<Attempt>, limit: nat): Option<Answer> {
    if Succeeded(attempts, limit)
    then Some(Execute(Repeat(db, cmd, Effects(attempts, Made(attempts, limit) - 1)), cmd).1)
    else None
  }

  lemma EffectsNext(db: Db, cmd: Command, attempts: seq<Attempt>, n: nat)
    ensures Repeat(db, cmd, Effects(attempts, n + 1)) ==
            if TakesEffect(At(attempts, n)) then Execute(Repeat(db, cmd, Effects(attempts, n)), cmd).0
            else Repeat(db, cmd, Effects(attempts, n))
  {
  }

  class RedisServer {
    var db: Db

    constructor (db: Db)
      ensures this.db == db
    {
      this.db := db;
    }

    method RedisOpWithRetry(cmd: Command, attempts: seq<Attempt>, retries: Option<int>, default: int)
      returns (answer: Option<Answer>, made: nat, sleeps: nat)
      modifies this
      ensures made == Made(attempts, Limit(retries, default))
      ensures db == RetryDb(old(db), cmd, attempts, Limit(retries, default))
      ensures answer == RetryAnswer(old(db), cmd, attempts, Limit(retries, default))
      ensures sleeps == if made == 0 then 0 else made - 1
      ensures forall n: nat :: Configured(retries, default, n) ==> made <= n && (answer.None? ==> made == n)
    {
      var maxRetries := Limit(retries, default);
      made, sleeps := 0, 0;
      for attempt := 0 to maxRetries
        invariant made == attempt
        invariant sleeps == if attempt < maxRetries || attempt == 0 then attempt else attempt - 1
        invariant db == Repeat(old(db), cmd, Effects(attempts, attempt))
        invariant forall i :: 0 <= i < attempt ==> At(attempts, i) != Succeeds
      {
        made := made + 1;
        EffectsNext(old(db), cmd, attempts, attempt);
        if TakesEffect(At(attempts, attempt)) {
          var (after, reply) := Execute(db, cmd);
          db := after;
          if At(attempts, attempt) == Succeeds {
            MadeUpToSuccess(attempts, attempt, maxRetries);
            ConfiguredLimit(retries, default);
            return Some(reply), made, sleeps;
          }
        }
        if attempt < maxRetries - 1 {
          sleeps := sleeps + 1;
        }
      }
      MadeAllInVain(attempts, maxRetries);
      ConfiguredLimit(retries, default);
      return None, made, sleeps;
    }
  }

  predicate FirstSuccess(attempts: seq<Attempt>, i: nat) {
    At(attempts, i) == Succeeds && forall j :: 0 <= j < i ==> At(attempts, j) != Succeeds
  }

  /** With `n` attempts configured no more are made: all of them, and without an answer, if none succeeds, and else as
      many as it takes to the first success, whose answer is the one given.  A negative number means none at all. */
  lemma GivesUpAfter(db: Db, cmd: Command, attempts: seq<Attempt>, retries: Option<int>, default: int, n: nat)
    requires Configured(retries, default, n) || (Negative(retries, default) && n == 0)
    ensures var limit := Limit(retries, default);
            && Made(attempts, limit) <= n
            && ((forall i :: 0 <= i < n ==> At(attempts, i) != Succeeds) ==>
                  Made(attempts, limit) == n && RetryAnswer(db, cmd, attempts, limit) == None)
            && (forall i: nat :: i < n && FirstSuccess(attempts, i) ==>
                  Made(attempts, limit) == i + 1 &&
                  RetryAnswer(db, cmd, attempts, limit) == Some(Execute(Repeat(db, cmd, Effects(attempts, i)), cmd).1))
  {
    var limit := Limit(retries, default);
    assert limit == n;
    if forall i :: 0 <= i < n ==> At(attempts, i) != Succeeds {
      MadeAllInVain(attempts, n);
    }
    forall i: nat | i < n && FirstSuccess(attempts, i)
      ensures Made(attempts, limit) == i + 1
    {
      MadeUpToSuccess(attempts, i, n);
    }
  }

  // ----- What retrying means for each command -----

  lemma {:induction false} RepeatDoc(db: Db, cmd: Command, n: nat)
    requires cmd.SetDoc? || cmd.DeleteDoc?
    ensures Repeat(db, cmd, n) == if n == 0 then db else Execute(db, cmd).0
  {
    if n > 0 {
      RepeatDoc(db, cmd, n - 1);
    }
  }

  /** A retried set or delete leaves the server untouched, or exactly as one execution would:
      the latter if and only if some attempt up to the first success took effect. */
  lemma RetryDocIsOnceOrNever(db: Db, cmd: Command, attempts: seq<Attempt>, limit: nat)
    requires cmd.SetDoc? || cmd.DeleteDoc?
    ensures RetryDb(db, cmd, attempts, limit) == if Reaches(attempts, limit) then Execute(db, cmd).0 else db
  {
    RepeatDoc(db, cmd, Effects(attempts, Made(attempts, limit)));
    EffectsPositive(attempts, Made(attempts, limit));
    ReachesByFirstSuccess(attempts, limit);
  }

  /** Some attempt within the limit takes effect. */
  predicate Reaches(attempts: seq<Attempt>, limit: nat) {
    exists i :: 0 <= i < limit && TakesEffect(At(attempts, i))
  }

  lemma {:induction false} EffectsPositive(attempts: seq<Attempt>, n: nat)
    ensures Effects(attempts, n) > 0 <==> Reaches(attempts, n)
  {
    if n > 0 {
      EffectsPositive(attempts, n - 1);
    }
  }

  lemma ReachesByFirstSuccess(attempts: seq<Attempt>, limit: nat)
    ensures Reaches(attempts, limit) <==> Reaches(attempts, Made(attempts, limit))
  {
    var n := Made(attempts, limit);
    if n < limit {
      assert TakesEffect(At(attempts, n - 1));
    }
  }

  function Counter(db: Db, key: string): int {
    if key in db.counters then db.counters[key] else 0
  }

  /** Documents and the other counters are as they were. */
  ghost predicate OnlyCounter(db: Db, db': Db, key: string) {
    db'.docs == db.docs && forall k: string :: k != key ==> Counter(db', k) == Counter(db, k)
  }

  lemma {:induction false} RepeatIncr(db: Db, key: string, n: nat)
    ensures Counter(Repeat(db, Incr(key), n), key) == Counter(db, key) + n
    ensures OnlyCounter(db, Repeat(db, Incr(key), n), key)
  {
    if n > 0 {
      RepeatIncr(db, key, n - 1);
    }
  }

  /** A number returned by a retried increment, and the counter, are ahead of the old counter by one plus
      the attempts that took effect and still raised. */
  lemma RetriedIncrement(db: Db, key: string, attempts: seq<Attempt>, limit: nat)
    requires Succeeded(attempts, limit)
    ensures var before := Effects(attempts, Made(attempts, limit) - 1);
            && RetryAnswer(db, Incr(key), attempts, limit) == Some(Number(Counter(db, key) + 1 + before))
            && Counter(RetryDb(db, Incr(key), attempts, limit), key) == Counter(db, key) + 1 + before
  {
    RepeatIncr(db, key, Effects(attempts, Made(attempts, limit) - 1));
    RepeatIncr(db, key, Effects(attempts, Made(attempts, limit)));
  }

  lemma {:induction false} RepeatRead(db: Db, key: string, n: nat)
    ensures Repeat(db, Read(key), n) == db
  {
    if n > 0 {
      RepeatRead(db, key, n - 1);
    }
  }

  /** A retried read changes nothing, and answers with what is stored if it answers at all. */
  lemma RetryReads(db: Db, key: string, attempts: seq<Attempt>, limit: nat)
    ensures RetryDb(db, Read(key), attempts, limit) == db
    ensures RetryAnswer(db, Read(key), attempts, limit) ==
            if Succeeded(attempts, limit) then Some(Execute(db, Read(key)).1) else None
  {
    RepeatRead(db, key, Effects(attempts, Made(attempts, limit)));
    if Succeeded(attempts, limit) {
      RepeatRead(db, key, Effects(attempts, Made(attempts, limit) - 1));
    }
  }

  /** An increment, with nothing done and no number where Redis is not up. */
  function RetryIncr(up: bool, db: Db, key: string, attempts: seq<Attempt>, limit: nat): (Db, Option<int>) {
    if !up then (db, None)
    else
      var answer := RetryAnswer(db, Incr(key), attempts, limit);
      (RetryDb(db, Incr(key), attempts, limit),
       if answer.Some? && answer.value.Number? then Some(answer.value.n) else None)
  }

  /** A counter request: the read that warms the connection, its answer dropped, then the increment. */
  function Count(up: bool, db: Db, key: string, warm: seq<Attempt>, attempts: seq<Attempt>, limit: nat): (Db, Option<int>) {
    var touched := if up then RetryDb(db, Read(key), warm, limit) else db;
    RetryIncr(up, touched, key, attempts, limit)
  }

  /** Attempt `i` takes effect, and no other of the first `n` does. */
  predicate OnlyEffect(attempts: seq<Attempt>, i: nat, n: nat) {
    i < n && TakesEffect(At(attempts, i)) && forall j :: 0 <= j < n && j != i ==> !TakesEffect(At(attempts, j))
  }

  /** Exactly one of the first `n` attempts takes effect. */
  ghost predicate OneEffect(attempts: seq<Attempt>, n: nat) {
    exists i: nat :: OnlyEffect(attempts, i, n)
  }

  lemma FirstEffect(attempts: seq<Attempt>, n: nat)
    requires TakesEffect(At(attempts, n))
    ensures OneEffect(attempts, n + 1) <==> !Reaches(attempts, n)
  {
    if Reaches(attempts, n) {
      var i :| 0 <= i < n && TakesEffect(At(attempts, i));
    } else {
      assert OnlyEffect(attempts, n, n + 1);
    }
  }

  lemma NoFurtherEffect(attempts: seq<Attempt>, n: nat)
    requires !TakesEffect(At(attempts, n))
    ensures OneEffect(attempts, n + 1) <==> OneEffect(attempts, n)
  {
    if OneEffect(attempts, n) {
      var i: nat :| OnlyEffect(attempts, i, n);
      assert OnlyEffect(attempts, i, n + 1);
    }
    if OneEffect(attempts, n + 1) {
      var i: nat :| OnlyEffect(attempts, i, n + 1);
      assert OnlyEffect(attempts, i, n);
    }
  }

  lemma {:induction false} EffectsOne(attempts: seq<Attempt>, n: nat)
    ensures Effects(attempts, n) == 1 <==> OneEffect(attempts, n)
  {
    if n > 0 {
      EffectsOne(attempts, n - 1);
      EffectsPositive(attempts, n - 1);
      if TakesEffect(At(attempts, n - 1)) {
        FirstEffect(attempts, n - 1);
      } else {
        NoFurtherEffect(attempts, n - 1);
      }
    }
  }

  /** A counter request, whether or not it answers and however the warming read goes, advances the counter by the
      number of its increments that took effect, by exactly one if and only if Redis is up and exactly one did, and
      changes nothing else. */
  lemma CountsOnceIff(up: bool, db: Db, key: string, warm: seq<Attempt>, attempts: seq<Attempt>, limit: nat)
    ensures var made, after := Made(attempts, limit), Counter(Count(up, db, key, warm, attempts, limit).0, key);
            && after == Counter(db, key) + (if up then Effects(attempts, made) else 0)
            && (after == Counter(db, key) + 1 <==> up && OneEffect(attempts, made))
            && OnlyCounter(db, Count(up, db, key, warm, attempts, limit).0, key)
  {
    RetryReads(db, key, warm, limit);
    RepeatIncr(db, key, Effects(attempts, Made(attempts, limit)));
    EffectsOne(attempts, Made(attempts, limit));
  }

  lemma AnswersWhenSucceeded(db: Db, key: string, warm: seq<Attempt>, attempts: seq<Attempt>, limit: nat)
    ensures Count(true, db, key, warm, attempts, limit).1 ==
            if Succeeded(attempts, limit) then Some(Counter(db, key) + 1 + Effects(attempts, Made(attempts, limit) - 1))
            else None
  {
    RetryReads(db, key, warm, limit);
    if Succeeded(attempts, limit) {
      RetriedIncrement(db, key, attempts, limit);
    }
  }

  /** The number returned is one more than the old counter if and only if Redis is up, some increment succeeds and
      none before it took effect and still raised. */
  lemma ReturnsNextIff(up: bool, db: Db, key: string, warm: seq<Attempt>, attempts: seq<Attempt>, limit: nat)
    ensures Count(up, db, key, warm, attempts, limit).1 == Some(Counter(db, key) + 1) <==>
            up && Succeeded(attempts, limit) &&
            forall i :: 0 <= i < Made(attempts, limit) - 1 ==> At(attempts, i) != AppliedButRaises
  {
    AnswersWhenSucceeded(db, key, warm, attempts, limit);
    if Succeeded(attempts, limit) {
      var n := Made(attempts, limit) - 1;
      EffectsPositive(attempts, n);
      assert forall i :: 0 <= i < n ==> (TakesEffect(At(attempts, i)) <==> At(attempts, i) == AppliedButRaises);
    }
  }

  /** There is no number if and only if Redis is down or no increment within the limit succeeds. */
  lemma NoNumberIff(up: bool, db: Db, key: string, warm: seq<Attempt>, attempts: seq<Attempt>, limit: nat)
    ensures Count(up, db, key, warm, attempts, limit).1 == None <==>
            !up || forall i :: 0 <= i < limit ==> At(attempts, i) != Succeeds
  {
    AnswersWhenSucceeded(db, key, warm, attempts, limit);
    if Succeeded(attempts, limit) {
      assert At(attempts, Made(attempts, limit) - 1) == Succeeds;
    }
  }

  /** A lost reply is enough to break the promise: the first attempt counts, raises, and is retried. */
  lemma CountsTwice(warm: seq<Attempt>)
    ensures Count(true, Db(map[], map["hits" := 7]), "hits", warm, [AppliedButRaises, Succeeds], 3).1 == Some(9)
  {
    var attempts := [AppliedButRaises, Succeeds];
    assert At(attempts, 0) == AppliedButRaises && At(attempts, 1) == Succeeds;
    assert Made(attempts, 1) == 1;
    assert Made(attempts, 2) == 2;
    assert Made(attempts, 3) == 2;
    assert Effects(attempts, 1) == 1;
    AnswersWhenSucceeded(Db(map[], map["hits" := 7]), "hits", warm, attempts, 3);
  }

  /** A request that answers nothing can still count, here three times; or not at all. */
  lemma CountsWithoutAnswer(warm: seq<Attempt>)
    ensures var db, lost := Db(map[], map["hits" := 7]), [AppliedButRaises, AppliedButRaises, AppliedButRaises];
            var (many, x) := Count(true, db, "hits", warm, lost, 3); var (none, y) := Count(true, db, "hits", warm, [], 3);
            x == y == None && Counter(many, "hits") == 10 && Counter(none, "hits") == 7
  {
    var db, lost := Db(map[], map["hits" := 7]), [AppliedButRaises, AppliedButRaises, AppliedButRaises];
    assert forall i :: 0 <= i < 3 ==> At(lost, i) == AppliedButRaises;
    MadeAllInVain(lost, 3);
    MadeAllInVain([], 3);
    assert Effects(lost, 1) == 1 && Effects(lost, 2) == 2 && Effects(lost, 3) == 3;
    EffectsPositive([], 3);
    CountsOnceIff(true, db, "hits", warm, lost, 3);
    CountsOnceIff(true, db, "hits", warm, [], 3);
    AnswersWhenSucceeded(db, "hits", warm, lost, 3);
    AnswersWhenSucceeded(db, "hits", warm, [], 3);
  }
}
