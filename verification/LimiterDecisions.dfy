/** The limiter of app/auth.py in seconds: every verdict from the times of the attempts and the verdicts before it. */
module LimiterDecisions {
  import opened RateLimiter
  import opened LimiterBounds

  /** The wait in seconds after `n` failures of the last ten minutes. */
  function Wait(n: nat): real {
    if n < 3 then 0.0
    else if n == 3 then 2.0
    else if n == 4 then 4.0
    else if n == 5 then 8.0
    else if n == 6 then 16.0
    else if n == 7 then 32.0
    else 60.0
  }

  lemma DelayIsWait(n: nat)
    ensures Delay(n) as real == Wait(n)
  {
    assert Pow2(2) == 4 && Pow2(4) == 16;
    if n >= 8 {
      DelayCapped(n);
    }
  }

  // ----- The failures, read off the attempts and their verdicts -----

  function FailedNext(ts: seq<Instant>, ip: string, a: Attempt, v: Verdict): seq<Instant> {
    if a.ip != ip then ts
    else if v.Rejected? then ts + [a.now]
    else if v.Accepted? then []
    else ts
  }

  /** When `ip` has failed since it last succeeded, after `ts` before the run. */
  function Failed(ts: seq<Instant>, ip: string, attempts: seq<Attempt>, verdicts: seq<Verdict>): seq<Instant>
    requires |attempts| == |verdicts|
    decreases |attempts|
  {
    if attempts == [] then ts else Failed(FailedNext(ts, ip, attempts[0], verdicts[0]), ip, attempts[1..], verdicts[1..])
  }

  lemma {:induction false} HistoryIsRead(h: Tracker, ip: string, attempts: seq<Attempt>)
    ensures Failures(JudgeAll(h, attempts).0, ip) == Failed(Failures(h, ip), ip, attempts, JudgeAll(h, attempts).1)
    decreases |attempts|
  {
    if attempts != [] {
      var (h1, v) := Judge(h, attempts[0]);
      var vs := JudgeAll(h1, attempts[1..]).1;
      assert ([v] + vs)[1..] == vs;
      HistoryIsRead(h1, ip, attempts[1..]);
    }
  }

  function End(attempts: seq<Attempt>, from: Instant): Instant {
    if attempts == [] then from else attempts[|attempts| - 1].now
  }

  lemma {:induction false} TracksRun(tr: Tracker, h: Tracker, attempts: seq<Attempt>, from: Instant)
    requires Tracks(tr, h, from) && Ordered(attempts, from)
    ensures Tracks(Run(tr, attempts).0, JudgeAll(h, attempts).0, End(attempts, from))
    decreases |attempts|
  {
    if attempts != [] {
      TracksLater(tr, h, from, attempts[0].now);
      TracksStep(tr, h, attempts[0]);
      TracksRun(Try(tr, attempts[0]).0, Judge(h, attempts[0]).0, attempts[1..], attempts[0].now);
    }
  }

  /** The limiter's list and the failures read off the run agree on the window, and these are sorted. */
  lemma TrackedIsRead(attempts: seq<Attempt>, from: Instant, ip: string, now: Instant)
    requires Ordered(attempts, from) && End(attempts, from) <= now
    ensures var (tr, vs) := Run(map[], attempts); var ts := Failed([], ip, attempts, vs);
            Sorted(ts) && Recent(Failures(tr, ip), now) == Recent(ts, now)
  {
    PruningIsUnobservable(map[], map[], attempts, from);
    TracksRun(map[], map[], attempts, from);
    HistoryIsRead(map[], ip, attempts);
    HistoriesArePaced(map[], attempts, from);
    TracksLater(Run(map[], attempts).0, JudgeAll(map[], attempts).0, End(attempts, from), now);
  }

  /** Those from `i` on, and only those, are less than ten minutes old. */
  ghost predicate Cut(ts: seq<Instant>, now: Instant, i: nat) {
    i <= |ts| && forall j :: 0 <= j < |ts| ==> (now - ts[j] < 600.0 <==> i <= j)
  }

  /** Over every run, a failure since the last success is tracked exactly while it is less than 600 seconds old. */
  lemma TrackedForTenMinutes(attempts: seq<Attempt>, from: Instant, ip: string, now: Instant) returns (i: nat)
    requires Ordered(attempts, from) && End(attempts, from) <= now
    ensures var (tr, vs) := Run(map[], attempts); var ts := Failed([], ip, attempts, vs);
            Cut(ts, now, i) && Failures(Cleaned(tr, ip, now), ip) == ts[i..]
  {
    var (tr, vs) := Run(map[], attempts);
    TrackedIsRead(attempts, from, ip, now);
    i := RecentIsSuffix(Failed([], ip, attempts, vs), now);
    CleanedFailures(tr, ip, now);
  }

  /** Over every run the next verdict follows from the times of the failures before it alone: with `n` of them less than
      600 seconds old it is a 429 if and only if the last is less than the wait for `n` ago, and else what the comparison
      says. */
  lemma DecidedByTheTimes(attempts: seq<Attempt>, from: Instant, a: Attempt) returns (i: nat)
    requires Ordered(attempts, from) && End(attempts, from) <= a.now
    ensures var (tr, vs) := Run(map[], attempts); var ts := Failed([], a.ip, attempts, vs);
            && Cut(ts, a.now, i)
            && Try(tr, a).1 == (if |ts| - i >= 3 && a.now - ts[|ts| - 1] < Wait(|ts| - i) then Limited
                                else match a.result
                                     case Match => Accepted
                                     case Mismatch => Rejected
                                     case Raises => Errored)
  {
    var (tr, vs) := Run(map[], attempts);
    i := TrackedForTenMinutes(attempts, from, a.ip, a.now);
    CleanedFailures(tr, a.ip, a.now);
    DelayIsWait(|Failed([], a.ip, attempts, vs)| - i);
  }
}
