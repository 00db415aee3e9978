/** How many failures the limiter of app/auth.py lets through, and for how long it locks. */
module LimiterBounds {
  import opened RateLimiter

  const MOST := 16

  // ----- Delays -----

  lemma {:induction false} Pow2Grows(m: nat, n: nat)
    requires m <= n
    ensures Pow2(m) <= Pow2(n)
    decreases n - m
  {
    if m < n {
      Pow2Grows(m + 1, n);
    }
  }

  /** More failures never mean a shorter delay. */
  lemma DelayGrows(m: nat, n: nat)
    requires m <= n
    ensures Delay(m) <= Delay(n) <= MAX_DELAY
  {
    if 3 <= m {
      Pow2Grows(m - 3, n - 3);
    }
  }

  lemma DelayCapped(n: nat)
    requires n >= 8
    ensures Delay(n) == 60
  {
    assert Pow2(2) == 4 && Pow2(4) == 16 && Pow2(5) == 32;
    Pow2Grows(5, n - 3);
  }

  /** How long after its first failure an address that fails the instant it may records failure `n`. */
  function Fastest(n: nat): Instant {
    if n == 0 then 0.0 else Fastest(n - 1) + Delay(n) as real
  }

  /** From the eighth failure on it is one a minute, 358 seconds ahead of a steady one a minute. */
  lemma {:induction false} FastestInMinutes(n: nat)
    ensures Fastest(n) >= 60.0 * n as real - 358.0
    ensures n >= 7 ==> Fastest(n) == 60.0 * n as real - 358.0
  {
    FirstSeven();
    if n > 7 {
      FastestInMinutes(n - 1);
      DelayCapped(n);
    } else if n < 6 {
      FastestGrows(0, n);
    }
  }

  lemma FirstSeven()
    ensures Fastest(6) == 30.0 && Fastest(7) == 62.0
  {
    assert Pow2(2) == 4 && Pow2(4) == 16;
    assert Fastest(2) == 0.0;
    assert Fastest(4) == 6.0;
    assert Fastest(6) == 30.0;
  }

  lemma {:induction false} FastestGrows(m: nat, n: nat)
    requires m <= n
    ensures Fastest(m) <= Fastest(n)
    decreases n
  {
    if m < n {
      FastestGrows(m, n - 1);
    }
  }

  // ----- Sorted lists of failures -----

  ghost predicate Sorted(ts: seq<Instant>) {
    forall i, j :: 0 <= i <= j < |ts| ==> ts[i] <= ts[j]
  }

  /** Each failure after the third waited at least the delay for its position. */
  ghost predicate Spaced(ts: seq<Instant>) {
    forall j: nat :: 3 <= j < |ts| ==> ts[j] - ts[j - 1] >= Delay(j) as real
  }

  /** Pruning a sorted list drops a prefix. */
  lemma {:induction false} RecentIsSuffix(ts: seq<Instant>, now: Instant) returns (i: nat)
    requires Sorted(ts)
    ensures i <= |ts| && Recent(ts, now) == ts[i..]
    ensures forall j :: 0 <= j < |ts| ==> (ts[j] > now - WINDOW <==> i <= j)
  {
    if ts == [] {
      i := 0;
    } else if ts[0] > now - WINDOW {
      i := 0;
      RecentAll(ts, now);
    } else {
      var k := RecentIsSuffix(ts[1..], now);
      i := k + 1;
      assert ts[1..][k..] == ts[i..];
      assert forall j :: 1 <= j < |ts| ==> ts[j] == ts[1..][j - 1];
    }
  }

  lemma {:induction false} RecentAll(ts: seq<Instant>, now: Instant)
    requires forall j :: 0 <= j < |ts| ==> ts[j] > now - WINDOW
    ensures Recent(ts, now) == ts
  {
    if ts != [] {
      RecentAll(ts[1..], now);
    }
  }

  lemma SuffixSpaced(ts: seq<Instant>, i: nat)
    requires i <= |ts| && Spaced(ts)
    ensures Spaced(ts[i..])
  {
    forall j: nat | 3 <= j < |ts[i..]|
      ensures ts[i..][j] - ts[i..][j - 1] >= Delay(j) as real
    {
      DelayGrows(j, i + j);
      assert ts[i + j] - ts[i + j - 1] >= Delay(i + j) as real;
    }
  }

  /** A spaced list spreads out at least as a fastest one. */
  lemma {:induction false} SpacedSpan(ts: seq<Instant>, n: nat)
    requires Sorted(ts) && Spaced(ts) && n < |ts|
    ensures ts[n] - ts[0] >= Fastest(n)
  {
    if n > 0 {
      SpacedSpan(ts, n - 1);
      assert ts[n - 1] <= ts[n];
    }
  }

  /** Seventeen spaced failures take at least 2 + 4 + 8 + 16 + 32 + 9 * 60 = 602 seconds. */
  lemma SeventeenTakeLonger(ts: seq<Instant>)
    requires Sorted(ts) && Spaced(ts) && |ts| > MOST
    ensures ts[16] - ts[0] >= 602.0
  {
    SpacedSpan(ts, 16);
    FastestInMinutes(16);
  }

  // ----- The bound, over every run -----

  ghost predicate Bounded(ts: seq<Instant>, now: Instant) {
    && Sorted(ts) && Spaced(ts) && |ts| <= MOST
    && forall i :: 0 <= i < |ts| ==> ts[i] <= now
  }

  ghost predicate TrackerInv(tr: Tracker, now: Instant) {
    forall ip :: ip in tr ==> tr[ip] != [] && Bounded(tr[ip], now)
  }

  lemma RecentBounded(ts: seq<Instant>, t: Instant, now: Instant)
    requires Bounded(ts, t) && t <= now
    ensures Bounded(Recent(ts, now), now)
  {
    var i := RecentIsSuffix(ts, now);
    SuffixSpaced(ts, i);
  }

  lemma AppendSpaced(kept: seq<Instant>, now: Instant)
    requires Sorted(kept) && Spaced(kept) && forall i :: 0 <= i < |kept| ==> kept[i] <= now
    requires |kept| >= 3 ==> now - kept[|kept| - 1] >= Delay(|kept|) as real
    ensures Sorted(kept + [now]) && Spaced(kept + [now])
  {
  }

  lemma RecordedBounded(ts: seq<Instant>, t: Instant, now: Instant)
    requires Bounded(ts, t) && t <= now && Allows(ts, now)
    ensures Bounded(Recent(ts, now) + [now], now)
  {
    var kept := Recent(ts, now);
    RecentBounded(ts, t, now);
    var next := kept + [now];
    AppendSpaced(kept, now);
    assert next[0] == now || next[0] in kept;
    if |next| > MOST {
      SeventeenTakeLonger(next);
    }
  }

  lemma InvStep(tr: Tracker, a: Attempt, t: Instant)
    requires TrackerInv(tr, t) && t <= a.now
    ensures TrackerInv(Try(tr, a).0, a.now)
  {
    assert Bounded(Failures(tr, a.ip), t);
    RecentBounded(Failures(tr, a.ip), t, a.now);
    if Allows(Failures(tr, a.ip), a.now) {
      RecordedBounded(Failures(tr, a.ip), t, a.now);
    }
  }

  /** In the full history, when the last of `n - i + 1` failures still has the first in its window, it waited at
      least the delay for their number. */
  ghost predicate Paced(ts: seq<Instant>) {
    forall i: nat, n: nat :: i + 3 <= n < |ts| ==> Waited(ts, i, n)
  }

  predicate Waited(ts: seq<Instant>, i: nat, n: nat)
    requires i + 3 <= n < |ts|
  {
    ts[n] - ts[i] < WINDOW ==> ts[n] - ts[n - 1] >= Delay(n - i) as real
  }

  /** However many failures are taken from the history, they are at least as far apart as a fastest run of as many. */
  ghost predicate Spread(ts: seq<Instant>) {
    forall i: nat, j: nat :: i <= j < |ts| ==> ts[j] - ts[i] >= Fastest(j - i)
  }

  lemma PacedGap(ts: seq<Instant>, i: nat, n: nat, d: nat)
    requires Paced(ts) && i + 3 <= i + d <= n < |ts| && ts[n] - ts[i] < WINDOW
    ensures ts[n] - ts[n - 1] >= Delay(d) as real
  {
    assert Waited(ts, i, n);
    DelayGrows(d, n - i);
  }

  /** Failures that all fit one window after the first are spaced as a tracked list is. */
  lemma PacedIsSpaced(ts: seq<Instant>, i: nat, j: nat)
    requires Sorted(ts) && Paced(ts) && i < j <= |ts| && ts[j - 1] - ts[i] < WINDOW
    ensures Sorted(ts[i..j]) && Spaced(ts[i..j])
  {
    forall m: nat | 3 <= m < j - i
      ensures ts[i..j][m] - ts[i..j][m - 1] >= Delay(m) as real
    {
      assert ts[i + m] <= ts[j - 1];
      PacedGap(ts, i, i + m, m);
    }
  }

  /** Failures that fit one window are spread as a tracked list is. */
  lemma SpreadInside(ts: seq<Instant>, i: nat, j: nat)
    requires Sorted(ts) && Paced(ts) && i <= j < |ts| && ts[j] - ts[i] < WINDOW
    ensures ts[j] - ts[i] >= Fastest(j - i)
  {
    PacedIsSpaced(ts, i, j + 1);
    SpacedSpan(ts[i..j + 1], j - i);
  }

  /** Though pruning forgets what left the window, the last nine still keep the pace of one a minute. */
  lemma {:induction false} SpreadAcross(ts: seq<Instant>, i: nat, j: nat)
    requires Sorted(ts) && Paced(ts) && i <= j < |ts|
    ensures ts[j] - ts[i] >= Fastest(j - i)
    decreases j - i
  {
    if ts[j] - ts[i] < WINDOW {
      SpreadInside(ts, i, j);
    } else if j - i <= 15 {
      FastestGrows(j - i, 15);
      FastestInMinutes(15);
    } else if ts[j] - ts[j - 8] < WINDOW {
      SpreadAcross(ts, i, j - 1);
      PacedGap(ts, j - 8, j, 8);
      DelayCapped(8);
      DelayCapped(j - i);
    } else {
      SpreadAcross(ts, i, j - 8);
      FastestInMinutes(j - i);
      FastestInMinutes(j - i - 8);
    }
  }

  lemma PacedIsSpread(ts: seq<Instant>)
    requires Sorted(ts) && Paced(ts)
    ensures Spread(ts)
  {
    forall i: nat, j: nat | i <= j < |ts|
      ensures ts[j] - ts[i] >= Fastest(j - i)
    {
      SpreadAcross(ts, i, j);
    }
  }

  ghost predicate HistoryOk(ts: seq<Instant>, now: Instant) {
    Sorted(ts) && Paced(ts) && forall i :: 0 <= i < |ts| ==> ts[i] <= now
  }

  ghost predicate HistoryInv(h: Tracker, now: Instant) {
    forall ip :: ip in h ==> HistoryOk(h[ip], now)
  }

  lemma RecentHasAll(ts: seq<Instant>, i: nat, now: Instant)
    requires Sorted(ts) && i < |ts| && ts[i] > now - WINDOW
    ensures var kept := Recent(ts, now); |kept| >= |ts| - i && kept[|kept| - 1] == ts[|ts| - 1]
  {
    var k := RecentIsSuffix(ts, now);
  }

  lemma LastGap(ts: seq<Instant>, i: nat, now: Instant)
    requires Sorted(ts) && i + 3 <= |ts| && now - ts[i] < WINDOW && Allows(ts, now)
    ensures now - ts[|ts| - 1] >= Delay(|ts| - i) as real
  {
    RecentHasAll(ts, i, now);
    DelayGrows(|ts| - i, |Recent(ts, now)|);
  }

  lemma HistoryGrows(ts: seq<Instant>, t: Instant, now: Instant)
    requires HistoryOk(ts, t) && t <= now && Allows(ts, now)
    ensures HistoryOk(ts + [now], now)
  {
    var next := ts + [now];
    forall i: nat, n: nat | i + 3 <= n < |next|
      ensures Waited(next, i, n)
    {
      if n < |ts| {
        assert Waited(ts, i, n);
      } else if now - ts[i] < WINDOW {
        LastGap(ts, i, now);
      }
    }
  }

  lemma HistoryStep(h: Tracker, a: Attempt, t: Instant)
    requires HistoryInv(h, t) && t <= a.now
    ensures HistoryInv(Judge(h, a).0, a.now)
  {
    if Judge(h, a).1.Rejected? {
      assert HistoryOk(Failures(h, a.ip), t);
      HistoryGrows(Failures(h, a.ip), t, a.now);
    }
  }

  /** Over every run the history of each address is sorted and paced. */
  lemma {:induction false} HistoriesArePaced(h: Tracker, attempts: seq<Attempt>, from: Instant)
    requires HistoryInv(h, from) && Ordered(attempts, from)
    ensures forall ip: string :: var ts := Failures(JudgeAll(h, attempts).0, ip); Sorted(ts) && Paced(ts)
    decreases |attempts|
  {
    if attempts != [] {
      HistoryStep(h, attempts[0], from);
      HistoriesArePaced(Judge(h, attempts[0]).0, attempts[1..], attempts[0].now);
    }
  }

  lemma {:induction false} TrackedStayBounded(tr: Tracker, attempts: seq<Attempt>, from: Instant)
    requires TrackerInv(tr, from) && Ordered(attempts, from)
    ensures forall ip: string :: |Failures(Run(tr, attempts).0, ip)| <= MOST
    decreases |attempts|
  {
    if attempts != [] {
      InvStep(tr, attempts[0], from);
      TrackedStayBounded(Try(tr, attempts[0]).0, attempts[1..], attempts[0].now);
    }
  }

  /** From an empty tracker, over every run of attempts on both surfaces: no address ever has more than 16 tracked
      failures, and in its whole unpruned history no number of failures without a success between them comes faster
      than in a fastest run. */
  lemma AtMostSixteen(tr: Tracker, h: Tracker, attempts: seq<Attempt>, from: Instant)
    requires TrackerInv(tr, from) && HistoryInv(h, from) && Ordered(attempts, from)
    ensures forall ip: string :: |Failures(Run(tr, attempts).0, ip)| <= MOST
    ensures forall ip: string :: Spread(Failures(JudgeAll(h, attempts).0, ip))
  {
    TrackedStayBounded(tr, attempts, from);
    HistoriesArePaced(h, attempts, from);
    forall ip: string
      ensures Spread(Failures(JudgeAll(h, attempts).0, ip))
    {
      PacedIsSpread(Failures(JudgeAll(h, attempts).0, ip));
    }
  }

  // ----- The bound is reached -----

  /** One failed attempt from `ip` at each instant. */
  function Fails(ip: string, ts: seq<Instant>): seq<Attempt> {
    if ts == [] then [] else [Attempt(ip, Mismatch, ts[0])] + Fails(ip, ts[1..])
  }

  function Tracking(ip: string, ts: seq<Instant>): Tracker {
    if ts == [] then map[] else map[ip := ts]
  }

  lemma TrackingPut(ip: string, ts: seq<Instant>, next: seq<Instant>)
    requires next != []
    ensures Tracking(ip, ts)[ip := next] == Tracking(ip, next)
  {
  }

  /** A failure that is let through is recorded, by the limiter and by the reference. */
  lemma FailureRecorded(ip: string, ts: seq<Instant>, t: Instant)
    requires Allows(ts, t)
    ensures Try(Tracking(ip, ts), Attempt(ip, Mismatch, t)) == (Tracking(ip, Recent(ts, t) + [t]), Rejected)
    ensures Judge(Tracking(ip, ts), Attempt(ip, Mismatch, t)) == (Tracking(ip, ts + [t]), Rejected)
  {
    assert Failures(Tracking(ip, ts), ip) == ts;
    TrackingPut(ip, ts, Recent(ts, t) + [t]);
    TrackingPut(ip, ts, ts + [t]);
  }

  lemma SpacedRecent(done: seq<Instant>, t: Instant)
    requires Sorted(done + [t]) && (done != [] ==> t - done[0] < WINDOW)
    ensures Recent(done, t) == done
  {
    var next := done + [t];
    forall j | 0 <= j < |done|
      ensures done[j] > t - WINDOW
    {
      assert next[0] <= next[j] && next[j] == done[j];
    }
    RecentAll(done, t);
  }

  lemma SpacedLast(done: seq<Instant>, t: Instant)
    requires Spaced(done + [t]) && |done| >= 3
    ensures t - done[|done| - 1] >= Delay(|done|) as real
  {
    var next := done + [t];
    assert next[|done|] - next[|done| - 1] >= Delay(|done|) as real;
  }

  /** With `done` tracked, the next failure of a spaced list is let through and tracked too. */
  lemma SpacedTry(ip: string, done: seq<Instant>, t: Instant)
    requires Sorted(done + [t]) && Spaced(done + [t]) && (done != [] ==> t - done[0] < WINDOW)
    ensures Try(Tracking(ip, done), Attempt(ip, Mismatch, t)) == (Tracking(ip, done + [t]), Rejected)
  {
    SpacedRecent(done, t);
    if |done| >= 3 {
      SpacedLast(done, t);
    }
    FailureRecorded(ip, done, t);
  }

  lemma PrefixSpaced(ts: seq<Instant>, n: nat)
    requires n <= |ts| && Sorted(ts) && Spaced(ts)
    ensures Sorted(ts[..n]) && Spaced(ts[..n])
  {
  }

  lemma MoveOne(done: seq<Instant>, ts: seq<Instant>)
    requires Sorted(done + ts) && Spaced(done + ts) && ts != []
    requires (done + ts)[|done + ts| - 1] - (done + ts)[0] < WINDOW
    ensures Sorted(done + [ts[0]]) && Spaced(done + [ts[0]])
    ensures done != [] ==> ts[0] - done[0] < WINDOW
    ensures (done + [ts[0]]) + ts[1..] == done + ts
  {
    var all := done + ts;
    PrefixSpaced(all, |done| + 1);
    assert all[..|done| + 1] == done + [ts[0]];
    assert all[|done|] == ts[0] && all[|done|] <= all[|all| - 1];
    assert done != [] ==> all[0] == done[0];
  }

  lemma FailsCons(ip: string, ts: seq<Instant>)
    requires ts != []
    ensures Fails(ip, ts) == [Attempt(ip, Mismatch, ts[0])] + Fails(ip, ts[1..])
    ensures Fails(ip, ts)[1..] == Fails(ip, ts[1..])
  {
  }

  lemma {:induction false} SpacedContinues(ip: string, done: seq<Instant>, ts: seq<Instant>)
    requires Sorted(done + ts) && Spaced(done + ts)
    requires done + ts != [] ==> (done + ts)[|done + ts| - 1] - (done + ts)[0] < WINDOW
    ensures var (tr, vs) := Run(Tracking(ip, done), Fails(ip, ts));
            Failures(tr, ip) == done + ts && forall v :: v in vs ==> v.Rejected?
    decreases |ts|
  {
    var all := done + ts;
    if ts == [] {
      assert all == done;
    } else {
      MoveOne(done, ts);
      SpacedTry(ip, done, ts[0]);
      SpacedContinues(ip, done + [ts[0]], ts[1..]);
      FailsCons(ip, ts);
    }
  }

  /** Every sorted list that spans less than a window and is spaced by the delays is one the limiter lets an address build up. */
  lemma SpacedIsReachable(ip: string, ts: seq<Instant>)
    requires Sorted(ts) && Spaced(ts)
    requires ts != [] ==> ts[|ts| - 1] - ts[0] < WINDOW
    ensures Failures(Run(map[], Fails(ip, ts)).0, ip) == ts
    ensures forall v :: v in Run(map[], Fails(ip, ts)).1 ==> v.Rejected?
  {
    assert [] + ts == ts;
    SpacedContinues(ip, [], ts);
  }

  /** The first `n` failures of an address that fails the instant it may. */
  function FastestRun(n: nat): (ts: seq<Instant>)
    ensures |ts| == n && forall k :: 0 <= k < n ==> ts[k] == Fastest(k)
  {
    if n == 0 then [] else FastestRun(n - 1) + [Fastest(n - 1)]
  }

  lemma FastestIsSpaced(n: nat)
    ensures Sorted(FastestRun(n)) && Spaced(FastestRun(n))
  {
    forall i, j | 0 <= i <= j < n
      ensures FastestRun(n)[i] <= FastestRun(n)[j]
    {
      FastestGrows(i, j);
    }
  }

  /** Sixteen is reached: an address that fails the instant it may gets there after 542 seconds. */
  lemma SixteenIsReached(ip: string)
    ensures |Failures(Run(map[], Fails(ip, FastestRun(MOST))).0, ip)| == MOST
    ensures Fastest(MOST - 1) == 542.0
  {
    FastestInMinutes(15);
    FastestIsSpaced(MOST);
    SpacedIsReachable(ip, FastestRun(MOST));
  }

  lemma PacedAllows(done: seq<Instant>, t: Instant)
    requires Sorted(done) && Paced(done + [t])
    ensures Allows(done, t)
  {
    var next := done + [t];
    var k := RecentIsSuffix(done, t);
    if |done| - k >= 3 {
      assert Waited(next, k, |done|);
    }
  }

  lemma PacedPrefix(ts: seq<Instant>, n: nat)
    requires n <= |ts| && Sorted(ts) && Paced(ts)
    ensures Sorted(ts[..n]) && Paced(ts[..n])
  {
    forall i: nat, m: nat | i + 3 <= m < n
      ensures Waited(ts[..n], i, m)
    {
      assert Waited(ts, i, m);
    }
  }

  lemma {:induction false} PacedContinues(ip: string, done: seq<Instant>, ts: seq<Instant>)
    requires Sorted(done + ts) && Paced(done + ts)
    ensures var (h, vs) := JudgeAll(Tracking(ip, done), Fails(ip, ts));
            Failures(h, ip) == done + ts && forall v :: v in vs ==> v.Rejected?
    decreases |ts|
  {
    if ts == [] {
      assert done + ts == done;
    } else {
      var all, n := done + ts, |done|;
      PacedPrefix(all, n);
      PacedPrefix(all, n + 1);
      assert all[..n] == done && all[..n + 1] == done + [ts[0]] && done + [ts[0]] + ts[1..] == all;
      PacedAllows(done, ts[0]);
      FailureRecorded(ip, done, ts[0]);
      PacedContinues(ip, done + [ts[0]], ts[1..]);
      FailsCons(ip, ts);
    }
  }

  lemma {:induction false} FailsOrdered(ip: string, ts: seq<Instant>, from: Instant)
    requires Sorted(ts) && (ts != [] ==> from <= ts[0])
    ensures Ordered(Fails(ip, ts), from)
  {
    if ts != [] {
      FailsCons(ip, ts);
      FailsOrdered(ip, ts[1..], ts[0]);
    }
  }

  /** Which histories there are: every sorted and paced list of any length, and by `HistoriesArePaced` no other, is one
      the limiter lets an address build up. */
  lemma PacedIsReachable(ip: string, ts: seq<Instant>)
    requires Sorted(ts) && Paced(ts)
    ensures Failures(JudgeAll(map[], Fails(ip, ts)).0, ip) == ts
    ensures forall v :: v in Run(map[], Fails(ip, ts)).1 ==> v.Rejected?
  {
    assert [] + ts == ts;
    PacedContinues(ip, [], ts);
    if ts != [] {
      FailsOrdered(ip, ts, ts[0]);
      PruningIsUnobservable(map[], map[], Fails(ip, ts), ts[0]);
    }
  }

  lemma SpacedIsPaced(ts: seq<Instant>)
    requires Spaced(ts)
    ensures Paced(ts)
  {
    forall i: nat, n: nat | i + 3 <= n < |ts|
      ensures Waited(ts, i, n)
    {
      DelayGrows(n - i, n);
    }
  }

  /** The bound on histories is reached at every length: the limiter lets the fastest run through for ever. */
  lemma FastestIsReached(ip: string, n: nat)
    ensures Failures(JudgeAll(map[], Fails(ip, FastestRun(n))).0, ip) == FastestRun(n)
    ensures forall v :: v in Run(map[], Fails(ip, FastestRun(n))).1 ==> v.Rejected?
  {
    FastestIsSpaced(n);
    SpacedIsPaced(FastestRun(n));
    PacedIsReachable(ip, FastestRun(n));
  }

  // ----- Unlocking -----

  /** With no new failure, once an attempt would be allowed it stays allowed. */
  lemma UnlockIsMonotone(ts: seq<Instant>, t: Instant, now: Instant)
    requires Sorted(ts) && Allows(ts, t) && t <= now
    ensures Allows(ts, now)
  {
    var i := RecentIsSuffix(ts, t);
    var k := RecentIsSuffix(ts, now);
    if |ts| - k >= MAX_FAILURES {
      assert i <= k by {
        assert ts[k] > now - WINDOW;
      }
      DelayGrows(|ts| - k, |ts| - i);
    }
  }

  lemma AllowedStep(tr: Tracker, a: Attempt)
    requires Sorted(Failures(tr, a.ip)) && Allows(Failures(tr, a.ip), a.now) && !a.result.Mismatch?
    ensures var tr' := Try(tr, a).0; Sorted(Failures(tr', a.ip)) && Allows(Failures(tr', a.ip), a.now)
  {
    var i := RecentIsSuffix(Failures(tr, a.ip), a.now);
    RecentTwice(Failures(tr, a.ip), a.now, a.now);
  }

  /** So over a run: an address allowed at the start, and never rejected in the run, is never limited in it. */
  lemma {:induction false} AllowedStaysAllowed(tr: Tracker, ip: string, attempts: seq<Attempt>, from: Instant)
    requires Sorted(Failures(tr, ip)) && Allows(Failures(tr, ip), from) && Ordered(attempts, from)
    requires Rejected !in VerdictsFor(ip, attempts, Run(tr, attempts).1)
    ensures Limited !in VerdictsFor(ip, attempts, Run(tr, attempts).1)
    decreases |attempts|
  {
    if attempts != [] {
      var a := attempts[0];
      var (tr1, v) := Try(tr, a);
      var vs := Run(tr1, attempts[1..]).1;
      assert ([v] + vs)[1..] == vs;
      UnlockIsMonotone(Failures(tr, ip), from, a.now);
      if a.ip == ip {
        var all, rest := VerdictsFor(ip, attempts, [v] + vs), VerdictsFor(ip, attempts[1..], vs);
        assert all == [v] + rest && v == all[0];
        assert forall x :: x in all <==> x == v || x in rest;
        AllowedStep(tr, a);
      } else {
        OthersUntouched(tr, a, ip);
      }
      AllowedStaysAllowed(tr1, ip, attempts[1..], a.now);
    }
  }

  /** An attempt that is denied, or whose comparison raises, moves no later decision, for its own address or any other. */
  lemma DenialLeavesNoTrace(tr: Tracker, a: Attempt, ip: string, now: Instant)
    requires (Try(tr, a).1.Limited? || Try(tr, a).1.Errored?) && a.now <= now
    ensures Allows(Failures(Try(tr, a).0, ip), now) <==> Allows(Failures(tr, ip), now)
  {
    CleanedFailures(tr, a.ip, a.now);
    assert Try(tr, a).0 == Cleaned(tr, a.ip, a.now);
    if ip == a.ip {
      RecentTwice(Failures(tr, ip), a.now, now);
    }
  }

  /** An attempt is denied only within 60 seconds of the last failure. */
  lemma UnlockedAfterMaxDelay(ts: seq<Instant>, now: Instant)
    requires Sorted(ts) && (ts == [] || now - ts[|ts| - 1] >= MAX_DELAY as real)
    ensures Allows(ts, now)
  {
    var i := RecentIsSuffix(ts, now);
    DelayGrows(|ts| - i, |ts| - i);
  }

  /** A tracked list is forgotten whole once its last failure leaves the window. */
  lemma ForgottenAfterWindow(tr: Tracker, ip: string, now: Instant)
    requires Sorted(Failures(tr, ip))
    ensures ip in Cleaned(tr, ip, now) <==>
            var ts := Failures(tr, ip); ts != [] && ts[|ts| - 1] > now - WINDOW
  {
    var i := RecentIsSuffix(Failures(tr, ip), now);
  }
}
