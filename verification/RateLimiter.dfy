/** app/auth.py: failed attempts per address in a sliding window, with a capped exponential backoff.
    An authentication attempt is one atomic step with one reading of the monotonic clock. */
module RateLimiter {
  type Instant = real

  const WINDOW := 600.0
  const MAX_FAILURES := 3
  const BASE_DELAY := 2
  const MAX_DELAY := 60

  /** The tracked failures of each address, oldest first. */
  type Tracker = map<string, seq<Instant>>

  function Pow2(n: nat): (r: nat)
    ensures r >= 1
  {
    if n == 0 then 1 else 2 * Pow2(n - 1)
  }

  /** The delay imposed after this many failures. */
  function Delay(failures: nat): int {
    if failures < MAX_FAILURES then 0
    else
      var d := BASE_DELAY * Pow2(failures - MAX_FAILURES);
      if d < MAX_DELAY then d else MAX_DELAY
  }

  function Failures(tr: Tracker, ip: string): seq<Instant> {
    if ip in tr then tr[ip] else []
  }

  /** The failures still inside the window. */
  function Recent(ts: seq<Instant>, now: Instant): (r: seq<Instant>)
    ensures |r| <= |ts|
    ensures forall t :: t in r <==> t in ts && t > now - WINDOW
  {
    if ts == [] then []
    else if ts[0] > now - WINDOW then [ts[0]] + Recent(ts[1..], now)
    else Recent(ts[1..], now)
  }

  /** Forgets old failures; an address with none left is forgotten altogether. */
  function Cleaned(tr: Tracker, ip: string, now: Instant): Tracker {
    var kept := Recent(Failures(tr, ip), now);
    if kept == [] then tr - {ip} else tr[ip := kept]
  }

  /** The decision, from a list of failures. */
  predicate Allows(ts: seq<Instant>, now: Instant) {
    var kept := Recent(ts, now);
    |kept| < MAX_FAILURES || now - kept[|kept| - 1] >= Delay(|kept|) as real
  }

  /** How comparing the credentials ends: `secrets.compare_digest` raises on text that is not ASCII. */
  datatype Comparison = Match | Mismatch | Raises

  datatype Attempt = Attempt(ip: string, result: Comparison, now: Instant)

  /** 429, 401, let through, or an error out of the comparison. */
  datatype Verdict = Limited | Rejected | Accepted | Errored

  function Try(tr: Tracker, a: Attempt): (Tracker, Verdict) {
    var cleaned := Cleaned(tr, a.ip, a.now);
    if !Allows(Failures(tr, a.ip), a.now) then (cleaned, Limited)
    else
      match a.result
      case Match => (tr - {a.ip}, Accepted)
      case Mismatch => (tr[a.ip := Recent(Failures(tr, a.ip), a.now) + [a.now]], Rejected)
      case Raises => (cleaned, Errored)
  }

  class FailureTracker {
    var tracker: Tracker

    constructor ()
      ensures tracker == map[]
    {
      tracker := map[];
    }

    method CleanupOld(ip: string, now: Instant)
      modifies this
      ensures tracker == Cleaned(old(tracker), ip, now)
    {
      var all := if ip in tracker then tracker[ip] else [];
      var kept := [];
      for i := 0 to |all|
        invariant tracker == old(tracker)
        invariant kept == Recent(all[..i], now)
      {
        assert all[..i + 1] == all[..i] + [all[i]];
        RecentAppend(all[..i], all[i], now);
        if all[i] > now - WINDOW {
          kept := kept + [all[i]];
        }
      }
      assert all[..|all|] == all;
      tracker := tracker[ip := kept];
      if kept == [] {
        tracker := tracker - {ip};
        assert tracker == old(tracker) - {ip};
      }
    }

    method CheckRateLimit(ip: string, now: Instant) returns (allowed: bool)
      modifies this
      ensures tracker == Cleaned(old(tracker), ip, now)
      ensures allowed == Allows(Failures(old(tracker), ip), now)
    {
      CleanupOld(ip, now);
      var failures := if ip in tracker then tracker[ip] else [];
      if |failures| < MAX_FAILURES {
        return true;
      }
      var excess := |failures| - MAX_FAILURES;
      var delay := BASE_DELAY * Pow2(excess);
      if delay > MAX_DELAY {
        delay := MAX_DELAY;
      }
      var elapsed := now - failures[|failures| - 1];
      return elapsed >= delay as real;
    }

    method RecordFailure(ip: string, now: Instant)
      modifies this
      ensures tracker == old(tracker)[ip := Recent(Failures(old(tracker), ip), now) + [now]]
    {
      CleanupOld(ip, now);
      tracker := tracker[ip := (if ip in tracker then tracker[ip] else []) + [now]];
    }

    method ClearFailures(ip: string)
      modifies this
      ensures tracker == old(tracker) - {ip}
    {
      tracker := tracker - {ip};
    }

    /** The part of an attempt both surfaces share: check, compare, then record or clear.  A comparison that raises
        leaves neither done. */
    method Authenticate(ip: string, result: Comparison, now: Instant) returns (v: Verdict)
      modifies this
      ensures (tracker, v) == Try(old(tracker), Attempt(ip, result, now))
    {
      var allowed := CheckRateLimit(ip, now);
      if !allowed {
        return Limited;
      }
      match result
      case Raises =>
        return Errored;
      case Mismatch =>
        CleanedTwice(old(tracker), ip, now);
        RecordFailure(ip, now);
        assert tracker == old(tracker)[ip := Recent(Failures(old(tracker), ip), now) + [now]];
        return Rejected;
      case Match =>
        ClearFailures(ip);
        assert tracker == old(tracker) - {ip};
        return Accepted;
    }
  }

  // ----- Pruning -----

  lemma {:induction false} RecentAppend(ts: seq<Instant>, t: Instant, now: Instant)
    ensures Recent(ts + [t], now) == Recent(ts, now) + (if t > now - WINDOW then [t] else [])
  {
    if ts == [] {
      assert [t][1..] == [];
    } else {
      var all, tail := ts + [t], if t > now - WINDOW then [t] else [];
      RecentAppend(ts[1..], t, now);
      assert all[0] == ts[0] && all[1..] == ts[1..] + [t];
      assert [ts[0]] + (Recent(ts[1..], now) + tail) == ([ts[0]] + Recent(ts[1..], now)) + tail;
    }
  }

  /** Pruning twice is pruning once, at the later time. */
  lemma {:induction false} RecentTwice(ts: seq<Instant>, t: Instant, now: Instant)
    requires t <= now
    ensures Recent(Recent(ts, t), now) == Recent(ts, now)
  {
    if ts != [] {
      RecentTwice(ts[1..], t, now);
      if ts[0] > t - WINDOW {
        assert Recent(ts, t)[1..] == Recent(ts[1..], t);
      }
    }
  }

  lemma CleanedFailures(tr: Tracker, ip: string, now: Instant)
    ensures Failures(Cleaned(tr, ip, now), ip) == Recent(Failures(tr, ip), now)
    ensures forall x :: x != ip ==> Failures(Cleaned(tr, ip, now), x) == Failures(tr, x)
  {
  }

  lemma CleanedTwice(tr: Tracker, ip: string, now: Instant)
    ensures Recent(Failures(Cleaned(tr, ip, now), ip), now) == Recent(Failures(tr, ip), now)
  {
    RecentTwice(Failures(tr, ip), now, now);
  }

  function Run(tr: Tracker, attempts: seq<Attempt>): (r: (Tracker, seq<Verdict>))
    ensures |r.1| == |attempts|
    decreases |attempts|
  {
    if attempts == [] then (tr, [])
    else
      var (tr1, v) := Try(tr, attempts[0]);
      var (tr2, vs) := Run(tr1, attempts[1..]);
      (tr2, [v] + vs)
  }

  predicate Ordered(attempts: seq<Attempt>, from: Instant)
    decreases |attempts|
  {
    attempts == [] || (from <= attempts[0].now && Ordered(attempts[1..], attempts[0].now))
  }

  /** The reference limiter forgets nothing but on success: the whole failure history since the last one. */
  function Judge(h: Tracker, a: Attempt): (Tracker, Verdict) {
    if !Allows(Failures(h, a.ip), a.now) then (h, Limited)
    else
      match a.result
      case Match => (h - {a.ip}, Accepted)
      case Mismatch => (h[a.ip := Failures(h, a.ip) + [a.now]], Rejected)
      case Raises => (h, Errored)
  }

  function JudgeAll(h: Tracker, attempts: seq<Attempt>): (r: (Tracker, seq<Verdict>))
    ensures |r.1| == |attempts|
    decreases |attempts|
  {
    if attempts == [] then (h, [])
    else
      var (h1, v) := Judge(h, attempts[0]);
      var (h2, vs) := JudgeAll(h1, attempts[1..]);
      (h2, [v] + vs)
  }

  /** The tracker and the full history have the same failures inside the window. */
  ghost predicate Tracks(tr: Tracker, h: Tracker, now: Instant) {
    forall ip: string :: Recent(Failures(tr, ip), now) == Recent(Failures(h, ip), now)
  }

  lemma TracksLater(tr: Tracker, h: Tracker, t: Instant, now: Instant)
    requires Tracks(tr, h, t) && t <= now
    ensures Tracks(tr, h, now)
  {
    forall ip: string
      ensures Recent(Failures(tr, ip), now) == Recent(Failures(h, ip), now)
    {
      RecentTwice(Failures(tr, ip), t, now);
      RecentTwice(Failures(h, ip), t, now);
    }
  }

  lemma SameVerdict(tr: Tracker, h: Tracker, a: Attempt)
    requires Recent(Failures(tr, a.ip), a.now) == Recent(Failures(h, a.ip), a.now)
    ensures Try(tr, a).1 == Judge(h, a).1
  {
  }

  lemma TracksAfter(tr: Tracker, h: Tracker, a: Attempt)
    requires Recent(Failures(tr, a.ip), a.now) == Recent(Failures(h, a.ip), a.now)
    ensures Try(tr, a).1 == Judge(h, a).1
    ensures Recent(Failures(Try(tr, a).0, a.ip), a.now) == Recent(Failures(Judge(h, a).0, a.ip), a.now)
  {
    SameVerdict(tr, h, a);
    if Try(tr, a).1.Rejected? {
      RecordedTracks(Failures(tr, a.ip), Failures(h, a.ip), a.now);
    } else if !Try(tr, a).1.Accepted? {
      CleanedTwice(tr, a.ip, a.now);
    }
  }

  lemma RecordedTracks(ts: seq<Instant>, hs: seq<Instant>, now: Instant)
    requires Recent(ts, now) == Recent(hs, now)
    ensures Recent(Recent(ts, now) + [now], now) == Recent(hs + [now], now)
  {
    RecentTwice(ts, now, now);
    RecentAppend(Recent(ts, now), now, now);
    RecentAppend(hs, now, now);
  }

  lemma OthersUntouched(tr: Tracker, a: Attempt, ip: string)
    requires ip != a.ip
    ensures Failures(Try(tr, a).0, ip) == Failures(tr, ip) == Failures(Judge(tr, a).0, ip)
  {
  }

  lemma TracksStep(tr: Tracker, h: Tracker, a: Attempt)
    requires Tracks(tr, h, a.now)
    ensures Try(tr, a).1 == Judge(h, a).1
    ensures Tracks(Try(tr, a).0, Judge(h, a).0, a.now)
  {
    TracksAfter(tr, h, a);
    var tr', h' := Try(tr, a).0, Judge(h, a).0;
    forall ip: string
      ensures Recent(Failures(tr', ip), a.now) == Recent(Failures(h', ip), a.now)
    {
      if ip != a.ip {
        OthersUntouched(tr, a, ip);
        OthersUntouched(h, a, ip);
        assert Recent(Failures(tr, ip), a.now) == Recent(Failures(h, ip), a.now);
      }
    }
  }

  /** Every decision of every run is the one the full, unpruned history since the last success gives. */
  lemma {:induction false} PruningIsUnobservable(tr: Tracker, h: Tracker, attempts: seq<Attempt>, from: Instant)
    requires Tracks(tr, h, from) && Ordered(attempts, from)
    ensures Run(tr, attempts).1 == JudgeAll(h, attempts).1
    decreases |attempts|
  {
    if attempts != [] {
      TracksLater(tr, h, from, attempts[0].now);
      TracksStep(tr, h, attempts[0]);
      PruningIsUnobservable(Try(tr, attempts[0]).0, Judge(h, attempts[0]).0, attempts[1..], attempts[0].now);
    }
  }

  // ----- Addresses do not interfere -----

  function OnlyFrom(ip: string, attempts: seq<Attempt>): seq<Attempt> {
    if attempts == [] then []
    else if attempts[0].ip == ip then [attempts[0]] + OnlyFrom(ip, attempts[1..])
    else OnlyFrom(ip, attempts[1..])
  }

  /** The verdicts given to one address. */
  function VerdictsFor(ip: string, attempts: seq<Attempt>, verdicts: seq<Verdict>): seq<Verdict>
    requires |attempts| == |verdicts|
  {
    if attempts == [] then []
    else if attempts[0].ip == ip then [verdicts[0]] + VerdictsFor(ip, attempts[1..], verdicts[1..])
    else VerdictsFor(ip, attempts[1..], verdicts[1..])
  }

  lemma VerdictsCons(ip: string, attempts: seq<Attempt>, v: Verdict, vs: seq<Verdict>)
    requires |attempts| == |vs| + 1
    ensures VerdictsFor(ip, attempts, [v] + vs) ==
            (if attempts[0].ip == ip then [v] else []) + VerdictsFor(ip, attempts[1..], vs)
  {
    assert ([v] + vs)[1..] == vs;
  }

  lemma OnlyFromCons(ip: string, attempts: seq<Attempt>)
    requires attempts != [] && attempts[0].ip == ip
    ensures var only := OnlyFrom(ip, attempts);
            only != [] && only[0] == attempts[0] && only[1..] == OnlyFrom(ip, attempts[1..])
  {
  }

  lemma OwnRun(alone: Tracker, ip: string, attempts: seq<Attempt>)
    requires attempts != [] && attempts[0].ip == ip
    ensures var (alone1, v) := Try(alone, attempts[0]); var (end, vs) := Run(alone1, OnlyFrom(ip, attempts[1..]));
            Run(alone, OnlyFrom(ip, attempts)) == (end, [v] + vs)
  {
    OnlyFromCons(ip, attempts);
  }

  lemma SameTry(tr: Tracker, alone: Tracker, a: Attempt)
    requires Failures(tr, a.ip) == Failures(alone, a.ip)
    ensures Try(tr, a).1 == Try(alone, a).1
    ensures Failures(Try(tr, a).0, a.ip) == Failures(Try(alone, a).0, a.ip)
  {
  }

  /** An address gets the verdicts it would get were it alone. */
  lemma {:induction false} AddressesAreIsolated(tr: Tracker, alone: Tracker, ip: string, attempts: seq<Attempt>)
    requires Failures(tr, ip) == Failures(alone, ip)
    ensures VerdictsFor(ip, attempts, Run(tr, attempts).1) == Run(alone, OnlyFrom(ip, attempts)).1
    ensures Failures(Run(tr, attempts).0, ip) == Failures(Run(alone, OnlyFrom(ip, attempts)).0, ip)
    decreases |attempts|
  {
    if attempts != [] {
      var a := attempts[0];
      var (tr1, v) := Try(tr, a);
      VerdictsCons(ip, attempts, v, Run(tr1, attempts[1..]).1);
      if a.ip == ip {
        SameTry(tr, alone, a);
        OwnRun(alone, ip, attempts);
        AddressesAreIsolated(tr1, Try(alone, a).0, ip, attempts[1..]);
      } else {
        OthersUntouched(tr, a, ip);
        AddressesAreIsolated(tr1, alone, ip, attempts[1..]);
      }
    }
  }
}
