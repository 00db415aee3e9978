/** The two users of the limiter: the REST dependency of app/auth.py and the ASGI guard of app/middleware/mcp_auth.py. */
module Surfaces {
  import opened Wrappers
  import opened RateLimiter
  import opened BasicAuth

  datatype Settings = Settings(username: string, password: string)

  /** The peer address, or "unknown" where the server reports none. */
  function Host(client: Option<string>): string {
    if client.Some? then client.value else "unknown"
  }

  /** `secrets.compare_digest` on text. */
  function CompareDigest(a: string, b: string): Comparison {
    if !Ascii(a) || !Ascii(b) then Raises else if a == b then Match else Mismatch
  }

  /** The REST dependency compares both parts, whatever the first comparison says. */
  function CompareBoth(username: string, password: string, settings: Settings): Comparison {
    var user, pass := CompareDigest(username, settings.username), CompareDigest(password, settings.password);
    if user.Raises? || pass.Raises? then Raises else if user.Match? && pass.Match? then Match else Mismatch
  }

  /** The MCP guard compares the password only once the user name matches. */
  function CompareInTurn(username: string, password: string, settings: Settings): Comparison {
    var user := CompareDigest(username, settings.username);
    if user.Match? then CompareDigest(password, settings.password) else user
  }

  datatype Call =
    | Rest(client: Option<string>, username: string, password: string, now: Instant)
    | Mcp(client: Option<string>, header: string, now: Instant)

  /** What a call amounts to for the limiter. */
  function AsAttempt(c: Call, settings: Settings, beyond: seq<Byte> -> Option<string>): Attempt {
    match c
    case Rest(client, username, password, now) =>
      Attempt(Host(client), CompareBoth(username, password, settings), now)
    case Mcp(client, header, now) =>
      var (username, password) := ParseBasic(header, Utf8(beyond));
      Attempt(Host(client),
              if username.Some? && password.Some? then CompareInTurn(username.value, password.value, settings)
              else Mismatch,
              now)
  }

  method VerifyCredentials(tracker: FailureTracker, client: Option<string>, username: string, password: string,
                           settings: Settings, ghost beyond: seq<Byte> -> Option<string>, now: Instant)
    returns (v: Verdict)
    modifies tracker
    ensures (tracker.tracker, v) ==
            Try(old(tracker.tracker), AsAttempt(Rest(client, username, password, now), settings, beyond))
  {
    var correctUser := CompareDigest(username, settings.username);
    var correctPass := CompareDigest(password, settings.password);
    var result := if correctUser.Raises? || correctPass.Raises? then Raises
                  else if correctUser.Match? && correctPass.Match? then Match else Mismatch;
    v := tracker.Authenticate(Host(client), result, now);
  }

  class MCPBasicAuthMiddleware {
    const tracker: FailureTracker

    constructor (tracker: FailureTracker)
      ensures this.tracker == tracker
    {
      this.tracker := tracker;
    }

    /** Scopes other than "http" are forwarded without touching the limiter. */
    method Call(http: bool, client: Option<string>, header: string, settings: Settings,
                beyond: seq<Byte> -> Option<string>, now: Instant) returns (v: Verdict)
      modifies tracker
      ensures !http ==> v == Accepted && tracker.tracker == old(tracker.tracker)
      ensures http ==> (tracker.tracker, v) ==
                       Try(old(tracker.tracker), AsAttempt(Mcp(client, header, now), settings, beyond))
    {
      if !http {
        return Accepted;
      }
      var (username, password) := ParseBasic(header, Utf8(beyond));
      var result := Mismatch;
      if username.Some? && password.Some? {
        result := CompareDigest(username.value, settings.username);
        if result.Match? {
          result := CompareDigest(password.value, settings.password);
        }
      }
      v := tracker.Authenticate(Host(client), result, now);
    }
  }

  // ----- The verdict, and whom it counts against -----

  /** The call comes from this address, "unknown" standing for a peer without one. */
  predicate From(c: Call, ip: string) {
    c.client == Some(ip) || (c.client == None && ip == "unknown")
  }

  /** What an attempt from `ip` with this verdict leaves behind: a failure added, the failures cleared, or old ones
      forgotten, and no other address touched. */
  ghost predicate Leaves(tr: Tracker, tr': Tracker, ip: string, v: Verdict, now: Instant) {
    && Failures(tr', ip) == (match v
                             case Accepted => []
                             case Rejected => Recent(Failures(tr, ip), now) + [now]
                             case _ => Recent(Failures(tr, ip), now))
    && forall x: string :: x != ip ==> Failures(tr', x) == Failures(tr, x)
  }

  lemma TryLeaves(tr: Tracker, a: Attempt)
    ensures var (tr', v) := Try(tr, a); Leaves(tr, tr', a.ip, v, a.now)
  {
    CleanedFailures(tr, a.ip, a.now);
  }

  /** The REST dependency lets a call through the limiter if and only if both parts are the configured ones, errs if and
      only if one of the four texts is not ASCII, and rejects the rest, against the client's own address. */
  lemma RestDecides(tr: Tracker, c: Call, ip: string, settings: Settings, beyond: seq<Byte> -> Option<string>)
    requires c.Rest? && From(c, ip)
    ensures var (tr', v) := Try(tr, AsAttempt(c, settings, beyond));
            var ascii := Ascii(c.username) && Ascii(c.password) && Ascii(settings.username) && Ascii(settings.password);
            var right := c.username == settings.username && c.password == settings.password;
            && (v == Limited <==> !Allows(Failures(tr, ip), c.now))
            && (v != Limited ==>
                  (v == Errored <==> !ascii) && (v == Accepted <==> ascii && right) && (v == Rejected <==> ascii && !right))
            && Leaves(tr, tr', ip, v, c.now)
  {
    TryLeaves(tr, AsAttempt(c, settings, beyond));
  }

  /** The MCP guard does the same for the pair its header carries, but looks at the password only behind the right user
      name; without a pair it rejects. */
  lemma McpDecides(tr: Tracker, c: Call, ip: string, settings: Settings, beyond: seq<Byte> -> Option<string>)
    requires c.Mcp? && From(c, ip)
    ensures var (tr', v) := Try(tr, AsAttempt(c, settings, beyond)); var (user, pass) := ParseBasic(c.header, Utf8(beyond));
            && (v == Limited <==> !Allows(Failures(tr, ip), c.now))
            && (v != Limited && user.None? ==> v == Rejected)
            && (v != Limited && user.Some? ==>
                  var named := Ascii(user.value) && Ascii(settings.username);
                  var comparable := Ascii(pass.value) && Ascii(settings.password);
                  && (v == Accepted <==>
                        named && comparable && user.value == settings.username && pass.value == settings.password)
                  && (v == Errored <==> !named || (user.value == settings.username && !comparable)))
            && Leaves(tr, tr', ip, v, c.now)
  {
    ParsedIsTheCarriedText(c.header, Utf8(beyond));
    TryLeaves(tr, AsAttempt(c, settings, beyond));
  }

  /** The calls from one address. */
  function Own(ip: string, calls: seq<Call>): seq<Call> {
    if calls == [] then []
    else if From(calls[0], ip) then [calls[0]] + Own(ip, calls[1..])
    else Own(ip, calls[1..])
  }

  function VerdictsOn(ip: string, calls: seq<Call>, verdicts: seq<Verdict>): seq<Verdict>
    requires |calls| == |verdicts|
  {
    if calls == [] then []
    else if From(calls[0], ip) then [verdicts[0]] + VerdictsOn(ip, calls[1..], verdicts[1..])
    else VerdictsOn(ip, calls[1..], verdicts[1..])
  }

  lemma AttemptIsFrom(c: Call, ip: string, settings: Settings, beyond: seq<Byte> -> Option<string>)
    ensures AsAttempt(c, settings, beyond).ip == ip <==> From(c, ip)
  {
  }

  lemma {:induction false} OwnAttempts(ip: string, calls: seq<Call>, verdicts: seq<Verdict>, settings: Settings,
                                       beyond: seq<Byte> -> Option<string>)
    requires |calls| == |verdicts|
    ensures OnlyFrom(ip, AsAttempts(calls, settings, beyond)) == AsAttempts(Own(ip, calls), settings, beyond)
    ensures VerdictsFor(ip, AsAttempts(calls, settings, beyond), verdicts) == VerdictsOn(ip, calls, verdicts)
    decreases |calls|
  {
    if calls != [] {
      AttemptIsFrom(calls[0], ip, settings, beyond);
      OwnAttempts(ip, calls[1..], verdicts[1..], settings, beyond);
      AttemptsCons(calls, settings, beyond);
      if From(calls[0], ip) {
        AttemptsCons(Own(ip, calls), settings, beyond);
        assert Own(ip, calls)[1..] == Own(ip, calls[1..]);
      }
    }
  }

  lemma AttemptsCons(calls: seq<Call>, settings: Settings, beyond: seq<Byte> -> Option<string>)
    requires calls != []
    ensures AsAttempts(calls, settings, beyond)[0] == AsAttempt(calls[0], settings, beyond)
    ensures AsAttempts(calls, settings, beyond)[1..] == AsAttempts(calls[1..], settings, beyond)
  {
  }

  /** Clients do not interfere: on both surfaces together, the calls from one address get the verdicts, and leave the
      failures, they would alone. */
  lemma ClientsAreIsolated(tr: Tracker, alone: Tracker, ip: string, calls: seq<Call>, settings: Settings,
                           beyond: seq<Byte> -> Option<string>)
    requires Failures(tr, ip) == Failures(alone, ip)
    ensures var (tr', vs) := Run(tr, AsAttempts(calls, settings, beyond));
            var (alone', own) := Run(alone, AsAttempts(Own(ip, calls), settings, beyond));
            VerdictsOn(ip, calls, vs) == own && Failures(tr', ip) == Failures(alone', ip)
  {
    var vs := Run(tr, AsAttempts(calls, settings, beyond)).1;
    OwnAttempts(ip, calls, vs, settings, beyond);
    AddressesAreIsolated(tr, alone, ip, AsAttempts(calls, settings, beyond));
  }

  // ----- Two surfaces, one budget -----

  /** The two surfaces compare a pair alike except in one case: a wrong user name in ASCII with a password that
      cannot be compared, where only the REST dependency gets as far as raising. */
  lemma ComparedAlikeIff(username: string, password: string, settings: Settings)
    ensures CompareBoth(username, password, settings) == CompareInTurn(username, password, settings) <==>
            (CompareDigest(username, settings.username).Mismatch? ==> Ascii(password) && Ascii(settings.password))
  {
  }

  /** The header a client sends for an ASCII pair. */
  function AsciiHeader(username: string, password: string): string
    requires Ascii(username + ":" + password)
  {
    BasicHeader(AsciiBytes(username + ":" + password))
  }

  lemma AsciiCredentials(username: string, password: string, beyond: seq<Byte> -> Option<string>)
    requires ':' !in username && Ascii(username + ":" + password)
    ensures ParseBasic(AsciiHeader(username, password), Utf8(beyond)) == (Some(username), Some(password))
    ensures Ascii(username) && Ascii(password)
  {
    var text := username + ":" + password;
    AsciiRoundTrip(text, beyond);
    assert forall x :: x in username || x in password ==> x in text;
    CredentialsRoundTrip(username, password, AsciiBytes(text), Utf8(beyond));
  }

  /** The exception through both surfaces: where the configured password is not ASCII, a wrong user name in ASCII is an
      error to the REST dependency and a failure to the MCP guard. */
  lemma WrongNameJudgedApart(client: Option<string>, username: string, password: string, settings: Settings, now: Instant,
                             beyond: seq<Byte> -> Option<string>)
    requires ':' !in username && Ascii(username + ":" + password)
    requires Ascii(settings.username) && !Ascii(settings.password) && username != settings.username
    ensures AsAttempt(Rest(client, username, password, now), settings, beyond).result == Raises
    ensures AsAttempt(Mcp(client, AsciiHeader(username, password), now), settings, beyond).result == Mismatch
  {
    AsciiCredentials(username, password, beyond);
  }

  /** So a first attempt leaves no trace on one surface, and is tracked on the other. */
  lemma ComparedDifferently(beyond: seq<Byte> -> Option<string>)
    ensures var settings := Settings("admin", "p\U{E9}");
            && Ascii("root" + ":" + "x")
            && Try(map[], AsAttempt(Rest(None, "root", "x", 0.0), settings, beyond)) == (map[], Errored)
            && Try(map[], AsAttempt(Mcp(None, AsciiHeader("root", "x"), 0.0), settings, beyond)) ==
               (map["unknown" := [0.0]], Rejected)
  {
    var settings, header := Settings("admin", "p\U{E9}"), AsciiHeader("root", "x");
    assert settings.password[1] in settings.password;
    WrongNameJudgedApart(None, "root", "x", settings, 0.0, beyond);
    FirstAttempts(AsAttempt(Rest(None, "root", "x", 0.0), settings, beyond));
    FirstAttempts(AsAttempt(Mcp(None, header, 0.0), settings, beyond));
  }

  lemma FirstAttempts(a: Attempt)
    ensures a.result.Raises? ==> Try(map[], a) == (map[], Errored)
    ensures a.result.Mismatch? ==> Try(map[], a) == (map[a.ip := [a.now]], Rejected)
  {
    var none: Tracker := map[];
    assert none - {a.ip} == none && Failures(none, a.ip) == [];
    assert Recent([], a.now) + [a.now] == [a.now];
    assert none[a.ip := [a.now]] == map[a.ip := [a.now]];
  }

  function AsAttempts(calls: seq<Call>, settings: Settings, beyond: seq<Byte> -> Option<string>): (r: seq<Attempt>)
    ensures |r| == |calls|
    ensures forall i :: 0 <= i < |calls| ==> r[i] == AsAttempt(calls[i], settings, beyond)
  {
    if calls == [] then [] else [AsAttempt(calls[0], settings, beyond)] + AsAttempts(calls[1..], settings, beyond)
  }

  /** The calls are the same, or carry the same ASCII credentials at the same time from the same client, the first to
      the REST dependency and the second, encoded, to the MCP mount. */
  ghost predicate SameCredentials(c: Call, d: Call) {
    c == d ||
    (c.Rest? && d.Mcp? && c.client == d.client && c.now == d.now &&
     ':' !in c.username && Ascii(c.username + ":" + c.password) && d.header == AsciiHeader(c.username, c.password))
  }

  lemma SameAttempt(c: Call, d: Call, settings: Settings, beyond: seq<Byte> -> Option<string>)
    requires SameCredentials(c, d) && Ascii(settings.password)
    ensures AsAttempt(c, settings, beyond) == AsAttempt(d, settings, beyond)
  {
    if c != d {
      AsciiCredentials(c.username, c.password, beyond);
      ComparedAlikeIff(c.username, c.password, settings);
    }
  }

  /** Sending any of the calls of a run to the MCP mount instead of the REST dependency changes no verdict and no
      tracked failure: both surfaces share one budget and judge the same credentials alike. */
  lemma SurfacesShareOneBudget(rest: seq<Call>, mixed: seq<Call>, settings: Settings, tr: Tracker,
                               beyond: seq<Byte> -> Option<string>)
    requires |rest| == |mixed| && Ascii(settings.password)
    requires forall i :: 0 <= i < |rest| ==> SameCredentials(rest[i], mixed[i])
    ensures Run(tr, AsAttempts(rest, settings, beyond)) == Run(tr, AsAttempts(mixed, settings, beyond))
  {
    var a, b := AsAttempts(rest, settings, beyond), AsAttempts(mixed, settings, beyond);
    forall i | 0 <= i < |rest|
      ensures a[i] == b[i]
    {
      SameAttempt(rest[i], mixed[i], settings, beyond);
    }
    assert a == b;
  }
}
