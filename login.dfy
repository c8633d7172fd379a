/** The challenge-response login of both web applications, run against the
    store: the rate-limit gate, the five-minute timestamp window, the
    PBKDF2/SHA-256 proof, the display-name check, then clearing the failure
    counter and issuing a session token. The two applications differ only in
    the token they issue. */
module Login {
  import opened Common
  import opened Text
  import opened Crypto
  import opened SharedTokens
  import opened LambdaAuth
  import opened Storage

  /** Rate limiting as configured from the environment. */
  datatype RateConfig = RateConfig(enabled: bool, maxAttempts: int, window: int)

  /** The configuration read from `RATE_LIMIT_ENABLED`,
      `RATE_LIMIT_MAX_ATTEMPTS` and `RATE_LIMIT_WINDOW_SECONDS`: enabled only
      by a case-insensitive "true", five attempts and 900 seconds by default;
      None where an integer setting does not parse, which stops the
      application from starting. */
  function RateConfigOf(enabledEnv: Option<string>, maxEnv: Option<string>, windowEnv: Option<string>): (r: Option<RateConfig>)
    ensures r.Some? ==> (r.value.enabled <==> Lower(enabledEnv.GetOr("false")) == "true")
    ensures r.Some? <==> ParseInt(maxEnv.GetOr("5")).Some? && ParseInt(windowEnv.GetOr("900")).Some?
    ensures enabledEnv.None? && maxEnv.None? && windowEnv.None? ==> r == Some(RateConfig(false, 5, 900))
  {
    DefaultsParse();
    var enabled := Lower(enabledEnv.GetOr("false")) == "true";
    match (ParseInt(maxEnv.GetOr("5")), ParseInt(windowEnv.GetOr("900")))
    case (Some(m), Some(w)) => Some(RateConfig(enabled, m, w))
    case _ => None
  }

  /** The default settings parse, and the default switch is off. */
  lemma DefaultsParse()
    ensures ParseInt("5") == Some(5) && ParseInt("900") == Some(900)
    ensures Lower("false") != "true"
  {
    DefaultParses(5, "5");
    DefaultParses(900, "900");
    assert Lower("false")[0] == 'f';
  }

  /** A default written as the decimal form of its value parses to it. */
  lemma DefaultParses(n: nat, text: string)
    requires text == IntToString(n)
    ensures ParseInt(text) == Some(n)
  {
    ParseIntToString(n);
  }

  /** The body of a login call. */
  datatype AuthChallenge = AuthChallenge(origin: string, timestamp: int, hash: string, name: string)

  /** A successful login: the session token and the stripped display name. */
  datatype AuthOk = AuthOk(token: string, name: string)

  /** Which application issues the token: the unified one embeds the name,
      the serverless one signs the timestamp alone. */
  datatype App = Unified | Serverless

  const MaxNameLength := 50

  function LockoutMessage(window: int): string {
    "Too many failed attempts. Try again in " + IntToString(window / 60) + " minutes."
  }

  function Skew(now: int, timestamp: int): nat {
    if now >= timestamp then now - timestamp else timestamp - now
  }

  function IssueToken(app: App, c: Crypto, secret: string, now: int, name: string): string {
    match app
    case Unified => CreateSessionToken(c, secret, now, name)
    case Serverless => CreateLegacyToken(c, secret, now)
  }

  /** What the gate sees: the configured check of the counter, or a pass with
      the full allowance when rate limiting is off or storage fails. */
  function GateCheck(table: map<Key, Row>, cfg: RateConfig, now: int, ip: string, fault: bool): (bool, int) {
    if cfg.enabled && !fault then RateCheck(RateRowOf(table, ip), now, cfg.maxAttempts, cfg.window)
    else (true, cfg.maxAttempts)
  }

  /** The outcome of one login call and the table it leaves, checks in the
      order the handler makes them. A proof with a non-ASCII character makes
      the comparison raise before any failure is recorded: a 500 with the
      table unchanged. */
  function LoginSpec(table: map<Key, Row>, cfg: RateConfig, app: App, c: Crypto, secret: string, password: string,
                     now: int, ip: string, data: AuthChallenge, fault: bool): (Result<AuthOk, HttpError>, map<Key, Row>)
  {
    if cfg.enabled && !GateCheck(table, cfg, now, ip, fault).0 then
      (Err(HttpError(429, LockoutMessage(cfg.window))), table)
    else if Skew(now, data.timestamp) > AuthTimeWindowSeconds then
      (Err(HttpError(401, "Timestamp expired. Please try again. (skew: " + IntToString(Skew(now, data.timestamp)) + "s)")), table)
    else
      var proof := VerifyChallengeHash(c, password, data.origin, data.timestamp, data.hash);
      if proof.None? then (Err(InternalServerError), table)
      else if !proof.value then
        (Err(HttpError(401, "Invalid credentials")),
         if cfg.enabled && !fault then table[RateKey(ip) := RateLimit(RecordFailure(RateRowOf(table, ip), now, cfg.window).0)]
         else table)
      else if Strip(data.name) == "" || |Strip(data.name)| > MaxNameLength then
        (Err(HttpError(400, "Name is required (max 50 chars)")), table)
      else
        (Ok(AuthOk(IssueToken(app, c, secret, now, Strip(data.name)), Strip(data.name))),
         if cfg.enabled && !fault then table - {RateKey(ip)} else table)
  }

  /** A locked-out address is refused before anything else is looked at,
      even with the right proof, and nothing is recorded. */
  lemma LockedOutRefusedFirst(table: map<Key, Row>, cfg: RateConfig, app: App, c: Crypto, secret: string, password: string,
                              now: int, ip: string, data: AuthChallenge)
    requires cfg.enabled && !RateCheck(RateRowOf(table, ip), now, cfg.maxAttempts, cfg.window).0
    ensures LoginSpec(table, cfg, app, c, secret, password, now, ip, data, false) ==
      (Err(HttpError(429, LockoutMessage(cfg.window))), table)
  {
  }

  /** After `max_attempts` wrong proofs within one window the address is
      locked out for the rest of that window. */
  lemma LockoutAfterFailures(table: map<Key, Row>, cfg: RateConfig, app: App, c: Crypto, secret: string, password: string,
                             times: seq<int>, now: int, ip: string, data: AuthChallenge)
    requires cfg.enabled && |times| > 0 && |times| >= cfg.maxAttempts
    requires forall i :: 0 <= i < |times| ==> times[0] <= times[i] <= times[0] + cfg.window
    requires now - times[0] <= cfg.window
    requires RateRowOf(table, ip) == Failures(times, cfg.window)
    ensures LoginSpec(table, cfg, app, c, secret, password, now, ip, data, false).0 ==
      Err(HttpError(429, LockoutMessage(cfg.window)))
  {
    LockedOutAfterMaxFailures(times, cfg.window, cfg.maxAttempts, now);
  }

  /** A timestamp outside the window is refused without counting as a
      failed attempt. */
  lemma SkewNotCounted(table: map<Key, Row>, cfg: RateConfig, app: App, c: Crypto, secret: string, password: string,
                       now: int, ip: string, data: AuthChallenge, fault: bool)
    requires !cfg.enabled || GateCheck(table, cfg, now, ip, fault).0
    requires Skew(now, data.timestamp) > AuthTimeWindowSeconds
    ensures LoginSpec(table, cfg, app, c, secret, password, now, ip, data, fault).0.Err?
    ensures LoginSpec(table, cfg, app, c, secret, password, now, ip, data, fault).0.error.status == 401
    ensures LoginSpec(table, cfg, app, c, secret, password, now, ip, data, fault).1 == table
  {
  }

  /** A wrong ASCII proof within the window is refused and records exactly
      one failed attempt for the address; a non-ASCII one ends in the 500 of
      the uncaught comparison error and records nothing. */
  lemma WrongProofRecorded(table: map<Key, Row>, cfg: RateConfig, app: App, c: Crypto, secret: string, password: string,
                           now: int, ip: string, data: AuthChallenge)
    requires cfg.enabled && GateCheck(table, cfg, now, ip, false).0
    requires Skew(now, data.timestamp) <= AuthTimeWindowSeconds
    requires data.hash != ChallengeHash(c, password, data.origin, data.timestamp)
    requires cfg.window >= 0
    ensures !IsAscii(data.hash) ==>
      LoginSpec(table, cfg, app, c, secret, password, now, ip, data, false) == (Err(InternalServerError), table)
    ensures IsAscii(data.hash) ==>
      var (r, t) := LoginSpec(table, cfg, app, c, secret, password, now, ip, data, false);
      r == Err(HttpError(401, "Invalid credentials"))
      && RateRowOf(t, ip).Some?
      && RateRowOf(t, ip).value.failedAttempts ==
           (if RateRowOf(table, ip).Some? && now - RateRowOf(table, ip).value.firstAttempt <= cfg.window
            then RateRowOf(table, ip).value.failedAttempts + 1 else 1)
      && forall k :: k in table && k != RateKey(ip) ==> k in t && t[k] == table[k]
  {
  }

  /** The right proof with a bad display name is refused and leaves the
      counter alone. */
  lemma BadNameNotCounted(table: map<Key, Row>, cfg: RateConfig, app: App, c: Crypto, secret: string, password: string,
                          now: int, ip: string, data: AuthChallenge, fault: bool)
    requires !cfg.enabled || GateCheck(table, cfg, now, ip, fault).0
    requires Skew(now, data.timestamp) <= AuthTimeWindowSeconds
    requires data.hash == ChallengeHash(c, password, data.origin, data.timestamp)
    requires Strip(data.name) == "" || |Strip(data.name)| > MaxNameLength
    ensures LoginSpec(table, cfg, app, c, secret, password, now, ip, data, fault) ==
      (Err(HttpError(400, "Name is required (max 50 chars)")), table)
  {
  }

  /** A successful login clears the counter and issues a token that the same
      application accepts now; the unified token carries the stripped name. */
  lemma SuccessIssuesValidToken(table: map<Key, Row>, cfg: RateConfig, app: App, c: Crypto, secret: string, password: string,
                                now: int, ip: string, data: AuthChallenge)
    requires Utf8RoundTrip(c)
    requires !cfg.enabled || GateCheck(table, cfg, now, ip, false).0
    requires Skew(now, data.timestamp) <= AuthTimeWindowSeconds
    requires data.hash == ChallengeHash(c, password, data.origin, data.timestamp)
    requires Strip(data.name) != "" && |Strip(data.name)| <= MaxNameLength
    ensures var (r, t) := LoginSpec(table, cfg, app, c, secret, password, now, ip, data, false);
      r.Ok? && r.value.name == Strip(data.name)
      && (cfg.enabled ==> RateRowOf(t, ip).None?)
      && (app == Unified ==>
            VerifySessionToken(c, secret, now, Some("Bearer " + r.value.token)) == Pass
            && GetUserFromToken(c, Some("Bearer " + r.value.token)) == Some(Strip(data.name)))
      && (app == Serverless ==>
            VerifyLegacySessionToken(c, secret, now, Some("Bearer " + r.value.token)) == Pass)
  {
    var name := Strip(data.name);
    LoginSucceeds(table, cfg, app, c, secret, password, now, ip, data);
    IssuedTokenAccepted(app, c, secret, now, name);
  }

  /** With the gate open, a fresh proof and a valid name, the login
      succeeds and clears the counter. */
  lemma LoginSucceeds(table: map<Key, Row>, cfg: RateConfig, app: App, c: Crypto, secret: string, password: string,
                      now: int, ip: string, data: AuthChallenge)
    requires !cfg.enabled || GateCheck(table, cfg, now, ip, false).0
    requires Skew(now, data.timestamp) <= AuthTimeWindowSeconds
    requires data.hash == ChallengeHash(c, password, data.origin, data.timestamp)
    requires Strip(data.name) != "" && |Strip(data.name)| <= MaxNameLength
    ensures LoginSpec(table, cfg, app, c, secret, password, now, ip, data, false) ==
      (Ok(AuthOk(IssueToken(app, c, secret, now, Strip(data.name)), Strip(data.name))),
       if cfg.enabled then table - {RateKey(ip)} else table)
  {
    assert VerifyChallengeHash(c, password, data.origin, data.timestamp, data.hash) == Some(true);
  }

  /** The token a login issues for a non-empty name is accepted by the
      application that issued it at the time it was issued. */
  lemma IssuedTokenAccepted(app: App, c: Crypto, secret: string, now: int, name: string)
    requires Utf8RoundTrip(c) && name != ""
    ensures app == Unified ==>
      VerifySessionToken(c, secret, now, Some("Bearer " + IssueToken(app, c, secret, now, name))) == Pass
      && GetUserFromToken(c, Some("Bearer " + IssueToken(app, c, secret, now, name))) == Some(name)
    ensures app == Serverless ==>
      VerifyLegacySessionToken(c, secret, now, Some("Bearer " + IssueToken(app, c, secret, now, name))) == Pass
  {
    if app == Unified {
      CreatedTokenVerifies(c, secret, now, now, name);
      UserOfCreatedToken(c, secret, now, name);
    } else {
      LegacyTokenVerifies(c, secret, now, now);
    }
  }

  /** The login handler. Every storage call fails alike when `fault` is set:
      the check then passes, and recording and clearing change nothing. */
  method VerifyAuth(store: Store, cfg: RateConfig, app: App, c: Crypto, secret: string, password: string,
                    now: int, ip: string, data: AuthChallenge, fault: bool)
    returns (r: Result<AuthOk, HttpError>)
    requires store.Valid()
    modifies store
    ensures store.Valid()
    ensures (r, store.table) == LoginSpec(old(store.table), cfg, app, c, secret, password, now, ip, data, fault)
    ensures store.library == old(store.library) && store.guidCache == old(store.guidCache)
  {
    if cfg.enabled {
      var allowed, remaining := store.CheckRateLimit(ip, cfg.maxAttempts, cfg.window, now, fault);
      if !allowed {
        return Err(HttpError(429, LockoutMessage(cfg.window)));
      }
    }
    var timeDiff := Skew(now, data.timestamp);
    if timeDiff > AuthTimeWindowSeconds {
      return Err(HttpError(401, "Timestamp expired. Please try again. (skew: " + IntToString(timeDiff) + "s)"));
    }
    var proof := VerifyChallengeHash(c, password, data.origin, data.timestamp, data.hash);
    if proof.None? {
      return Err(InternalServerError);
    }
    if !proof.value {
      if cfg.enabled {
        var _ := store.RecordFailedAttempt(ip, cfg.window, now, fault);
      }
      return Err(HttpError(401, "Invalid credentials"));
    }
    var name := Strip(data.name);
    if name == "" || |name| > MaxNameLength {
      return Err(HttpError(400, "Name is required (max 50 chars)"));
    }
    if cfg.enabled {
      var _ := store.ClearRateLimit(ip, fault);
    }
    var token := IssueToken(app, c, secret, now, name);
    r := Ok(AuthOk(token, name));
  }
}
