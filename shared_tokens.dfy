/** Session tokens and the login proof of the unified application:
    `timestamp.name_b64.signature` tokens (with the older two-segment
    `timestamp.signature` still accepted), reading the display name back out
    of a token, and the PBKDF2/SHA-256 challenge hash. The clock and the
    application secret are parameters. */
module SharedTokens {
  import opened Common
  import opened Text
  import opened Base64
  import opened Crypto

  /** Thirty days. */
  const SessionDurationSeconds: int := 30 * 24 * 60 * 60
  const Pbkdf2Iterations: nat := 100000
  const AuthTimeWindowSeconds: int := 300

  /** Unpadded base64url of the HMAC-SHA256 of `payload` under `secret`. */
  function Sign(c: Crypto, secret: string, payload: string): (sig: string)
    ensures '.' !in sig && ' ' !in sig
    ensures IsAscii(sig)
  {
    var mac := c.hmacSha256(c.utf8(secret), c.utf8(payload));
    UnpaddedHasNoSeparator(mac);
    UnpaddedAscii(mac);
    EncodeUnpadded(mac)
  }

  /** The middle segment: the unpadded base64url of the UTF-8 name, or empty
      for an empty name. */
  function NameSegment(c: Crypto, name: string): (seg: string)
    ensures name == "" ==> seg == ""
    ensures '.' !in seg
    ensures IsAscii(seg)
  {
    if name == "" then ""
    else
      UnpaddedHasNoSeparator(c.utf8(name));
      UnpaddedAscii(c.utf8(name));
      EncodeUnpadded(c.utf8(name))
  }

  /** With a sound UTF-8 codec a non-empty name has a non-empty segment. */
  lemma NameSegmentNonEmpty(c: Crypto, name: string)
    requires Utf8RoundTrip(c) && name != ""
    ensures NameSegment(c, name) != ""
  {
    var b := c.utf8(name);
    assert |b| >= |name|;
    EncodeUnpaddedIsRaw(b);
  }

  /** A token issued at `now` for `name`: its three dot-separated segments are
      the decimal timestamp, the name segment, and the signature of the first
      two joined by a dot. */
  function CreateSessionToken(c: Crypto, secret: string, now: int, name: string): (t: string)
    ensures Split(t, '.') ==
      [IntToString(now), NameSegment(c, name),
       Sign(c, secret, IntToString(now) + "." + NameSegment(c, name))]
  {
    var ts := IntToString(now);
    var seg := NameSegment(c, name);
    var sig := Sign(c, secret, ts + "." + seg);
    IntToStringChars(now);
    assert '.' !in ts by {
      assert !IsDigit('.');
    }
    SplitThree(ts, seg, sig, '.');
    ts + "." + seg + "." + sig
  }

  /** The token of an `Authorization: Bearer <token>` header; the scheme is
      compared case-insensitively. */
  function BearerToken(authorization: Option<string>): (r: Result<string, HttpError>)
    ensures r.Err? ==> r.error.status == 401
    ensures r.Ok? ==> (authorization.Some? &&
      exists scheme :: Lower(scheme) == "bearer" && authorization.value == scheme + " " + r.value)
  {
    if authorization.None? || authorization.value == "" then
      Err(HttpError(401, "Authorization header required"))
    else
      var parts := SplitOnce(authorization.value, ' ');
      if |parts| != 2 || Lower(parts[0]) != "bearer" then
        Err(HttpError(401, "Invalid authorization format"))
      else Ok(parts[1])
  }

  lemma BearerOf(token: string)
    ensures BearerToken(Some("Bearer " + token)) == Ok(token)
  {
    SplitOnceAt("Bearer", ' ', token);
    assert "Bearer " + token == "Bearer" + [' '] + token;
    assert Lower("Bearer") == "bearer";
  }

  /** The signed payload of a token split at every dot: the first two
      segments of a three-segment token, the timestamp of a two-segment one. */
  function SignedPayload(parts: seq<string>): string
    requires |parts| == 2 || |parts| == 3
  {
    if |parts| == 3 then parts[0] + "." + parts[1] else parts[0]
  }

  /** The check of the token a bearer header carries: two or three
      segments, an integer timestamp, at most thirty days old (checked before
      the signature; a timestamp in the future passes), then the signature
      compared with the one recomputed from the payload. `compare_digest`
      raises on a signature segment holding a non-ASCII character, which
      nothing catches, so that request ends in a 500. */
  function CheckSessionToken(c: Crypto, secret: string, now: int, token: string): (r: Check)
    ensures r.Fail? ==> r.error.status == 401 || r.error == InternalServerError
  {
    var parts := Split(token, '.');
    if |parts| != 3 && |parts| != 2 then Fail(HttpError(401, "Invalid token format"))
    else
      match ParseInt(parts[0])
      case None => Fail(HttpError(401, "Invalid token format"))
      case Some(ts) =>
        if now - ts > SessionDurationSeconds then Fail(HttpError(401, "Session expired"))
        else
          match CompareDigest(parts[|parts| - 1], Sign(c, secret, SignedPayload(parts)))
          case None => Fail(InternalServerError)
          case Some(same) => if same then Pass else Fail(HttpError(401, "Invalid token"))
  }

  /** The session check: the bearer token of the header, then its check. */
  function VerifySessionToken(c: Crypto, secret: string, now: int, authorization: Option<string>): (r: Check)
    ensures r.Fail? ==> r.error.status == 401 || r.error == InternalServerError
  {
    match BearerToken(authorization)
    case Err(e) => Fail(e)
    case Ok(token) => CheckSessionToken(c, secret, now, token)
  }

  /** The only 500 of the session check: a bearer token of two or three
      segments whose signature segment holds a non-ASCII character. */
  lemma ServerErrorOnlyOnNonAsciiSignature(c: Crypto, secret: string, now: int, authorization: Option<string>)
    ensures VerifySessionToken(c, secret, now, authorization) == Fail(InternalServerError) ==>
      BearerToken(authorization).Ok? &&
      var parts := Split(BearerToken(authorization).value, '.');
      (|parts| == 2 || |parts| == 3) && !IsAscii(parts[|parts| - 1])
  {
    if BearerToken(authorization).Ok? {
      var parts := Split(BearerToken(authorization).value, '.');
      if |parts| == 3 {
        assert |parts| - 1 == 2;
      } else if |parts| == 2 {
        assert |parts| - 1 == 1;
      }
    }
  }

  /** A `Bearer` header is judged by its token alone. */
  lemma VerifyBearer(c: Crypto, secret: string, now: int, token: string)
    ensures VerifySessionToken(c, secret, now, Some("Bearer " + token)) == CheckSessionToken(c, secret, now, token)
  {
    BearerOf(token);
  }

  /** A token issued at `issued` passes until it is more than thirty days old
      (exactly thirty days still passes) and is then rejected as expired. */
  lemma CreatedTokenVerifies(c: Crypto, secret: string, issued: int, now: int, name: string)
    ensures VerifySessionToken(c, secret, now, Some("Bearer " + CreateSessionToken(c, secret, issued, name)))
      == if now - issued > SessionDurationSeconds then Fail(HttpError(401, "Session expired")) else Pass
  {
    VerifyBearer(c, secret, now, CreateSessionToken(c, secret, issued, name));
    ParseIntToString(issued);
  }

  /** Expiry is decided before the signature: an expired timestamp is
      reported as expired whatever the signature segment holds. */
  lemma ExpiredBeforeSignature(c: Crypto, secret: string, now: int, token: string, ts: int)
    requires |Split(token, '.')| == 2 || |Split(token, '.')| == 3
    requires ParseInt(Split(token, '.')[0]) == Some(ts)
    requires now - ts > SessionDurationSeconds
    ensures VerifySessionToken(c, secret, now, Some("Bearer " + token)) == Fail(HttpError(401, "Session expired"))
  {
    VerifyBearer(c, secret, now, token);
  }

  /** A well-formed, unexpired token whose last segment is not the signature
      of its payload is rejected: with a 401 when that segment is ASCII, with
      the 500 of the uncaught comparison error when it is not. */
  lemma ForgedSignatureRejected(c: Crypto, secret: string, now: int, token: string, ts: int)
    requires |Split(token, '.')| == 2 || |Split(token, '.')| == 3
    requires ParseInt(Split(token, '.')[0]) == Some(ts)
    requires now - ts <= SessionDurationSeconds
    requires var parts := Split(token, '.'); parts[|parts| - 1] != Sign(c, secret, SignedPayload(parts))
    ensures VerifySessionToken(c, secret, now, Some("Bearer " + token)) ==
      if IsAscii(Split(token, '.')[|Split(token, '.')| - 1]) then Fail(HttpError(401, "Invalid token"))
      else Fail(InternalServerError)
  {
    VerifyBearer(c, secret, now, token);
    SignatureDecides(c, secret, now, token, ts);
    var parts := Split(token, '.');
    var last := if |parts| == 3 then parts[2] else parts[1];
    assert last == parts[|parts| - 1];
    var d := CompareDigest(last, Sign(c, secret, SignedPayload(parts)));
    if IsAscii(last) {
      assert d == Some(false);
    } else {
      assert d == None;
    }
  }

  /** Once a token is well-formed and unexpired, the signature comparison
      alone decides it. */
  lemma SignatureDecides(c: Crypto, secret: string, now: int, token: string, ts: int)
    requires |Split(token, '.')| == 2 || |Split(token, '.')| == 3
    requires ParseInt(Split(token, '.')[0]) == Some(ts)
    requires now - ts <= SessionDurationSeconds
    ensures var parts := Split(token, '.');
      CheckSessionToken(c, secret, now, token) ==
        match CompareDigest(parts[|parts| - 1], Sign(c, secret, SignedPayload(parts)))
        case None => Fail(InternalServerError)
        case Some(same) => if same then Pass else Fail(HttpError(401, "Invalid token"))
  {
    if |Split(token, '.')| == 3 {
      assert |Split(token, '.')| - 1 == 2;
    } else {
      assert |Split(token, '.')| - 1 == 1;
    }
  }

  /** A token with one segment, or more than three, is malformed. */
  lemma SegmentCountRejected(c: Crypto, secret: string, now: int, token: string)
    requires |Split(token, '.')| != 2 && |Split(token, '.')| != 3
    ensures VerifySessionToken(c, secret, now, Some("Bearer " + token)) == Fail(HttpError(401, "Invalid token format"))
  {
    VerifyBearer(c, secret, now, token);
  }

  /** The display name carried by a three-segment bearer token with a
      non-empty middle segment: padding is restored, then base64url and UTF-8
      are decoded. Neither the signature nor the age is checked; any failure
      gives None. */
  function GetUserFromToken(c: Crypto, authorization: Option<string>): (r: Option<string>)
    ensures r.Some? ==> (BearerToken(authorization).Ok?
      && |Split(BearerToken(authorization).value, '.')| == 3
      && Split(BearerToken(authorization).value, '.')[1] != "")
  {
    match BearerToken(authorization)
    case Err(_) => None
    case Ok(token) =>
      var parts := Split(token, '.');
      if |parts| == 3 && parts[1] != "" then
        match DecodePadded(RestorePadding(parts[1]))
        case None => None
        case Some(b) => c.fromUtf8(b)
      else None
  }

  /** The name put into a token is the name read back out (none for an empty
      name), provided UTF-8 decoding inverts encoding. */
  lemma UserOfCreatedToken(c: Crypto, secret: string, issued: int, name: string)
    requires Utf8RoundTrip(c)
    ensures GetUserFromToken(c, Some("Bearer " + CreateSessionToken(c, secret, issued, name)))
      == if name == "" then None else Some(name)
  {
    BearerOf(CreateSessionToken(c, secret, issued, name));
    if name != "" {
      NameSegmentNonEmpty(c, name);
      DecodeRestoredUnpadded(c.utf8(name));
    }
  }

  /** The name a middle segment decodes to. */
  function SegmentUser(c: Crypto, seg: string): Option<string> {
    if seg == "" then None
    else
      match DecodePadded(RestorePadding(seg))
      case None => None
      case Some(b) => c.fromUtf8(b)
  }

  lemma UserOfSegments(c: Crypto, ts: string, seg: string, sig: string)
    requires '.' !in ts && '.' !in seg && '.' !in sig
    ensures GetUserFromToken(c, Some("Bearer " + ts + "." + seg + "." + sig)) == SegmentUser(c, seg)
  {
    var t := ts + "." + seg + "." + sig;
    BearerOf(t);
    BearerRegroup(ts, seg, sig);
    SplitThree(ts, seg, sig, '.');
  }

  lemma BearerRegroup(ts: string, seg: string, sig: string)
    ensures "Bearer " + ts + "." + seg + "." + sig == "Bearer " + (ts + "." + seg + "." + sig)
  {
  }

  /** The name read from a token depends on its middle segment only: the
      timestamp and signature segments can be anything without a dot. */
  lemma UserIgnoresSignature(c: Crypto, ts1: string, ts2: string, seg: string, sig1: string, sig2: string)
    requires '.' !in ts1 && '.' !in ts2 && '.' !in seg && '.' !in sig1 && '.' !in sig2
    ensures GetUserFromToken(c, Some("Bearer " + ts1 + "." + seg + "." + sig1))
         == GetUserFromToken(c, Some("Bearer " + ts2 + "." + seg + "." + sig2))
  {
    UserOfSegments(c, ts1, seg, sig1);
    UserOfSegments(c, ts2, seg, sig2);
  }

  /** The expected proof of the password for `origin` at `timestamp`:
      hex SHA-256 of hex PBKDF2-HMAC-SHA256(password, origin, 100000 rounds,
      32 bytes), a colon, and the decimal timestamp. */
  function ChallengeHash(c: Crypto, password: string, origin: string, timestamp: int): string {
    var key := c.pbkdf2(c.utf8(password), c.utf8(origin), Pbkdf2Iterations, 32);
    Hex(c.sha256(c.utf8(Hex(key) + ":" + IntToString(timestamp))))
  }

  /** The expected proof is always ASCII hex. */
  lemma ChallengeHashAscii(c: Crypto, password: string, origin: string, timestamp: int)
    ensures IsAscii(ChallengeHash(c, password, origin, timestamp))
  {
    var key := c.pbkdf2(c.utf8(password), c.utf8(origin), Pbkdf2Iterations, 32);
    HexAscii(c.sha256(c.utf8(Hex(key) + ":" + IntToString(timestamp))));
  }

  /** The provided hash compared with the expected one by `compare_digest`:
      None when the comparison raises, which happens exactly when the
      provided hash holds a non-ASCII character; otherwise whether the two
      are equal. */
  function VerifyChallengeHash(c: Crypto, password: string, origin: string, timestamp: int, provided: string): (ok: Option<bool>)
    ensures ok.None? <==> !IsAscii(provided)
    ensures ok == Some(true) <==> provided == ChallengeHash(c, password, origin, timestamp)
  {
    ChallengeHashAscii(c, password, origin, timestamp);
    CompareDigest(provided, ChallengeHash(c, password, origin, timestamp))
  }

  /** Only 64 lower-case hex digits can be accepted as a challenge proof. */
  lemma AcceptedProofIsHexDigest(c: Crypto, password: string, origin: string, timestamp: int, provided: string)
    requires DigestLengths(c)
    requires VerifyChallengeHash(c, password, origin, timestamp, provided) == Some(true)
    ensures |provided| == 64
    ensures forall i :: 0 <= i < |provided| ==> HexValue(provided[i]).Some?
  {
    var key := c.pbkdf2(c.utf8(password), c.utf8(origin), Pbkdf2Iterations, 32);
    HexChars(c.sha256(c.utf8(Hex(key) + ":" + IntToString(timestamp))));
  }
}
