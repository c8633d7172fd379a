/** Session tokens of the serverless application: `timestamp.signature`,
    where the signature is the unpadded base64url HMAC-SHA256 of the
    timestamp alone; verification splits at the first dot only. */
module LambdaAuth {
  import opened Common
  import opened Text
  import opened Crypto
  import opened SharedTokens

  /** A token issued at `now`: the decimal timestamp, a dot, and its
      signature. */
  function CreateLegacyToken(c: Crypto, secret: string, now: int): (t: string)
    ensures SplitOnce(t, '.') == [IntToString(now), Sign(c, secret, IntToString(now))]
    ensures Split(t, '.') == [IntToString(now), Sign(c, secret, IntToString(now))]
  {
    var ts := IntToString(now);
    var sig := Sign(c, secret, ts);
    IntToStringChars(now);
    assert '.' !in ts by {
      assert !IsDigit('.');
    }
    SplitOnceAt(ts, '.', sig);
    SplitTwo(ts, sig, '.');
    ts + "." + sig
  }

  /** The check of the token a bearer header carries: a dot, an integer
      before it, at most thirty days old (a future timestamp passes), then
      everything after the first dot compared with the signature of the
      timestamp text; that comparison raises, uncaught, on a non-ASCII
      signature part: a 500. */
  function CheckLegacyToken(c: Crypto, secret: string, now: int, token: string): (r: Check)
    ensures r.Fail? ==> r.error.status == 401 || r.error == InternalServerError
    ensures r.Fail? && r.error == InternalServerError ==>
      var parts := SplitOnce(token, '.');
      |parts| == 2 && !IsAscii(parts[1])
  {
    var parts := SplitOnce(token, '.');
    if |parts| != 2 then Fail(HttpError(401, "Invalid token format"))
    else
      match ParseInt(parts[0])
      case None => Fail(HttpError(401, "Invalid token format"))
      case Some(ts) =>
        if now - ts > SessionDurationSeconds then Fail(HttpError(401, "Session expired"))
        else
          match CompareDigest(parts[1], Sign(c, secret, parts[0]))
          case None => Fail(InternalServerError)
          case Some(same) => if same then Pass else Fail(HttpError(401, "Invalid token"))
  }

  /** The session check: the bearer token of the header, then its check. */
  function VerifyLegacySessionToken(c: Crypto, secret: string, now: int, authorization: Option<string>): (r: Check)
    ensures r.Fail? ==> r.error.status == 401 || r.error == InternalServerError
    ensures r.Fail? && r.error == InternalServerError ==>
      BearerToken(authorization).Ok? &&
      var parts := SplitOnce(BearerToken(authorization).value, '.');
      |parts| == 2 && !IsAscii(parts[1])
  {
    match BearerToken(authorization)
    case Err(e) => Fail(e)
    case Ok(token) => CheckLegacyToken(c, secret, now, token)
  }

  /** A `Bearer` header is judged by its token alone. */
  lemma VerifyLegacyBearer(c: Crypto, secret: string, now: int, token: string)
    ensures VerifyLegacySessionToken(c, secret, now, Some("Bearer " + token)) == CheckLegacyToken(c, secret, now, token)
  {
    BearerOf(token);
  }

  /** An issued token passes until it is more than thirty days old. */
  lemma LegacyTokenVerifies(c: Crypto, secret: string, issued: int, now: int)
    ensures VerifyLegacySessionToken(c, secret, now, Some("Bearer " + CreateLegacyToken(c, secret, issued)))
      == if now - issued > SessionDurationSeconds then Fail(HttpError(401, "Session expired")) else Pass
  {
    VerifyLegacyBearer(c, secret, now, CreateLegacyToken(c, secret, issued));
    ParseIntToString(issued);
  }

  /** A bearer token without a dot is malformed. */
  lemma NoDotRejected(c: Crypto, secret: string, now: int, token: string)
    requires '.' !in token
    ensures VerifyLegacySessionToken(c, secret, now, Some("Bearer " + token)) == Fail(HttpError(401, "Invalid token format"))
  {
    VerifyLegacyBearer(c, secret, now, token);
  }

  /** Expiry is decided before the signature. */
  lemma LegacyExpiredBeforeSignature(c: Crypto, secret: string, now: int, token: string, issued: int)
    requires '.' in token
    requires ParseInt(SplitOnce(token, '.')[0]) == Some(issued) && now - issued > SessionDurationSeconds
    ensures VerifyLegacySessionToken(c, secret, now, Some("Bearer " + token)) == Fail(HttpError(401, "Session expired"))
  {
    VerifyLegacyBearer(c, secret, now, token);
  }

  /** The unified application still accepts these two-segment tokens, with
      the same expiry. */
  lemma LegacyTokenAcceptedByUnifiedApp(c: Crypto, secret: string, issued: int, now: int)
    ensures VerifySessionToken(c, secret, now, Some("Bearer " + CreateLegacyToken(c, secret, issued)))
      == if now - issued > SessionDurationSeconds then Fail(HttpError(401, "Session expired")) else Pass
  {
    VerifyBearer(c, secret, now, CreateLegacyToken(c, secret, issued));
    ParseIntToString(issued);
  }

  /** The converse does not hold: an unexpired three-segment token of the
      unified application is refused here, because everything after the
      first dot, itself containing a dot, is taken as the signature. */
  lemma UnifiedTokenRejected(c: Crypto, secret: string, issued: int, now: int, name: string)
    requires now - issued <= SessionDurationSeconds
    ensures VerifyLegacySessionToken(c, secret, now, Some("Bearer " + CreateSessionToken(c, secret, issued, name)))
      == Fail(HttpError(401, "Invalid token"))
  {
    var ts := IntToString(issued);
    var seg := NameSegment(c, name);
    var sig := Sign(c, secret, ts + "." + seg);
    var rest := seg + "." + sig;
    Regroup(ts, seg, sig);
    assert rest[|seg|] == '.';
    assert IsAscii(rest) by {
      assert forall i :: 0 <= i < |rest| ==> rest[i] == (if i < |seg| then seg[i] else if i == |seg| then '.' else sig[i - |seg| - 1]);
    }
    DottedSignatureRejected(c, secret, issued, now, rest);
  }

  /** The token `ts.seg.sig` is `ts` followed by a dot and `seg.sig`. */
  lemma Regroup(ts: string, seg: string, sig: string)
    ensures ts + "." + seg + "." + sig == ts + "." + (seg + "." + sig)
  {
  }

  /** An unexpired token whose part after the first dot holds another dot
      never matches, since a signature has no dot: a 401, or the 500 of the
      failed comparison when that part is not ASCII. */
  lemma DottedSignatureRejected(c: Crypto, secret: string, issued: int, now: int, rest: string)
    requires now - issued <= SessionDurationSeconds && '.' in rest
    ensures VerifyLegacySessionToken(c, secret, now, Some("Bearer " + (IntToString(issued) + "." + rest)))
      == if IsAscii(rest) then Fail(HttpError(401, "Invalid token")) else Fail(InternalServerError)
  {
    var ts := IntToString(issued);
    var token := ts + "." + rest;
    TimestampFirst(issued, rest);
    var sig := Sign(c, secret, ts);
    assert '.' !in sig;
    LegacyCheckOfParts(c, secret, now, token, ts, rest, issued);
  }

  /** The session check of a bearer token that splits into a time and a
      signature. */
  lemma LegacyCheckOfParts(c: Crypto, secret: string, now: int, token: string, ts: string, rest: string, issued: int)
    requires SplitOnce(token, '.') == [ts, rest] && ParseInt(ts) == Some(issued)
    ensures VerifyLegacySessionToken(c, secret, now, Some("Bearer " + token)) ==
      if now - issued > SessionDurationSeconds then Fail(HttpError(401, "Session expired"))
      else if !IsAscii(rest) then Fail(InternalServerError)
      else if rest != Sign(c, secret, ts) then Fail(HttpError(401, "Invalid token"))
      else Pass
  {
    VerifyLegacyBearer(c, secret, now, token);
    assert IsAscii(Sign(c, secret, ts));
  }

  /** A token that starts with a formatted time splits at the dot after
      it, and the time reads back. */
  lemma TimestampFirst(issued: int, rest: string)
    ensures SplitOnce(IntToString(issued) + "." + rest, '.') == [IntToString(issued), rest]
    ensures ParseInt(IntToString(issued)) == Some(issued)
  {
    var ts := IntToString(issued);
    IntToStringChars(issued);
    assert '.' !in ts by {
      assert !IsDigit('.');
    }
    SplitOnceAt(ts, '.', rest);
    ParseIntToString(issued);
  }
}
