/** Sessions of the multi-tenant backend: `payload.signature` tokens whose
    payload is the unpadded base64url of a JSON record carrying the user and
    an expiry time, the older `timestamp.signature` tokens still accepted in
    single-tenant mode, the owner and tenant guards, and the resolution of
    the tenant a request is for. The JSON codec is a parameter; tenant
    lookups are read-only maps. */
module TenantAuth {
  import opened Common
  import opened Text
  import opened Base64
  import opened Crypto
  import opened SharedTokens
  import opened LambdaAuth

  /** The signed payload of a session token. */
  datatype SessionPayload = SessionPayload(
    userType: string, tenantId: Option<string>, userId: Option<string>,
    name: Option<string>, plexThumb: Option<string>, exp: int)

  /** The authenticated user of a request. */
  datatype SessionUser = SessionUser(
    userType: string, tenantId: Option<string>, userId: Option<string>,
    name: Option<string>, plexThumb: Option<string>)

  /** The JSON form of a payload and its validating parser (None where
      parsing or validation fails). */
  datatype PayloadCodec = PayloadCodec(dump: SessionPayload -> string, parse: string -> Option<SessionPayload>)

  ghost predicate PayloadRoundTrip(j: PayloadCodec) {
    forall p {:trigger j.dump(p)} :: j.parse(j.dump(p)) == Some(p)
  }

  function UserOf(p: SessionPayload): SessionUser {
    SessionUser(p.userType, p.tenantId, p.userId, p.name, p.plexThumb)
  }

  /** The first segment of a token: the unpadded base64url of the UTF-8 of
      the payload's JSON. */
  function EncodePayload(c: Crypto, j: PayloadCodec, p: SessionPayload): (seg: string)
    ensures '.' !in seg
  {
    UnpaddedHasNoSeparator(c.utf8(j.dump(p)));
    EncodeUnpadded(c.utf8(j.dump(p)))
  }

  function NewPayload(now: int, userType: string, tenantId: Option<string>, userId: Option<string>,
                      name: Option<string>, plexThumb: Option<string>): SessionPayload {
    SessionPayload(userType, tenantId, userId, name, plexThumb, now + SessionDurationSeconds)
  }

  /** A token issued at `now`, expiring thirty days later: the payload
      segment and the signature of that segment. */
  function CreateTenantSessionToken(c: Crypto, j: PayloadCodec, secret: string, now: int, userType: string,
                                    tenantId: Option<string>, userId: Option<string>, name: Option<string>,
                                    plexThumb: Option<string>): (t: string)
    ensures var seg := EncodePayload(c, j, NewPayload(now, userType, tenantId, userId, name, plexThumb));
      SplitOnce(t, '.') == [seg, Sign(c, secret, seg)]
  {
    var seg := EncodePayload(c, j, NewPayload(now, userType, tenantId, userId, name, plexThumb));
    SplitOnceAt(seg, '.', Sign(c, secret, seg));
    seg + "." + Sign(c, secret, seg)
  }

  /** The detail of a payload that does not decode or validate; the text of
      the underlying exception is not modelled. */
  const UndecodablePayload := "Invalid token payload"

  /** The detail of the 401 given when the signature comparison raises on a
      non-ASCII signature: the handler catches the TypeError and reports its
      text. */
  const NonAsciiSignature := "Invalid token: comparing strings with non-ASCII characters is not supported"

  /** The session check: a dot; the signature of the text before it
      compared with the text after it; only then the payload decoded; then
      refused when now is past its expiry. Every failure is a 401. */
  function VerifyTenantSessionToken(c: Crypto, j: PayloadCodec, secret: string, now: int, token: string)
    : (r: Result<SessionPayload, HttpError>)
    ensures r.Err? ==> r.error.status == 401
    ensures r.Ok? ==> (|SplitOnce(token, '.')| == 2 && now <= r.value.exp
      && SplitOnce(token, '.')[1] == Sign(c, secret, SplitOnce(token, '.')[0]))
    ensures r == Err(HttpError(401, NonAsciiSignature)) <==>
      |SplitOnce(token, '.')| == 2 && !IsAscii(SplitOnce(token, '.')[1])
  {
    var parts := SplitOnce(token, '.');
    if |parts| != 2 then Err(HttpError(401, "Invalid token format"))
    else if CompareDigest(parts[1], Sign(c, secret, parts[0])).None? then Err(HttpError(401, NonAsciiSignature))
    else if parts[1] != Sign(c, secret, parts[0]) then Err(HttpError(401, "Invalid signature"))
    else
      match DecodePadded(RestorePadding(parts[0]))
      case None => Err(HttpError(401, UndecodablePayload))
      case Some(b) =>
        match c.fromUtf8(b)
        case None => Err(HttpError(401, UndecodablePayload))
        case Some(text) =>
          match j.parse(text)
          case None => Err(HttpError(401, UndecodablePayload))
          case Some(p) => if now > p.exp then Err(HttpError(401, "Token expired")) else Ok(p)
  }

  /** An issued token gives back its payload until its expiry time, thirty
      days after issue (that second included), and is refused as expired
      after it. */
  lemma TenantTokenRoundTrip(c: Crypto, j: PayloadCodec, secret: string, issued: int, now: int, userType: string,
                             tenantId: Option<string>, userId: Option<string>, name: Option<string>, plexThumb: Option<string>)
    requires Utf8RoundTrip(c) && PayloadRoundTrip(j)
    ensures VerifyTenantSessionToken(c, j, secret, now, CreateTenantSessionToken(c, j, secret, issued, userType, tenantId, userId, name, plexThumb))
      == if now > issued + SessionDurationSeconds then Err(HttpError(401, "Token expired"))
         else Ok(NewPayload(issued, userType, tenantId, userId, name, plexThumb))
  {
    var p := NewPayload(issued, userType, tenantId, userId, name, plexThumb);
    DecodeRestoredUnpadded(c.utf8(j.dump(p)));
    assert c.fromUtf8(c.utf8(j.dump(p))) == Some(j.dump(p));
    assert j.parse(j.dump(p)) == Some(p);
  }

  /** The signature is checked before the payload is even decoded, so a
      token whose signature does not match is refused as such, expired or
      not, decodable or not (with the comparison error's text when the
      signature is not ASCII). */
  lemma SignatureBeforeExpiry(c: Crypto, j: PayloadCodec, secret: string, now: int, seg: string, sig: string)
    requires '.' !in seg && sig != Sign(c, secret, seg)
    ensures VerifyTenantSessionToken(c, j, secret, now, seg + "." + sig) ==
      if IsAscii(sig) then Err(HttpError(401, "Invalid signature")) else Err(HttpError(401, NonAsciiSignature))
  {
    SplitOnceAt(seg, '.', sig);
  }

  /** The user of a request: a bearer header whose token verifies. */
  function GetSessionUser(c: Crypto, j: PayloadCodec, secret: string, now: int, authorization: Option<string>)
    : (r: Result<SessionUser, HttpError>)
    ensures r.Err? ==> r.error.status == 401
    ensures r.Ok? <==> (BearerToken(authorization).Ok?
      && VerifyTenantSessionToken(c, j, secret, now, BearerToken(authorization).value).Ok?)
    ensures r.Ok? ==> r.value == UserOf(VerifyTenantSessionToken(c, j, secret, now, BearerToken(authorization).value).value)
  {
    match BearerToken(authorization)
    case Err(e) => Err(e)
    case Ok(token) =>
      match VerifyTenantSessionToken(c, j, secret, now, token)
      case Err(e) => Err(e)
      case Ok(p) => Ok(UserOf(p))
  }

  /** The same, with None wherever `GetSessionUser` would refuse. */
  function GetOptionalSessionUser(c: Crypto, j: PayloadCodec, secret: string, now: int, authorization: Option<string>)
    : (r: Option<SessionUser>)
    ensures r.Some? <==> GetSessionUser(c, j, secret, now, authorization).Ok?
    ensures r.Some? ==> r.value == GetSessionUser(c, j, secret, now, authorization).value
  {
    if !StrTruthy(authorization) then None
    else
      match GetSessionUser(c, j, secret, now, authorization)
      case Err(_) => None
      case Ok(u) => Some(u)
  }

  /** The owner guard: 401 without a user, 403 for anyone but an owner. */
  function RequireOwner(user: Option<SessionUser>): (r: Result<SessionUser, HttpError>)
    ensures r.Ok? <==> user.Some? && user.value.userType == "owner"
    ensures r.Ok? ==> r.value == user.value
    ensures r.Err? ==> r.error.status == (if user.None? then 401 else 403)
  {
    if user.None? then Err(HttpError(401, "Authorization required"))
    else if user.value.userType != "owner" then Err(HttpError(403, "Owner access required"))
    else Ok(user.value)
  }

  /** The tenant guard: an owner or a guest with a tenant. */
  function RequireTenantAccess(user: Option<SessionUser>): (r: Result<SessionUser, HttpError>)
    ensures r.Ok? <==> user.Some? && user.value.userType in {"owner", "guest"} && StrTruthy(user.value.tenantId)
    ensures r.Ok? ==> r.value == user.value
    ensures r.Err? ==> r.error.status == (if user.None? then 401 else 403)
  {
    if user.None? then Err(HttpError(401, "Authorization required"))
    else if user.value.userType !in {"owner", "guest"} then Err(HttpError(403, "Tenant access required"))
    else if !StrTruthy(user.value.tenantId) then Err(HttpError(403, "No tenant context"))
    else Ok(user.value)
  }

  /** The older token check, as a boolean; None where the final comparison
      raises on a non-ASCII signature. */
  function VerifyLegacyToken(c: Crypto, secret: string, now: int, token: string): Option<bool> {
    var parts := SplitOnce(token, '.');
    if |parts| != 2 then Some(false)
    else
      match ParseInt(parts[0])
      case None => Some(false)
      case Some(ts) =>
        if now - ts > SessionDurationSeconds then Some(false)
        else CompareDigest(parts[1], Sign(c, secret, parts[0]))
  }

  /** The boolean check makes the same decision as the serverless
      application's session check on that token: it accepts exactly the
      tokens that pass there, and raises exactly where that check ends in a
      500. */
  lemma LegacyTokenAgrees(c: Crypto, secret: string, now: int, token: string)
    ensures VerifyLegacyToken(c, secret, now, token) == Some(true) <==>
      VerifyLegacySessionToken(c, secret, now, Some("Bearer " + token)) == Pass
    ensures VerifyLegacyToken(c, secret, now, token).None? <==>
      VerifyLegacySessionToken(c, secret, now, Some("Bearer " + token)) == Fail(InternalServerError)
  {
    VerifyLegacyBearer(c, secret, now, token);
  }

  const LegacyUser := SessionUser("legacy", None, None, None, None)

  /** The session check that accepts both token forms: a token whose text
      before its first dot is all digits is tried as an older token first;
      when that fails it is still tried as a new token; a token without a dot
      is malformed. */
  function GetSessionUserCompat(c: Crypto, j: PayloadCodec, secret: string, now: int, authorization: Option<string>)
    : (r: Result<SessionUser, HttpError>)
    ensures r.Err? ==> r.error.status == 401
  {
    match BearerToken(authorization)
    case Err(e) => Err(e)
    case Ok(token) =>
      if '.' !in token then Err(HttpError(401, "Invalid token format"))
      else if IsDigits(Split(token, '.')[0]) && VerifyLegacyToken(c, secret, now, token) == Some(true) then Ok(LegacyUser)
      else
        match VerifyTenantSessionToken(c, j, secret, now, token)
        case Err(e) => Err(e)
        case Ok(p) => Ok(UserOf(p))
  }

  /** An unexpired older token, issued at a non-negative time, gives the
      legacy user. */
  lemma CompatAcceptsLegacy(c: Crypto, j: PayloadCodec, secret: string, issued: int, now: int)
    requires issued >= 0 && now - issued <= SessionDurationSeconds
    ensures GetSessionUserCompat(c, j, secret, now, Some("Bearer " + CreateLegacyToken(c, secret, issued))) == Ok(LegacyUser)
  {
    var t := CreateLegacyToken(c, secret, issued);
    BearerOf(t);
    LegacyTokenVerifies(c, secret, issued, now);
    LegacyTokenAgrees(c, secret, now, t);
    assert t[|IntToString(issued)|] == '.';
  }

  /** A digit-first token that fails the older check, or makes it raise, is
      not refused there: it gets exactly the new-token decision. */
  lemma CompatFallsThrough(c: Crypto, j: PayloadCodec, secret: string, now: int, token: string)
    requires '.' in token && VerifyLegacyToken(c, secret, now, token) != Some(true)
    ensures GetSessionUserCompat(c, j, secret, now, Some("Bearer " + token)) ==
      match VerifyTenantSessionToken(c, j, secret, now, token)
      case Err(e) => Err(e)
      case Ok(p) => Ok(UserOf(p))
  {
    BearerOf(token);
  }

  /** A bearer token without a dot is malformed. */
  lemma CompatNoDot(c: Crypto, j: PayloadCodec, secret: string, now: int, token: string)
    requires '.' !in token
    ensures GetSessionUserCompat(c, j, secret, now, Some("Bearer " + token)) == Err(HttpError(401, "Invalid token format"))
  {
    BearerOf(token);
  }

  /** A tenant as the lookups return it. */
  datatype Tenant = Tenant(id: string, slug: string, displayName: Option<string>)

  /** The host of the `Host` header, lower-cased, without a port. */
  function HostOf(hostHeader: Option<string>): (host: string)
    ensures ':' !in host
    ensures forall i :: 0 <= i < |host| ==> LowerChar(host[i]) == host[i]
  {
    var lowered := Lower(hostHeader.GetOr(""));
    SplitParts(lowered, ':');
    SplitHeadPrefix(lowered, ':');
    Split(lowered, ':')[0]
  }

  /** The slug of a `/t/{slug}/...` path. */
  function PathSlug(path: string): Option<string> {
    if StartsWith(path, "/t/") && |Split(path, '/')| >= 3 then Some(Split(path, '/')[2]) else None
  }

  /** The subdomain of a host under the base domain, with every
      `.base` occurrence removed; None when that leaves nothing or changes
      nothing. */
  function Subdomain(host: string, baseDomain: string): Option<string> {
    var sub := Replace(host, "." + baseDomain, "");
    if sub != "" && sub != host then Some(sub) else None
  }

  /** The tenant a request is for, looked up in order: by the custom-domain
      header, by the host as a custom domain (unless it is under the base
      domain), by the subdomain of the base domain, by a `/t/{slug}/` path
      prefix; otherwise none. */
  function TenantFromRequest(hostHeader: Option<string>, customDomainHeader: Option<string>, path: string,
                             baseDomain: Option<string>, byCustomDomain: map<string, Tenant>, bySlug: map<string, Tenant>)
    : (r: Option<Tenant>)
    ensures r.Some? ==> r.value in byCustomDomain.Values || r.value in bySlug.Values
    ensures StrTruthy(customDomainHeader) && customDomainHeader.value in byCustomDomain ==>
      r == Some(byCustomDomain[customDomainHeader.value])
  {
    var host := HostOf(hostHeader);
    if StrTruthy(customDomainHeader) && customDomainHeader.value in byCustomDomain then
      Some(byCustomDomain[customDomainHeader.value])
    else if StrTruthy(baseDomain) && !EndsWith(host, baseDomain.value) && host in byCustomDomain then
      Some(byCustomDomain[host])
    else if StrTruthy(baseDomain) && EndsWith(host, baseDomain.value)
         && Subdomain(host, baseDomain.value).Some? && Subdomain(host, baseDomain.value).value in bySlug then
      Some(bySlug[Subdomain(host, baseDomain.value).value])
    else if PathSlug(path).Some? && PathSlug(path).value in bySlug then
      Some(bySlug[PathSlug(path).value])
    else None
  }

  /** A host equal to the base domain has no subdomain. */
  lemma BaseDomainHasNoSubdomain(base: string)
    ensures Subdomain(base, base).None?
  {
    ReplaceAbsent(base, "." + base, "");
  }

  /** At the bare base domain only the header and the path can select a
      tenant. */
  lemma BaseHostFallsToPath(base: string, customDomainHeader: Option<string>, path: string,
                            byCustomDomain: map<string, Tenant>, bySlug: map<string, Tenant>)
    requires base != "" && ':' !in base && forall i :: 0 <= i < |base| ==> LowerChar(base[i]) == base[i]
    requires !(StrTruthy(customDomainHeader) && customDomainHeader.value in byCustomDomain)
    ensures TenantFromRequest(Some(base), customDomainHeader, path, Some(base), byCustomDomain, bySlug) ==
      if PathSlug(path).Some? && PathSlug(path).value in bySlug then Some(bySlug[PathSlug(path).value]) else None
  {
    assert Lower(base) == base;
    SplitAbsent(base, ':');
    assert HostOf(Some(base)) == base;
    BaseDomainHasNoSubdomain(base);
    assert base[|base| - |base|..] == base;
  }

  /** A `/t/{slug}/...` path names its slug. */
  lemma PathSlugOf(slug: string, rest: string)
    requires '/' !in slug
    ensures PathSlug("/t/" + slug + "/" + rest) == Some(slug)
  {
    var tail := slug + ['/'] + rest;
    var mid := "t" + ['/'] + tail;
    var path := "" + ['/'] + mid;
    SlugPathShape(slug, rest);
    SplitFirst("", '/', mid);
    SplitFirst("t", '/', tail);
    SplitFirst(slug, '/', rest);
    assert Split(path, '/') == [""] + ([("t")] + ([slug] + Split(rest, '/')));
    assert path[..3] == "/t/";
  }

  /** The path of a slug, regrouped separator by separator. */
  lemma SlugPathShape(slug: string, rest: string)
    ensures "/t/" + slug + "/" + rest == "" + ['/'] + ("t" + ['/'] + (slug + ['/'] + rest))
  {
    var lhs := "/t/" + slug + "/" + rest;
    var rhs := "" + ['/'] + ("t" + ['/'] + (slug + ['/'] + rest));
    assert |lhs| == |rhs|;
    forall i | 0 <= i < |lhs| ensures lhs[i] == rhs[i] {
      if i >= 3 + |slug| + 1 {
        assert lhs[i] == rest[i - 4 - |slug|];
      }
    }
  }
}
