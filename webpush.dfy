/** Web Push without a push library: the message body encrypted in the
    `aes128gcm` content coding of RFC 8188 with the keys of RFC 8291, the
    VAPID token of RFC 8292, and the mapping of the push service's answer.
    The elliptic-curve, HKDF and AES-GCM primitives come from the `Crypto`
    bundle; the ephemeral key, the salt, the clock and the HTTP exchange are
    parameters. */
module WebPush {
  import opened Common
  import opened Text
  import opened Base64
  import opened Crypto
  import opened Dicts

  /** `_b64encode`: base64url with the padding stripped. */
  function B64Encode(data: Bytes): string {
    EncodeUnpadded(data)
  }

  /** The standard alphabet's `+` and `/` turned into `-` and `_`. */
  function UrlSafe(s: string): string {
    ReplaceChar(ReplaceChar(s, '+', '-'), '/', '_')
  }

  /** `_b64decode`: either alphabet, padding restored; None where
      `urlsafe_b64decode` raises, as it does on an unpadded string one
      character past a multiple of four. */
  function B64Decode(s: string): (r: Option<Bytes>)
    ensures '=' !in s && |s| % 4 == 1 ==> r.None?
  {
    var u := UrlSafe(s);
    if '=' !in s && |s| % 4 == 1 then
      DecodeLengthOne(u);
      DecodePadded(RestorePadding(u))
    else
      DecodePadded(RestorePadding(u))
  }

  /** Replacing a character that does not occur changes nothing. */
  lemma ReplaceCharAbsent(s: string, a: char, b: char)
    requires a !in s
    ensures ReplaceChar(s, a, b) == s
  {
  }

  /** `_b64decode(_b64encode(b)) == b`. */
  lemma B64RoundTrip(b: Bytes)
    ensures B64Decode(B64Encode(b)) == Some(b)
  {
    EncodeUnpaddedIsRaw(b);
    ReplaceCharAbsent(B64Encode(b), '+', '-');
    ReplaceCharAbsent(B64Encode(b), '/', '_');
    DecodeRestoredUnpadded(b);
  }

  /** Decoding accepts the standard alphabet as well: a string and its
      URL-safe form decode alike. */
  lemma B64DecodeEitherAlphabet(s: string)
    ensures B64Decode(s) == B64Decode(UrlSafe(s))
  {
    var u := UrlSafe(s);
    ReplaceCharAbsent(u, '+', '-');
    ReplaceCharAbsent(u, '/', '_');
  }

  /** The bytes of an ASCII literal. */
  function Ascii(s: string): (r: Bytes)
    requires forall i :: 0 <= i < |s| ==> s[i] as int < 128
    ensures |r| == |s|
  {
    seq(|s|, i requires 0 <= i < |s| => s[i] as int)
  }

  /** The HKDF info strings of section 3.3 of RFC 8291 and sections 2.2 and
      2.3 of RFC 8188, each ending with a zero octet. */
  function KeyInfoPrefix(): Bytes {
    Ascii("WebPush: info") + [0]
  }

  function CekInfo(): Bytes {
    Ascii("Content-Encoding: aes128gcm") + [0]
  }

  function NonceInfo(): Bytes {
    Ascii("Content-Encoding: nonce") + [0]
  }

  const RecordSize: nat := 4096

  /** The input keying material: HKDF keyed by the subscription's auth
      secret over the ECDH secret, with the info prefix followed by the user
      agent's and the server's public keys. */
  function Ikm(c: Crypto, authSecret: Bytes, shared: Bytes, uaPublic: Bytes, serverPublic: Bytes): Bytes {
    c.hkdf(authSecret, shared, KeyInfoPrefix() + uaPublic + serverPublic, 32)
  }

  /** The 16-byte content encryption key and the 12-byte nonce, both HKDF
      keyed by the salt over the input keying material. */
  function ContentKeys(c: Crypto, salt: Bytes, ikm: Bytes): (Bytes, Bytes) {
    (c.hkdf(salt, ikm, CekInfo(), 16), c.hkdf(salt, ikm, NonceInfo(), 12))
  }

  /** The coding header of section 2.1 of RFC 8188 followed by the
      ciphertext: salt, the record size as four big-endian bytes, the key id
      length, the key id. */
  function Frame(salt: Bytes, keyId: Bytes, ciphertext: Bytes): Bytes
    requires |keyId| < 256
  {
    salt + BigEndian(RecordSize, 4) + [|keyId|] + keyId + ciphertext
  }

  /** A receiver's reading of the coding header: salt, record size, key id
      and ciphertext; None when the body is too short for its header. */
  function ParseFrame(body: Bytes): Option<(Bytes, nat, Bytes, Bytes)> {
    if |body| < 21 then None
    else
      var idlen := body[20] as int;
      if |body| < 21 + idlen then None
      else Some((body[..16], FromBigEndian(body[16..20]), body[21..21 + idlen], body[21 + idlen..]))
  }

  /** The receiver reads back the salt, the record size 4096, the key id
      and the ciphertext that were framed. */
  lemma ParseFrameRoundTrip(salt: Bytes, keyId: Bytes, ciphertext: Bytes)
    requires |salt| == 16 && |keyId| < 256
    ensures ParseFrame(Frame(salt, keyId, ciphertext)) == Some((salt, RecordSize, keyId, ciphertext))
  {
    var body := Frame(salt, keyId, ciphertext);
    FromToBigEndian(RecordSize, 4);
    assert body[..16] == salt;
    assert body[16..20] == BigEndian(RecordSize, 4);
    assert body[20] == |keyId|;
    assert body[21..21 + |keyId|] == keyId;
    assert body[21 + |keyId|..] == ciphertext;
  }

  /** The padding delimiter of the last record (section 2 of RFC 8188). */
  const LastRecordDelimiter: Byte := 2

  /** A receiver's removal of the padding: trailing zero octets, then the
      delimiter, which must be 2 in the last record. */
  function Unpad(p: Bytes): Option<Bytes> {
    if |p| == 0 then None
    else if p[|p| - 1] == 0 then Unpad(p[..|p| - 1])
    else if p[|p| - 1] == LastRecordDelimiter then Some(p[..|p| - 1])
    else None
  }

  /** What a receiver holding the input keying material gets from a body. */
  function Decrypt(c: Crypto, body: Bytes, ikm: Bytes): Option<Bytes> {
    match ParseFrame(body)
    case None => None
    case Some((salt, _, _, ciphertext)) =>
      var (cek, nonce) := ContentKeys(c, salt, ikm);
      match c.gcmOpen(cek, nonce, ciphertext)
      case None => None
      case Some(p) => Unpad(p)
  }

  /** The body `_encrypt_payload` builds for a decoded user-agent key and
      auth secret, the ephemeral server scalar and the salt: the data and
      one delimiter octet sealed under the derived key and nonce, framed
      with the server's public key as key id. */
  function EncryptBody(c: Crypto, data: Bytes, uaPublic: Bytes, authSecret: Bytes, serverPrivate: nat, salt: Bytes): Bytes
    requires CurveSizes(c)
  {
    var serverPublic := c.ecPublic(serverPrivate);
    var ikm := Ikm(c, authSecret, c.ecdh(serverPrivate, uaPublic), uaPublic, serverPublic);
    var (cek, nonce) := ContentKeys(c, salt, ikm);
    Frame(salt, serverPublic, c.gcmSeal(cek, nonce, data + [LastRecordDelimiter]))
  }

  /** A receiver that derives the same input keying material (the user
      agent's ECDH with the server's public key gives the same secret)
      finds the salt, the record size and the server's key in the header,
      and decrypts the body to the data. */
  lemma ReceiverDecrypts(c: Crypto, data: Bytes, uaPublic: Bytes, authSecret: Bytes, serverPrivate: nat, salt: Bytes)
    requires CurveSizes(c) && GcmSound(c) && |salt| == 16
    ensures var body := EncryptBody(c, data, uaPublic, authSecret, serverPrivate, salt);
      && |body| == 16 + 4 + 1 + 65 + |data| + 1 + 16
      && ParseFrame(body).Some?
      && ParseFrame(body).value.0 == salt
      && ParseFrame(body).value.1 == RecordSize
      && ParseFrame(body).value.2 == c.ecPublic(serverPrivate)
    ensures var serverPublic := c.ecPublic(serverPrivate);
      var ikm := Ikm(c, authSecret, c.ecdh(serverPrivate, uaPublic), uaPublic, serverPublic);
      Decrypt(c, EncryptBody(c, data, uaPublic, authSecret, serverPrivate, salt), ikm) == Some(data)
  {
    var serverPublic := c.ecPublic(serverPrivate);
    var ikm := Ikm(c, authSecret, c.ecdh(serverPrivate, uaPublic), uaPublic, serverPublic);
    var keys := ContentKeys(c, salt, ikm);
    var padded := data + [LastRecordDelimiter];
    var ciphertext := c.gcmSeal(keys.0, keys.1, padded);
    assert EncryptBody(c, data, uaPublic, authSecret, serverPrivate, salt) == Frame(salt, serverPublic, ciphertext);
    ParseFrameRoundTrip(salt, serverPublic, ciphertext);
    assert c.gcmOpen(keys.0, keys.1, ciphertext) == Some(padded);
    assert padded[..|padded| - 1] == data;
    assert Unpad(padded) == Some(data);
  }

  /** Why sending fails: a missing subscription field (`KeyError`), a key
      that does not decode (`binascii.Error`), a key the curve rejects
      (`ValueError`), or the push service's refusal. */
  datatype PushError = MissingKey(key: string) | BadBase64 | InvalidKey | Failed(message: string)

  /** `_encrypt_payload` with the ephemeral private scalar and the salt
      given: the body, the salt and the server's public key. Both keys are
      decoded before the user agent's point is checked. */
  function EncryptPayload(c: Crypto, data: Bytes, uaKey: string, authKey: string, serverPrivate: nat, salt: Bytes)
    : (r: Result<(Bytes, Bytes, Bytes), PushError>)
    requires CurveSizes(c)
    ensures r.Ok? <==> B64Decode(uaKey).Some? && B64Decode(authKey).Some? && c.ecPointValid(B64Decode(uaKey).value)
    ensures r.Err? ==> r.error == (if B64Decode(uaKey).Some? && B64Decode(authKey).Some? then InvalidKey else BadBase64)
    ensures r.Ok? ==> r.value == (EncryptBody(c, data, B64Decode(uaKey).value, B64Decode(authKey).value, serverPrivate, salt),
                                  salt, c.ecPublic(serverPrivate))
  {
    match (B64Decode(uaKey), B64Decode(authKey))
    case (Some(uaPublic), Some(authSecret)) =>
      if !c.ecPointValid(uaPublic) then Err(InvalidKey)
      else Ok((EncryptBody(c, data, uaPublic, authSecret, serverPrivate, salt), salt, c.ecPublic(serverPrivate)))
    case _ => Err(BadBase64)
  }

  /** A JSON value of the token's claims. */
  datatype JsonVal = JStr(s: string) | JInt(i: int)

  /** Four lower-case hex digits. */
  function Hex4(n: nat): (r: string)
    requires n < 0x10000
    ensures |r| == 4
    ensures forall i :: 0 <= i < 4 ==> ' ' <= r[i] <= '~'
  {
    [HexDigit(n / 0x1000), HexDigit(n / 0x100 % 16), HexDigit(n / 16 % 16), HexDigit(n % 16)]
  }

  /** Characters `json.dumps` writes as they are: printable ASCII other than
      the quote and the backslash. */
  predicate PlainChar(ch: char) {
    ' ' <= ch <= '~' && ch != '"' && ch != '\\'
  }

  /** One character as `json.dumps` writes it with `ensure_ascii`: the quote
      and backslash escaped, the usual control characters by letter, every
      other character outside space..tilde as `\uXXXX` (a surrogate pair
      beyond the basic plane). */
  function EscapeChar(ch: char): (r: string)
    ensures forall i :: 0 <= i < |r| ==> ' ' <= r[i] <= '~'
    ensures PlainChar(ch) <==> r == [ch]
  {
    if ch == '"' then "\\\""
    else if ch == '\\' then "\\\\"
    else if ch == '\n' then "\\n"
    else if ch == '\r' then "\\r"
    else if ch == '\t' then "\\t"
    else if ch == '\U{8}' then "\\b"
    else if ch == '\U{C}' then "\\f"
    else if ' ' <= ch <= '~' then [ch]
    else if (ch as int) < 0x10000 then "\\u" + Hex4(ch as int)
    else
      var n := ch as int - 0x10000;
      "\\u" + Hex4(0xD800 + n / 0x400) + "\\u" + Hex4(0xDC00 + n % 0x400)
  }

  /** The characters between the quotes of a JSON string literal. */
  function Escaped(s: string): (r: string)
    ensures forall i :: 0 <= i < |r| ==> ' ' <= r[i] <= '~'
  {
    if |s| == 0 then "" else EscapeChar(s[0]) + Escaped(s[1..])
  }

  /** A JSON string literal. */
  function JsonString(s: string): string {
    "\"" + Escaped(s) + "\""
  }

  /** Text of plain characters is written between quotes unchanged. */
  lemma {:induction false} EscapedPlain(s: string)
    requires forall i :: 0 <= i < |s| ==> PlainChar(s[i])
    ensures Escaped(s) == s
  {
    if |s| > 0 {
      EscapedPlain(s[1..]);
      assert s == [s[0]] + s[1..];
    }
  }

  function JsonValue(v: JsonVal): string {
    match v
    case JStr(s) => JsonString(s)
    case JInt(i) => IntToString(i)
  }

  /** The `"key":value` members of a flat object, in insertion order. */
  function Members(d: Dict<string, JsonVal>): (r: seq<string>)
    ensures |r| == |d|
  {
    if |d| == 0 then [] else Members(d[..|d| - 1]) + [JsonString(d[|d| - 1].0) + ":" + JsonValue(d[|d| - 1].1)]
  }

  /** `json.dumps(d, separators=(',', ':'))` of a flat object. */
  function JsonObject(d: Dict<string, JsonVal>): string {
    "{" + Join(Members(d), ",") + "}"
  }

  /** The token's header object. */
  function JwtHeader(): Dict<string, JsonVal> {
    [("typ", JStr("JWT")), ("alg", JStr("ES256"))]
  }

  /** A member whose name and string value are plain is written with each
      between quotes. */
  lemma PlainMember(k: string, v: string)
    requires forall i :: 0 <= i < |k| ==> PlainChar(k[i])
    requires forall i :: 0 <= i < |v| ==> PlainChar(v[i])
    ensures JsonString(k) + ":" + JsonValue(JStr(v)) == "\"" + k + "\":\"" + v + "\""
  {
    EscapedPlain(k);
    EscapedPlain(v);
    assert JsonString(k) == "\"" + k + "\"";
    assert JsonValue(JStr(v)) == "\"" + v + "\"";
    assert ("\"" + k + "\"") + ":" + ("\"" + v + "\"") == "\"" + k + "\":\"" + v + "\"";
  }

  /** An object of two plain members. */
  lemma PlainObject(k1: string, v1: string, k2: string, v2: string)
    requires forall i :: 0 <= i < |k1| ==> PlainChar(k1[i])
    requires forall i :: 0 <= i < |v1| ==> PlainChar(v1[i])
    requires forall i :: 0 <= i < |k2| ==> PlainChar(k2[i])
    requires forall i :: 0 <= i < |v2| ==> PlainChar(v2[i])
    ensures JsonObject([(k1, JStr(v1)), (k2, JStr(v2))])
         == "{" + ("\"" + k1 + "\":\"" + v1 + "\"") + "," + ("\"" + k2 + "\":\"" + v2 + "\"") + "}"
  {
    PlainMember(k1, v1);
    PlainMember(k2, v2);
    var m1 := "\"" + k1 + "\":\"" + v1 + "\"";
    var m2 := "\"" + k2 + "\":\"" + v2 + "\"";
    MembersOfTwo((k1, JStr(v1)), (k2, JStr(v2)));
    JoinTwo(m1, m2, ",");
    Braced(m1, m2);
  }

  lemma JoinTwo(a: string, b: string, sep: string)
    ensures Join([a, b], sep) == a + sep + b
  {
    assert [a, b][1..] == [b];
  }

  lemma Braced(a: string, b: string)
    ensures "{" + (a + "," + b) + "}" == "{" + a + "," + b + "}"
  {
  }

  /** The members of a two-entry object, in order. */
  lemma MembersOfTwo(p1: (string, JsonVal), p2: (string, JsonVal))
    ensures Members([p1, p2]) == [JsonString(p1.0) + ":" + JsonValue(p1.1), JsonString(p2.0) + ":" + JsonValue(p2.1)]
  {
    var d := [p1, p2];
    assert d[..1] == [p1] && d[..1][..0] == [];
  }

  /** The header serialises to exactly `{"typ":"JWT","alg":"ES256"}`. */
  lemma JwtHeaderText()
    ensures JsonObject(JwtHeader()) == "{\"typ\":\"JWT\",\"alg\":\"ES256\"}"
  {
    PlainObject("typ", "JWT", "alg", "ES256");
    HeaderLiteral();
  }

  lemma HeaderLiteral()
    ensures "{" + ("\"" + "typ" + "\":\"" + "JWT" + "\"") + "," + ("\"" + "alg" + "\":\"" + "ES256" + "\"") + "}"
         == "{\"typ\":\"JWT\",\"alg\":\"ES256\"}"
  {
  }

  /** Twelve hours. */
  const VapidLifetime: int := 12 * 3600

  /** `{'aud': audience, 'exp': now + 12h, **claims}`: a claim of the caller
      named `aud` or `exp` replaces that entry in place. */
  function JwtClaims(audience: string, now: int, claims: Dict<string, JsonVal>): Dict<string, JsonVal> {
    if |claims| == 0 then [("aud", JStr(audience)), ("exp", JInt(now + VapidLifetime))]
    else
      var (k, v) := claims[|claims| - 1];
      Put(JwtClaims(audience, now, claims[..|claims| - 1]), k, v)
  }

  /** Each claim of the caller is in the token with its value; `aud` and
      `exp` are the audience and twelve hours from now unless the caller
      sets them; no other name appears. */
  lemma {:induction false} JwtClaimsContent(audience: string, now: int, claims: Dict<string, JsonVal>, k: string)
    ensures Get(JwtClaims(audience, now, claims), k) ==
      if k in Keys(claims) then Get(claims, k)
      else if k == "aud" then Some(JStr(audience))
      else if k == "exp" then Some(JInt(now + VapidLifetime))
      else None
    ensures Keys(JwtClaims(audience, now, claims)) == Keys(claims) + {"aud", "exp"}
  {
    if |claims| > 0 {
      var (k', v) := claims[|claims| - 1];
      JwtClaimsContent(audience, now, claims[..|claims| - 1], k);
      PutGet(JwtClaims(audience, now, claims[..|claims| - 1]), k', v, k);
    } else {
      var d := JwtClaims(audience, now, claims);
      assert d[..1] == [("aud", JStr(audience))];
      assert d[..1][..0] == [];
    }
  }

  /** The characters `urlparse` allows in a scheme. */
  predicate SchemeChar(ch: char) {
    'a' <= ch <= 'z' || 'A' <= ch <= 'Z' || '0' <= ch <= '9' || ch == '+' || ch == '-' || ch == '.'
  }

  /** The length of the leading run of characters that are not `/`, `?` or
      `#`. */
  function NetlocLength(s: string): (n: nat)
    ensures n <= |s|
    ensures forall i :: 0 <= i < n ==> s[i] != '/' && s[i] != '?' && s[i] != '#'
    ensures n < |s| ==> s[n] == '/' || s[n] == '?' || s[n] == '#'
  {
    if |s| == 0 || s[0] == '/' || s[0] == '?' || s[0] == '#' then 0 else 1 + NetlocLength(s[1..])
  }

  /** The network location of what follows the scheme: after a `//`, up to
      the first `/`, `?` or `#`. */
  function Netloc(rest: string): string {
    if StartsWith(rest, "//") then rest[2..][..NetlocLength(rest[2..])] else ""
  }

  /** `urlparse(endpoint)`'s scheme (lower-cased) and network location: the
      scheme is what precedes the first `:` when it starts with a letter and
      holds only scheme characters. */
  function SchemeAndNetloc(endpoint: string): (string, string) {
    match IndexOf(endpoint, ':')
    case Some(i) =>
      if i > 0 && ('a' <= endpoint[0] <= 'z' || 'A' <= endpoint[0] <= 'Z')
         && forall j :: 0 <= j < i ==> SchemeChar(endpoint[j])
      then (Lower(endpoint[..i]), Netloc(endpoint[i + 1..]))
      else ("", Netloc(endpoint))
    case None => ("", Netloc(endpoint))
  }

  /** The token's audience: `scheme://netloc` of the endpoint. */
  function Audience(endpoint: string): string {
    var (scheme, netloc) := SchemeAndNetloc(endpoint);
    scheme + "://" + netloc
  }

  /** For an endpoint `https://host/path` the audience is `https://host`. */
  lemma AudienceOfEndpoint(host: string, path: string)
    requires forall i :: 0 <= i < |host| ==> host[i] != '/' && host[i] != '?' && host[i] != '#'
    ensures Audience("https://" + host + "/" + path) == "https://" + host
  {
    var t := host + "/" + path;
    var e := "https://" + host + "/" + path;
    EndpointShape(host, path);
    HttpsScheme(e);
    assert e[6..][2..] == t;
    NetlocOfHost(host, path);
    assert "https" + "://" + host == "https://" + host;
  }

  /** An `https://` endpoint has the scheme `https`, and its network
      location is read after the `:`. */
  lemma HttpsScheme(e: string)
    requires |e| >= 8 && e[..8] == "https://"
    ensures SchemeAndNetloc(e) == ("https", Netloc(e[6..]))
  {
    var p := e[..8];
    assert e[..5] == p[..5] && e[5] == p[5];
    assert p[..5] == "https" && p[5] == ':';
    assert ':' !in e[..5];
    IndexOfAt(e, ':', 5);
    forall j | 0 <= j < 5 ensures 'a' <= e[j] <= 'z' {
      assert e[j] == p[j];
    }
    LowerHttps();
  }

  lemma LowerHttps()
    ensures Lower("https") == "https"
  {
    var l := Lower("https");
    forall i | 0 <= i < 5 ensures l[i] == "https"[i] {
    }
  }

  /** An endpoint, cut after its scheme and `:`. */
  lemma EndpointShape(host: string, path: string)
    ensures var e := "https://" + host + "/" + path;
      |e| == 9 + |host| + |path| && e[..8] == "https://" && e[6..] == "//" + (host + "/" + path)
  {
    var e := "https://" + host + "/" + path;
    assert e == "https://" + (host + "/" + path);
  }

  /** The network location of a host followed by a path is the host. */
  lemma NetlocOfHost(host: string, path: string)
    requires forall i :: 0 <= i < |host| ==> host[i] != '/' && host[i] != '?' && host[i] != '#'
    ensures var t := host + "/" + path; NetlocLength(t) == |host| && t[..NetlocLength(t)] == host
  {
    var t := host + "/" + path;
    assert t[|host|] == '/';
    var n := NetlocLength(t);
    assert forall i :: 0 <= i < |host| ==> t[i] == host[i];
    assert n == |host|;
    assert t[..n] == host;
  }

  /** One segment of the token: a JSON object, UTF-8 encoded, in unpadded
      base64url. */
  function Segment(c: Crypto, d: Dict<string, JsonVal>): string {
    B64Encode(c.utf8(JsonObject(d)))
  }

  /** The JWS form of an ECDSA signature (section 3.4 of RFC 7518): r and
      s as 32 big-endian bytes each. */
  function RawSignature(rs: (nat, nat)): (sig: Bytes)
    requires rs.0 < Pow256(32) && rs.1 < Pow256(32)
    ensures |sig| == 64
  {
    BigEndian(rs.0, 32) + BigEndian(rs.1, 32)
  }

  /** r and s read back from the two halves. */
  lemma RawSignatureHalves(rs: (nat, nat))
    requires rs.0 < Pow256(32) && rs.1 < Pow256(32)
    ensures FromBigEndian(RawSignature(rs)[..32]) == rs.0
    ensures FromBigEndian(RawSignature(rs)[32..]) == rs.1
  {
    var sig := RawSignature(rs);
    assert sig[..32] == BigEndian(rs.0, 32);
    assert sig[32..] == BigEndian(rs.1, 32);
    FromToBigEndian(rs.0, 32);
    FromToBigEndian(rs.1, 32);
  }

  /** The raw signature of a message under a private scalar. */
  function Sign(c: Crypto, key: nat, message: Bytes): (sig: Bytes)
    requires CurveSizes(c)
    ensures |sig| == 64
  {
    RawSignature(c.ecdsaSign(key, message))
  }

  /** A compact JWS (section 7.1 of RFC 7515) of an encoded header and
      payload, signed with ECDSA under a private scalar. */
  function SignedToken(c: Crypto, header: Bytes, payload: Bytes, key: nat): string
    requires CurveSizes(c)
  {
    var signingInput := B64Encode(header) + "." + B64Encode(payload);
    signingInput + "." + B64Encode(Sign(c, key, c.utf8(signingInput)))
  }

  /** The token has three dot-separated segments that decode to the
      header, the payload, and the raw signature over the first two. */
  lemma SignedTokenShape(c: Crypto, header: Bytes, payload: Bytes, key: nat)
    requires CurveSizes(c)
    ensures var parts := Split(SignedToken(c, header, payload, key), '.');
      && |parts| == 3
      && B64Decode(parts[0]) == Some(header)
      && B64Decode(parts[1]) == Some(payload)
      && B64Decode(parts[2]) == Some(Sign(c, key, c.utf8(parts[0] + "." + parts[1])))
  {
    var h := B64Encode(header);
    var p := B64Encode(payload);
    var signature := Sign(c, key, c.utf8(h + "." + p));
    assert SignedToken(c, header, payload, key) == h + "." + p + "." + B64Encode(signature);
    UnpaddedHasNoSeparator(header);
    UnpaddedHasNoSeparator(payload);
    UnpaddedHasNoSeparator(signature);
    SplitThree(h, p, B64Encode(signature), '.');
    B64RoundTrip(header);
    B64RoundTrip(payload);
    B64RoundTrip(signature);
  }

  /** The VAPID token for an audience, a private scalar, the caller's
      claims and the time. */
  function VapidToken(c: Crypto, audience: string, key: nat, claims: Dict<string, JsonVal>, now: int): string
    requires CurveSizes(c)
  {
    SignedToken(c, c.utf8(JsonObject(JwtHeader())), c.utf8(JsonObject(JwtClaims(audience, now, claims))), key)
  }

  /** Decoding a key and reading it as a big-endian scalar. */
  function PrivateScalar(vapidPrivateKey: string): Option<nat> {
    match B64Decode(vapidPrivateKey)
    case None => None
    case Some(b) => Some(FromBigEndian(b))
  }

  /** `_create_vapid_jwt` with the clock given: the token and the
      base64url public key; the key must decode and be a valid scalar. */
  function CreateVapidJwt(c: Crypto, endpoint: string, vapidPrivateKey: string, claims: Dict<string, JsonVal>, now: int)
    : (r: Result<(string, string), PushError>)
    requires CurveSizes(c)
    ensures r.Err? <==> PrivateScalar(vapidPrivateKey).None? || !c.ecPrivateValid(PrivateScalar(vapidPrivateKey).value)
    ensures r.Err? ==> r.error == if PrivateScalar(vapidPrivateKey).None? then BadBase64 else InvalidKey
    ensures r.Ok? ==> r.value.0 == VapidToken(c, Audience(endpoint), PrivateScalar(vapidPrivateKey).value, claims, now)
    ensures r.Ok? ==> r.value.1 == B64Encode(c.ecPublic(PrivateScalar(vapidPrivateKey).value))
  {
    match PrivateScalar(vapidPrivateKey)
    case None => Err(BadBase64)
    case Some(key) =>
      if !c.ecPrivateValid(key) then Err(InvalidKey)
      else Ok((VapidToken(c, Audience(endpoint), key, claims, now), B64Encode(c.ecPublic(key))))
  }

  /** `generate_vapid_keys` with the fresh scalar given: the scalar as 32
      big-endian bytes and the public point, both in unpadded base64url. */
  function GenerateVapidKeys(c: Crypto, key: nat): (r: (string, string))
    requires key < Pow256(32)
    ensures PrivateScalar(r.0) == Some(key)
  {
    StoredScalar(key);
    (B64Encode(BigEndian(key, 32)), B64Encode(c.ecPublic(key)))
  }

  /** `get_vapid_public_key`: the public point of a stored private key. */
  function GetVapidPublicKey(c: Crypto, vapidPrivateKey: string): (r: Result<string, PushError>)
    ensures r.Err? <==> PrivateScalar(vapidPrivateKey).None? || !c.ecPrivateValid(PrivateScalar(vapidPrivateKey).value)
    ensures r.Err? ==> r.error == if PrivateScalar(vapidPrivateKey).None? then BadBase64 else InvalidKey
    ensures r.Ok? ==> r.value == B64Encode(c.ecPublic(PrivateScalar(vapidPrivateKey).value))
  {
    match PrivateScalar(vapidPrivateKey)
    case None => Err(BadBase64)
    case Some(key) =>
      if !c.ecPrivateValid(key) then Err(InvalidKey)
      else Ok(B64Encode(c.ecPublic(key)))
  }

  /** A generated pair works: the stored private key decodes to the same
      scalar, `get_vapid_public_key` gives back the public key, and tokens
      signed with it carry that public key. */
  lemma GeneratedKeysAgree(c: Crypto, key: nat, endpoint: string, claims: Dict<string, JsonVal>, now: int)
    requires key < Pow256(32) && c.ecPrivateValid(key) && CurveSizes(c)
    ensures PrivateScalar(GenerateVapidKeys(c, key).0) == Some(key)
    ensures GetVapidPublicKey(c, GenerateVapidKeys(c, key).0) == Ok(GenerateVapidKeys(c, key).1)
    ensures CreateVapidJwt(c, endpoint, GenerateVapidKeys(c, key).0, claims, now)
         == Ok((VapidToken(c, Audience(endpoint), key, claims, now), GenerateVapidKeys(c, key).1))
  {
    StoredScalar(key);
  }

  /** The stored private key decodes to the scalar it was made from. */
  lemma StoredScalar(key: nat)
    requires key < Pow256(32)
    ensures PrivateScalar(B64Encode(BigEndian(key, 32))) == Some(key)
  {
    B64RoundTrip(BigEndian(key, 32));
    FromToBigEndian(key, 32);
  }

  /** A subscription as the browser hands it over; a missing field is None. */
  datatype Subscription = Subscription(endpoint: Option<string>, p256dh: Option<string>, auth: Option<string>)

  /** The notification: an object (already `json.dumps`-ed) or a string. */
  datatype PushData = JsonData(dumped: string) | TextData(text: string)

  /** The POST `send_push` makes. */
  datatype PushRequest = PushRequest(endpoint: string, body: Bytes, headers: Dict<string, string>)

  /** What the push service's answer is: success, an HTTP error status, or
      a transport error. */
  datatype PushOutcome = Delivered | HttpStatus(code: int, reason: string) | Unreachable(reason: string)

  /** The request headers: the VAPID authorization of section 3 of RFC
      8292, the content type and coding, and the time to live. */
  function PushHeaders(jwt: string, vapidPublic: string, ttl: int): Dict<string, string> {
    [("Authorization", "vapid t=" + jwt + ", k=" + vapidPublic),
     ("Content-Type", "application/octet-stream"),
     ("Content-Encoding", "aes128gcm"),
     ("TTL", IntToString(ttl))]
  }

  /** Each header holds its value. */
  lemma PushHeadersContent(jwt: string, vapidPublic: string, ttl: int)
    ensures Keys(PushHeaders(jwt, vapidPublic, ttl)) == {"Authorization", "Content-Type", "Content-Encoding", "TTL"}
    ensures Get(PushHeaders(jwt, vapidPublic, ttl), "Authorization") == Some("vapid t=" + jwt + ", k=" + vapidPublic)
    ensures Get(PushHeaders(jwt, vapidPublic, ttl), "Content-Type") == Some("application/octet-stream")
    ensures Get(PushHeaders(jwt, vapidPublic, ttl), "Content-Encoding") == Some("aes128gcm")
    ensures Get(PushHeaders(jwt, vapidPublic, ttl), "TTL") == Some(IntToString(ttl))
  {
    var h := PushHeaders(jwt, vapidPublic, ttl);
    var h1, h2, h3 := h[..1], h[..2], h[..3];
    assert h1[..0] == [] && h2[..1] == h1 && h3[..2] == h2 && h[..3] == h3;
    assert Keys(h1) == {"Authorization"};
    assert Keys(h2) == {"Authorization", "Content-Type"};
    assert Keys(h3) == {"Authorization", "Content-Type", "Content-Encoding"};
    assert h[0].0 != h[1].0 && h[0].0 != h[2].0 && h[0].0 != h[3].0;
    assert h[1].0 != h[2].0 && h[1].0 != h[3].0 && h[2].0 != h[3].0;
    GetAt(h, 0);
    GetAt(h, 1);
    GetAt(h, 2);
    GetAt(h, 3);
  }

  function PayloadBytes(c: Crypto, data: PushData): Bytes {
    match data
    case JsonData(d) => c.utf8(d)
    case TextData(t) => c.utf8(t)
  }

  /** The request `send_push` builds: a missing field raises `KeyError`
      (endpoint, then p256dh, then auth) before anything is encrypted; the
      body is encrypted before the token is made. */
  function PrepareRequest(c: Crypto, subscription: Subscription, data: PushData, vapidPrivateKey: string,
                          claims: Dict<string, JsonVal>, ttl: int, now: int, serverPrivate: nat, salt: Bytes)
    : (r: Result<PushRequest, PushError>)
    requires CurveSizes(c)
    ensures subscription.endpoint.None? ==> r == Err(MissingKey("endpoint"))
    ensures subscription.endpoint.Some? && subscription.p256dh.None? ==> r == Err(MissingKey("p256dh"))
    ensures subscription.endpoint.Some? && subscription.p256dh.Some? && subscription.auth.None? ==>
      r == Err(MissingKey("auth"))
    ensures r.Ok? <==> (subscription.endpoint.Some? && subscription.p256dh.Some? && subscription.auth.Some?
      && EncryptPayload(c, PayloadBytes(c, data), subscription.p256dh.value, subscription.auth.value, serverPrivate, salt).Ok?
      && CreateVapidJwt(c, subscription.endpoint.value, vapidPrivateKey, claims, now).Ok?)
    ensures r.Ok? ==> (r.value.endpoint == subscription.endpoint.value
      && r.value.body == EncryptPayload(c, PayloadBytes(c, data), subscription.p256dh.value, subscription.auth.value, serverPrivate, salt).value.0)
  {
    if subscription.endpoint.None? then Err(MissingKey("endpoint"))
    else if subscription.p256dh.None? then Err(MissingKey("p256dh"))
    else if subscription.auth.None? then Err(MissingKey("auth"))
    else
      var endpoint := subscription.endpoint.value;
      match EncryptPayload(c, PayloadBytes(c, data), subscription.p256dh.value, subscription.auth.value, serverPrivate, salt)
      case Err(e) => Err(e)
      case Ok((body, _, _)) =>
        match CreateVapidJwt(c, endpoint, vapidPrivateKey, claims, now)
        case Err(e) => Err(e)
        case Ok((jwt, vapidPublic)) => Ok(PushRequest(endpoint, body, PushHeaders(jwt, vapidPublic, ttl)))
  }

  /** The request carries the token, the public key and the time to live
      in its headers, and a receiver decrypts its body to the payload. */
  lemma PreparedRequestContent(c: Crypto, subscription: Subscription, data: PushData, vapidPrivateKey: string,
                               claims: Dict<string, JsonVal>, ttl: int, now: int, serverPrivate: nat, salt: Bytes)
    requires CurveSizes(c) && GcmSound(c) && |salt| == 16
    requires PrepareRequest(c, subscription, data, vapidPrivateKey, claims, ttl, now, serverPrivate, salt).Ok?
    ensures var req := PrepareRequest(c, subscription, data, vapidPrivateKey, claims, ttl, now, serverPrivate, salt).value;
      var jwt := CreateVapidJwt(c, subscription.endpoint.value, vapidPrivateKey, claims, now).value;
      var uaPublic := B64Decode(subscription.p256dh.value).value;
      var serverPublic := c.ecPublic(serverPrivate);
      var ikm := Ikm(c, B64Decode(subscription.auth.value).value, c.ecdh(serverPrivate, uaPublic), uaPublic, serverPublic);
      && Get(req.headers, "Authorization") == Some("vapid t=" + jwt.0 + ", k=" + jwt.1)
      && Get(req.headers, "TTL") == Some(IntToString(ttl))
      && Get(req.headers, "Content-Encoding") == Some("aes128gcm")
      && Decrypt(c, req.body, ikm) == Some(PayloadBytes(c, data))
  {
    var jwt := CreateVapidJwt(c, subscription.endpoint.value, vapidPrivateKey, claims, now).value;
    PushHeadersContent(jwt.0, jwt.1, ttl);
    var uaPublic := B64Decode(subscription.p256dh.value).value;
    ReceiverDecrypts(c, PayloadBytes(c, data), uaPublic, B64Decode(subscription.auth.value).value, serverPrivate, salt);
  }

  /** The answer `send_push` gives for the push service's response. */
  function Answer(outcome: PushOutcome): (r: Result<bool, PushError>)
    ensures r == Ok(true) <==> outcome.Delivered?
    ensures r == Ok(false) <==> outcome.HttpStatus? && (outcome.code == 404 || outcome.code == 410)
    ensures r.Err? ==> r.error.Failed? && StartsWith(r.error.message, "Push failed: ")
  {
    match outcome
    case Delivered => Ok(true)
    case HttpStatus(code, reason) =>
      if code == 404 || code == 410 then Ok(false)
      else Err(Failed("Push failed: " + IntToString(code) + " " + reason))
    case Unreachable(reason) => Err(Failed("Push failed: " + reason))
  }

  /** `send_push`, with the ephemeral scalar, the salt, the clock and the
      push service given: nothing is sent when the request cannot be
      built; otherwise the request is sent once and the service's response
      decides the answer. */
  method SendPush(c: Crypto, subscription: Subscription, data: PushData, vapidPrivateKey: string,
                  claims: Dict<string, JsonVal>, ttl: int, now: int, serverPrivate: nat, salt: Bytes,
                  deliver: PushRequest -> PushOutcome)
    returns (r: Result<bool, PushError>, sent: Option<PushRequest>)
    requires CurveSizes(c)
    ensures var prepared := PrepareRequest(c, subscription, data, vapidPrivateKey, claims, ttl, now, serverPrivate, salt);
      match prepared
      case Err(e) => r == Err(e) && sent.None?
      case Ok(request) => sent == Some(request) && r == Answer(deliver(request))
  {
    var prepared := PrepareRequest(c, subscription, data, vapidPrivateKey, claims, ttl, now, serverPrivate, salt);
    if prepared.Err? {
      return Err(prepared.error), None;
    }
    var request := prepared.value;
    sent := Some(request);
    var outcome := deliver(request);
    match outcome
    case Delivered =>
      r := Ok(true);
    case HttpStatus(code, reason) =>
      if code == 404 || code == 410 {
        r := Ok(false);
      } else {
        r := Err(Failed("Push failed: " + IntToString(code) + " " + reason));
      }
    case Unreachable(reason) =>
      r := Err(Failed("Push failed: " + reason));
  }
}
