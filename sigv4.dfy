/** AWS Signature Version 4 request signing as the Lambda backend does it
    without an SDK: the HMAC-SHA256 key chain, the canonical request over
    the sorted header names, the string to sign, and the headers the signed
    request carries. The clock and the process environment are parameters;
    HMAC-SHA256 and SHA-256 come from the `Crypto` bundle. */
module Sigv4 {
  import opened Common
  import opened Text
  import opened Base64
  import opened Crypto
  import opened Dicts

  const Algorithm: string := "AWS4-HMAC-SHA256"

  /** `_sign`: HMAC-SHA256 of the UTF-8 message under `key`. */
  function HmacOf(c: Crypto, key: Bytes, msg: string): Bytes {
    c.hmacSha256(key, c.utf8(msg))
  }

  /** `_get_signature_key`: the chain "AWS4" + secret, then the date, the
      region, the service and the literal `aws4_request`, each step keyed
      by the previous digest. */
  function SigningKey(c: Crypto, secret: string, dateStamp: string, region: string, service: string): (k: Bytes)
    ensures DigestLengths(c) ==> |k| == 32
  {
    var kDate := HmacOf(c, c.utf8("AWS4" + secret), dateStamp);
    var kRegion := HmacOf(c, kDate, region);
    var kService := HmacOf(c, kRegion, service);
    HmacOf(c, kService, "aws4_request")
  }

  /** `_sha256_hash`: the lower-case hex SHA-256 of the UTF-8 payload. */
  function PayloadHash(c: Crypto, payload: string): (h: string)
    ensures DigestLengths(c) ==> |h| == 64
  {
    Hex(c.sha256(c.utf8(payload)))
  }

  /** `x or y` on optional strings: the first when it is truthy. */
  function Or(x: Option<string>, y: Option<string>): (r: Option<string>)
    ensures StrTruthy(r) <==> StrTruthy(x) || StrTruthy(y)
  {
    if StrTruthy(x) then x else y
  }

  /** The URL with every `https://` and then every `http://` removed. */
  function Stripped(url: string): string {
    Replace(Replace(url, "https://", ""), "http://", "")
  }

  /** The host and canonical URI: the stripped URL is cut at its first `/`;
      the host is what precedes it and the URI is `/` followed by the rest
      (just `/` when there is no `/`). */
  function ParseUrl(url: string): (r: (string, string))
    ensures '/' !in Stripped(url) ==> r.0 == Stripped(url) && r.1 == "/"
    ensures '/' in Stripped(url) ==> '/' !in r.0 && r.0 + r.1 == Stripped(url)
    ensures |r.1| > 0 && r.1[0] == '/'
  {
    var parts := SplitOnce(Stripped(url), '/');
    (parts[0], "/" + (if |parts| > 1 then parts[1] else ""))
  }

  /** A UTC instant as `datetime` holds it. */
  datatype DateTime = DateTime(year: nat, month: nat, day: nat, hour: nat, minute: nat, second: nat)
  {
    ghost predicate Valid() {
      1 <= year <= 9999 && 1 <= month <= 12 && 1 <= day <= 31 && hour < 24 && minute < 60 && second < 60
    }
  }

  /** Two decimal digits, zero-padded, of a value below 100. */
  function Two(n: nat): (r: string)
    requires n < 100
    ensures |r| == 2 && IsDigits(r)
  {
    [DigitChar(n / 10), DigitChar(n % 10)]
  }

  /** `strftime('%Y%m%d')`; `%Y` prints the year without padding. */
  function DateStamp(t: DateTime): string
    requires t.Valid()
  {
    NatDigits(t.year) + Two(t.month) + Two(t.day)
  }

  /** `strftime('%Y%m%dT%H%M%SZ')`. */
  function AmzDate(t: DateTime): string
    requires t.Valid()
  {
    DateStamp(t) + "T" + Two(t.hour) + Two(t.minute) + Two(t.second) + "Z"
  }

  /** The request date is the date stamp followed by `T`, six digits of
      time of day and `Z`; for four-digit years the stamp is eight digits. */
  lemma AmzDateShape(t: DateTime)
    requires t.Valid()
    ensures StartsWith(AmzDate(t), DateStamp(t) + "T")
    ensures |AmzDate(t)| == |DateStamp(t)| + 8 && AmzDate(t)[|AmzDate(t)| - 1] == 'Z'
    ensures IsDigits(DateStamp(t)) && '/' !in DateStamp(t)
    ensures t.year >= 1000 ==> |DateStamp(t)| == 8
  {
    var y := NatDigits(t.year);
    var d := DateStamp(t);
    assert d == y + Two(t.month) + Two(t.day);
    forall i | 0 <= i < |d|
      ensures IsDigit(d[i])
    {
      if i < |y| {
        assert d[i] == y[i];
      } else if i < |y| + 2 {
        assert d[i] == Two(t.month)[i - |y|];
      } else {
        assert d[i] == Two(t.day)[i - |y| - 2];
      }
    }
    assert AmzDate(t)[..|d| + 1] == d + "T";
    if t.year >= 1000 {
      NatDigitsValue(t.year);
      NatDigitsLength(t.year);
    }
  }

  /** A four-digit number has four decimal digits. */
  lemma NatDigitsLength(n: nat)
    requires 1000 <= n <= 9999
    ensures |NatDigits(n)| == 4
  {
    assert NatDigits(n) == NatDigits(n / 10) + [DigitChar(n % 10)];
    assert NatDigits(n / 10) == NatDigits(n / 100) + [DigitChar(n / 10 % 10)];
    assert NatDigits(n / 100) == NatDigits(n / 1000) + [DigitChar(n / 100 % 10)];
  }

  /** The caller's headers copied, with `host`, `x-amz-date` and, when a
      session token is set, `x-amz-security-token` assigned. */
  function AmzHeaders(headers: Dict<string, string>, host: string, amzDate: string, token: Option<string>)
    : Dict<string, string>
  {
    var h := Put(Put(headers, "host", host), "x-amz-date", amzDate);
    if StrTruthy(token) then Put(h, "x-amz-security-token", token.value) else h
  }

  function Ident(s: string): string {
    s
  }

  /** `sorted(headers.keys())`. */
  function SignedNames(h: Dict<string, string>): seq<string> {
    SortBy(KeyList(h), Ident, false)
  }

  /** The names to sign are the header names, each once, in code-point
      order; joined by `;` they split back into the list when no name holds
      a `;`. */
  lemma SignedNamesFacts(h: Dict<string, string>)
    requires DistinctKeys(h)
    ensures SortedBy(SignedNames(h), Ident, false)
    ensures multiset(SignedNames(h)) == multiset(KeyList(h))
    ensures forall k :: k in SignedNames(h) <==> k in Keys(h)
    ensures (|h| > 0 && forall k :: k in Keys(h) ==> ';' !in k) ==> Split(Join(SignedNames(h), ";"), ';') == SignedNames(h)
  {
    SortBySorted(KeyList(h), Ident, false);
    SignedNamesMembers(h);
    if |h| > 0 && forall k :: k in Keys(h) ==> ';' !in k {
      SignedNamesSplit(h);
    }
  }

  /** The names to sign are exactly the header names. */
  lemma SignedNamesMembers(h: Dict<string, string>)
    ensures forall k :: k in SignedNames(h) <==> k in Keys(h)
  {
    SortBySorted(KeyList(h), Ident, false);
    KeyListKeys(h);
    var names := SignedNames(h);
    assert forall k :: k in names <==> k in multiset(names);
    assert forall k :: k in KeyList(h) <==> k in multiset(KeyList(h));
  }

  /** Names without `;` split back out of their `;`-joined list. */
  lemma SignedNamesSplit(h: Dict<string, string>)
    requires |h| > 0 && forall k :: k in Keys(h) ==> ';' !in k
    ensures Split(Join(SignedNames(h), ";"), ';') == SignedNames(h)
  {
    SignedNamesMembers(h);
    var names := SignedNames(h);
    assert forall i :: 0 <= i < |names| ==> names[i] in names;
    SplitOfJoin(names, ';');
  }

  /** `"{key}:{headers[key]}\n"` for each name, in order. */
  function HeaderLines(names: seq<string>, h: Dict<string, string>): string
    requires forall i :: 0 <= i < |names| ==> names[i] in Keys(h)
  {
    if |names| == 0 then ""
    else
      var k := names[|names| - 1];
      HeaderLines(names[..|names| - 1], h) + k + ":" + Get(h, k).value + "\n"
  }

  /** The canonical-headers loop of `sign_request`. */
  method CanonicalHeaders(names: seq<string>, h: Dict<string, string>) returns (s: string)
    requires forall i :: 0 <= i < |names| ==> names[i] in Keys(h)
    ensures s == HeaderLines(names, h)
  {
    s := "";
    var i := 0;
    while i < |names|
      invariant 0 <= i <= |names|
      invariant s == HeaderLines(names[..i], h)
    {
      assert names[..i + 1][..i] == names[..i];
      var v := Get(h, names[i]).value;
      s := s + names[i] + ":" + v + "\n";
      i := i + 1;
    }
    assert names[..i] == names;
  }

  /** The canonical request: HTTP method, URI, an empty query string, the
      canonical headers, the signed names and the payload hash, one per
      line. */
  function CanonicalRequest(verb: string, uri: string, canonicalHeaders: string, signedHeaders: string,
                            payloadHash: string): string
  {
    Join([verb, uri, "", canonicalHeaders, signedHeaders, payloadHash], "\n")
  }

  /** `date/region/service/aws4_request`. */
  function Scope(dateStamp: string, region: string, service: string): string {
    dateStamp + "/" + region + "/" + service + "/aws4_request"
  }

  /** The credential scope splits back into its four parts when none of
      them holds a `/`. */
  lemma ScopeParts(dateStamp: string, region: string, service: string)
    requires '/' !in dateStamp && '/' !in region && '/' !in service
    ensures Split(Scope(dateStamp, region, service), '/') == [dateStamp, region, service, "aws4_request"]
  {
    var parts := [dateStamp, region, service, "aws4_request"];
    assert Join(parts[3..], "/") == "aws4_request";
    assert Join(parts[2..], "/") == service + "/" + "aws4_request";
    assert Join(parts[1..], "/") == region + "/" + (service + "/" + "aws4_request");
    assert Join(parts, "/") == Scope(dateStamp, region, service);
    SplitOfJoin(parts, '/');
  }

  function StringToSign(amzDate: string, scope: string, requestHash: string): string {
    Join([Algorithm, amzDate, scope, requestHash], "\n")
  }

  /** The Authorization header value. */
  function Authorization(accessKey: string, scope: string, signedHeaders: string, signature: string): string {
    Algorithm + " " + "Credential=" + accessKey + "/" + scope + ", " + "SignedHeaders=" + signedHeaders + ", "
      + "Signature=" + signature
  }

  /** The headers of the signed request: the headers that were signed plus
      `Authorization` and `x-amz-content-sha256`. */
  function Signed(h: Dict<string, string>, authorization: string, payloadHash: string): Dict<string, string> {
    Put(Put(h, "Authorization", authorization), "x-amz-content-sha256", payloadHash)
  }

  /** Every name to sign is a header name. */
  lemma SignedNamesAreKeys(h: Dict<string, string>)
    ensures forall i :: 0 <= i < |SignedNames(h)| ==> SignedNames(h)[i] in Keys(h)
  {
    var names := SignedNames(h);
    KeyListKeys(h);
    assert forall i :: 0 <= i < |names| ==> names[i] in multiset(KeyList(h));
  }

  /** The Authorization header value `sign_request` computes once the
      credentials are known: the signature over the canonical request of
      the headers `h`. */
  function AuthorizationValue(c: Crypto, verb: string, uri: string, h: Dict<string, string>, payload: string,
                              service: string, region: string, accessKey: string, secretKey: string,
                              now: DateTime): string
    requires now.Valid()
  {
    SignedNamesAreKeys(h);
    var names := SignedNames(h);
    var signedHeaders := Join(names, ";");
    var scope := Scope(DateStamp(now), region, service);
    var request := CanonicalRequest(verb, uri, HeaderLines(names, h), signedHeaders, PayloadHash(c, payload));
    var toSign := StringToSign(AmzDate(now), scope, PayloadHash(c, request));
    var key := SigningKey(c, secretKey, DateStamp(now), region, service);
    Authorization(accessKey, scope, signedHeaders, Hex(HmacOf(c, key, toSign)))
  }

  /** The headers `sign_request` returns once the credentials are known. */
  function SignedHeaders(c: Crypto, verb: string, host: string, uri: string, h: Dict<string, string>,
                         payload: string, service: string, region: string, accessKey: string, secretKey: string,
                         now: DateTime): Dict<string, string>
    requires now.Valid()
  {
    Signed(h, AuthorizationValue(c, verb, uri, h, payload, service, region, accessKey, secretKey, now),
      PayloadHash(c, payload))
  }

  /** `sign_request`. Missing credentials (neither the argument nor the
      environment variable truthy) raise before anything is signed. */
  method SignRequest(c: Crypto, verb: string, url: string, headers: Dict<string, string>, payload: string,
                     service: string, region: string,
                     accessKey: Option<string>, secretKey: Option<string>, sessionToken: Option<string>,
                     envAccessKey: Option<string>, envSecretKey: Option<string>, envSessionToken: Option<string>,
                     now: DateTime)
    returns (r: Result<Dict<string, string>, string>)
    requires now.Valid()
    ensures r.Err? <==> !StrTruthy(Or(accessKey, envAccessKey)) || !StrTruthy(Or(secretKey, envSecretKey))
    ensures r.Err? ==> r.error == "AWS credentials not found"
    ensures r.Ok? ==> r.value == SignedHeaders(c, verb, ParseUrl(url).0, ParseUrl(url).1,
      AmzHeaders(headers, ParseUrl(url).0, AmzDate(now), Or(sessionToken, envSessionToken)),
      payload, service, region, Or(accessKey, envAccessKey).value, Or(secretKey, envSecretKey).value, now)
  {
    var ak := Or(accessKey, envAccessKey);
    var sk := Or(secretKey, envSecretKey);
    var token := Or(sessionToken, envSessionToken);
    if !StrTruthy(ak) || !StrTruthy(sk) {
      return Err("AWS credentials not found");
    }
    var (host, uri) := ParseUrl(url);
    var amzDate := AmzDate(now);
    var dateStamp := DateStamp(now);
    var h := AmzHeaders(headers, host, amzDate, token);
    var names := SignedNames(h);
    SignedNamesAreKeys(h);
    var signedHeaders := Join(names, ";");
    var canonicalHeaders := CanonicalHeaders(names, h);
    var payloadHash := PayloadHash(c, payload);
    var request := CanonicalRequest(verb, uri, canonicalHeaders, signedHeaders, payloadHash);
    var scope := Scope(dateStamp, region, service);
    var toSign := StringToSign(amzDate, scope, PayloadHash(c, request));
    var key := SigningKey(c, sk.value, dateStamp, region, service);
    var signature := Hex(HmacOf(c, key, toSign));
    r := Ok(Signed(h, Authorization(ak.value, scope, signedHeaders, signature), payloadHash));
  }

  /** The headers that are signed: the caller's, unchanged unless among the
      added ones, plus `host`, `x-amz-date` and, when a token is set,
      `x-amz-security-token`; the keys stay distinct. */
  lemma AmzHeadersContent(headers: Dict<string, string>, host: string, amzDate: string, token: Option<string>, k: string)
    requires DistinctKeys(headers)
    ensures var h := AmzHeaders(headers, host, amzDate, token);
      && DistinctKeys(h)
      && Keys(h) == Keys(headers) + {"host", "x-amz-date"} + (if StrTruthy(token) then {"x-amz-security-token"} else {})
      && Get(h, k) == (
        if k == "x-amz-security-token" && StrTruthy(token) then token
        else if k == "x-amz-date" then Some(amzDate)
        else if k == "host" then Some(host)
        else Get(headers, k))
  {
    var h1 := Put(headers, "host", host);
    var h2 := Put(h1, "x-amz-date", amzDate);
    PutGet(headers, "host", host, k);
    PutGet(h1, "x-amz-date", amzDate, k);
    PutDistinct(headers, "host", host);
    PutDistinct(h1, "x-amz-date", amzDate);
    assert Keys(h2) == Keys(headers) + {"host", "x-amz-date"};
    assert Get(h2, k) == if k == "x-amz-date" then Some(amzDate) else if k == "host" then Some(host) else Get(headers, k);
    if StrTruthy(token) {
      var h3 := Put(h2, "x-amz-security-token", token.value);
      assert AmzHeaders(headers, host, amzDate, token) == h3;
      PutGet(h2, "x-amz-security-token", token.value, k);
      PutDistinct(h2, "x-amz-security-token", token.value);
    } else {
      assert AmzHeaders(headers, host, amzDate, token) == h2;
    }
  }

  /** The returned headers are the signed ones plus `Authorization` and
      `x-amz-content-sha256`, the payload hash; the keys stay distinct. */
  lemma SignedContent(h: Dict<string, string>, authorization: string, payloadHash: string, k: string)
    requires DistinctKeys(h)
    ensures var r := Signed(h, authorization, payloadHash);
      && DistinctKeys(r)
      && Keys(r) == Keys(h) + {"Authorization", "x-amz-content-sha256"}
      && Get(r, k) == (
        if k == "x-amz-content-sha256" then Some(payloadHash)
        else if k == "Authorization" then Some(authorization)
        else Get(h, k))
  {
    var a := Put(h, "Authorization", authorization);
    PutGet(h, "Authorization", authorization, k);
    PutGet(a, "x-amz-content-sha256", payloadHash, k);
    PutDistinct(h, "Authorization", authorization);
    PutDistinct(a, "x-amz-content-sha256", payloadHash);
  }

  /** A sequence without repeated elements holds each of its elements once. */
  lemma {:induction false} DistinctMultiset(x: seq<string>)
    requires forall i, j :: 0 <= i < j < |x| ==> x[i] != x[j]
    ensures forall e :: multiset(x)[e] == if e in x then 1 else 0
  {
    if |x| > 0 {
      var init := x[..|x| - 1];
      DistinctMultiset(init);
      assert x == init + [x[|x| - 1]];
      assert x[|x| - 1] !in init;
    }
  }

  /** The first element of an ordered sequence comes before every element. */
  lemma HeadFirst(a: seq<string>, x: string)
    requires SortedBy(a, Ident, false) && x in multiset(a)
    ensures StrLe(a[0], x)
  {
    var i :| 0 <= i < |a| && a[i] == x;
    StrLeTotal(a[0], a[0]);
    if i > 0 {
      assert StrLe(Ident(a[0]), Ident(a[i]));
    }
  }

  /** The rest of an ordered sequence is ordered. */
  lemma SortedTail(a: seq<string>)
    requires |a| > 0 && SortedBy(a, Ident, false)
    ensures SortedBy(a[1..], Ident, false)
  {
    forall p, q | 0 <= p < q < |a[1..]|
      ensures StrLe(Ident(a[1..][p]), Ident(a[1..][q]))
    {
      assert a[1..][p] == a[p + 1] && a[1..][q] == a[q + 1];
    }
  }

  /** Taking the first element off a sequence takes it off its multiset. */
  lemma TailMultiset(a: seq<string>)
    requires |a| > 0
    ensures multiset(a[1..]) == multiset(a) - multiset{a[0]}
  {
    assert a == [a[0]] + a[1..];
  }

  /** Two ordered sequences with the same elements are equal. */
  lemma {:induction false} SortedUnique(a: seq<string>, b: seq<string>)
    requires SortedBy(a, Ident, false) && SortedBy(b, Ident, false)
    requires multiset(a) == multiset(b)
    ensures a == b
  {
    if |a| > 0 {
      assert |b| == |multiset(b)| == |multiset(a)| == |a|;
      HeadFirst(a, b[0]);
      HeadFirst(b, a[0]);
      StrLeAntisym(a[0], b[0]);
      TailMultiset(a);
      TailMultiset(b);
      SortedTail(a);
      SortedTail(b);
      SortedUnique(a[1..], b[1..]);
      assert a == [a[0]] + a[1..] && b == [b[0]] + b[1..];
    }
  }

  /** The header lines read only the values of the names listed. */
  lemma {:induction false} HeaderLinesSameValues(names: seq<string>, h1: Dict<string, string>, h2: Dict<string, string>)
    requires forall i :: 0 <= i < |names| ==> names[i] in Keys(h1) && names[i] in Keys(h2)
    requires forall i :: 0 <= i < |names| ==> Get(h1, names[i]) == Get(h2, names[i])
    ensures HeaderLines(names, h1) == HeaderLines(names, h2)
  {
    if |names| > 0 {
      HeaderLinesSameValues(names[..|names| - 1], h1, h2);
    }
  }

  /** The signature does not depend on the order in which the headers were
      inserted: two dictionaries with the same names and values give the
      same Authorization header. */
  lemma SignatureIgnoresHeaderOrder(c: Crypto, verb: string, uri: string, h1: Dict<string, string>,
                                    h2: Dict<string, string>, payload: string, service: string, region: string,
                                    accessKey: string, secretKey: string, now: DateTime)
    requires now.Valid() && DistinctKeys(h1) && DistinctKeys(h2)
    requires Keys(h1) == Keys(h2) && forall k :: Get(h1, k) == Get(h2, k)
    ensures AuthorizationValue(c, verb, uri, h1, payload, service, region, accessKey, secretKey, now)
         == AuthorizationValue(c, verb, uri, h2, payload, service, region, accessKey, secretKey, now)
  {
    KeyListKeys(h1);
    KeyListKeys(h2);
    var l1, l2 := KeyList(h1), KeyList(h2);
    DistinctMultiset(l1);
    DistinctMultiset(l2);
    assert multiset(l1) == multiset(l2);
    SignedNamesFacts(h1);
    SignedNamesFacts(h2);
    SortedUnique(SignedNames(h1), SignedNames(h2));
    SignedNamesAreKeys(h1);
    SignedNamesAreKeys(h2);
    HeaderLinesSameValues(SignedNames(h1), h1, h2);
  }
}
