/** Request gates shared by both web applications: the client address used
    for rate limiting, the feed-token check of the list and RSS endpoints,
    and the token check of the Plex webhook. Headers and query parameters
    arrive as optional strings. */
module Gates {
  import opened Common
  import opened Text

  /** The client address: the first comma-separated entry of a non-empty
      `X-Forwarded-For`, stripped; else the connection's host; else
      "unknown". */
  function GetClientIp(forwardedFor: Option<string>, clientHost: Option<string>): (ip: string)
    ensures StrTruthy(forwardedFor) ==> ',' !in ip
    ensures !StrTruthy(forwardedFor) ==> ip == clientHost.GetOr("unknown")
  {
    if StrTruthy(forwardedFor) then
      var first := Split(forwardedFor.value, ',')[0];
      SplitParts(forwardedFor.value, ',');
      StripKeeps(first, ',');
      Strip(first)
    else clientHost.GetOr("unknown")
  }

  /** Stripping only removes characters. */
  lemma StripKeeps(s: string, c: char)
    requires c !in s
    ensures c !in Strip(s)
  {
    var l := LStripBy(s, IsSpace);
    assert forall i :: 0 <= i < |l| ==> l[i] in s;
    var r := RStripBy(l, IsSpace);
    assert forall i :: 0 <= i < |r| ==> r[i] in l;
  }

  /** With a proxy chain `client, proxy1, ...` the address is the client's. */
  lemma ForwardedClientFirst(client: string, rest: string, clientHost: Option<string>)
    requires ',' !in client
    ensures GetClientIp(Some(client + "," + rest), clientHost) == Strip(client)
  {
    SplitFirst(client, ',', rest);
    assert client + "," + rest == client + [','] + rest;
  }

  /** The feed-token gate: passes when no feed token is configured, and
      otherwise exactly when the given token equals it. The comparison
      raises, and the request ends in a 500, when either token holds a
      non-ASCII character. */
  function VerifyFeedToken(configured: Option<string>, token: Option<string>): (r: Check)
    ensures r.Pass? <==> (!StrTruthy(configured) || (token == configured && IsAscii(configured.value)))
    ensures r.Fail? ==> r.error.status == 401 || r.error == InternalServerError
    ensures r == Fail(InternalServerError) <==>
      StrTruthy(configured) && StrTruthy(token) && (!IsAscii(token.value) || !IsAscii(configured.value))
    ensures r.Fail? && !StrTruthy(token) ==>
      r.error.detail == "Feed token required. Add ?token=YOUR_TOKEN to the URL."
  {
    if !StrTruthy(configured) then Pass
    else if !StrTruthy(token) then Fail(HttpError(401, "Feed token required. Add ?token=YOUR_TOKEN to the URL."))
    else
      match CompareDigest(token.value, configured.value)
      case None => Fail(InternalServerError)
      case Some(same) => if same then Pass else Fail(HttpError(401, "Invalid feed token"))
  }

  /** The webhook gate: an unconfigured webhook token refuses every call;
      otherwise the call passes exactly when the given token equals it (a
      non-ASCII token on either side makes the comparison raise: a 500). */
  function VerifyPlexWebhookToken(configured: Option<string>, token: Option<string>): (r: Check)
    ensures r.Pass? <==> (StrTruthy(configured) && token == configured && IsAscii(configured.value))
    ensures r.Fail? ==> r.error.status == 401 || r.error == InternalServerError
    ensures r == Fail(InternalServerError) <==>
      StrTruthy(configured) && StrTruthy(token) && (!IsAscii(token.value) || !IsAscii(configured.value))
    ensures !StrTruthy(configured) ==> r == Fail(HttpError(401, "Plex webhook not configured"))
  {
    if !StrTruthy(configured) then Fail(HttpError(401, "Plex webhook not configured"))
    else if !StrTruthy(token) then Fail(HttpError(401, "Webhook token required. Add ?token=YOUR_TOKEN to the URL."))
    else
      match CompareDigest(token.value, configured.value)
      case None => Fail(InternalServerError)
      case Some(same) => if same then Pass else Fail(HttpError(401, "Invalid webhook token"))
  }
}
