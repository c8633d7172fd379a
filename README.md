# Overseer Lite request service, modelled in Dafny

Overseer Lite is a small self-hosted (and serverless) companion to Radarr,
Sonarr and Plex. Users request movies and shows. The service keeps the
requests in a table, publishes them as RSS feeds and as Radarr/Sonarr
import lists, and marks a request as added when Plex reports the title
through its webhook. This project models the logic of that service and
proves properties of it:

- **Sessions and login.** The signed session tokens of the unified
  application (`SharedTokens`), of the serverless backend (`LambdaAuth`)
  and of the multi-tenant backend (`TenantAuth`). The request gates
  (`Gates`): client address, feed token and webhook token. The
  challenge-response login with its rate limiter (`Login`).
- **Storage.** The request store as a class over maps (`Storage`): the
  conditional insert, the once-only `mark_as_added`, the fixed-window
  failure counter, and the library and Plex-GUID cache of the store
  interface. The DynamoDB marshalling and result shaping underneath
  (`DynamoDb`).
- **Plex.** Webhook payload parsing (`Plex`). The webhook's five-step
  matching cascade (`Webhook`). The list and library-sync endpoints
  (`ArrLists`, `Endpoints`). The response shaping of the Plex OAuth client
  (`PlexAuth`).
- **Scripts.** The library sync script (`PlexSync`) and the library
  comparison script (`CompareLibraries`).
- **Encoders.** AWS Signature Version 4 signing (`Sigv4`). Web Push
  encryption and VAPID tokens (`WebPush`, over `Base64`). The AES-GCM token
  blob, access-code hashing and slugs (`TokenCrypto`).
- **Feeds and cache.** The RSS feeds of both backends (`Feed`,
  `BackendRss`, `LambdaRss`). The trending-list cache warmer
  (`CacheWarmer`).

The cryptographic primitives are fields of a `Crypto` bundle (`Crypto`),
and the few facts the proofs need about them are stated as predicates that
callers establish. The clock, randomness, HTTP exchanges, bucket writes
and JSON serialisation are parameters. Python's `dict` is an
insertion-ordered association list (`Dicts`). `str` operations are in
`Text`. Loops that an exception ends at the first failure use
`Seqs.Collect`.

## Model

| member | source | states |
|---|---|---|
| SharedTokens.Sign | shared/app.py:163-168 | the signature segment (unpadded base64url of the HMAC-SHA256 of the payload) never contains a dot or a space, so it stays one segment of the token, and it is ASCII, so comparing with it raises only on the other side |
| SharedTokens.NameSegment | shared/app.py:161 | an empty name gives an empty middle segment; the segment never contains a dot and is ASCII |
| SharedTokens.NameSegmentNonEmpty | shared/app.py:161 | with a sound UTF-8 codec a non-empty name gives a non-empty segment |
| SharedTokens.CreateSessionToken | shared/app.py:156-169 | the token splits at its dots into exactly the decimal timestamp, the name segment and the signature of `timestamp.name_b64` |
| SharedTokens.BearerToken | shared/app.py:174-181 | a missing header, or one that is not `<scheme> <token>` with scheme `bearer` in any case, fails with 401; on success the token is the text after the first space |
| SharedTokens.BearerOf | shared/app.py:177-181 | `Bearer <token>` yields `<token>` |
| SharedTokens.VerifySessionToken | shared/app.py:172-214 | every refusal is a 401, except where `compare_digest` raises and nothing catches it, which ends the request in a 500 |
| SharedTokens.ServerErrorOnlyOnNonAsciiSignature | shared/app.py:195-211 | the session check's only 500 is for a bearer token of two or three segments whose signature segment holds a non-ASCII character |
| SharedTokens.CreatedTokenVerifies | shared/app.py:156-214 | a token created at `issued` passes the check at `now` exactly when it is at most thirty days old |
| SharedTokens.ExpiredBeforeSignature | shared/app.py:195-201 | a two- or three-segment token with an integer timestamp older than thirty days is refused as "Session expired", whatever its signature |
| SharedTokens.ForgedSignatureRejected | shared/app.py:203-212 | an unexpired, well-formed token whose last segment is not the signature of its payload is refused: "Invalid token" when that segment is ASCII, a 500 when it is not |
| SharedTokens.SegmentCountRejected | shared/app.py:186-193 | a token with other than two or three segments is refused as "Invalid token format" |
| SharedTokens.GetUserFromToken | shared/app.py:217-242 | a name is returned only for a bearer token of exactly three segments whose non-empty middle segment decodes, after its padding is restored, as base64url and then as UTF-8 |
| SharedTokens.UserOfCreatedToken | shared/app.py:217-242 | with a sound UTF-8 codec, the name read from a created token is the name put in, and none for an empty name |
| SharedTokens.UserOfSegments | shared/app.py:226-240 | the name of a three-segment token is what its middle segment decodes to |
| SharedTokens.UserIgnoresSignature | shared/app.py:217-242 | the name read does not depend on the timestamp or the signature segment: it is not verified |
| SharedTokens.ChallengeHashAscii | shared/app.py:315-317 | the expected proof is ASCII hex, so only the provided proof can make the comparison raise |
| SharedTokens.VerifyChallengeHash | shared/app.py:305-318 | the comparison raises exactly when the provided proof holds a non-ASCII character; otherwise the proof is accepted iff it equals the SHA-256 hex digest of `pbkdf2_hex(password, origin, 100000):timestamp` |
| SharedTokens.AcceptedProofIsHexDigest | shared/app.py:315-318 | with digests of the standard lengths, an accepted proof is 64 hex digits |
| Gates.GetClientIp | shared/app.py:249-254 | with a non-empty `X-Forwarded-For` the address holds no comma; without one it is the peer's host, or "unknown" |
| Gates.ForwardedClientFirst | backend-lambda/main.py:168-176 | for `client, proxies...` the address is the stripped first entry |
| Gates.VerifyFeedToken | shared/app.py:265-280 | passes iff no feed token is configured, or the given token equals it and is ASCII; a 500 exactly when both tokens are set and either holds a non-ASCII character (the comparison raises); every other refusal is a 401, with the "Feed token required" text when no token was given |
| Gates.VerifyPlexWebhookToken | shared/app.py:283-302 | passes iff a webhook token is configured and the given token equals it and is ASCII; a 500 exactly when both tokens are set and either holds a non-ASCII character; an unconfigured token refuses every call with "Plex webhook not configured" |
| LambdaAuth.CreateLegacyToken | backend-lambda/main.py:82-91 | the token is the decimal timestamp, one dot and the signature of the timestamp, and nothing else |
| LambdaAuth.VerifyLegacySessionToken | backend-lambda/main.py:94-124 | every refusal is a 401, except a signature part holding a non-ASCII character, on which the comparison raises: a 500 |
| LambdaAuth.LegacyTokenVerifies | backend-lambda/main.py:82-124 | an issued token passes exactly while it is at most thirty days old |
| LambdaAuth.NoDotRejected | backend-lambda/main.py:105-109 | a token without a dot is "Invalid token format" |
| LambdaAuth.LegacyExpiredBeforeSignature | backend-lambda/main.py:111-112 | a token whose timestamp is older than thirty days is "Session expired" before any signature check |
| LambdaAuth.LegacyTokenAcceptedByUnifiedApp | shared/app.py:189-191 | the unified application accepts the serverless application's two-segment tokens under the same secret and lifetime |
| LambdaAuth.UnifiedTokenRejected | backend-lambda/main.py:106-122 | the serverless check refuses an unexpired three-segment token, since it signs only the timestamp |
| LambdaAuth.DottedSignatureRejected | backend-lambda/main.py:105-122 | an unexpired token whose part after the first dot holds another dot never matches: "Invalid token", or a 500 when that part is not ASCII |
| Login.RateConfigOf | shared/app.py:135-137 | rate limiting is on only for a case-insensitive "true"; five attempts and 900 seconds by default; no configuration when an integer setting does not parse |
| Login.LockedOutRefusedFirst | shared/app.py:407-417 | a locked-out address gets 429 "Too many failed attempts" before the timestamp or the proof is looked at, and the table is unchanged |
| Login.LockoutAfterFailures | shared/app.py:407-434 | after `max_attempts` wrong proofs inside one window the next call in that window is refused with 429 |
| Login.SkewNotCounted | shared/app.py:419-427 | a timestamp more than 300 seconds from now is a 401 that records nothing |
| Login.WrongProofRecorded | shared/app.py:429-434 | a wrong ASCII proof is a 401 "Invalid credentials" that records one failure for the address (a fresh counter outside the window) and touches no other row; a non-ASCII proof makes the comparison raise before anything is recorded: a 500 with the table unchanged |
| Login.BadNameNotCounted | shared/app.py:436-439 | the right proof with an empty or over-50-character stripped name is a 400 and leaves the table unchanged |
| Login.SuccessIssuesValidToken | shared/app.py:441-447 | a successful login clears the counter and issues a token the same application accepts now; the unified token carries the stripped name |
| Login.LoginSucceeds | shared/app.py:403-449 | an allowed IP, a fresh timestamp, the right hash and a usable name give a token for the stripped name, and clear the IP's rate-limit row when limiting is on |
| Login.IssuedTokenAccepted | shared/app.py:156-233 | a token issued at a time is accepted at that time by the app's own session check, and the unified app reads the name back out of it |
| Login.VerifyAuth | backend-lambda/main.py:247-289 | the handler's response and the store's new rate-limit table are those of the check sequence (gate, skew, proof, name, clear), in both applications, with a 500 and no change when the proof is not ASCII; the library and GUID cache are unchanged |
| TenantAuth.EncodePayload | backend/auth.py:73-74 | the payload segment never contains a dot |
| TenantAuth.CreateTenantSessionToken | backend/auth.py:51-84 | the token splits at its first dot into the payload segment (expiry now plus thirty days) and the signature of that segment |
| TenantAuth.VerifyTenantSessionToken | backend/auth.py:87-129 | every refusal is a 401; a non-ASCII signature is refused with the comparison error's text exactly; an accepted token has two parts, the right signature and an expiry not yet passed |
| TenantAuth.TenantTokenRoundTrip | backend/auth.py:51-129 | with sound codecs, a created token verifies to its own payload until its expiry and is "Token expired" after |
| TenantAuth.SignatureBeforeExpiry | backend/auth.py:102-110 | a wrong signature is refused before the payload is decoded: as "Invalid signature", or with the comparison error's text when it is not ASCII |
| TenantAuth.GetSessionUser | backend/auth.py:132-156 | succeeds iff the header is a bearer token that verifies, and the user is the token's payload; refusals are 401 |
| TenantAuth.GetOptionalSessionUser | backend/auth.py:159-173 | a user exactly when the strict check succeeds, the same user, else none |
| TenantAuth.RequireOwner | backend/auth.py:176-188 | passes iff there is a user of type owner; 401 without a user, 403 otherwise |
| TenantAuth.RequireTenantAccess | backend/auth.py:191-206 | passes iff there is an owner or guest user with a non-empty tenant id; 401 without a user, 403 otherwise |
| TenantAuth.LegacyTokenAgrees | backend/auth.py:223-243 | the older check accepts exactly the tokens the serverless session check accepts, and raises exactly where that check ends in a 500 |
| TenantAuth.GetSessionUserCompat | backend/auth.py:246-290 | every refusal is a 401 |
| TenantAuth.CompatAcceptsLegacy | backend/auth.py:265-272 | an unexpired older-format token yields the legacy user |
| TenantAuth.CompatFallsThrough | backend/auth.py:265-288 | a dotted token the older check refuses, or on which it raises, is judged by the new check, error and all |
| TenantAuth.CompatNoDot | backend/auth.py:290 | a token without a dot is "Invalid token format" |
| TenantAuth.HostOf | backend/auth.py:317 | the host is lower-case and holds no port separator |
| TenantAuth.TenantFromRequest | backend/auth.py:303-366 | a tenant found is one of the registered tenants, and a registered custom-domain header wins over everything else |
| TenantAuth.BaseDomainHasNoSubdomain | backend/auth.py:341-343 | the bare base domain has no subdomain |
| TenantAuth.BaseHostFallsToPath | backend/auth.py:331-366 | at the bare base domain only the custom-domain header or a `/t/{slug}/` path can select a tenant |
| TenantAuth.PathSlugOf | backend/auth.py:353-357 | `/t/{slug}/...` gives `slug` |
| Storage.NewRequest | backend-lambda/database.py:48-67 | the new item is keyed by (media type, TMDB id) and carries the title and timestamp; year and TVDB id are stored when given, overview, poster, IMDb id and requester only when non-empty; nothing is marked added |
| Storage.AddSpec | backend-lambda/database.py:69-77 | the conditional put writes iff the key is absent, never overwrites an existing item, and keeps every other row |
| Storage.MarkSpec | backend-lambda/database.py:138-153 | marking succeeds iff the item exists and has no `added_at`; it then sets only `added_at`, otherwise the table is unchanged |
| Storage.MarkIdempotent | backend-lambda/database.py:144 | a second mark fails and leaves the first timestamp in place |
| Storage.MarkOnlyTouchesKey | backend-lambda/database.py:138-149 | marking one key leaves every other row as it was |
| Storage.RateCheck | backend-lambda/database.py:223-239 | refused iff a counter exists, its window has not expired and it holds at least `max_attempts` failures (then nothing remains); otherwise the remaining allowance, full when there is no live counter |
| Storage.RecordFailure | backend-lambda/database.py:253-293 | the count increments from zero keeping the first attempt; the expiry is now plus window plus sixty; past the window the counter restarts at one failure now |
| Storage.FailuresWithinWindow | backend-lambda/database.py:247-293 | failures inside one window from the first are all counted, with the first time kept |
| Storage.LockedOutAfterMaxFailures | backend-lambda/database.py:212-293 | `max_attempts` failures inside one window lock the address out for the rest of that window |
| Storage.AllowanceAfterFailures | backend-lambda/database.py:212-293 | fewer failures than the limit leave the limit minus the failures as the allowance |
| Storage.SyncIntoContains | shared/database.py:74-76 | every synced item with a TMDB id is in the library afterwards, and nothing already there is dropped |
| Storage.ScopeItemsStep | backend-lambda/database.py:96-111 | each examined key adds its request to the listing exactly when it is a request of the asked type (any type when none is asked) |
| Storage.Store.constructor | shared/database.py:15-17 | the store starts empty |
| Storage.Store.AddRequest | backend-lambda/database.py:35-80 | true iff the key was absent and the item is now stored; an existing item or a storage failure gives false and leaves the table |
| Storage.Store.RemoveRequest | backend-lambda/database.py:83-93 | deletes the key (absent or not) and returns true; a failure returns false and changes nothing |
| Storage.Store.IsRequested | backend-lambda/database.py:122-132 | true iff the key is in the table; false on failure |
| Storage.Store.ScanScope | backend-lambda/database.py:96-119 | the scan yields, as a multiset, exactly the request rows of the table in the asked scope |
| Storage.Store.GetAllRequests | backend-lambda/database.py:96-119 | exactly the requests of the asked type (all requests, no rate-limit rows, when none is asked), each once, newest `created_at` first; empty on failure |
| Storage.Store.MarkAsAdded | backend-lambda/database.py:135-156 | the result and new table are those of the conditional update; nothing on failure |
| Storage.FindByTvdbIdAsWrittenNeverFinds | backend-lambda/database.py:159-174 | as written, the lookup finds nothing whatever the table holds: `filter_expression` is not a parameter of the client's `query`, and the TypeError is caught and turned into None |
| Storage.FindByTvdbIdAsWrittenMisses | backend-lambda/database.py:159-174 | a pending tv request with TVDB id 81189 is missed by the lookup as written and found by the intended one |
| Storage.Store.FindByTvdbId | shared/database.py:50-52 | the request of that type with that TVDB id that has the smallest TMDB id (the first a key-ordered query meets), that is, the one `TvdbLookup` names; none only when no request matches or storage fails |
| Storage.Store.FindByPlexGuid | backend-lambda/database.py:177-188 | a stored request carrying that Plex GUID, under its own key, and none only when no request carries it or storage fails |
| Storage.Store.UpdatePlexGuid | backend-lambda/database.py:191-207 | sets the GUID on the request and changes nothing else; false and unchanged on failure |
| Storage.Store.CheckRateLimit | backend-lambda/database.py:212-244 | the answer of the rate check on the address's counter; allowed with the full limit on a storage failure |
| Storage.Store.RecordFailedAttempt | backend-lambda/database.py:247-297 | the address's counter becomes the recorded failure and the new count is returned; zero and unchanged on failure |
| Storage.Store.ClearRateLimit | backend-lambda/database.py:300-310 | deletes the counter, after which every check allows the full limit; false and unchanged on failure |
| Storage.Store.SyncLibrary | shared/database.py:74-76 | the library is the synced items (after clearing that media type when asked), and the count is the number of items with a TMDB id |
| Storage.Store.IsInLibrary | shared/database.py:78-80 | true iff the (TMDB id, media type) pair is in the library |
| Storage.Store.GetLibraryIds | shared/database.py:82-84 | exactly the library pairs, of the asked media type when one is given |
| Storage.Store.GetPlexGuidCache | shared/database.py:86-88 | the cached ids of that GUID, none when it is not cached |
| Storage.Store.SetPlexGuidCache | shared/database.py:90-92 | the GUID now maps to the given ids, and nothing else changes |
| Storage.Store.FindByTitle | shared/database.py:106-108 | a request exactly when one pending request of that type, and only one, has a matching trimmed, lower-cased title (and the year when given), and then that request; none when no request or more than one matches |
| DynamoDb.ToDynamo | backend-lambda/dynamodb_lite.py:81-98 | only `None` becomes the NULL attribute, and every value gets a typed attribute (anything else becomes its string) |
| DynamoDb.FromToDynamo | backend-lambda/dynamodb_lite.py:81-120 | reading back a marshalled value gives the value again, for every value built from None, booleans, strings, integers, lists and maps |
| DynamoDb.OtherBecomesString | backend-lambda/dynamodb_lite.py:97-98 | a value of another type comes back as its string form |
| DynamoDb.MarshalItem | backend-lambda/dynamodb_lite.py:122-124 | an attribute is written exactly for each top-level key whose value is not None |
| DynamoDb.UnmarshalMarshal | backend-lambda/dynamodb_lite.py:122-128 | an item read back is the item without its None-valued keys |
| DynamoDb.NestedNoneKept | backend-lambda/dynamodb_lite.py:81-124 | a None inside a list is kept as NULL while a top-level None is dropped |
| DynamoDb.ScanStopsAtFirstLast | backend-lambda/dynamodb_lite.py:204-215 | the scan collects the items of every page up to and including the first page without a last-evaluated key, and requests exactly that many pages |
| DynamoDb.ScanAdvance | backend-lambda/dynamodb_lite.py:205-213 | each page's items extend the collected prefix of the full scan |
| DynamoDb.ScanNotLast | backend-lambda/dynamodb_lite.py:210-213 | a page with a continuation key is followed by another page, up to the final one |
| DynamoDb.ScanPages | backend-lambda/dynamodb_lite.py:191-215 | the collected items are those of the pages up to the first without a continuation key; the first request carries no start key and each later one the previous page's last key |
| DynamoDb.Scan | backend-lambda/dynamodb_lite.py:191-215 | the unmarshalled items of the paged scan, with the start keys sent on each request |
| DynamoDb.GetItemResult | backend-lambda/dynamodb_lite.py:136-146 | an item exactly when the response holds a non-empty one, with the same attribute names |
| DynamoDb.UpdateItemResult | backend-lambda/dynamodb_lite.py:239-243 | the returned attributes, unmarshalled, exactly when values were asked for and returned |
| DynamoDb.ErrorType | backend-lambda/dynamodb_lite.py:70 | the error type is the part after the last `#` ("Unknown" when absent) |
| DynamoDb.ResponseError | backend-lambda/dynamodb_lite.py:68-76 | an error exactly on a non-200 status; the conditional-check exception exactly for that type; the message falls back to `Message` then "Unknown error" |
| DynamoDb.SplitLast | backend-lambda/dynamodb_lite.py:70 | splitting at a separator absent from the tail leaves the tail as the last part |
| DynamoDb.NamespacedErrorType | backend-lambda/dynamodb_lite.py:70 | a namespaced type `ns#T` is reported as `T` |
| Plex.ParseGuidList | backend/plex.py:22-55 | the loop's result is the fold of the GUID list from all-absent ids |
| Plex.ApplyGuidFields | backend/plex.py:39-53 | a `tmdb://` or `tvdb://` GUID with an integer body sets that id, an `imdb://` GUID sets the IMDb id, and every other GUID (or unparsable body) leaves the ids as they were |
| Plex.LastSomeIsLast | backend/plex.py:39-53 | the last present value is absent iff every value is absent, and otherwise it is some value with nothing present after it |
| Plex.TmdbIds | backend/plex.py:42-46 | the TMDB id each GUID supplies, one per GUID |
| Plex.TvdbIds | backend/plex.py:47-51 | the TVDB id each GUID supplies, one per GUID |
| Plex.ImdbIds | backend/plex.py:52-53 | the IMDb id each GUID supplies, one per GUID |
| Plex.GuidIdsLastWins | backend/plex.py:22-55 | each id is the one given by the last GUID of its scheme that parses |
| Plex.SchemesExclusive | backend/plex.py:42-53 | a GUID belongs to at most one scheme, so the branches never compete |
| Plex.ParsePlexPayload | backend/plex.py:58-139 | a record exactly for movie, show, season and episode; title, year and Plex GUID come from the item, the parent or the grandparent by type; a season drops both show ids; an episode moves a present TVDB id to the episode TVDB id |
| Plex.ShowAndEpisodeTvdbExclusive | backend/plex.py:118-127 | a record never carries both a show TVDB id and an episode TVDB id, and only an episode carries the latter |
| Plex.PayloadIdsFromGuids | backend/plex.py:114-136 | every TMDB or IMDb id of a record comes from a GUID of the item's list with no later GUID of that scheme |
| Webhook.IgnoreReason | shared/app.py:821-842 | a payload goes on to the cascade iff its event is `library.new`, the server matches when a name is configured, and its media type is supported; the reasons are checked in that order |
| Webhook.ShowIds | shared/app.py:846-860 | for a season or episode with a Plex GUID the show ids come from the cache (both absent on a miss); otherwise they are the parsed ids |
| Webhook.MarkAndTag | shared/app.py:875-881 | marks the request iff it is pending; the table then differs only in that request, which gets the added time and, for an item with a GUID, that GUID; the cache then maps the GUID to the TMDB id and the given TVDB id; the request returned is the one marked, before the GUID; with no mark nothing changes |
| Webhook.TryTvdb | shared/app.py:884-892 | matches iff the request the TVDB lookup finds (the one with the smallest TMDB id) is pending; then only that request is marked and tagged, and the cache maps the GUID to its TMDB id and the show TVDB id; no match changes nothing |
| Webhook.TryPlexGuid | shared/app.py:895-902 | a match marks a pending request that carries the GUID and keeps its GUID; the cache then learns its TMDB and TVDB ids unless the show ids came from the cache; it surely matches when some request carries the GUID and all that do are pending; no match changes nothing |
| Webhook.TryEpisode | shared/app.py:905-928 | matches iff the episode's series is known and its TVDB lookup finds a pending tv request, which alone is marked and tagged; for an item with a GUID the cache learns the series and the found TMDB id (none when no request was found) on a match, and without one only when the show ids did not come from the cache |
| Webhook.TryTitle | shared/app.py:931-948 | matches iff exactly one pending request of that type matches the title (and year); then only it is marked and tagged, the library gains it with its TVDB id and the item's title, and the cache learns its ids for an item with a GUID; no match changes nothing |
| Webhook.Cascade | shared/app.py:874-948 | the first step whose condition holds on the starting table is the one that matches: TMDB id, TVDB lookup, GUID carrier (surely when every carrier is pending), episode series, then the unique title when no show id is known; the request marked and the new table, library and cache are exactly those of that step, and without a match only step 4's cache entry can change |
| Webhook.ResolveShowIds | shared/app.py:846-860 | the show-level TMDB/TVDB ids and the cache flag are those of the show-id rule: an episode or season with a Plex GUID takes both ids from the GUID cache entry (a miss clears them), anything else keeps its own ids |
| Webhook.PlexWebhook | shared/app.py:805-968 | a failed token gate or bad JSON is an error and an ignored payload changes nothing; a processed payload reports the right title, type and TMDB id, the match flag is true iff a request was marked, added-to-library holds exactly when the show TMDB id is known or the title step matched, notification is reported only for a match, and the matching step and the new table, library and cache are those of the cascade run on the show ids after the show is upserted |
| ArrLists.DisplayTitle | shared/app.py:732 | "Title (Year)" when the year is present and non-zero, else the bare title; the title is always a prefix |
| ArrLists.RadarrEntry | shared/app.py:731-737 | the display title, the IMDb id exactly when the request has a non-empty one, and the poster URL (the w300 base plus the path) exactly when it has a poster path |
| ArrLists.RadarrItems | shared/app.py:729-740 | one entry per request, in order |
| ArrLists.SonarrItemsOf | shared/app.py:750-755 | the Sonarr list holds exactly the entries of the requests with a non-zero TVDB id, never more than there are requests |
| ArrLists.SonarrItemsExact | shared/app.py:752-753 | every listed TVDB id text reads back as the TVDB id of some request, and every request with one is listed |
| ArrLists.NotAdded | shared/app.py:727 | exactly the requests not yet marked as added |
| Endpoints.ListingMembers | shared/app.py:726 | the listing holds exactly the stored requests of that media type |
| Endpoints.ListRadarr | shared/app.py:722-740 | a failed feed-token gate is its error; otherwise the Radarr entries of the pending movie requests (empty on a storage failure) |
| Endpoints.RadarrListExact | shared/app.py:726-738 | an entry is listed iff it is the entry of some stored movie request not yet added |
| Endpoints.ListSonarr | shared/app.py:743-755 | a failed feed-token gate is its error; otherwise the Sonarr entries of the pending show requests (empty on a storage failure) |
| Endpoints.SonarrListExact | shared/app.py:747-753 | an entry is listed iff it is the entry of some stored show request not yet added that has a TVDB id |
| Endpoints.BodyKeys | shared/app.py:1003-1005 | every item with a non-zero TMDB id names a key of the given media type, and only such keys |
| Endpoints.MarkItems | shared/app.py:1002-1007 | the loop leaves exactly the table and count of the marking pass over the body, and touches neither the library nor the GUID cache |
| Endpoints.MarkAllFacts | shared/app.py:1002-1007 | the marking pass marks exactly the pending requests the body names, each once however often named, changes nothing else, and counts the requests it marked |
| Endpoints.ResyncMarksNothing | shared/app.py:1002-1007 | syncing the same body again marks nothing and changes nothing |
| Endpoints.SyncLibraryEndpoint | shared/app.py:975-1017 | the gate, a bad media type, a non-JSON body and a non-array body are the four errors and change nothing; otherwise the library is the synced items (after clearing that type when asked), the synced count is the items with a TMDB id, and the requests are marked as by the marking pass |
| PlexAuth.PlexHeaders | backend/plex_auth.py:25-37 | exactly the six constant headers (JSON, version 1.0.0, Web, Browser, the client id and product), plus the token header exactly when a non-empty token is given |
| PlexAuth.AuthUrl | backend/plex_auth.py:82-103 | the URL is the Plex auth address followed by `#!?` and the parameters |
| PlexAuth.AuthUrlParams | backend/plex_auth.py:93-103 | the fragment splits back at `&` into the client id, the PIN code, the product and, exactly when a callback is given, the forward URL |
| PlexAuth.ConnectionUrl | backend/plex_auth.py:182-195 | the first local connection's URI when it is non-empty, else the first relay's, else the first connection's when none is local or relay; none without connections; always some connection's URI |
| PlexAuth.SelectConnection | backend/plex_auth.py:184-195 | the three search loops give the preferred connection URL |
| PlexAuth.GetServers | backend/plex_auth.py:178-206 | the loop lists, in order, the server entry of each resource that provides "server" |
| PlexAuth.ServersExact | backend/plex_auth.py:179-204 | a server is listed iff it is the entry of some resource that provides "server" |
| PlexAuth.GetLibraries | backend/plex_auth.py:228-239 | the loop lists, in order, the entry of each movie or show section |
| PlexAuth.LibrariesExact | backend/plex_auth.py:229-237 | a library is listed iff it is the entry of some movie or show section, and its type is "movie" or "tv" |
| PlexAuth.IdGuidRoundTrip | backend/plex_auth.py:290-293 | the id in a `tmdb://` or `tvdb://` GUID built from an integer reads back as that integer |
| PlexAuth.ReadItemIds | backend/plex_auth.py:287-295 | the GUID loop gives the ids of the whole list, or fails where `int()` raises |
| PlexAuth.ItemIdsFailStays | backend/plex_auth.py:288-293 | once one GUID raises, the whole list does |
| PlexAuth.ReadEntry | backend/plex_auth.py:280-298 | one metadata entry fails exactly when its GUID list raises; otherwise it is that item's entry, kept iff it has a TMDB or TVDB id |
| PlexAuth.GetLibraryItems | backend/plex_auth.py:274-301 | fails iff some item's GUID list raises; otherwise the entries of the items with a non-zero TMDB or TVDB id, in order, and the total size (zero when absent) |
| PlexAuth.LibraryItemsExact | backend/plex_auth.py:277-299 | an entry is listed iff it is the entry of some item with a non-zero TMDB or TVDB id |
| PlexSync.AsGuidList | scripts/plex-sync.py:93 | every GUID of the item is read, in order |
| PlexSync.ReadIds | scripts/plex-sync.py:89-103 | the GUID loop gives the same ids as the webhook's GUID parser: a later GUID of a scheme overwrites an earlier one and a suffix `int()` rejects is skipped |
| PlexSync.GetLibraryItems | scripts/plex-sync.py:53-119 | the nested loops list, over the selected sections of the asked type, the first item of each non-zero TMDB id |
| PlexSync.AddSection | scripts/plex-sync.py:88-113 | the entries appended for one section, followed by the deduplication of the remaining sections from the new seen set, equal the deduplication of this section and the rest from the old one |
| PlexSync.DedupDistinct | scripts/plex-sync.py:107-113 | no TMDB id is listed twice, none that was already seen, and none that is zero |
| PlexSync.DedupCovers | scripts/plex-sync.py:105-113 | every item with a non-zero TMDB id has its id listed (or seen before) |
| PlexSync.DedupFirst | scripts/plex-sync.py:107-113 | each listed entry is that of the first item carrying its TMDB id |
| PlexSync.ClearLibrary | scripts/plex-sync.py:122-175 | succeeds iff one of the attempts 1 to `max_retries` succeeds, stopping at the first success; every attempt is made when all fail |
| PlexSync.BatchesCover | scripts/plex-sync.py:217-218 | the batches, joined, are exactly the items |
| PlexSync.BatchesCount | scripts/plex-sync.py:217-220 | there are `ceil(len / batch_size)` batches |
| PlexSync.BatchSizes | scripts/plex-sync.py:217-218 | every batch holds between one and `batch_size` items and all but the last hold exactly `batch_size` |
| PlexSync.PostAllOutcome | scripts/plex-sync.py:217-235 | posting succeeds iff every batch post succeeds, and the totals are then the sums of the reported counts; otherwise posting stopped right after the first failed batch |
| PlexSync.PostBatches | scripts/plex-sync.py:216-235 | the batches posted and the totals are those of posting the slices of `batch_size` items in order, stopping at the first failed reply |
| PlexSync.SyncToOverseer | scripts/plex-sync.py:178-241 | a failed clear raises before any batch is sent; a zero batch size raises; a negative one sends nothing; otherwise the batches are posted until one fails and the totals are those of the posts |
| CompareLibraries.ItemEntryFirstGuid | scripts/compare-libraries.py:26-33 | only the first `tmdb://` GUID of an item is looked at: the item contributes its title under that GUID's number, and nothing when `int()` rejects the suffix, whatever GUIDs follow |
| CompareLibraries.ItemEntryNoGuid | scripts/compare-libraries.py:26-27 | an item without a `tmdb://` GUID contributes nothing |
| CompareLibraries.Entries | scripts/compare-libraries.py:25 | one entry per item, in order |
| CompareLibraries.GetMovies | scripts/compare-libraries.py:22-34 | the nested loops build the dictionary of the items' entries in order, a later title replacing an earlier one under the same id |
| CompareLibraries.FoldDistinct | scripts/compare-libraries.py:30 | the dictionary holds each id once |
| CompareLibraries.FoldKeys | scripts/compare-libraries.py:25-33 | an id is in the dictionary iff some entry carries it |
| CompareLibraries.FoldLastWins | scripts/compare-libraries.py:30 | the title under an id is that of the last entry carrying it |
| CompareLibraries.FoldLastWinsStep | scripts/compare-libraries.py:30 | the last-entry property carries over one more entry |
| CompareLibraries.MoviesFacts | scripts/compare-libraries.py:22-34 | the section's dictionary has distinct ids, holds an id iff some item contributes it, and stores the title of the last item contributing it |
| CompareLibraries.FindSections | scripts/compare-libraries.py:54-61 | the first library is the last section with its title; the second is the last section with its title only when that title differs from the first's (`elif`); the two are different sections |
| CompareLibraries.OnlyIn | scripts/compare-libraries.py:79-82 | the only-in dictionary is never larger than the one it filters |
| CompareLibraries.OnlyInMembers | scripts/compare-libraries.py:79-82 | an entry is only in `a` iff it is an entry of `a` whose id is not a key of `b` |
| CompareLibraries.OnlyInDisjoint | scripts/compare-libraries.py:79-82 | no id is only in both libraries |
| CompareLibraries.InBothCount | scripts/compare-libraries.py:100 | with distinct ids, the first total minus its only-in count is the number of ids the two libraries share |
| CompareLibraries.Compare | scripts/compare-libraries.py:53-100 | a missing library is its "not found" error, the first checked before the second; otherwise the totals, the only-in listings sorted by title, and the in-both count of the two found sections |
| CompareLibraries.ReportFacts | scripts/compare-libraries.py:79-100 | each listing is sorted by title and holds exactly the only-in entries, the listings share no id, and the in-both count is the number of shared ids |
| Sigv4.SigningKey | backend-lambda/aws_sigv4.py:22-28 | with a 32-byte HMAC, the derived signing key is 32 bytes |
| Sigv4.PayloadHash | backend-lambda/aws_sigv4.py:31-33 | with a 32-byte digest, the payload hash is 64 hex characters |
| Sigv4.Or | backend-lambda/aws_sigv4.py:54-56 | the credential is present and non-empty iff the argument or the environment value is |
| Sigv4.ParseUrl | backend-lambda/aws_sigv4.py:63-65 | after the scheme is removed, the host is everything before the first slash and the canonical URI the rest, always starting with `/` (just `/` without a slash) |
| Sigv4.AmzDateShape | backend-lambda/aws_sigv4.py:68-70 | the request time is the date stamp, `T`, six digits and `Z`; the date stamp is all digits, eight of them from year 1000 on |
| Sigv4.SignedNamesFacts | backend-lambda/aws_sigv4.py:80-82 | the signed names are the header names in ascending order, each once, and the `;`-joined list splits back into them |
| Sigv4.CanonicalHeaders | backend-lambda/aws_sigv4.py:84-86 | the loop builds one `name:value` line per signed name, in order |
| Sigv4.ScopeParts | backend-lambda/aws_sigv4.py:103 | the credential scope splits at `/` into date stamp, region, service and `aws4_request` |
| Sigv4.SignedNamesAreKeys | backend-lambda/aws_sigv4.py:85-86 | every signed name is a header name, so each line has a value |
| Sigv4.SignRequest | backend-lambda/aws_sigv4.py:36-128 | "AWS credentials not found" iff the access key or the secret key is missing from both the argument and the environment; otherwise the signed headers of the parsed host and URI |
| Sigv4.AmzHeadersContent | backend-lambda/aws_sigv4.py:73-78 | the headers signed are the caller's plus `host`, `x-amz-date` and, with a session token, `x-amz-security-token`, those overriding a caller header of the same name, each name once |
| Sigv4.SignedContent | backend-lambda/aws_sigv4.py:124-128 | the result is the signed headers plus `Authorization` and `x-amz-content-sha256` (the payload hash), each name once |
| Sigv4.SortedUnique | backend-lambda/aws_sigv4.py:81 | two ascending lists of the same names are the same list |
| Sigv4.HeaderLinesSameValues | backend-lambda/aws_sigv4.py:84-86 | the header lines depend only on the values of the names listed |
| Sigv4.SignatureIgnoresHeaderOrder | backend-lambda/aws_sigv4.py:73-121 | two header dictionaries with the same names and values, inserted in any order, give the same Authorization header |
| TokenCrypto.CheckedKey | backend/crypto.py:27-49 | a key is accepted iff it decodes as base64 to exactly 32 bytes, and then those bytes are the key; otherwise the error says which check failed |
| TokenCrypto.Encrypt | backend/crypto.py:36-59 | encryption fails exactly when the key is refused, with the key's error |
| TokenCrypto.Decrypt | backend/crypto.py:62-98 | a refused key, undecodable data and a blob shorter than nonce plus tag are the errors, in that order; the result is some text iff the blob opens under the key to valid UTF-8, and then it is that text |
| TokenCrypto.DecryptEncrypt | backend/crypto.py:36-98 | decrypting what was encrypted under a valid key gives back the plaintext |
| TokenCrypto.GeneratedKeyAccepted | backend/crypto.py:21-33 | a generated key is accepted and decodes to the random bytes it was made from |
| TokenCrypto.VerifyCode | backend/crypto.py:130-156 | an undecodable salt raises; otherwise true iff the stored hash decodes to the key derived from the code and the salt, and a mismatch is false rather than an error |
| TokenCrypto.VerifyHashedCode | backend/crypto.py:101-156 | a code verifies against its own hash and salt |
| TokenCrypto.VerifyOtherCode | backend/crypto.py:130-156 | a code whose derived key differs from the stored one is refused |
| TokenCrypto.GenerateTokenDecodes | backend/crypto.py:159-161 | the token is unpadded base64url of the random bytes, which it gives back once padding is restored |
| TokenCrypto.CollapseRuns | backend/crypto.py:178 | the result holds only `[a-z0-9]` and `-`, never two `-` in a row, is empty iff the input is, and starts with `-` iff the input starts with a character outside `[a-z0-9]` |
| TokenCrypto.SlugBaseIsSlug | backend/crypto.py:177-183 | the slug before the suffix has at most 20 characters of `[a-z0-9-]`, no two `-` in a row, and neither starts nor ends with `-` |
| TokenCrypto.CollapseSlugText | backend/crypto.py:178 | the run replacement leaves slug text unchanged |
| TokenCrypto.SlugBaseOfSlug | backend/crypto.py:177-183 | a slug is its own slug base |
| TokenCrypto.SlugBaseIdempotent | backend/crypto.py:177-183 | the slug base is idempotent |
| TokenCrypto.GenerateSlugParts | backend/crypto.py:164-188 | the slug is 6 to 27 characters of `[a-z0-9-]`; its last six are the hex of the random bytes, preceded by the slug base and `-`, or by nothing when the base is empty |
| WebPush.B64Decode | backend-lambda/webpush.py:44-52 | an unpadded string one character past a multiple of four never decodes, as `urlsafe_b64decode` raises on it |
| WebPush.B64RoundTrip | backend-lambda/webpush.py:39-52 | decoding the unpadded URL-safe encoding of any bytes gives them back |
| WebPush.B64DecodeEitherAlphabet | backend-lambda/webpush.py:44-52 | the decoder reads the standard and the URL-safe alphabet alike |
| WebPush.ParseFrameRoundTrip | backend-lambda/webpush.py:203-208 | the aes128gcm header reads back as the salt, the 4096 record size and the server key, followed by the ciphertext |
| WebPush.ReceiverDecrypts | backend-lambda/webpush.py:131-210 | the body is salt, record size, key length, server key and ciphertext; a receiver that derives the same secret finds the salt, record size and server key in the header and decrypts the body to the data |
| WebPush.EncryptPayload | backend-lambda/webpush.py:131-210 | succeeds iff both subscription keys decode and the user agent's key is a curve point; then the body, salt and server public key; an undecodable key is reported before an invalid point |
| WebPush.EscapeChar | backend-lambda/webpush.py:98-99 | every escaped character is printable ASCII, and a character is written as itself iff it is printable and neither a quote nor a backslash |
| WebPush.JwtHeaderText | backend-lambda/webpush.py:90-98 | the header serialises to `{"typ":"JWT","alg":"ES256"}` |
| WebPush.JwtClaimsContent | backend-lambda/webpush.py:91-95 | each caller claim is in the payload with its value; `aud` and `exp` are the audience and now plus twelve hours unless the caller sets them; no other name appears |
| WebPush.AudienceOfEndpoint | backend-lambda/webpush.py:86-87 | the audience of `https://host/path` is `https://host` |
| WebPush.RawSignature | backend-lambda/webpush.py:116-117 | the raw signature is 64 bytes |
| WebPush.RawSignatureHalves | backend-lambda/webpush.py:116-117 | r and s read back from the two 32-byte halves |
| WebPush.Sign | backend-lambda/webpush.py:111-117 | the signature is 64 bytes |
| WebPush.SignedTokenShape | backend-lambda/webpush.py:97-119 | the token has three dot-separated segments that decode to the header, the payload and the raw signature over the first two |
| WebPush.CreateVapidJwt | backend-lambda/webpush.py:78-128 | fails iff the private key does not decode or is not a valid scalar (the decoding error first); otherwise the token is the VAPID token of the endpoint's audience, the decoded scalar, the claims and the time, and the public key returned is that of the private key |
| WebPush.GetVapidPublicKey | backend-lambda/webpush.py:282-298 | fails iff the private key does not decode or is not a valid scalar, with the decoding error first; otherwise the unpadded base64url of the private key's public point |
| WebPush.GenerateVapidKeys | backend-lambda/webpush.py:55-76 | the stored private key decodes back to the scalar it was generated from |
| WebPush.GeneratedKeysAgree | backend-lambda/webpush.py:55-298 | a generated private key decodes to its scalar, gives back the generated public key, and signs tokens that carry that public key |
| WebPush.PushHeadersContent | backend-lambda/webpush.py:256-261 | exactly the four headers: the `vapid t=…, k=…` authorization, octet-stream, aes128gcm and the time to live |
| WebPush.PrepareRequest | backend-lambda/webpush.py:236-268 | a missing endpoint, p256dh or auth raises in that order before anything is encrypted; the request exists iff encryption and the token both succeed, and then goes to the endpoint with the encrypted body |
| WebPush.PreparedRequestContent | backend-lambda/webpush.py:236-268 | the request's headers carry the token, the public key and the time to live, and a receiver decrypts its body to the payload |
| WebPush.Answer | backend-lambda/webpush.py:270-279 | true iff delivered; false iff the service answered 404 or 410; otherwise a "Push failed: " error |
| WebPush.SendPush | backend-lambda/webpush.py:213-279 | nothing is sent when the request cannot be built; otherwise the request is sent once and the service's response decides the answer |
| Feed.Describe | backend/rss.py:31 | the request's overview when it is non-empty, otherwise "No description available"; never empty |
| Feed.PubDateOfText | backend/rss.py:42-50 | an empty `created_at` gives the current time; otherwise the text with `Z` turned into `+00:00` is parsed, and a text that does not parse also gives the current time |
| Feed.EntryIdInjective | backend/rss.py:103 | the entry id `"{media_type}-{tmdb_id}"` of a movie or show request determines both the media type and the TMDB id |
| Feed.TmdbGuidInjective | backend/rss.py:34 | two `tmdb-{id}` GUIDs are equal only for equal TMDB ids |
| Feed.FeedGenerator.constructor | backend/rss.py:6-14 | the new feed has the given title, description and self link, language "en", was built now, and has no entries |
| Feed.FeedGenerator.AddEntry | backend/rss.py:28-50 | an entry with a date that carries an offset is appended at the end; one with a naive date is refused, as feedgen's `pubDate` raises, and the entries stay as they were; the channel fields never change |
| Feed.AsUtc | backend-lambda/rss.py:21 | the result always carries an offset and keeps the wall time; an aware moment is kept, a naive one is tagged UTC |
| Feed.PubDateOfTextAware | backend/rss.py:43-50 | with the clock read in UTC, the entry's date lacks an offset exactly when the stored text is non-empty and parses to a naive `datetime` |
| Feed.DatedUnlessNaive | backend/rss.py:27-50 | when every entry is dated from its request's stored text, the entries all carry offsets exactly when no stored text parses as naive |
| Feed.AddEntries | backend/rss.py:27-50 | the feed loop: it succeeds iff every entry's date carries an offset and then appends every entry in order; otherwise it stops at an entry with a naive date, having appended exactly the entries before it; the channel fields never change |
| BackendRss.MovieGuid | backend/rss.py:33-37 | the IMDb id when the request has a non-empty one, otherwise `tmdb-{tmdb_id}` |
| BackendRss.TvGuid | backend/rss.py:71-73 | `tvdb-{tvdb_id}` when the request has a non-zero TVDB id, otherwise `tmdb-{tmdb_id}` |
| BackendRss.CombinedGuid | backend/rss.py:109-116 | a movie gets the movie feed's GUID, a show the TV feed's GUID, any other media type `tmdb-{tmdb_id}` |
| BackendRss.GenerateRss | backend/rss.py:17-131 | fails with feedgen's "no timezone info" error iff some request's stored date parses as naive; otherwise each feed's channel title, description and self link, language "en", built now, and exactly one entry per request in the requests' order |
| BackendRss.EntriesDated | backend/rss.py:43-50 | every entry's date carries an offset iff no request's stored date parses as naive |
| BackendRss.SqliteTimestampBreaksFeed | backend/database.py:25 | a request stored with SQLite's default `CURRENT_TIMESTAMP` text reads as naive, so any feed listing it fails, while the corrected entries date it at that wall time in UTC |
| BackendRss.UtcEntries | backend/rss.py:43-50 | one corrected entry per request, every date carrying an offset, each the entry as written with a naive date tagged UTC |
| BackendRss.UtcEntriesAgree | backend/rss.py:43-50 | where no stored date parses as naive, the corrected entries are exactly the entries as written |
| BackendRss.GenerateRssUtc | backend/rss.py:17-131 | the corrected generators always succeed: the channel fields, language "en", built now, and the corrected entry of every request in order |
| BackendRss.MovieGuidsMatchable | backend/rss.py:33-37 | every movie entry's GUID is either the request's IMDb id or `tmdb-` followed by text that parses back to the request's TMDB id |
| BackendRss.CombinedIdsDistinct | backend/rss.py:103 | in the combined feed, movie and show requests with distinct (TMDB id, media type) keys get distinct entry ids |
| LambdaRss.PubDate | backend-lambda/rss.py:17-26 | a naive `datetime` is tagged UTC and an aware one is kept; a stored text is parsed after `Z` becomes `+00:00`; an empty or unparseable text gives the current time |
| LambdaRss.MovieGuid | backend-lambda/rss.py:46-49 | the IMDb id when present, otherwise the entry's display title |
| LambdaRss.TvGuid | backend-lambda/rss.py:74-77 | `tvdb-{tvdb_id}` when the TVDB id is present, otherwise the entry's display title |
| LambdaRss.CombinedGuid | backend-lambda/rss.py:104-109 | a movie gets the movie GUID, a show the TV GUID, any other media type the display title without its type label |
| LambdaRss.GenerateRss | backend-lambda/rss.py:29-114 | fails with feedgen's "no timezone info" error iff some request's stored text parses as naive; otherwise each feed's channel (the movie feed's description names Radarr), language "en", built now, and exactly one entry per request in order |
| LambdaRss.GuidIsIdOrTitle | backend-lambda/rss.py:46-77 | every movie entry's GUID is the IMDb id or the entry's title, every show entry's GUID is `tvdb-{tvdb_id}` or the entry's title |
| LambdaRss.AgreesWithBackend | backend-lambda/rss.py:39-80 | where the request has its external id, the entry is exactly the self-hosted backend's entry; otherwise it differs from it only in the GUID, which is the display title |
| LambdaRss.GenerateRadarrJson | backend-lambda/rss.py:117-132 | the Radarr list is the list of every movie request's item, in order |
| LambdaRss.GenerateSonarrJson | backend-lambda/rss.py:135-144 | the Sonarr list holds the TVDB id of each show that has one, in order |
| LambdaRss.FirstMissingNone | backend-lambda/rss.py:39-52 | no attribute is missing exactly when every attribute read is present |
| LambdaRss.IndexedAttributesPresent | backend-lambda/rss.py:39-52 | a loop body reads all the attributes it indexes exactly when the request has a year, an overview and the feed's external id |
| LambdaRss.RssAsWrittenOutcome | backend-lambda/rss.py:39-112 | the feed loop as written succeeds iff every request has every attribute it indexes and no stored date that parses as naive, and then yields exactly the intended entries |
| LambdaRss.RadarrJsonAsWrittenOutcome | backend-lambda/rss.py:122-130 | the Radarr list as written succeeds iff every movie has a year, an IMDb id and a poster path, and then equals the intended list |
| LambdaRss.SonarrJsonAsWrittenOutcome | backend-lambda/rss.py:140-142 | the Sonarr list as written succeeds iff every show has a `tvdb_id` attribute, fails with `tvdb_id` otherwise, and when it succeeds equals the intended list |
| LambdaRss.MovieWithoutYearBreaksFeed | backend-lambda/rss.py:41 | a movie stored without a year makes the movie feed raise `KeyError: 'year'`, while the intended feed lists it under its bare title |
| LambdaRss.ShowWithoutTvdbBreaksSonarr | backend-lambda/rss.py:141 | a show stored without a TVDB id makes the Sonarr list raise `KeyError: 'tvdb_id'`, while the intended list leaves it out |
| CacheWarmer.ReleaseYear | backend-lambda/cache_warmer.py:56 | a missing date or one shorter than four characters gives no year; four leading digits give their value; four characters that are not an integer give `int()`'s ValueError text |
| CacheWarmer.NormalizeItem | backend-lambda/cache_warmer.py:42-66 | the item's own media type, else the list's; a show's name and first air date, anything else's title and release date; id, overview, poster and vote copied; fails exactly when the year does not parse |
| CacheWarmer.NormalizeAllOutcome | backend-lambda/cache_warmer.py:104 | the list comprehension succeeds iff every item normalises, and then holds every item normalised, in order |
| CacheWarmer.Pair | backend-lambda/cache_warmer.py:92-95 | every pass visits one of the three media types and one of the four supported locales |
| CacheWarmer.Results | backend-lambda/cache_warmer.py:91-137 | after n passes, `results` has exactly n entries |
| CacheWarmer.ApiKey | backend-lambda/cache_warmer.py:18-28 | the secret's non-empty `TMDB_API_KEY`, or the error for an unset ARN, for an unreadable secret, or for a missing or empty key |
| CacheWarmer.PairAt | backend-lambda/cache_warmer.py:94-95 | locales are the outer loop and media types the inner one: pass 3·l + t visits media type t in locale l |
| CacheWarmer.ResultKeysDistinct | backend-lambda/cache_warmer.py:96 | distinct passes have distinct `"{media_type}-{locale}"` keys |
| CacheWarmer.ResultsKeyed | backend-lambda/cache_warmer.py:91-137 | the final results have twelve distinct keys, and each key of a media type and locale holds that pass's own outcome |
| CacheWarmer.SuccessWroteObject | backend-lambda/cache_warmer.py:99-123 | a pass succeeds only when TMDB answered and the bucket write of `trending-{media_type}-{locale}.json` (JSON, cached for an hour) did not raise; it counts the items TMDB returned and the bytes written |
| CacheWarmer.Handler | backend-lambda/cache_warmer.py:69-152 | no bucket: 500 before any request; no API key: 500 with the reason; otherwise all twelve lists are fetched in order, every object written is recorded, and the status is 200 exactly when every pass succeeded |
| CacheWarmer.WarmAll | backend-lambda/cache_warmer.py:91-137 | the nested loops fill `results` with the twelve passes' outcomes, fetch the twelve pairs in order and write the successful lists |
| CacheWarmer.WarmPair | backend-lambda/cache_warmer.py:96-137 | one pass: an HTTP error is recorded as `TMDB HTTP {status}`, any other exception as its text, otherwise the normalised list is written and counted |
| CacheWarmer.NextPass | backend-lambda/cache_warmer.py:94-137 | one more pass appends its own entry, its fetch and its upload, if any |
| CacheWarmer.ImportFrom | backend-lambda/cache_warmer.py:12 | `from m import names` succeeds iff the module defines every name, and otherwise raises `ImportError` naming one it lacks |
| CacheWarmer.WarmerImportFails | backend-lambda/cache_warmer.py:12 | as written the import of `put_s3_object` from `aws_sigv4` raises `ImportError`, so the handler never runs; with the bucket write defined the import succeeds |
| CacheWarmer.KeyFresh | backend-lambda/cache_warmer.py:119-136 | the next pass's key is not yet in `results`, so the assignment appends a new entry |

## Left out

- HTTP transport: the TMDB, TVDB, plex.tv and Plex server clients, the DynamoDB `_request` transport, `get_secret`, the push service request and `put_s3_object`. Each is a parameter whose answer is an input; only the shaping of requests and responses is modelled.
- Cryptographic primitives (HMAC-SHA256, SHA-256, PBKDF2, AES-GCM, HKDF, ECDH and ECDSA on P-256): uninterpreted fields of the `Crypto` bundle. The facts used about them (UTF-8 round trip, digest and key lengths, AES-GCM opening what it sealed, curve point sizes) are requires of the members that need them. Elliptic-curve point validity is an uninterpreted predicate.
- The clock, `os.urandom`, `secrets` and `uuid4`: parameters.
- Concurrency and async machinery: the `asyncio` season fetches, background tasks and ad-hoc event loops. Each atomic DynamoDB update expression is one sequential step of the store.
- Floating point: a DynamoDB number that is not an integer is kept as its text (`PyFloat`), and `vote_average` is a `real` that is copied and never computed with.
- Logging (`print` and the logger calls) and the scripts' `argparse` handling and printed output. The comparison report is modelled as the sorted lists it prints.
- JSON serialisation of arbitrary data: `json.dumps` is the `dump` parameter of the cache warmer, and `send_push` takes its payload already serialised. The VAPID claims (`JsonVal`) are strings and integers only; a boolean, float, `None` or nested claim cannot be expressed. The JSON codec of the multi-tenant tokens is a parameter; its round trip is a precondition (`PayloadRoundTrip`) of the lemmas that need it.
- The XML rendering of `feedgen`. A feed is its channel fields and its entries in order.
- Python's `str` on non-ASCII text: `lower` and `strip` are modelled for ASCII case and whitespace only.
- `int()` of text with underscores between digits, or with non-ASCII digits or whitespace, which Python accepts. The model accepts ASCII whitespace around an optional sign and decimal digits only.
- Base64.DecodePadded: strict, unlike Python's non-validating `b64decode`: characters outside the alphabet, which Python drops, and padding past a full group, which Python ignores, are refused here.
- SharedTokens.GetUserFromToken: decodes with the strict `Base64.DecodePadded`, so a middle segment Python still reads gives no name here; `YWJj=` is restored to `YWJj====`, which Python reads as "abc".
- TenantAuth.VerifyTenantSessionToken: decodes the payload with the strict `Base64.DecodePadded`, so a payload segment Python still reads is refused here as undecodable. An undecodable or invalid payload is refused with the fixed detail "Invalid token payload", where the source's detail is the text of the decoding or validation error (backend/auth.py:127-128).
- TokenCrypto.KeyBytes: decodes with the strict `Base64.DecodePadded`; Python's first decoder drops characters outside the alphabet and its `b64decode` fallback drops `-` and `_`, so some keys they read are refused here.
- The quoting inside the text of a `ValueError` whose `repr` needs escaping.
- `strftime("%Y")` is modelled unpadded (glibc behaviour), and `datetime` values are assumed valid dates.
- URL parsing in the VAPID audience: whitespace handling and IPv6 hosts of `urlparse` are not modelled.
- `data.get('results')` when TMDB's body is not a dictionary: the decoded body is taken to be one.
- The SQLite database of the self-hosted backend (`backend/database.py`), the tenant store and routes (`backend/tenants.py`, `backend/tenant_routes.py`, `backend/auth_routes.py`) and `backend/main.py`. They are route guards and plumbing around external calls; tenant lookups are read-only maps here.
- The cloud provider behind the store interface (providers/aws/database.py) is not part of this model. `Storage.Store.SyncLibrary`, `Storage.Store.FindByTitle`, `Storage.Store.FindByTvdbId` and the Plex-GUID cache follow the interface's documentation (shared/database.py) rather than an implementation.
- The Azure and GCP providers (`NotImplementedError` stubs), configuration modules, the provider registry and the search and trending pass-through endpoints.
- `shared.plex` and `shared.webpush`, imported by shared/app.py, are not part of this model. backend/plex.py and backend-lambda/webpush.py stand in for them.
- `put_s3_object` is imported by backend-lambda/cache_warmer.py from backend-lambda/aws_sigv4.py, which does not define it (see Findings). The model takes the bucket write as a parameter.
- `send_push`'s default `ttl` of 86400 seconds: the time to live is always given by the caller.
- Storage.Store.MarkAsAdded: the serverless `mark_as_added` returns a boolean, while the store interface returns the updated request. The model returns the updated request, which carries the same information.
- Storage.Store.FindByTvdbId: models the lookup the store interface documents (shared/database.py:50-52), not the serverless implementation, which never finds anything (see Findings). DynamoDB's query order is taken to be ascending TMDB id, so the request found is the one with the lowest TMDB id.
- Storage.Store.UpdatePlexGuid: the source's unconditional `update_item` on a key with no item creates an item holding only the key and the GUID; the model changes nothing for a missing key. The webhook calls it only right after a successful mark, when the item exists.
- Storage.Store.GetAllRequests: with a media type the serverless store issues one `Query` and keeps only its first page, since `DynamoDBClient.query` does not follow `LastEvaluatedKey`; the model lists every matching request, as if they all fit in one page.
- Storage.Store.ScanScope: the same single-page limit of a typed listing is not modelled; the listing holds every request in scope.
- SharedTokens.VerifySessionToken: `now` is the clock read in whole seconds. `time.time()` is a float, so a token exactly thirty days old passes here but is refused a fraction of a second later in the source.
- LambdaAuth.VerifyLegacySessionToken: `now` is the clock read in whole seconds, with the same consequence at exactly thirty days.
- TenantAuth.VerifyTenantSessionToken: `now` is the clock read in whole seconds; the source compares the float clock with the expiry.
- TenantAuth.VerifyLegacyToken: `now` is the clock read in whole seconds, with the same consequence at exactly thirty days.

## Findings

| source | as written | input that shows it | evidently intended | confidence | as-written member | corrected member |
|---|---|---|---|---|---|---|
| backend-lambda/rss.py:39-54 | the feed loops and the Radarr and Sonarr lists read `req['year']`, `req['overview']`, `req['imdb_id']`, `req['tvdb_id']` and `req['poster_path']` by indexing, but `add_request` (backend-lambda/database.py:56-67) stores none of these attributes when it is empty, so the lookup raises `KeyError` | a movie added with no year makes the whole movie feed raise `KeyError: 'year'`; a show added without a TVDB id makes `generate_sonarr_json` raise `KeyError: 'tvdb_id'` | read each optional attribute with `.get`, as the unified application's `list_radarr` does, so a missing attribute counts as empty | not executed | LambdaRss.MovieWithoutYearBreaksFeed | LambdaRss.GenerateRss |
| backend/rss.py:43-50 | the self-hosted store's `created_at` defaults to SQLite's `CURRENT_TIMESTAMP` (backend/database.py:25), text with no offset; `fromisoformat` reads it as a naive `datetime`, and feedgen's `pubDate` raises `ValueError` on a naive one, which no route catches (backend/main.py:230-251) | any request added without an explicit date, e.g. `created_at` = "2024-01-15 10:30:00": every RSS feed listing it answers 500 | a naive date read as UTC, as the serverless `_get_pub_date` does (backend-lambda/rss.py:21) | not executed | BackendRss.SqliteTimestampBreaksFeed | BackendRss.GenerateRssUtc |
| backend-lambda/cache_warmer.py:12 | imports `put_s3_object` from `aws_sigv4`, which defines no such function (backend-lambda/aws_sigv4.py defines `_sign`, `_get_signature_key`, `_sha256_hash`, `sign_request` and `get_secret`) | loading the module for any invocation raises `ImportError: cannot import name 'put_s3_object'`, so `handler` never runs | an S3 PUT helper beside `get_secret`, called as `handler` calls it | not executed | CacheWarmer.WarmerImportFails | CacheWarmer.Handler |
| backend-lambda/database.py:159-174 | `find_by_tvdb_id` passes `filter_expression=` to `DynamoDBClient.query` (backend-lambda/dynamodb_lite.py:169-174), which declares no such parameter; the TypeError is caught by the function's own `except Exception`, which returns None | any lookup, e.g. a pending tv request with TVDB id 81189 looked up by 81189, gives None instead of that request, so webhook steps 2 and 4 never match in the serverless store | query the media type's partition and return the first item whose `tvdb_id` equals the given id, as the store interface documents | not executed | Storage.FindByTvdbIdAsWrittenNeverFinds | Storage.Store.FindByTvdbId |
