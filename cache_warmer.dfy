/** The cache warmer: once a day it fetches TMDB's weekly trending lists
    for every supported locale and media type, keeps only the fields the
    frontend reads, and writes each list to the bucket CloudFront serves.
    The TMDB request, the JSON serialisation and the bucket write are
    parameters. */
module CacheWarmer {
  import opened Common
  import opened Text
  import opened Dicts
  import opened Seqs

  /** The locales the frontend offers. */
  const SupportedLocales: seq<string> := ["en", "es", "fr", "de"]

  /** TMDB's trending lists, in the order the handler fetches them. */
  const MediaTypes: seq<string> := ["all", "movie", "tv"]

  /** One item of a TMDB trending list, reduced to the fields the
      normaliser reads; None for a field the item lacks. */
  datatype TmdbItem = TmdbItem(id: Option<int>, mediaType: Option<string>, title: Option<string>,
                               name: Option<string>, releaseDate: Option<string>, firstAirDate: Option<string>,
                               overview: Option<string>, posterPath: Option<string>, voteAverage: Option<real>)

  /** An item in the frontend's format: exactly these seven fields. */
  datatype Normalized = Normalized(id: Option<int>, title: Option<string>, year: Option<int>,
                                   overview: Option<string>, posterPath: Option<string>,
                                   mediaType: Option<string>, voteAverage: Option<real>)

  /** `int(date_str[:4])` when the date has at least four characters, None
      for a shorter or missing date, and the `ValueError` text when the
      first four characters are not an integer. */
  function ReleaseYear(date: Option<string>): (r: Result<Option<int>, string>)
    ensures date.None? || |date.value| < 4 ==> r == Ok(None)
    ensures date.Some? && |date.value| >= 4 && IsDigits(date.value[..4]) ==> r == Ok(Some(DigitsValue(date.value[..4])))
    ensures date.Some? && |date.value| >= 4 && ParseInt(date.value[..4]).None? ==>
      r == Err("invalid literal for int() with base 10: '" + date.value[..4] + "'")
  {
    if date.None? || |date.value| < 4 then Ok(None)
    else
      if IsDigits(date.value[..4]) then ParseDigits(date.value[..4]); Ok(Some(DigitsValue(date.value[..4])))
      else match ParseInt(date.value[..4])
        case Some(y) => Ok(Some(y))
        case None => Err("invalid literal for int() with base 10: '" + date.value[..4] + "'")
  }

  /** `normalize_item`: the item's own media type, else the list's; a show's
      name and first air date, anything else's title and release date. */
  function NormalizeItem(item: TmdbItem, defaultType: Option<string>): (r: Result<Normalized, string>)
    ensures var mediaType := if item.mediaType.Some? then item.mediaType else defaultType;
      var date := if mediaType == Some("tv") then item.firstAirDate else item.releaseDate;
      && (r.Ok? <==> ReleaseYear(date).Ok?)
      && (r.Err? ==> r.error == ReleaseYear(date).error)
      && (r.Ok? ==> r.value.year == ReleaseYear(date).value)
      && (r.Ok? ==> r.value.mediaType == mediaType)
      && (r.Ok? ==> r.value.title == if mediaType == Some("tv") then item.name else item.title)
      && (r.Ok? ==> r.value.id == item.id && r.value.overview == item.overview)
      && (r.Ok? ==> r.value.posterPath == item.posterPath && r.value.voteAverage == item.voteAverage)
  {
    var mediaType := if item.mediaType.Some? then item.mediaType else defaultType;
    var title := if mediaType == Some("tv") then item.name else item.title;
    var date := if mediaType == Some("tv") then item.firstAirDate else item.releaseDate;
    match ReleaseYear(date)
    case Err(e) => Err(e)
    case Ok(year) => Ok(Normalized(item.id, title, year, item.overview, item.posterPath, mediaType, item.voteAverage))
  }

  /** The media type a list's items default to: its own, except for the
      mixed `all` list, whose items carry theirs. */
  function DefaultType(mediaType: string): Option<string> {
    if mediaType == "movie" then Some("movie") else if mediaType == "tv" then Some("tv") else None
  }

  /** `[normalize_item(item, default_type) for item in results]`: the first
      error, or every item normalised. */
  function NormalizeAll(items: seq<TmdbItem>, defaultType: Option<string>): Result<seq<Normalized>, string> {
    Collect(seq(|items|, i requires 0 <= i < |items| => NormalizeItem(items[i], defaultType)))
  }

  /** The normalised list keeps every item, in order, unless one fails. */
  lemma NormalizeAllOutcome(items: seq<TmdbItem>, defaultType: Option<string>)
    ensures NormalizeAll(items, defaultType).Ok? <==>
      forall i :: 0 <= i < |items| ==> NormalizeItem(items[i], defaultType).Ok?
    ensures NormalizeAll(items, defaultType).Ok? ==>
      |NormalizeAll(items, defaultType).value| == |items|
      && forall i :: 0 <= i < |items| ==>
        NormalizeAll(items, defaultType).value[i] == NormalizeItem(items[i], defaultType).value
  {
    var rs := seq(|items|, i requires 0 <= i < |items| => NormalizeItem(items[i], defaultType));
    CollectOutcome(rs);
    assert forall i :: 0 <= i < |items| ==> rs[i] == NormalizeItem(items[i], defaultType);
  }

  /** What `fetch_trending` gives: the decoded body (its `results`, None
      when absent), an HTTP error status, or another exception's text. */
  datatype FetchOutcome = Fetched(results: Option<seq<TmdbItem>>) | HttpError(status: int) | FetchFailed(message: string)

  /** The arguments of one `put_s3_object` call. */
  datatype PutObject = PutObject(bucket: string, key: string, data: Bytes, region: string,
                                 contentType: string, cacheControl: string)

  /** What the handler calls out to: the TMDB request (API key, media type,
      locale), `json.dumps` of a normalised list encoded as UTF-8, and the
      bucket write, which gives the text of the exception it raises, if
      any. */
  datatype Services = Services(fetch: (string, string, string) -> FetchOutcome,
                               dump: seq<Normalized> -> Bytes,
                               put: PutObject -> Option<string>)

  /** One entry of `results`. */
  datatype PairResult = Success(items: nat, bytes: nat) | Failed(error: string)

  /** `"{media_type}-{locale}"` */
  function ResultKey(mediaType: string, locale: string): string {
    mediaType + "-" + locale
  }

  /** `"trending-{media_type}-{locale}.json"` */
  function ObjectKey(mediaType: string, locale: string): string {
    "trending-" + mediaType + "-" + locale + ".json"
  }

  /** The i-th (media type, locale) pair the handler visits: locales outer,
      media types inner. */
  function Pair(i: nat): (p: (string, string))
    requires i < 12
    ensures p.0 in MediaTypes && p.1 in SupportedLocales
  {
    (MediaTypes[i % 3], SupportedLocales[i / 3])
  }

  /** One pass of the inner loop's body, for bucket, region and API key:
      its entry in `results` and the object it tried to write. */
  function Step(bucket: string, region: string, apiKey: string, svc: Services, mediaType: string, locale: string)
    : (PairResult, Option<PutObject>)
  {
    match svc.fetch(apiKey, mediaType, locale)
    case HttpError(status) => (Failed("TMDB HTTP " + IntToString(status)), None)
    case FetchFailed(message) => (Failed(message), None)
    case Fetched(results) =>
      match NormalizeAll(results.GetOr([]), DefaultType(mediaType))
      case Err(message) => (Failed(message), None)
      case Ok(normalized) =>
        var data := svc.dump(normalized);
        var obj := PutObject(bucket, ObjectKey(mediaType, locale), data, region,
                             "application/json", "public, max-age=3600");
        match svc.put(obj)
        case Some(message) => (Failed(message), Some(obj))
        case None => (Success(|normalized|, |data|), Some(obj))
  }

  /** `results` after the first n passes. */
  function Results(bucket: string, region: string, apiKey: string, svc: Services, n: nat): (r: Dict<string, PairResult>)
    requires n <= 12
    ensures |r| == n
  {
    seq(n, i requires 0 <= i < n => (ResultKey(Pair(i).0, Pair(i).1),
                                      Step(bucket, region, apiKey, svc, Pair(i).0, Pair(i).1).0))
  }

  /** The objects written in the first n passes, in order. */
  function Uploads(bucket: string, region: string, apiKey: string, svc: Services, n: nat): seq<PutObject>
    requires n <= 12
  {
    if n == 0 then []
    else
      var up := Step(bucket, region, apiKey, svc, Pair(n - 1).0, Pair(n - 1).1).1;
      Uploads(bucket, region, apiKey, svc, n - 1) + (if up.Some? then [up.value] else [])
  }

  predicate AllSucceeded(results: Dict<string, PairResult>) {
    forall i :: 0 <= i < |results| ==> results[i].1.Success?
  }

  /** `get_tmdb_api_key`: the secret's `TMDB_API_KEY`, or the text of the
      exception raised when the secret's ARN is unset or empty, when the
      secret cannot be read, or when the key is missing or empty. */
  function ApiKey(arn: Option<string>, getSecret: string -> Result<Dict<string, string>, string>)
    : (r: Result<string, string>)
    ensures r.Ok? <==> StrTruthy(arn) && getSecret(arn.value).Ok? && StrTruthy(Get(getSecret(arn.value).value, "TMDB_API_KEY"))
    ensures r.Ok? ==> Some(r.value) == Get(getSecret(arn.value).value, "TMDB_API_KEY") && r.value != ""
    ensures !StrTruthy(arn) ==> r == Err("APP_SECRET_ARN not configured")
    ensures StrTruthy(arn) && getSecret(arn.value).Err? ==> r == Err(getSecret(arn.value).error)
    ensures StrTruthy(arn) && getSecret(arn.value).Ok? && !StrTruthy(Get(getSecret(arn.value).value, "TMDB_API_KEY")) ==>
      r == Err("TMDB_API_KEY not found in secrets")
  {
    if !StrTruthy(arn) then Err("APP_SECRET_ARN not configured")
    else match getSecret(arn.value)
      case Err(message) => Err(message)
      case Ok(secrets) =>
        var key := Get(secrets, "TMDB_API_KEY");
        if StrTruthy(key) then Ok(key.value) else Err("TMDB_API_KEY not found in secrets")
  }

  /** The handler's response body: a message, or the summary (its JSON
      serialisation is not modelled). */
  datatype Body = Message(text: string) | Summary(success: bool, results: Dict<string, PairResult>)

  datatype Response = Response(statusCode: int, body: Body)

  /** The pair index of locale li and media type ti. */
  lemma PairAt(li: nat, ti: nat)
    requires li < 4 && ti < 3
    ensures 3 * li + ti < 12 && Pair(3 * li + ti) == (MediaTypes[ti], SupportedLocales[li])
  {
    var i := 3 * li + ti;
    assert i / 3 == li && i % 3 == ti;
  }

  /** Distinct passes have distinct result keys. */
  lemma ResultKeysDistinct(i: nat, j: nat)
    requires i < 12 && j < 12 && i != j
    ensures ResultKey(Pair(i).0, Pair(i).1) != ResultKey(Pair(j).0, Pair(j).1)
  {
    var ki := ResultKey(Pair(i).0, Pair(i).1);
    var kj := ResultKey(Pair(j).0, Pair(j).1);
    // Every locale has two letters, and the media types have distinct lengths.
    assert |ki| == |Pair(i).0| + 3 && |kj| == |Pair(j).0| + 3;
    assert ki[|ki| - 2..] == Pair(i).1 && kj[|kj| - 2..] == Pair(j).1;
    assert i == 3 * (i / 3) + i % 3 && j == 3 * (j / 3) + j % 3;
  }

  /** The results name each of the twelve passes once: twelve distinct
      keys `"{media_type}-{locale}"`, each holding its own pass's outcome. */
  lemma ResultsKeyed(bucket: string, region: string, apiKey: string, svc: Services)
    ensures var r := Results(bucket, region, apiKey, svc, 12);
      && DistinctKeys(r)
      && forall li, ti :: 0 <= li < 4 && 0 <= ti < 3 ==>
        Get(r, ResultKey(MediaTypes[ti], SupportedLocales[li]))
          == Some(Step(bucket, region, apiKey, svc, MediaTypes[ti], SupportedLocales[li]).0)
  {
    var r := Results(bucket, region, apiKey, svc, 12);
    forall i, j | 0 <= i < j < 12
      ensures r[i].0 != r[j].0
    {
      ResultKeysDistinct(i, j);
    }
    forall li, ti | 0 <= li < 4 && 0 <= ti < 3
      ensures Get(r, ResultKey(MediaTypes[ti], SupportedLocales[li]))
        == Some(Step(bucket, region, apiKey, svc, MediaTypes[ti], SupportedLocales[li]).0)
    {
      PairAt(li, ti);
      GetAt(r, 3 * li + ti);
    }
  }

  /** A pass succeeds only after writing its list, as JSON cached for an
      hour, under `trending-{media_type}-{locale}.json`; the success entry
      counts the items TMDB returned and the bytes written. */
  lemma SuccessWroteObject(bucket: string, region: string, apiKey: string, svc: Services,
                           mediaType: string, locale: string)
    ensures var s := Step(bucket, region, apiKey, svc, mediaType, locale);
      s.0.Success? ==>
        && svc.fetch(apiKey, mediaType, locale).Fetched?
        && s.0.items == |svc.fetch(apiKey, mediaType, locale).results.GetOr([])|
        && s.1.Some? && svc.put(s.1.value).None?
        && s.1.value.key == ObjectKey(mediaType, locale) && s.1.value.bucket == bucket
        && s.1.value.contentType == "application/json" && s.1.value.cacheControl == "public, max-age=3600"
        && s.0.bytes == |s.1.value.data|
  {
    var f := svc.fetch(apiKey, mediaType, locale);
    if f.Fetched? {
      NormalizeAllOutcome(f.results.GetOr([]), DefaultType(mediaType));
    }
  }

  /** `handler`: with no bucket configured, a 500 before anything else;
      with no API key, a 500 with the reason; otherwise all twelve lists
      are fetched and written, each failure recorded in its own entry, and
      the status is 200 exactly when every pass succeeded. `fetched` lists
      the TMDB requests made and `uploads` the objects written. */
  method Handler(bucketEnv: Option<string>, regionEnv: Option<string>, arn: Option<string>,
                 getSecret: string -> Result<Dict<string, string>, string>, svc: Services)
    returns (resp: Response, fetched: seq<(string, string)>, uploads: seq<PutObject>)
    ensures !StrTruthy(bucketEnv) ==>
      resp == Response(500, Message("TRENDING_S3_BUCKET not configured")) && fetched == [] && uploads == []
    ensures StrTruthy(bucketEnv) && ApiKey(arn, getSecret).Err? ==>
      resp == Response(500, Message(ApiKey(arn, getSecret).error)) && fetched == [] && uploads == []
    ensures StrTruthy(bucketEnv) && ApiKey(arn, getSecret).Ok? ==>
      var results := Results(bucketEnv.value, regionEnv.GetOr("us-east-1"), ApiKey(arn, getSecret).value, svc, 12);
      && fetched == Visited(12)
      && uploads == Uploads(bucketEnv.value, regionEnv.GetOr("us-east-1"), ApiKey(arn, getSecret).value, svc, 12)
      && resp == Response(if AllSucceeded(results) then 200 else 500, Summary(AllSucceeded(results), results))
  {
    fetched, uploads := [], [];
    if !StrTruthy(bucketEnv) {
      return Response(500, Message("TRENDING_S3_BUCKET not configured")), fetched, uploads;
    }
    var bucket := bucketEnv.value;
    var region := regionEnv.GetOr("us-east-1");
    var key := ApiKey(arn, getSecret);
    if key.Err? {
      return Response(500, Message(key.error)), fetched, uploads;
    }
    var apiKey := key.value;
    var results;
    results, fetched, uploads := WarmAll(bucket, region, apiKey, svc);
    var ok := AllSucceeded(results);
    resp := Response(if ok then 200 else 500, Summary(ok, results));
  }

  /** The handler's loop state after the first n passes: `results`, the
      TMDB requests made and the objects written. */
  ghost predicate AfterPasses(bucket: string, region: string, apiKey: string, svc: Services, n: nat,
                              results: Dict<string, PairResult>, fetched: seq<(string, string)>,
                              uploads: seq<PutObject>)
  {
    && n <= 12
    && results == Results(bucket, region, apiKey, svc, n)
    && fetched == Visited(n)
    && uploads == Uploads(bucket, region, apiKey, svc, n)
  }

  /** The (media type, locale) pairs of the first n passes. */
  function Visited(n: nat): (v: seq<(string, string)>)
    requires n <= 12
    ensures |v| == n && forall i :: 0 <= i < n ==> v[i] == Pair(i)
  {
    if n == 0 then [] else Visited(n - 1) + [Pair(n - 1)]
  }

  /** The nested loops of `handler`: every locale, and within it every
      media type, one pass each, filling `results`. */
  method WarmAll(bucket: string, region: string, apiKey: string, svc: Services)
    returns (results: Dict<string, PairResult>, fetched: seq<(string, string)>, uploads: seq<PutObject>)
    ensures results == Results(bucket, region, apiKey, svc, 12)
    ensures fetched == Visited(12)
    ensures uploads == Uploads(bucket, region, apiKey, svc, 12)
  {
    fetched, uploads := [], [];
    results := [];
    ghost var n := 0;
    var li := 0;
    while li < |SupportedLocales|
      invariant 0 <= li <= |SupportedLocales| == 4 && n == 3 * li
      invariant AfterPasses(bucket, region, apiKey, svc, n, results, fetched, uploads)
      decreases |SupportedLocales| - li
    {
      var ti := 0;
      while ti < |MediaTypes|
        invariant 0 <= ti <= |MediaTypes| == 3 && n == 3 * li + ti
        invariant AfterPasses(bucket, region, apiKey, svc, n, results, fetched, uploads)
      {
        PairAt(li, ti);
        results, fetched, uploads :=
          WarmNext(bucket, region, apiKey, svc, SupportedLocales[li], MediaTypes[ti], n, results, fetched, uploads);
        n := n + 1;
        ti := ti + 1;
      }
      li := li + 1;
    }
  }

  /** One pass of the inner loop: fetch and write the n-th list and record
      its outcome under its key. */
  method WarmNext(bucket: string, region: string, apiKey: string, svc: Services, locale: string, mediaType: string,
                  ghost n: nat, results: Dict<string, PairResult>, fetched: seq<(string, string)>,
                  uploads: seq<PutObject>)
    returns (results': Dict<string, PairResult>, fetched': seq<(string, string)>, uploads': seq<PutObject>)
    requires n < 12 && Pair(n) == (mediaType, locale)
    requires AfterPasses(bucket, region, apiKey, svc, n, results, fetched, uploads)
    ensures AfterPasses(bucket, region, apiKey, svc, n + 1, results', fetched', uploads')
  {
    fetched' := fetched + [(mediaType, locale)];
    var entry, upload := WarmPair(bucket, region, apiKey, svc, mediaType, locale);
    uploads' := if upload.Some? then uploads + [upload.value] else uploads;
    KeyFresh(results, n);
    PutFresh(results, ResultKey(mediaType, locale), entry);
    results' := Put(results, ResultKey(mediaType, locale), entry);
    NextPass(bucket, region, apiKey, svc, n);
  }

  /** The inner loop's body: fetch one list, normalise it, write it, and
      record the outcome; every exception becomes a failure entry. */
  method WarmPair(bucket: string, region: string, apiKey: string, svc: Services, mediaType: string, locale: string)
    returns (entry: PairResult, upload: Option<PutObject>)
    ensures (entry, upload) == Step(bucket, region, apiKey, svc, mediaType, locale)
  {
    upload := None;
    match svc.fetch(apiKey, mediaType, locale) {
      case HttpError(status) =>
        entry := Failed("TMDB HTTP " + IntToString(status));
      case FetchFailed(message) =>
        entry := Failed(message);
      case Fetched(items) =>
        match NormalizeAll(items.GetOr([]), DefaultType(mediaType)) {
          case Err(message) =>
            entry := Failed(message);
          case Ok(normalized) =>
            var data := svc.dump(normalized);
            var obj := PutObject(bucket, ObjectKey(mediaType, locale), data, region,
                                 "application/json", "public, max-age=3600");
            upload := Some(obj);
            var raised := svc.put(obj);
            entry := if raised.Some? then Failed(raised.value) else Success(|normalized|, |data|);
        }
    }
  }

  /** One more pass adds its entry, its request and its object. */
  lemma NextPass(bucket: string, region: string, apiKey: string, svc: Services, n: nat)
    requires n < 12
    ensures var s := Step(bucket, region, apiKey, svc, Pair(n).0, Pair(n).1);
      && Results(bucket, region, apiKey, svc, n + 1)
        == Results(bucket, region, apiKey, svc, n) + [(ResultKey(Pair(n).0, Pair(n).1), s.0)]
      && Uploads(bucket, region, apiKey, svc, n + 1)
        == Uploads(bucket, region, apiKey, svc, n) + (if s.1.Some? then [s.1.value] else [])
  {
  }

  /** The next pass's key is not yet in `results`. */
  lemma KeyFresh(results: Dict<string, PairResult>, n: nat)
    requires n < 12 && |results| == n
    requires forall i :: 0 <= i < n ==> results[i].0 == ResultKey(Pair(i).0, Pair(i).1)
    ensures ResultKey(Pair(n).0, Pair(n).1) !in Keys(results)
  {
    KeysAt(results);
    if ResultKey(Pair(n).0, Pair(n).1) in Keys(results) {
      var i :| 0 <= i < |results| && results[i].0 == ResultKey(Pair(n).0, Pair(n).1);
      ResultKeysDistinct(i, n);
    }
  }

  // ----- The module as written: its import of `put_s3_object` -----

  /** The names backend-lambda/aws_sigv4.py binds at module level: its own
      imports and its five functions. */
  const SigV4Names: set<string> :=
    {"annotations", "hashlib", "hmac", "json", "os", "datetime", "timezone", "quote", "httpx",
     "_sign", "_get_signature_key", "_sha256_hash", "sign_request", "get_secret"}

  /** The names the cache warmer imports from it. */
  const WarmerImports: seq<string> := ["get_secret", "put_s3_object"]

  /** The text of the `ImportError` for a name a module lacks. */
  function ImportError(name: string, source: string): string {
    "cannot import name '" + name + "' from '" + source + "'"
  }

  /** `from <source> import <names>`: every name bound when the module
      defines them all, otherwise `ImportError` on the first it lacks. */
  function ImportFrom(source: string, defined: set<string>, names: seq<string>): (r: Result<(), string>)
    ensures r.Ok? <==> forall i :: 0 <= i < |names| ==> names[i] in defined
    ensures r.Err? ==>
      exists i :: 0 <= i < |names| && names[i] !in defined && r.error == ImportError(names[i], source)
  {
    if |names| == 0 then Ok(())
    else if names[0] !in defined then Err(ImportError(names[0], source))
    else
      var r := ImportFrom(source, defined, names[1..]);
      assert forall i :: 1 <= i < |names| ==> names[i] == names[1..][i - 1];
      r
  }

  /** As written the cache warmer cannot be loaded: `aws_sigv4` has no
      `put_s3_object`, so its import raises `ImportError` and `handler`
      never runs. With the bucket write defined, the import succeeds. */
  lemma WarmerImportFails()
    ensures ImportFrom("aws_sigv4", SigV4Names, WarmerImports) == Err(ImportError("put_s3_object", "aws_sigv4"))
    ensures ImportFrom("aws_sigv4", SigV4Names + {"put_s3_object"}, WarmerImports).Ok?
  {
    var tail := WarmerImports[1..];
    assert tail == ["put_s3_object"] && tail[1..] == [];
    assert |"put_s3_object"| == 13;
    assert "put_s3_object" !in SigV4Names;
    assert "get_secret" in SigV4Names;
  }
}
