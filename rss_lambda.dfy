/** The RSS feeds and the Radarr and Sonarr lists of the serverless
    backend, which reads its requests from DynamoDB. There an optional
    attribute that was empty when the request was added is absent from
    the stored item (None here), and reading it with `req[name]` raises
    `KeyError`. The generators below read every optional attribute as
    `req.get(name)` would; the functions named `...AsWritten` model the
    indexing as the code does it. */
module LambdaRss {
  import opened Common
  import opened Text
  import opened Storage
  import opened ArrLists
  import opened Feed
  import opened Seqs
  import BackendRss

  /** What `created_at` holds: a `datetime`, or the ISO text the table
      stores. */
  datatype CreatedAt = Stamp(moment: Moment) | Stored(text: string)

  /** `_get_pub_date`: a `datetime` is taken as is, a naive one tagged
      UTC; a text is parsed as the backend's feeds do, the current time
      standing in for an empty or unparseable one. */
  function PubDate(c: CreatedAt, now: Moment, fromIso: string -> Option<Moment>): (d: Moment)
    ensures c.Stamp? && c.moment.offset.None? ==> d == Moment(c.moment.wall, Some(0))
    ensures c.Stamp? && c.moment.offset.Some? ==> d == c.moment
    ensures c.Stored? && c.text == "" ==> d == now
    ensures c.Stored? && c.text != "" && fromIso(Replace(c.text, "Z", "+00:00")).None? ==> d == now
    ensures c.Stored? && c.text != "" && fromIso(Replace(c.text, "Z", "+00:00")).Some? ==>
      d == fromIso(Replace(c.text, "Z", "+00:00")).value
  {
    match c
    case Stamp(m) => AsUtc(m)
    case Stored(t) => PubDateOfText(t, now, fromIso)
  }

  /** A movie's GUID: the IMDb id when present, else the entry's title. */
  function MovieGuid(req: RequestItem): (g: string)
    ensures StrTruthy(req.imdbId) ==> g == req.imdbId.value
    ensures !StrTruthy(req.imdbId) ==> g == DisplayTitle(req.title, req.year)
  {
    if StrTruthy(req.imdbId) then req.imdbId.value else DisplayTitle(req.title, req.year)
  }

  /** A show's GUID: `"tvdb-{tvdb_id}"` when present, else the entry's
      title. */
  function TvGuid(req: RequestItem): (g: string)
    ensures IntTruthy(req.tvdbId) ==> g == TvdbGuid(req.tvdbId.value)
    ensures !IntTruthy(req.tvdbId) ==> g == DisplayTitle(req.title, req.year)
  {
    if IntTruthy(req.tvdbId) then TvdbGuid(req.tvdbId.value) else DisplayTitle(req.title, req.year)
  }

  /** The combined feed's GUID: IMDb for a movie that has one, TVDB for a
      show that has one, otherwise the title without its type label. */
  function CombinedGuid(req: RequestItem): (g: string)
    ensures req.mediaType == "movie" ==> g == MovieGuid(req)
    ensures req.mediaType == "tv" ==> g == TvGuid(req)
    ensures req.mediaType != "movie" && req.mediaType != "tv" ==> g == DisplayTitle(req.title, req.year)
  {
    if req.mediaType == "movie" && StrTruthy(req.imdbId) then req.imdbId.value
    else if req.mediaType == "tv" && IntTruthy(req.tvdbId) then TvdbGuid(req.tvdbId.value)
    else DisplayTitle(req.title, req.year)
  }

  function MovieEntry(req: RequestItem, now: Moment, fromIso: string -> Option<Moment>): FeedEntry {
    FeedEntry(EntryId("movie", req.tmdbId), DisplayTitle(req.title, req.year), Describe(req.overview),
              MovieGuid(req), TmdbPage + "movie/" + IntToString(req.tmdbId),
              PubDate(Stored(req.createdAt), now, fromIso))
  }

  function TvEntry(req: RequestItem, now: Moment, fromIso: string -> Option<Moment>): FeedEntry {
    FeedEntry(EntryId("tv", req.tmdbId), DisplayTitle(req.title, req.year), Describe(req.overview),
              TvGuid(req), TmdbPage + "tv/" + IntToString(req.tmdbId),
              PubDate(Stored(req.createdAt), now, fromIso))
  }

  function CombinedEntry(req: RequestItem, now: Moment, fromIso: string -> Option<Moment>): FeedEntry {
    FeedEntry(EntryId(req.mediaType, req.tmdbId),
              "[" + TypeLabel(req.mediaType) + "] " + DisplayTitle(req.title, req.year),
              Describe(req.overview), CombinedGuid(req),
              TmdbPage + req.mediaType + "/" + IntToString(req.tmdbId),
              PubDate(Stored(req.createdAt), now, fromIso))
  }

  function EntryOf(kind: FeedKind, req: RequestItem, now: Moment, fromIso: string -> Option<Moment>): FeedEntry {
    match kind
    case Movies => MovieEntry(req, now, fromIso)
    case Shows => TvEntry(req, now, fromIso)
    case All => CombinedEntry(req, now, fromIso)
  }

  /** The entries of a feed: one per request, in the order the requests
      come (newest first). */
  function Entries(kind: FeedKind, reqs: seq<RequestItem>, now: Moment, fromIso: string -> Option<Moment>)
    : (es: seq<FeedEntry>)
    ensures |es| == |reqs|
  {
    Map(reqs, EntryFn(kind, now, fromIso))
  }

  function EntryFn(kind: FeedKind, now: Moment, fromIso: string -> Option<Moment>): RequestItem -> FeedEntry {
    req => EntryOf(kind, req, now, fromIso)
  }

  /** The channel fields of each feed; the movie feed names Radarr. */
  function Channel(kind: FeedKind, baseUrl: string): (string, string, string) {
    match kind
    case Movies => ("Overseer Lite - Movie Requests", "Movie requests from Overseer Lite for Radarr",
                    baseUrl + "/rss/movies")
    case Shows => ("Overseer Lite - TV Show Requests", "TV show requests from Overseer Lite", baseUrl + "/rss/tv")
    case All => ("Overseer Lite - All Requests", "All media requests from Overseer Lite", baseUrl + "/rss/all")
  }

  /** `generate_movie_rss`, `generate_tv_rss` and `generate_combined_rss`
      with the requests already fetched and the clock read in UTC: a new
      feed with one entry added per request. A stored text that
      `fromisoformat` reads as naive makes the `pubDate` setter raise, as in
      the self-hosted backend. */
  method GenerateRss(kind: FeedKind, reqs: seq<RequestItem>, baseUrl: string, now: Moment,
                     fromIso: string -> Option<Moment>) returns (r: Result<FeedGenerator, string>)
    requires Aware(now)
    ensures r.Err? <==> exists i :: 0 <= i < |reqs| && NaiveStored(reqs[i].createdAt, fromIso)
    ensures r.Err? ==> r.error == NaiveDateError
    ensures r.Ok? ==> (r.value.title, r.value.description, r.value.link) == Channel(kind, baseUrl)
    ensures r.Ok? ==> r.value.language == "en" && r.value.lastBuildDate == now
    ensures r.Ok? ==> r.value.entries == Entries(kind, reqs, now, fromIso)
  {
    var channel := Channel(kind, baseUrl);
    var fg := new FeedGenerator(channel.0, channel.1, channel.2, now);
    var f := EntryFn(kind, now, fromIso);
    var ok := AddEntries(fg, reqs, f);
    assert forall i :: 0 <= i < |reqs| ==> f(reqs[i]).pubDate == PubDateOfText(reqs[i].createdAt, now, fromIso);
    DatedUnlessNaive(reqs, f, (req: RequestItem) => req.createdAt, now, fromIso);
    if ok {
      r := Ok(fg);
    } else {
      r := Err(NaiveDateError);
    }
  }

  /** Every GUID of the movie and TV feeds is the request's external id or,
      failing that, the entry's own title. */
  lemma GuidIsIdOrTitle(kind: FeedKind, reqs: seq<RequestItem>, now: Moment, fromIso: string -> Option<Moment>,
                        i: nat)
    requires kind != All && i < |reqs|
    ensures var e := Entries(kind, reqs, now, fromIso)[i];
      kind == Movies ==> e.guid == (if StrTruthy(reqs[i].imdbId) then reqs[i].imdbId.value else e.title)
    ensures var e := Entries(kind, reqs, now, fromIso)[i];
      kind == Shows ==> e.guid == (if IntTruthy(reqs[i].tvdbId) then TvdbGuid(reqs[i].tvdbId.value) else e.title)
  {
  }

  /** Where a request carries the external id, this feed's entry is the
      self-hosted backend's entry; they differ only in the fallback GUID. */
  lemma AgreesWithBackend(req: RequestItem, now: Moment, fromIso: string -> Option<Moment>)
    ensures StrTruthy(req.imdbId) ==> MovieEntry(req, now, fromIso) == BackendRss.MovieEntry(req, now, fromIso)
    ensures IntTruthy(req.tvdbId) ==> TvEntry(req, now, fromIso) == BackendRss.TvEntry(req, now, fromIso)
    ensures !StrTruthy(req.imdbId) ==>
      MovieEntry(req, now, fromIso) == BackendRss.MovieEntry(req, now, fromIso).(guid := DisplayTitle(req.title, req.year))
    ensures !IntTruthy(req.tvdbId) ==>
      TvEntry(req, now, fromIso) == BackendRss.TvEntry(req, now, fromIso).(guid := DisplayTitle(req.title, req.year))
  {
  }

  /** `generate_radarr_json`: one list item per movie request, in order. */
  method GenerateRadarrJson(reqs: seq<RequestItem>) returns (items: seq<RadarrItem>)
    ensures items == RadarrItems(reqs)
  {
    items := [];
    var i := 0;
    while i < |reqs|
      invariant 0 <= i <= |reqs|
      invariant items == RadarrItems(reqs[..i])
    {
      RadarrItemsSnoc(reqs, i);
      items := items + [RadarrEntry(reqs[i])];
      i := i + 1;
    }
    assert reqs[..i] == reqs;
  }

  /** `generate_sonarr_json`: the TVDB id of each show that has one, in
      order. */
  method GenerateSonarrJson(reqs: seq<RequestItem>) returns (items: seq<SonarrItem>)
    ensures items == SonarrItems(reqs)
  {
    items := [];
    var i := 0;
    while i < |reqs|
      invariant 0 <= i <= |reqs|
      invariant items == SonarrItems(reqs[..i])
    {
      if IntTruthy(reqs[i].tvdbId) {
        items := items + [SonarrEntry(reqs[i])];
      }
      assert reqs[..i + 1][..i] == reqs[..i];
      i := i + 1;
    }
    assert reqs[..i] == reqs;
  }

  // ----- The code as written: `req[name]` on an absent attribute -----

  /** The attributes a feed's loop reads with `req[name]`, in the order it
      reads them, and whether the request has each. */
  function IndexedAttributes(kind: FeedKind, req: RequestItem): seq<(string, bool)> {
    match kind
    case Movies => [("year", req.year.Some?), ("overview", req.overview.Some?), ("imdb_id", req.imdbId.Some?)]
    case Shows => [("year", req.year.Some?), ("overview", req.overview.Some?), ("tvdb_id", req.tvdbId.Some?)]
    case All =>
      [("year", req.year.Some?), ("overview", req.overview.Some?)]
      + (if req.mediaType == "movie" then [("imdb_id", req.imdbId.Some?)]
         else if req.mediaType == "tv" then [("tvdb_id", req.tvdbId.Some?)]
         else [])
  }

  /** The first attribute of `attrs` the request lacks. */
  function FirstMissing(attrs: seq<(string, bool)>): Option<string> {
    if |attrs| == 0 then None
    else if !attrs[0].1 then Some(attrs[0].0)
    else FirstMissing(attrs[1..])
  }

  /** The entry the loop body builds, or the `KeyError` it raises on the
      first absent attribute it reads, or, past those, the `ValueError` of
      the `pubDate` setter on a naive date. When it reads them all, each
      `req[name]` gives what `req.get(name)` gives. */
  function EntryAsWritten(kind: FeedKind, req: RequestItem, now: Moment, fromIso: string -> Option<Moment>)
    : Result<FeedEntry, string>
  {
    match FirstMissing(IndexedAttributes(kind, req))
    case Some(name) => Err(name)
    case None =>
      var e := EntryOf(kind, req, now, fromIso);
      if Aware(e.pubDate) then Ok(e) else Err(NaiveDateError)
  }

  /** A feed generator as written: the first exception, else the entries. */
  function RssAsWritten(kind: FeedKind, reqs: seq<RequestItem>, now: Moment, fromIso: string -> Option<Moment>)
    : Result<seq<FeedEntry>, string>
  {
    Collect(seq(|reqs|, i requires 0 <= i < |reqs| => EntryAsWritten(kind, reqs[i], now, fromIso)))
  }

  /** A request has every attribute a feed's loop indexes. */
  predicate HasIndexedAttributes(kind: FeedKind, req: RequestItem) {
    && req.year.Some? && req.overview.Some?
    && (kind == Movies || (kind == All && req.mediaType == "movie") ==> req.imdbId.Some?)
    && (kind == Shows || (kind == All && req.mediaType == "tv") ==> req.tvdbId.Some?)
  }

  lemma {:induction false} FirstMissingNone(attrs: seq<(string, bool)>)
    ensures FirstMissing(attrs).None? <==> forall i :: 0 <= i < |attrs| ==> attrs[i].1
  {
    if |attrs| > 0 {
      FirstMissingNone(attrs[1..]);
      assert forall i :: 1 <= i < |attrs| ==> attrs[i] == attrs[1..][i - 1];
    }
  }

  /** A loop body reads every attribute it indexes exactly when the
      request has them all. */
  lemma IndexedAttributesPresent(kind: FeedKind, req: RequestItem)
    ensures FirstMissing(IndexedAttributes(kind, req)).None? <==> HasIndexedAttributes(kind, req)
  {
    var a := IndexedAttributes(kind, req);
    FirstMissingNone(a);
    assert a[0].1 == req.year.Some? && a[1].1 == req.overview.Some?;
    if kind == Movies {
      assert a[2].1 == req.imdbId.Some?;
    } else if kind == Shows {
      assert a[2].1 == req.tvdbId.Some?;
    } else if req.mediaType == "movie" {
      assert a[2].1 == req.imdbId.Some?;
    } else if req.mediaType == "tv" {
      assert a[2].1 == req.tvdbId.Some?;
    } else {
      assert |a| == 2;
    }
  }

  /** The feeds as written produce the intended entries exactly when every
      request has every attribute the loop indexes and no naive stored
      date, and otherwise raise. */
  lemma RssAsWrittenOutcome(kind: FeedKind, reqs: seq<RequestItem>, now: Moment, fromIso: string -> Option<Moment>)
    requires Aware(now)
    ensures RssAsWritten(kind, reqs, now, fromIso).Ok? <==>
      forall i :: 0 <= i < |reqs| ==> HasIndexedAttributes(kind, reqs[i]) && !NaiveStored(reqs[i].createdAt, fromIso)
    ensures RssAsWritten(kind, reqs, now, fromIso).Ok? ==> RssAsWritten(kind, reqs, now, fromIso).value == Entries(kind, reqs, now, fromIso)
  {
    var rs := seq(|reqs|, i requires 0 <= i < |reqs| => EntryAsWritten(kind, reqs[i], now, fromIso));
    CollectOutcome(rs);
    forall i | 0 <= i < |reqs|
      ensures rs[i].Ok? <==> HasIndexedAttributes(kind, reqs[i]) && !NaiveStored(reqs[i].createdAt, fromIso)
    {
      IndexedAttributesPresent(kind, reqs[i]);
      PubDateOfTextAware(reqs[i].createdAt, now, fromIso);
    }
    if Collect(rs).Ok? {
      assert Collect(rs).value == Entries(kind, reqs, now, fromIso);
    }
  }

  /** One step of `generate_radarr_json` as written: it reads the year,
      the IMDb id and the poster path with `req[name]`. */
  function RadarrItemAsWritten(req: RequestItem): Result<RadarrItem, string> {
    if req.year.None? then Err("year")
    else if req.imdbId.None? then Err("imdb_id")
    else if req.posterPath.None? then Err("poster_path")
    else Ok(RadarrEntry(req))
  }

  /** `generate_radarr_json` as written: the first `KeyError`, else the
      list. */
  function RadarrJsonAsWritten(reqs: seq<RequestItem>): Result<seq<RadarrItem>, string> {
    Collect(seq(|reqs|, i requires 0 <= i < |reqs| => RadarrItemAsWritten(reqs[i])))
  }

  /** The Radarr list as written is the intended list exactly when every
      movie has a year, an IMDb id and a poster path. */
  lemma RadarrJsonAsWrittenOutcome(reqs: seq<RequestItem>)
    ensures RadarrJsonAsWritten(reqs).Ok? <==>
      forall i :: 0 <= i < |reqs| ==> reqs[i].year.Some? && reqs[i].imdbId.Some? && reqs[i].posterPath.Some?
    ensures RadarrJsonAsWritten(reqs).Ok? ==> RadarrJsonAsWritten(reqs).value == RadarrItems(reqs)
  {
    var rs := seq(|reqs|, i requires 0 <= i < |reqs| => RadarrItemAsWritten(reqs[i]));
    assert RadarrJsonAsWritten(reqs) == Collect(rs);
    CollectOutcome(rs);
    forall i | 0 <= i < |reqs|
      ensures rs[i].Ok? <==> reqs[i].year.Some? && reqs[i].imdbId.Some? && reqs[i].posterPath.Some?
      ensures rs[i].Ok? ==> rs[i].value == RadarrEntry(reqs[i])
    {
    }
    if Collect(rs).Ok? {
      var items := Collect(rs).value;
      forall i | 0 <= i < |reqs|
        ensures items[i] == RadarrItems(reqs)[i]
      {
      }
      assert items == RadarrItems(reqs);
    }
  }

  /** `generate_sonarr_json` as written: it reads the TVDB id with
      `req['tvdb_id']`. */
  function SonarrJsonAsWritten(reqs: seq<RequestItem>): Result<seq<SonarrItem>, string> {
    if |reqs| == 0 then Ok([])
    else match SonarrJsonAsWritten(reqs[..|reqs| - 1])
      case Err(e) => Err(e)
      case Ok(items) =>
        var req := reqs[|reqs| - 1];
        if req.tvdbId.None? then Err("tvdb_id")
        else Ok(items + (if IntTruthy(req.tvdbId) then [SonarrEntry(req)] else []))
  }

  /** The Sonarr list as written is the intended list exactly when every
      show has a TVDB id; otherwise it raises. */
  lemma {:induction false} SonarrJsonAsWrittenOutcome(reqs: seq<RequestItem>)
    ensures SonarrJsonAsWritten(reqs).Ok? <==> forall i :: 0 <= i < |reqs| ==> reqs[i].tvdbId.Some?
    ensures SonarrJsonAsWritten(reqs).Ok? ==> SonarrJsonAsWritten(reqs).value == SonarrItems(reqs)
    ensures SonarrJsonAsWritten(reqs).Err? ==> SonarrJsonAsWritten(reqs).error == "tvdb_id"
  {
    if |reqs| > 0 {
      var init := reqs[..|reqs| - 1];
      SonarrJsonAsWrittenOutcome(init);
      assert forall i :: 0 <= i < |init| ==> init[i] == reqs[i];
    }
  }

  /** A movie added without a year (`add_request` then stores no `year`
      attribute) makes the movie feed raise `KeyError: 'year'`, where the
      intended feed has its entry under the bare title. */
  lemma MovieWithoutYearBreaksFeed(now: Moment, fromIso: string -> Option<Moment>)
    ensures var req := NewRequest(603, "movie", "The Matrix", None, Some("A hacker learns the truth."), None,
                                  Some("tt0133093"), None, None, "2024-05-01T12:00:00+00:00");
      && RssAsWritten(Movies, [req], now, fromIso) == Err("year")
      && Entries(Movies, [req], now, fromIso)[0].title == "The Matrix"
      && Entries(Movies, [req], now, fromIso)[0].guid == "tt0133093"
  {
    var req := NewRequest(603, "movie", "The Matrix", None, Some("A hacker learns the truth."), None,
                          Some("tt0133093"), None, None, "2024-05-01T12:00:00+00:00");
    var rs := seq(1, i requires 0 <= i < 1 => EntryAsWritten(Movies, [req][i], now, fromIso));
    assert rs[0] == Err("year");
    CollectOutcome(rs);
  }

  /** A show added without a TVDB id makes the Sonarr list raise
      `KeyError: 'tvdb_id'`, where the intended list just leaves it out. */
  lemma ShowWithoutTvdbBreaksSonarr()
    ensures var req := NewRequest(1399, "tv", "Game of Thrones", Some(2011), None, None, None, None, None,
                                  "2024-05-01T12:00:00+00:00");
      && SonarrJsonAsWritten([req]) == Err("tvdb_id")
      && SonarrItems([req]) == []
  {
    var req := NewRequest(1399, "tv", "Game of Thrones", Some(2011), None, None, None, None, None,
                          "2024-05-01T12:00:00+00:00");
    assert [req][..0] == [];
  }
}
