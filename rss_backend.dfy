/** The RSS feeds of the self-hosted backend, which reads its requests from
    SQLite, where every column of a row is present (NULL as None). Each
    request becomes one entry; the GUID Radarr and Sonarr match on is the
    IMDb id, the TVDB id or the TMDB id. */
module BackendRss {
  import opened Common
  import opened Text
  import opened Storage
  import opened ArrLists
  import opened Feed
  import opened Seqs

  /** A movie's GUID: the IMDb id when present, else the TMDB id. */
  function MovieGuid(req: RequestItem): (g: string)
    ensures StrTruthy(req.imdbId) ==> g == req.imdbId.value
    ensures !StrTruthy(req.imdbId) ==> g == TmdbGuid(req.tmdbId)
  {
    if StrTruthy(req.imdbId) then req.imdbId.value else TmdbGuid(req.tmdbId)
  }

  /** A show's GUID: the TVDB id when present, else the TMDB id. */
  function TvGuid(req: RequestItem): (g: string)
    ensures IntTruthy(req.tvdbId) ==> g == TvdbGuid(req.tvdbId.value)
    ensures !IntTruthy(req.tvdbId) ==> g == TmdbGuid(req.tmdbId)
  {
    if IntTruthy(req.tvdbId) then TvdbGuid(req.tvdbId.value) else TmdbGuid(req.tmdbId)
  }

  /** The combined feed's GUID: IMDb for a movie that has one, TVDB for a
      show that has one, otherwise the TMDB id. */
  function CombinedGuid(req: RequestItem): (g: string)
    ensures req.mediaType == "movie" ==> g == MovieGuid(req)
    ensures req.mediaType == "tv" ==> g == TvGuid(req)
    ensures req.mediaType != "movie" && req.mediaType != "tv" ==> g == TmdbGuid(req.tmdbId)
  {
    if req.mediaType == "movie" && StrTruthy(req.imdbId) then req.imdbId.value
    else if req.mediaType == "tv" && IntTruthy(req.tvdbId) then TvdbGuid(req.tvdbId.value)
    else TmdbGuid(req.tmdbId)
  }

  /** The movie feed's entry of a request. */
  function MovieEntry(req: RequestItem, now: Moment, fromIso: string -> Option<Moment>): FeedEntry {
    FeedEntry(EntryId("movie", req.tmdbId), DisplayTitle(req.title, req.year), Describe(req.overview),
              MovieGuid(req), TmdbPage + "movie/" + IntToString(req.tmdbId),
              PubDateOfText(req.createdAt, now, fromIso))
  }

  /** The TV feed's entry of a request. */
  function TvEntry(req: RequestItem, now: Moment, fromIso: string -> Option<Moment>): FeedEntry {
    FeedEntry(EntryId("tv", req.tmdbId), DisplayTitle(req.title, req.year), Describe(req.overview),
              TvGuid(req), TmdbPage + "tv/" + IntToString(req.tmdbId),
              PubDateOfText(req.createdAt, now, fromIso))
  }

  /** The combined feed's entry: the type label before the title, and the
      link under the request's own media type. */
  function CombinedEntry(req: RequestItem, now: Moment, fromIso: string -> Option<Moment>): FeedEntry {
    FeedEntry(EntryId(req.mediaType, req.tmdbId),
              "[" + TypeLabel(req.mediaType) + "] " + DisplayTitle(req.title, req.year),
              Describe(req.overview), CombinedGuid(req),
              TmdbPage + req.mediaType + "/" + IntToString(req.tmdbId),
              PubDateOfText(req.createdAt, now, fromIso))
  }

  function EntryOf(kind: FeedKind, req: RequestItem, now: Moment, fromIso: string -> Option<Moment>): FeedEntry {
    match kind
    case Movies => MovieEntry(req, now, fromIso)
    case Shows => TvEntry(req, now, fromIso)
    case All => CombinedEntry(req, now, fromIso)
  }

  /** The entries of a feed: one per request, in the order the requests
      come (newest first). */
  function Entries(kind: FeedKind, reqs: seq<RequestItem>, now: Moment, fromIso: string -> Option<Moment>)
    : (es: seq<FeedEntry>)
    ensures |es| == |reqs|
  {
    Map(reqs, EntryFn(kind, now, fromIso))
  }

  function EntryFn(kind: FeedKind, now: Moment, fromIso: string -> Option<Moment>): RequestItem -> FeedEntry {
    req => EntryOf(kind, req, now, fromIso)
  }

  /** The channel fields of each feed. */
  function Channel(kind: FeedKind, baseUrl: string): (string, string, string) {
    match kind
    case Movies => ("Overseer Lite - Movie Requests", "Movie requests from Overseer Lite", baseUrl + "/rss/movies")
    case Shows => ("Overseer Lite - TV Show Requests", "TV show requests from Overseer Lite", baseUrl + "/rss/tv")
    case All => ("Overseer Lite - All Requests", "All media requests from Overseer Lite", baseUrl + "/rss/all")
  }

  /** `generate_movie_rss`, `generate_tv_rss` and `generate_combined_rss`
      with the requests already fetched and the clock read in UTC: a new
      feed with one entry added per request. A stored date that
      `fromisoformat` reads as naive makes the `pubDate` setter raise, which
      nothing catches: the endpoint answers 500. */
  method GenerateRss(kind: FeedKind, reqs: seq<RequestItem>, baseUrl: string, now: Moment,
                     fromIso: string -> Option<Moment>) returns (r: Result<FeedGenerator, string>)
    requires Aware(now)
    ensures r.Err? <==> exists i :: 0 <= i < |reqs| && NaiveStored(reqs[i].createdAt, fromIso)
    ensures r.Err? ==> r.error == NaiveDateError
    ensures r.Ok? ==> (r.value.title, r.value.description, r.value.link) == Channel(kind, baseUrl)
    ensures r.Ok? ==> r.value.language == "en" && r.value.lastBuildDate == now
    ensures r.Ok? ==> r.value.entries == Entries(kind, reqs, now, fromIso)
  {
    var channel := Channel(kind, baseUrl);
    var fg := new FeedGenerator(channel.0, channel.1, channel.2, now);
    var ok := AddEntries(fg, reqs, EntryFn(kind, now, fromIso));
    EntriesDated(kind, reqs, now, fromIso);
    if ok {
      r := Ok(fg);
    } else {
      r := Err(NaiveDateError);
    }
  }

  /** Every entry is dated from the request's stored text. */
  lemma EntriesDated(kind: FeedKind, reqs: seq<RequestItem>, now: Moment, fromIso: string -> Option<Moment>)
    requires Aware(now)
    ensures AllDated(Entries(kind, reqs, now, fromIso)) <==>
      forall i :: 0 <= i < |reqs| ==> !NaiveStored(reqs[i].createdAt, fromIso)
  {
    var f := EntryFn(kind, now, fromIso);
    assert forall i :: 0 <= i < |reqs| ==> f(reqs[i]).pubDate == PubDateOfText(reqs[i].createdAt, now, fromIso);
    DatedUnlessNaive(reqs, f, (req: RequestItem) => req.createdAt, now, fromIso);
  }

  /** The SQLite store's `created_at` default, `CURRENT_TIMESTAMP`, written
      as text without an offset. */
  const SqliteTimestamp := "2024-01-15 10:30:00"

  /** A request stored with SQLite's default timestamp, which
      `fromisoformat` reads as a naive `datetime`, makes any feed that lists
      it fail, while the corrected feed lists it dated UTC. */
  lemma SqliteTimestampBreaksFeed(kind: FeedKind, reqs: seq<RequestItem>, i: nat, now: Moment,
                                  fromIso: string -> Option<Moment>)
    requires i < |reqs| && reqs[i].createdAt == SqliteTimestamp
    requires fromIso(SqliteTimestamp) == Some(Moment("2024-01-15T10:30:00", None))
    requires Aware(now)
    ensures NaiveStored(reqs[i].createdAt, fromIso)
    ensures !AllDated(Entries(kind, reqs, now, fromIso))
    ensures UtcEntries(kind, reqs, now, fromIso)[i].pubDate == Moment("2024-01-15T10:30:00", Some(0))
  {
    forall k: nat ensures !OccursAt(SqliteTimestamp, "Z", k) {
      if k + 1 <= |SqliteTimestamp| {
        assert SqliteTimestamp[k..k + 1] == [SqliteTimestamp[k]];
      }
    }
    ReplaceAbsent(SqliteTimestamp, "Z", "+00:00");
    EntriesDated(kind, reqs, now, fromIso);
  }

  // ----- The feeds as evidently intended: a naive date read as UTC -----

  /** An entry whose naive date is tagged UTC, as the serverless
      `_get_pub_date` does with a naive `datetime`. */
  function UtcEntryOf(kind: FeedKind, req: RequestItem, now: Moment, fromIso: string -> Option<Moment>): FeedEntry {
    var e := EntryOf(kind, req, now, fromIso);
    e.(pubDate := AsUtc(e.pubDate))
  }

  function UtcEntryFn(kind: FeedKind, now: Moment, fromIso: string -> Option<Moment>): RequestItem -> FeedEntry {
    req => UtcEntryOf(kind, req, now, fromIso)
  }

  /** The corrected entries: the entries as written, each date tagged UTC
      when it is naive. */
  function UtcEntries(kind: FeedKind, reqs: seq<RequestItem>, now: Moment, fromIso: string -> Option<Moment>)
    : (es: seq<FeedEntry>)
    ensures |es| == |reqs|
    ensures AllDated(es)
    ensures forall i :: 0 <= i < |reqs| ==>
      es[i] == Entries(kind, reqs, now, fromIso)[i].(pubDate := AsUtc(Entries(kind, reqs, now, fromIso)[i].pubDate))
  {
    Map(reqs, UtcEntryFn(kind, now, fromIso))
  }

  /** Where no stored date reads as naive, the corrected entries are the
      entries as written. */
  lemma UtcEntriesAgree(kind: FeedKind, reqs: seq<RequestItem>, now: Moment, fromIso: string -> Option<Moment>)
    requires Aware(now)
    requires forall i :: 0 <= i < |reqs| ==> !NaiveStored(reqs[i].createdAt, fromIso)
    ensures UtcEntries(kind, reqs, now, fromIso) == Entries(kind, reqs, now, fromIso)
  {
    EntriesDated(kind, reqs, now, fromIso);
    var es := Entries(kind, reqs, now, fromIso);
    assert forall i :: 0 <= i < |reqs| ==> AsUtc(es[i].pubDate) == es[i].pubDate;
  }

  /** The corrected generators: every request is listed, whatever its
      stored date. */
  method GenerateRssUtc(kind: FeedKind, reqs: seq<RequestItem>, baseUrl: string, now: Moment,
                        fromIso: string -> Option<Moment>) returns (fg: FeedGenerator)
    ensures (fg.title, fg.description, fg.link) == Channel(kind, baseUrl)
    ensures fg.language == "en" && fg.lastBuildDate == now
    ensures fg.entries == UtcEntries(kind, reqs, now, fromIso)
  {
    var channel := Channel(kind, baseUrl);
    fg := new FeedGenerator(channel.0, channel.1, channel.2, now);
    var ok := AddEntries(fg, reqs, UtcEntryFn(kind, now, fromIso));
  }

  /** Every entry of the movie feed carries a GUID Radarr can match: the
      IMDb id, or the TMDB id, which reads back. */
  lemma MovieGuidsMatchable(reqs: seq<RequestItem>, now: Moment, fromIso: string -> Option<Moment>, i: nat)
    requires i < |reqs|
    ensures var e := Entries(Movies, reqs, now, fromIso)[i];
      (StrTruthy(reqs[i].imdbId) && e.guid == reqs[i].imdbId.value)
      || (!StrTruthy(reqs[i].imdbId) && StartsWith(e.guid, "tmdb-") && ParseInt(e.guid[5..]) == Some(reqs[i].tmdbId))
  {
    if !StrTruthy(reqs[i].imdbId) {
      var g := TmdbGuid(reqs[i].tmdbId);
      assert g[5..] == IntToString(reqs[i].tmdbId);
      ParseIntToString(reqs[i].tmdbId);
    }
  }

  /** In the combined feed, two requests of distinct keys never share an
      entry id. */
  lemma CombinedIdsDistinct(reqs: seq<RequestItem>, now: Moment, fromIso: string -> Option<Moment>, i: nat, j: nat)
    requires i < |reqs| && j < |reqs|
    requires reqs[i].mediaType in {"movie", "tv"} && reqs[j].mediaType in {"movie", "tv"}
    requires RequestKey(reqs[i]) != RequestKey(reqs[j])
    ensures Entries(All, reqs, now, fromIso)[i].id != Entries(All, reqs, now, fromIso)[j].id
  {
    if Entries(All, reqs, now, fromIso)[i].id == Entries(All, reqs, now, fromIso)[j].id {
      EntryIdInjective(reqs[i].mediaType, reqs[i].tmdbId, reqs[j].mediaType, reqs[j].tmdbId);
    }
  }
}
