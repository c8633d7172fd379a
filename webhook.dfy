/** The Plex webhook of the unified application: the three early exits, the
    show-level ids (from the GUID cache for seasons and episodes), the
    library upsert, and the five-step cascade that marks at most one pending
    request as added. */
module Webhook {
  import opened Common
  import opened Text
  import opened Storage
  import opened Plex
  import opened Gates

  /** The decoded form body: the event name, the server's title and the
      item's metadata, each None when absent. */
  datatype WebhookPayload = WebhookPayload(event: Option<string>, serverTitle: Option<string>, metadata: Option<Metadata>)

  /** The response of the webhook. */
  datatype WebhookResult =
    | Ignored(reason: string)
    | Processed(title: string, mediaType: string, plexType: string, tmdbId: Option<int>,
                addedToLibrary: bool, matchedRequest: bool, notificationSent: bool)

  /** The cascade step that matched a request, as the handler logs it. */
  datatype MatchStep = ByTmdb | ByTvdb | ByPlexGuid | ByEpisodeTvdb | ByTitle

  /** Why a payload is ignored before any storage call, checked in this
      order: another event than `library.new`, a server other than the
      configured one, an unsupported media type. */
  function IgnoreReason(p: WebhookPayload, serverName: Option<string>): (r: Option<string>)
    ensures r.None? <==> (p.event == Some("library.new")
      && (StrTruthy(serverName) ==> p.serverTitle.GetOr("unknown") == serverName.value)
      && ParsePlexPayload(p.metadata).Some?)
  {
    var event := p.event.GetOr("");
    if event != "library.new" then Some("Event type '" + event + "' not processed")
    else if StrTruthy(serverName) && p.serverTitle.GetOr("unknown") != serverName.value then Some("Server name mismatch")
    else if ParsePlexPayload(p.metadata).None? then Some("Unsupported media type")
    else None
  }

  /** The show-level TMDB and TVDB ids and whether they came from the GUID
      cache: for a season or an episode with a Plex GUID, the cached ids
      (both absent on a miss); otherwise the parsed ids. */
  function ShowIds(media: PlexMedia, guidCache: map<string, GuidCacheEntry>): (r: (Option<int>, Option<int>, bool))
    ensures r.2 <==> media.plexType in {"episode", "season"} && StrTruthy(media.plexGuid) && media.plexGuid.value in guidCache
    ensures !(media.plexType in {"episode", "season"} && StrTruthy(media.plexGuid)) ==> (r.0, r.1) == (media.tmdbId, media.tvdbId)
  {
    if media.plexType in {"episode", "season"} && StrTruthy(media.plexGuid) then
      if media.plexGuid.value in guidCache then
        (guidCache[media.plexGuid.value].tmdbId, guidCache[media.plexGuid.value].tvdbId, true)
      else (None, None, false)
    else (media.tmdbId, media.tvdbId, false)
  }

  /** The show-level ids of the webhook: an episode or season with a Plex
      GUID takes them from the GUID cache (none when it is not cached);
      anything else keeps its own. */
  method ResolveShowIds(store: Store, media: PlexMedia) returns (showTmdb: Option<int>, showTvdb: Option<int>, resolvedFromCache: bool)
    ensures (showTmdb, showTvdb, resolvedFromCache) == ShowIds(media, store.guidCache)
  {
    showTmdb := media.tmdbId;
    showTvdb := media.tvdbId;
    resolvedFromCache := false;
    if media.plexType in {"episode", "season"} && StrTruthy(media.plexGuid) {
      var cached := store.GetPlexGuidCache(media.plexGuid.value);
      if cached.Some? {
        showTmdb := cached.value.tmdbId;
        showTvdb := cached.value.tvdbId;
        resolvedFromCache := true;
      } else {
        showTmdb := None;
        showTvdb := None;
      }
    }
  }

  /** A request waiting to be fulfilled. */
  predicate Pending(table: map<Key, Row>, k: Key) {
    k in table && table[k].Request? && table[k].req.addedAt.None?
  }

  /** A request with the item's Plex GUID recorded on it, when the item has
      a non-empty one. */
  function Tagged(r: RequestItem, plexGuid: Option<string>): RequestItem {
    if StrTruthy(plexGuid) then r.(plexGuid := plexGuid) else r
  }

  /** The table once the request at `k` is marked as added at `nowIso` and
      tagged with `plexGuid`; every other row is kept. */
  function MarkedTable(table: map<Key, Row>, k: Key, nowIso: string, plexGuid: Option<string>): map<Key, Row>
    requires k in table && table[k].Request?
  {
    table[k := Request(Tagged(table[k].req.(addedAt := Some(nowIso)), plexGuid))]
  }

  /** The GUID cache once it has learned `entry` for a non-empty GUID. */
  function Cached(cache: map<string, GuidCacheEntry>, plexGuid: Option<string>, entry: GuidCacheEntry): map<string, GuidCacheEntry> {
    if StrTruthy(plexGuid) then cache[plexGuid.value := entry] else cache
  }

  /** The TVDB lookup finds a request, and that request is pending. */
  ghost predicate LookupPending(table: map<Key, Row>, tvdbId: int, mediaType: string) {
    TvdbLookup(table, tvdbId, mediaType).Some? && Pending(table, TvdbLookup(table, tvdbId, mediaType).value)
  }

  /** The TMDB id of the request the TVDB lookup finds, if any. */
  ghost function LookupTmdb(table: map<Key, Row>, tvdbId: int): Option<int> {
    if TvdbLookup(table, tvdbId, "tv").Some? then Some(TvdbLookup(table, tvdbId, "tv").value.1) else None
  }

  /** The GUID cache after step 4 with series `series`: when the series is
      known and the item has a GUID, the cache learns the series (with the
      TMDB id of the request found, if any), on a match always and otherwise
      only when the show ids did not come from the cache. */
  ghost function EpisodeCache(cache: map<string, GuidCacheEntry>, table: map<Key, Row>, plexGuid: Option<string>,
                              resolvedFromCache: bool, series: Option<int>, matched: bool): map<string, GuidCacheEntry> {
    if IntTruthy(series) && StrTruthy(plexGuid) && (matched || !resolvedFromCache) then
      cache[plexGuid.value := GuidCacheEntry(LookupTmdb(table, series.value), series)]
    else cache
  }

  /** `mark_as_added` followed, on success and when the item has a Plex
      GUID, by `update_plex_guid` on the same request and `set_plex_guid_cache`
      with the given ids: the common tail of cascade steps 1, 2 and 4. The
      request returned is the one `mark_as_added` wrote, before the GUID. */
  method MarkAndTag(store: Store, tmdbId: int, mediaType: string, plexGuid: Option<string>,
                    cacheTvdb: Option<int>, nowIso: string) returns (marked: Option<RequestItem>)
    requires store.Valid()
    modifies store
    ensures store.Valid()
    ensures marked.Some? <==> Pending(old(store.table), (mediaType, tmdbId))
    ensures marked.Some? ==>
      && marked.value == old(store.table)[(mediaType, tmdbId)].req.(addedAt := Some(nowIso))
      && store.table == MarkedTable(old(store.table), (mediaType, tmdbId), nowIso, plexGuid)
      && store.guidCache == Cached(old(store.guidCache), plexGuid, GuidCacheEntry(Some(tmdbId), cacheTvdb))
    ensures marked.None? ==> store.table == old(store.table) && store.guidCache == old(store.guidCache)
    ensures store.library == old(store.library)
  {
    marked := store.MarkAsAdded(tmdbId, mediaType, nowIso, false);
    if marked.Some? && StrTruthy(plexGuid) {
      var _ := store.UpdatePlexGuid(tmdbId, mediaType, plexGuid.value, false);
      var _ := store.SetPlexGuidCache(plexGuid.value, Some(tmdbId), cacheTvdb);
    }
  }

  /** Cascade step 2: the request `find_by_tvdb_id` finds for the show's
      TVDB id, marked through `MarkAndTag`; it matches exactly when that
      request is pending. */
  method TryTvdb(store: Store, tvdbId: int, mediaType: string, plexGuid: Option<string>, nowIso: string)
    returns (marked: Option<RequestItem>, ghost k: Key)
    requires store.Valid()
    modifies store
    ensures store.Valid()
    ensures marked.Some? <==> LookupPending(old(store.table), tvdbId, mediaType)
    ensures marked.Some? ==>
      && k == TvdbLookup(old(store.table), tvdbId, mediaType).value
      && store.table == MarkedTable(old(store.table), k, nowIso, plexGuid)
      && store.guidCache == Cached(old(store.guidCache), plexGuid, GuidCacheEntry(Some(k.1), Some(tvdbId)))
    ensures marked.None? ==> store.table == old(store.table) && store.guidCache == old(store.guidCache)
    ensures store.library == old(store.library)
  {
    k := ("", 0);
    marked := None;
    var found := store.FindByTvdbId(tvdbId, mediaType, false);
    if found.Some? {
      marked := MarkAndTag(store, found.value.tmdbId, mediaType, plexGuid, Some(tvdbId), nowIso);
      k := (mediaType, found.value.tmdbId);
    }
  }

  /** Cascade step 3: a request carrying the item's Plex GUID, marked under
      its own key and left with its GUID; the GUID cache learns it unless the
      ids came from the cache. Which carrier is found is not promised, so
      the step surely matches only when every carrier is pending. */
  method TryPlexGuid(store: Store, plexGuid: string, resolvedFromCache: bool, nowIso: string)
    returns (marked: Option<RequestItem>, ghost k: Key)
    requires store.Valid()
    modifies store
    ensures store.Valid()
    ensures marked.Some? ==>
      && CarriesGuid(old(store.table), k, plexGuid) && Pending(old(store.table), k)
      && store.table == MarkedTable(old(store.table), k, nowIso, None)
      && store.guidCache == if resolvedFromCache then old(store.guidCache)
           else old(store.guidCache)[plexGuid := GuidCacheEntry(Some(k.1), old(store.table)[k].req.tvdbId)]
    ensures ((exists k' :: CarriesGuid(old(store.table), k', plexGuid))
      && (forall k' :: CarriesGuid(old(store.table), k', plexGuid) ==> Pending(old(store.table), k'))) ==> marked.Some?
    ensures marked.None? ==> store.table == old(store.table) && store.guidCache == old(store.guidCache)
    ensures store.library == old(store.library)
  {
    k := ("", 0);
    marked := None;
    var found := store.FindByPlexGuid(plexGuid, false);
    if found.Some? {
      marked := store.MarkAsAdded(found.value.tmdbId, found.value.mediaType, nowIso, false);
      k := (found.value.mediaType, found.value.tmdbId);
      if marked.Some? && !resolvedFromCache {
        var _ := store.SetPlexGuidCache(plexGuid, Some(found.value.tmdbId), found.value.tvdbId);
      }
    }
  }

  /** Cascade step 4: the series of the episode's TVDB id, looked up with
      `seriesOf`, and the tv request `find_by_tvdb_id` finds for it, marked
      through `MarkAndTag`; the GUID cache learns the series as
      `EpisodeCache` says, even without a match. */
  method TryEpisode(store: Store, episodeTvdbId: int, seriesOf: int -> Option<int>, plexGuid: Option<string>,
                    resolvedFromCache: bool, nowIso: string)
    returns (marked: Option<RequestItem>, ghost k: Key)
    requires store.Valid()
    modifies store
    ensures store.Valid()
    ensures marked.Some? <==> IntTruthy(seriesOf(episodeTvdbId)) && LookupPending(old(store.table), seriesOf(episodeTvdbId).value, "tv")
    ensures marked.Some? ==>
      && k == TvdbLookup(old(store.table), seriesOf(episodeTvdbId).value, "tv").value
      && store.table == MarkedTable(old(store.table), k, nowIso, plexGuid)
    ensures marked.None? ==> store.table == old(store.table)
    ensures store.guidCache ==
      EpisodeCache(old(store.guidCache), old(store.table), plexGuid, resolvedFromCache, seriesOf(episodeTvdbId), marked.Some?)
    ensures store.library == old(store.library)
  {
    k := ("", 0);
    marked := None;
    var series := seriesOf(episodeTvdbId);
    if IntTruthy(series) {
      var found := store.FindByTvdbId(series.value, "tv", false);
      if found.Some? {
        marked := MarkAndTag(store, found.value.tmdbId, "tv", plexGuid, series, nowIso);
        k := ("tv", found.value.tmdbId);
      }
      if StrTruthy(plexGuid) && !resolvedFromCache {
        if found.Some? {
          var _ := store.SetPlexGuidCache(plexGuid.value, Some(found.value.tmdbId), series);
        } else {
          var _ := store.SetPlexGuidCache(plexGuid.value, None, series);
        }
      }
    }
  }

  /** The library item step 5 upserts for the request at `k`. */
  function TitleItem(table: map<Key, Row>, k: Key, title: string): LibraryItem
    requires k in table && table[k].Request?
  {
    LibraryItem(Some(k.1), table[k].req.tvdbId, Some(title), None)
  }

  /** Cascade step 5: the one pending request whose normalized title (and
      year, when known) matches; on a match the show joins the library and,
      with a Plex GUID, the request and the cache learn it. */
  method TryTitle(store: Store, title: string, mediaType: string, year: Option<int>, plexGuid: Option<string>, nowIso: string)
    returns (marked: Option<RequestItem>, ghost k: Key)
    requires store.Valid()
    modifies store
    ensures store.Valid()
    ensures marked.Some? <==> exists k' :: UniqueTitleMatch(old(store.table), k', title, mediaType, year)
    ensures marked.Some? ==>
      && UniqueTitleMatch(old(store.table), k, title, mediaType, year)
      && store.table == MarkedTable(old(store.table), k, nowIso, plexGuid)
      && store.library == SyncInto(old(store.library), [TitleItem(old(store.table), k, title)], mediaType)
      && store.guidCache == Cached(old(store.guidCache), plexGuid, GuidCacheEntry(Some(k.1), old(store.table)[k].req.tvdbId))
    ensures marked.None? ==>
      store.table == old(store.table) && store.library == old(store.library) && store.guidCache == old(store.guidCache)
  {
    k := ("", 0);
    marked := None;
    var found := store.FindByTitle(title, mediaType, year);
    if found.Some? {
      var item := LibraryItem(Some(found.value.tmdbId), found.value.tvdbId, Some(title), None);
      marked := store.MarkAsAdded(found.value.tmdbId, mediaType, nowIso, false);
      k := (mediaType, found.value.tmdbId);
      if marked.Some? {
        var _ := store.SyncLibrary([item], mediaType, false);
        if StrTruthy(plexGuid) {
          var _ := store.UpdatePlexGuid(found.value.tmdbId, mediaType, plexGuid.value, false);
          var _ := store.SetPlexGuidCache(plexGuid.value, Some(found.value.tmdbId), found.value.tvdbId);
        }
      }
    }
  }

  /** The order of the steps: 1 to 5, and 6 for no match. */
  function Rank(step: Option<MatchStep>): nat {
    match step
    case None => 6
    case Some(ByTmdb) => 1
    case Some(ByTvdb) => 2
    case Some(ByPlexGuid) => 3
    case Some(ByEpisodeTvdb) => 4
    case Some(ByTitle) => 5
  }

  /** The series step 4 looks for: the series of the episode's TVDB id, when
      the item has one. */
  function EpisodeSeries(media: PlexMedia, seriesOf: int -> Option<int>): Option<int> {
    if IntTruthy(media.episodeTvdbId) then seriesOf(media.episodeTvdbId.value) else None
  }

  /** Step 1 matches: the show's TMDB id names a pending request. */
  predicate TmdbHit(t0: map<Key, Row>, media: PlexMedia, showTmdb: Option<int>) {
    IntTruthy(showTmdb) && Pending(t0, (media.mediaType, showTmdb.value))
  }

  /** Step 2 matches: a show whose TVDB id finds a pending request. */
  ghost predicate TvdbHit(t0: map<Key, Row>, media: PlexMedia, showTvdb: Option<int>) {
    IntTruthy(showTvdb) && media.mediaType == "tv" && LookupPending(t0, showTvdb.value, "tv")
  }

  /** Step 3 surely matches: the item has a GUID, some request carries it
      and every request carrying it is pending. */
  ghost predicate GuidSureHit(t0: map<Key, Row>, media: PlexMedia) {
    StrTruthy(media.plexGuid) && (exists k :: CarriesGuid(t0, k, media.plexGuid.value))
    && forall k :: CarriesGuid(t0, k, media.plexGuid.value) ==> Pending(t0, k)
  }

  /** Step 4 matches: the episode's series finds a pending tv request. */
  ghost predicate EpisodeHit(t0: map<Key, Row>, series: Option<int>) {
    IntTruthy(series) && LookupPending(t0, series.value, "tv")
  }

  /** Step 5 matches: no show id is known and exactly one pending request
      matches the title. */
  ghost predicate TitleHit(t0: map<Key, Row>, media: PlexMedia, showTmdb: Option<int>, showTvdb: Option<int>) {
    !IntTruthy(showTmdb) && !IntTruthy(showTvdb) && exists k :: UniqueTitleMatch(t0, k, media.title, media.mediaType, media.year)
  }

  /** Which step of the cascade matches, judged on the table `t0` it starts
      from (a step that does not match leaves the table as it was): the
      first one that can. Step 3 matches some carrier of the GUID, pending
      if it matches, and surely when every carrier is pending. `mk` is the
      key of the request marked. */
  ghost predicate FirstMatch(t0: map<Key, Row>, media: PlexMedia, showTmdb: Option<int>, showTvdb: Option<int>,
                             series: Option<int>, step: Option<MatchStep>, mk: Key) {
    && (Rank(step) == 1 <==> TmdbHit(t0, media, showTmdb))
    && (Rank(step) > 1 ==> (Rank(step) == 2 <==> TvdbHit(t0, media, showTvdb)))
    && (Rank(step) > 2 && GuidSureHit(t0, media) ==> Rank(step) == 3)
    && (Rank(step) > 3 ==> (Rank(step) == 4 <==> EpisodeHit(t0, series)))
    && (Rank(step) > 4 ==> (Rank(step) == 5 <==> TitleHit(t0, media, showTmdb, showTvdb)))
    && (step == Some(ByTmdb) ==> mk == (media.mediaType, showTmdb.value))
    && (step == Some(ByTvdb) ==> mk == TvdbLookup(t0, showTvdb.value, "tv").value)
    && (step == Some(ByPlexGuid) ==> StrTruthy(media.plexGuid) && CarriesGuid(t0, mk, media.plexGuid.value))
    && (step == Some(ByEpisodeTvdb) ==> mk == TvdbLookup(t0, series.value, "tv").value)
    && (step == Some(ByTitle) ==> UniqueTitleMatch(t0, mk, media.title, media.mediaType, media.year))
    && (step.Some? ==> Pending(t0, mk))
  }

  /** What the cascade leaves behind, from table `t0`, cache `c0` and
      library `l0`: the request at `mk` marked (with the GUID, except at
      step 3, which finds it by that GUID) and nothing else in the table;
      the show in the library after a title match only; and the cache
      entries each step writes. */
  ghost predicate CascadeState(t0: map<Key, Row>, c0: map<string, GuidCacheEntry>, l0: map<(int, string), LibraryEntry>,
                               media: PlexMedia, showTvdb: Option<int>, resolvedFromCache: bool, series: Option<int>,
                               nowIso: string, step: Option<MatchStep>, mk: Key,
                               t1: map<Key, Row>, c1: map<string, GuidCacheEntry>, l1: map<(int, string), LibraryEntry>)
    requires step.Some? ==> Pending(t0, mk)
  {
    var g := media.plexGuid;
    && (step.None? ==> t1 == t0 && l1 == l0 && c1 == EpisodeCache(c0, t0, g, resolvedFromCache, series, false))
    && (step.Some? ==> t1 == MarkedTable(t0, mk, nowIso, if step == Some(ByPlexGuid) then None else g))
    && (step.Some? && step != Some(ByTitle) ==> l1 == l0)
    && (step == Some(ByTitle) ==> l1 == SyncInto(l0, [TitleItem(t0, mk, media.title)], media.mediaType))
    && (step == Some(ByTmdb) || step == Some(ByTvdb) ==> c1 == Cached(c0, g, GuidCacheEntry(Some(mk.1), showTvdb)))
    && (step == Some(ByPlexGuid) ==>
          c1 == if resolvedFromCache then c0 else Cached(c0, g, GuidCacheEntry(Some(mk.1), t0[mk].req.tvdbId)))
    && (step == Some(ByEpisodeTvdb) ==> c1 == Cached(c0, g, GuidCacheEntry(Some(mk.1), series)))
    && (step == Some(ByTitle) ==> c1 == Cached(c0, g, GuidCacheEntry(Some(mk.1), t0[mk].req.tvdbId)))
  }

  lemma ByTmdbOutcome(t0: map<Key, Row>, c0: map<string, GuidCacheEntry>, l0: map<(int, string), LibraryEntry>,
                      media: PlexMedia, showTmdb: Option<int>, showTvdb: Option<int>, resolvedFromCache: bool,
                      series: Option<int>, nowIso: string,
                      t1: map<Key, Row>, c1: map<string, GuidCacheEntry>, l1: map<(int, string), LibraryEntry>)
    requires TmdbHit(t0, media, showTmdb)
    requires t1 == MarkedTable(t0, (media.mediaType, showTmdb.value), nowIso, media.plexGuid)
    requires c1 == Cached(c0, media.plexGuid, GuidCacheEntry(Some(showTmdb.value), showTvdb)) && l1 == l0
    ensures FirstMatch(t0, media, showTmdb, showTvdb, series, Some(ByTmdb), (media.mediaType, showTmdb.value))
    ensures CascadeState(t0, c0, l0, media, showTvdb, resolvedFromCache, series, nowIso,
                         Some(ByTmdb), (media.mediaType, showTmdb.value), t1, c1, l1)
  {
  }

  lemma ByTvdbOutcome(t0: map<Key, Row>, c0: map<string, GuidCacheEntry>, l0: map<(int, string), LibraryEntry>,
                      media: PlexMedia, showTmdb: Option<int>, showTvdb: Option<int>, resolvedFromCache: bool,
                      series: Option<int>, nowIso: string, mk: Key,
                      t1: map<Key, Row>, c1: map<string, GuidCacheEntry>, l1: map<(int, string), LibraryEntry>)
    requires !TmdbHit(t0, media, showTmdb) && TvdbHit(t0, media, showTvdb)
    requires mk == TvdbLookup(t0, showTvdb.value, "tv").value
    requires t1 == MarkedTable(t0, mk, nowIso, media.plexGuid)
    requires c1 == Cached(c0, media.plexGuid, GuidCacheEntry(Some(mk.1), showTvdb)) && l1 == l0
    ensures FirstMatch(t0, media, showTmdb, showTvdb, series, Some(ByTvdb), mk)
    ensures CascadeState(t0, c0, l0, media, showTvdb, resolvedFromCache, series, nowIso, Some(ByTvdb), mk, t1, c1, l1)
  {
  }

  lemma ByPlexGuidOutcome(t0: map<Key, Row>, c0: map<string, GuidCacheEntry>, l0: map<(int, string), LibraryEntry>,
                          media: PlexMedia, showTmdb: Option<int>, showTvdb: Option<int>, resolvedFromCache: bool,
                          series: Option<int>, nowIso: string, mk: Key,
                          t1: map<Key, Row>, c1: map<string, GuidCacheEntry>, l1: map<(int, string), LibraryEntry>)
    requires !TmdbHit(t0, media, showTmdb) && !TvdbHit(t0, media, showTvdb)
    requires StrTruthy(media.plexGuid) && CarriesGuid(t0, mk, media.plexGuid.value) && Pending(t0, mk)
    requires t1 == MarkedTable(t0, mk, nowIso, None) && l1 == l0
    requires c1 == if resolvedFromCache then c0
      else c0[media.plexGuid.value := GuidCacheEntry(Some(mk.1), t0[mk].req.tvdbId)]
    ensures FirstMatch(t0, media, showTmdb, showTvdb, series, Some(ByPlexGuid), mk)
    ensures CascadeState(t0, c0, l0, media, showTvdb, resolvedFromCache, series, nowIso, Some(ByPlexGuid), mk, t1, c1, l1)
  {
  }

  lemma ByEpisodeOutcome(t0: map<Key, Row>, c0: map<string, GuidCacheEntry>, l0: map<(int, string), LibraryEntry>,
                         media: PlexMedia, showTmdb: Option<int>, showTvdb: Option<int>, resolvedFromCache: bool,
                         series: Option<int>, nowIso: string, mk: Key,
                         t1: map<Key, Row>, c1: map<string, GuidCacheEntry>, l1: map<(int, string), LibraryEntry>)
    requires !TmdbHit(t0, media, showTmdb) && !TvdbHit(t0, media, showTvdb) && !GuidSureHit(t0, media)
    requires EpisodeHit(t0, series) && mk == TvdbLookup(t0, series.value, "tv").value
    requires t1 == MarkedTable(t0, mk, nowIso, media.plexGuid) && l1 == l0
    requires c1 == EpisodeCache(c0, t0, media.plexGuid, resolvedFromCache, series, true)
    ensures FirstMatch(t0, media, showTmdb, showTvdb, series, Some(ByEpisodeTvdb), mk)
    ensures CascadeState(t0, c0, l0, media, showTvdb, resolvedFromCache, series, nowIso, Some(ByEpisodeTvdb), mk, t1, c1, l1)
  {
  }

  lemma ByTitleOutcome(t0: map<Key, Row>, c0: map<string, GuidCacheEntry>, l0: map<(int, string), LibraryEntry>,
                       media: PlexMedia, showTmdb: Option<int>, showTvdb: Option<int>, resolvedFromCache: bool,
                       series: Option<int>, nowIso: string, mk: Key,
                       t1: map<Key, Row>, c1: map<string, GuidCacheEntry>, l1: map<(int, string), LibraryEntry>)
    requires !TmdbHit(t0, media, showTmdb) && !TvdbHit(t0, media, showTvdb) && !GuidSureHit(t0, media)
    requires !EpisodeHit(t0, series)
    requires !IntTruthy(showTmdb) && !IntTruthy(showTvdb) && UniqueTitleMatch(t0, mk, media.title, media.mediaType, media.year)
    requires t1 == MarkedTable(t0, mk, nowIso, media.plexGuid)
    requires l1 == SyncInto(l0, [TitleItem(t0, mk, media.title)], media.mediaType)
    requires c1 == Cached(EpisodeCache(c0, t0, media.plexGuid, resolvedFromCache, series, false), media.plexGuid,
                          GuidCacheEntry(Some(mk.1), t0[mk].req.tvdbId))
    ensures FirstMatch(t0, media, showTmdb, showTvdb, series, Some(ByTitle), mk)
    ensures CascadeState(t0, c0, l0, media, showTvdb, resolvedFromCache, series, nowIso, Some(ByTitle), mk, t1, c1, l1)
  {
  }

  lemma NoMatchOutcome(t0: map<Key, Row>, c0: map<string, GuidCacheEntry>, l0: map<(int, string), LibraryEntry>,
                       media: PlexMedia, showTmdb: Option<int>, showTvdb: Option<int>, resolvedFromCache: bool,
                       series: Option<int>, nowIso: string, mk: Key,
                       t1: map<Key, Row>, c1: map<string, GuidCacheEntry>, l1: map<(int, string), LibraryEntry>)
    requires !TmdbHit(t0, media, showTmdb) && !TvdbHit(t0, media, showTvdb) && !GuidSureHit(t0, media)
    requires !EpisodeHit(t0, series) && !TitleHit(t0, media, showTmdb, showTvdb)
    requires t1 == t0 && l1 == l0 && c1 == EpisodeCache(c0, t0, media.plexGuid, resolvedFromCache, series, false)
    ensures FirstMatch(t0, media, showTmdb, showTvdb, series, None, mk)
    ensures CascadeState(t0, c0, l0, media, showTvdb, resolvedFromCache, series, nowIso, None, mk, t1, c1, l1)
  {
  }

  /** The five matching steps, each tried only while no request is matched:
      the show's TMDB id; its TVDB id (tv only); the Plex GUID; the series of
      the episode's TVDB id; the title, only when neither show id is known.
      Returns the request marked, the step that marked it and (as a proof
      aid) its key. */
  method Cascade(store: Store, media: PlexMedia, showTmdb: Option<int>, showTvdb: Option<int>, resolvedFromCache: bool,
                 seriesOf: int -> Option<int>, nowIso: string)
    returns (matched: Option<RequestItem>, step: Option<MatchStep>, ghost mk: Key)
    requires store.Valid()
    modifies store
    ensures store.Valid()
    ensures step.Some? <==> matched.Some?
    ensures FirstMatch(old(store.table), media, showTmdb, showTvdb, EpisodeSeries(media, seriesOf), step, mk)
    ensures CascadeState(old(store.table), old(store.guidCache), old(store.library), media, showTvdb, resolvedFromCache,
                         EpisodeSeries(media, seriesOf), nowIso, step, mk, store.table, store.guidCache, store.library)
  {
    var mt := media.mediaType;
    var g := media.plexGuid;
    ghost var t0, c0, l0 := store.table, store.guidCache, store.library;
    ghost var series := EpisodeSeries(media, seriesOf);
    step := None;
    matched := None;
    mk := ("", 0);
    // each step is tried only while nothing matched, so a match ends the cascade
    // 1. the TMDB id
    if IntTruthy(showTmdb) {
      matched := MarkAndTag(store, showTmdb.value, mt, g, showTvdb, nowIso);
      if matched.Some? {
        ByTmdbOutcome(t0, c0, l0, media, showTmdb, showTvdb, resolvedFromCache, series, nowIso,
                      store.table, store.guidCache, store.library);
        return matched, Some(ByTmdb), (mt, showTmdb.value);
      }
    }
    // 2. the TVDB id, for a show
    if IntTruthy(showTvdb) && mt == "tv" {
      matched, mk := TryTvdb(store, showTvdb.value, mt, g, nowIso);
      if matched.Some? {
        ByTvdbOutcome(t0, c0, l0, media, showTmdb, showTvdb, resolvedFromCache, series, nowIso, mk,
                      store.table, store.guidCache, store.library);
        return matched, Some(ByTvdb), mk;
      }
    }
    assert !TvdbHit(t0, media, showTvdb);
    // 3. the Plex GUID
    if StrTruthy(g) {
      matched, mk := TryPlexGuid(store, g.value, resolvedFromCache, nowIso);
      if matched.Some? {
        ByPlexGuidOutcome(t0, c0, l0, media, showTmdb, showTvdb, resolvedFromCache, series, nowIso, mk,
                          store.table, store.guidCache, store.library);
        return matched, Some(ByPlexGuid), mk;
      }
    }
    assert !GuidSureHit(t0, media);
    // 4. the series of the episode's TVDB id
    if IntTruthy(media.episodeTvdbId) {
      matched, mk := TryEpisode(store, media.episodeTvdbId.value, seriesOf, g, resolvedFromCache, nowIso);
      if matched.Some? {
        ByEpisodeOutcome(t0, c0, l0, media, showTmdb, showTvdb, resolvedFromCache, series, nowIso, mk,
                         store.table, store.guidCache, store.library);
        return matched, Some(ByEpisodeTvdb), mk;
      }
    }
    assert !EpisodeHit(t0, series);
    assert store.guidCache == EpisodeCache(c0, t0, g, resolvedFromCache, series, false);
    // 5. the title, only when no id is known
    if !IntTruthy(showTmdb) && !IntTruthy(showTvdb) {
      matched, mk := TryTitle(store, media.title, mt, media.year, g, nowIso);
      if matched.Some? {
        ByTitleOutcome(t0, c0, l0, media, showTmdb, showTvdb, resolvedFromCache, series, nowIso, mk,
                       store.table, store.guidCache, store.library);
        return matched, Some(ByTitle), mk;
      }
    }
    NoMatchOutcome(t0, c0, l0, media, showTmdb, showTvdb, resolvedFromCache, series, nowIso, mk,
                   store.table, store.guidCache, store.library);
  }

  /** `plex_webhook`, behind the webhook-token gate (`webhookToken` is the
      configured token, `token` the query parameter). `payload` is None when
      the form field is not JSON;
      `seriesOf` is the TVDB lookup from an episode id to its series id;
      `notified` is what sending the fulfillment notification reports.
      Returns the response and the cascade step that matched. */
  method PlexWebhook(store: Store, webhookToken: Option<string>, token: Option<string>,
                     payload: Option<WebhookPayload>, serverName: Option<string>,
                     seriesOf: int -> Option<int>, notified: bool, nowIso: string)
    returns (r: Result<WebhookResult, HttpError>, step: Option<MatchStep>, ghost mk: Key)
    requires store.Valid()
    modifies store
    ensures store.Valid()
    ensures VerifyPlexWebhookToken(webhookToken, token).Fail? ==> r == Err(VerifyPlexWebhookToken(webhookToken, token).error)
    ensures VerifyPlexWebhookToken(webhookToken, token).Pass? && payload.None? ==> r == Err(HttpError(400, "Invalid JSON payload"))
    ensures VerifyPlexWebhookToken(webhookToken, token).Pass? && payload.Some? && IgnoreReason(payload.value, serverName).Some? ==>
      r == Ok(Ignored(IgnoreReason(payload.value, serverName).value))
    ensures r.Err? || r.value.Ignored? ==>
      step.None? && store.table == old(store.table) && store.library == old(store.library) && store.guidCache == old(store.guidCache)
    ensures VerifyPlexWebhookToken(webhookToken, token).Pass? && payload.Some? && IgnoreReason(payload.value, serverName).None? ==>
      var media := ParsePlexPayload(payload.value.metadata).value;
      var ids := ShowIds(media, old(store.guidCache));
      var mt := media.mediaType;
      // the library after the show itself is upserted, before the cascade
      var synced := if IntTruthy(ids.0) then SyncInto(old(store.library), [LibraryItem(ids.0, ids.1, Some(media.title), None)], mt)
                    else old(store.library);
      && r.Ok? && r.value.Processed?
      && r.value.title == media.title && r.value.mediaType == mt && r.value.plexType == media.plexType
      && r.value.tmdbId == (if IntTruthy(ids.0) then ids.0 else media.tmdbId)
      && (r.value.matchedRequest <==> step.Some?)
      && r.value.notificationSent == (step.Some? && notified)
      && (r.value.addedToLibrary <==> IntTruthy(ids.0) || step == Some(ByTitle))
      && (IntTruthy(ids.0) ==> (ids.0.value, mt) in store.library)
      // the cascade runs on the show ids, with the table as it was
      && FirstMatch(old(store.table), media, ids.0, ids.1, EpisodeSeries(media, seriesOf), step, mk)
      && CascadeState(old(store.table), old(store.guidCache), synced, media, ids.1, ids.2, EpisodeSeries(media, seriesOf),
                      nowIso, step, mk, store.table, store.guidCache, store.library)
  {
    step := None;
    mk := ("", 0);
    var gate := VerifyPlexWebhookToken(webhookToken, token);
    if gate.Fail? {
      return Err(gate.error), None, mk;
    }
    if payload.None? {
      return Err(HttpError(400, "Invalid JSON payload")), None, mk;
    }
    var p := payload.value;
    var reason := IgnoreReason(p, serverName);
    if reason.Some? {
      return Ok(Ignored(reason.value)), None, mk;
    }
    var media := ParsePlexPayload(p.metadata).value;
    var mt := media.mediaType;
    ghost var ids := ShowIds(media, store.guidCache);

    var showTmdb, showTvdb, resolvedFromCache := ResolveShowIds(store, media);

    var addedToLibrary := false;
    if IntTruthy(showTmdb) {
      var _ := store.SyncLibrary([LibraryItem(showTmdb, showTvdb, Some(media.title), None)], mt, false);
      SyncIntoContains(old(store.library), [LibraryItem(showTmdb, showTvdb, Some(media.title), None)], mt);
      addedToLibrary := true;
    }

    ghost var synced := store.library;
    assert store.table == old(store.table) && store.guidCache == old(store.guidCache);
    var matched: Option<RequestItem>;
    matched, step, mk := Cascade(store, media, showTmdb, showTvdb, resolvedFromCache, seriesOf, nowIso);
    if step == Some(ByTitle) {
      SyncIntoContains(synced, [TitleItem(old(store.table), mk, media.title)], mt);
      addedToLibrary := true;
    }
    var notificationSent := matched.Some? && notified;
    var resultTmdb := if IntTruthy(showTmdb) then showTmdb else media.tmdbId;
    r := Ok(Processed(media.title, mt, media.plexType, resultTmdb, addedToLibrary, matched.Some?, notificationSent));
  }
}
