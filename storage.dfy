/** The request table behind the service: one item per media request keyed
    by (media type, TMDB id), and one failed-login counter per client address
    keyed by ("RATELIMIT#" + address, 0) in the same table. Beside it, the
    library of titles known to be on the media server and the cache of
    show-level ids per Plex GUID, which the store interface also offers.
    The clock is a parameter (`now` in seconds, `nowIso` as its ISO form),
    and so is a storage failure (`fault`), which every operation catches and
    turns into its fallback result. */
module Storage {
  import opened Common
  import opened Text

  datatype RequestItem = RequestItem(
    mediaType: string,
    tmdbId: int,
    title: string,
    createdAt: string,
    year: Option<int>,
    overview: Option<string>,
    posterPath: Option<string>,
    imdbId: Option<string>,
    tvdbId: Option<int>,
    requestedBy: Option<string>,
    addedAt: Option<string>,
    plexGuid: Option<string>)

  /** A failed-login counter. */
  datatype RateItem = RateItem(failedAttempts: int, firstAttempt: int, lastAttempt: int, ttl: int)

  datatype Row = Request(req: RequestItem) | RateLimit(rate: RateItem)

  /** Partition key and sort key. */
  type Key = (string, int)

  const RateLimitPrefix: string := "RATELIMIT#"

  function RequestKey(r: RequestItem): Key {
    (r.mediaType, r.tmdbId)
  }

  function RateKey(ip: string): Key {
    (RateLimitPrefix + ip, 0)
  }

  /** A title the media server holds, keyed by (TMDB id, media type). */
  datatype LibraryEntry = LibraryEntry(tvdbId: Option<int>, title: Option<string>, year: Option<int>)

  /** An item of a library sync body; every field may be missing. */
  datatype LibraryItem = LibraryItem(tmdbId: Option<int>, tvdbId: Option<int>, title: Option<string>, year: Option<int>)

  /** Show-level ids remembered for a Plex GUID. */
  datatype GuidCacheEntry = GuidCacheEntry(tmdbId: Option<int>, tvdbId: Option<int>)

  /** Keys agree with the rows they hold. */
  predicate TableValid(table: map<Key, Row>) {
    forall k :: k in table ==>
      match table[k]
      case Request(r) => RequestKey(r) == k
      case RateLimit(_) => StartsWith(k.0, RateLimitPrefix) && k.1 == 0
  }

  /** The item `add_request` writes: key, title and creation time always;
      `year` and `tvdb_id` when not None; `overview`, `poster_path`,
      `imdb_id` and `requested_by` only when non-empty. */
  function NewRequest(tmdbId: int, mediaType: string, title: string, year: Option<int>,
                      overview: Option<string>, posterPath: Option<string>, imdbId: Option<string>,
                      tvdbId: Option<int>, requestedBy: Option<string>, nowIso: string): (r: RequestItem)
    ensures RequestKey(r) == (mediaType, tmdbId) && r.title == title && r.createdAt == nowIso
    ensures r.year == year && r.tvdbId == tvdbId
    ensures r.overview.Some? <==> StrTruthy(overview)
    ensures r.posterPath.Some? <==> StrTruthy(posterPath)
    ensures r.imdbId.Some? <==> StrTruthy(imdbId)
    ensures r.requestedBy.Some? <==> StrTruthy(requestedBy)
    ensures r.overview.Some? ==> r.overview == overview
    ensures r.posterPath.Some? ==> r.posterPath == posterPath
    ensures r.imdbId.Some? ==> r.imdbId == imdbId
    ensures r.requestedBy.Some? ==> r.requestedBy == requestedBy
    ensures r.addedAt.None? && r.plexGuid.None?
  {
    RequestItem(mediaType, tmdbId, title, nowIso, year,
      if StrTruthy(overview) then overview else None,
      if StrTruthy(posterPath) then posterPath else None,
      if StrTruthy(imdbId) then imdbId else None,
      tvdbId,
      if StrTruthy(requestedBy) then requestedBy else None,
      None, None)
  }

  /** The conditional put of `add_request`: written only when the key is
      free; an existing item is never overwritten. */
  function AddSpec(table: map<Key, Row>, item: RequestItem): (r: (bool, map<Key, Row>))
    ensures r.0 <==> RequestKey(item) !in table
    ensures forall k :: k in table ==> k in r.1 && r.1[k] == table[k]
    ensures r.1.Keys == table.Keys + {RequestKey(item)}
    ensures r.1[RequestKey(item)] == if r.0 then Request(item) else table[RequestKey(item)]
  {
    if RequestKey(item) in table then (false, table)
    else (true, table[RequestKey(item) := Request(item)])
  }

  /** The conditional update of `mark_as_added`: the request must exist and
      have no `added_at`; it then gets `added_at = nowIso` and is returned. */
  function MarkSpec(table: map<Key, Row>, key: Key, nowIso: string): (r: (Option<RequestItem>, map<Key, Row>))
    ensures r.0.Some? <==> (key in table && table[key].Request? && table[key].req.addedAt.None?)
    ensures r.0.Some? ==> r.0.value == table[key].req.(addedAt := Some(nowIso)) && r.1 == table[key := Request(r.0.value)]
    ensures r.0.None? ==> r.1 == table
  {
    if key in table && table[key].Request? && table[key].req.addedAt.None? then
      var marked := table[key].req.(addedAt := Some(nowIso));
      (Some(marked), table[key := Request(marked)])
    else (None, table)
  }

  /** Marking succeeds at most once: a second mark of the same request fails
      and changes nothing, whatever the time, so a redelivered webhook does
      not notify twice. */
  lemma MarkIdempotent(table: map<Key, Row>, key: Key, now1: string, now2: string)
    requires MarkSpec(table, key, now1).0.Some?
    ensures MarkSpec(MarkSpec(table, key, now1).1, key, now2) == (None, MarkSpec(table, key, now1).1)
    ensures MarkSpec(table, key, now1).1[key].req.addedAt == Some(now1)
  {
    var t1 := MarkSpec(table, key, now1).1;
    assert t1[key].req.addedAt == Some(now1);
  }

  /** Marking one request leaves every other key as it was. */
  lemma MarkOnlyTouchesKey(table: map<Key, Row>, key: Key, nowIso: string, other: Key)
    requires other != key && other in table
    ensures other in MarkSpec(table, key, nowIso).1 && MarkSpec(table, key, nowIso).1[other] == table[other]
  {
  }

  /** The rate counter of an address, if there is one. */
  function RateRowOf(table: map<Key, Row>, ip: string): Option<RateItem> {
    if RateKey(ip) in table && table[RateKey(ip)].RateLimit? then Some(table[RateKey(ip)].rate) else None
  }

  /** `check_rate_limit` on a counter: allowed with the full allowance when
      there is no counter or its window has passed; refused with nothing
      left at `max_attempts` failures; otherwise allowed with what is left. */
  function RateCheck(row: Option<RateItem>, now: int, maxAttempts: int, window: int): (r: (bool, int))
    ensures !r.0 <==> (row.Some? && now - row.value.firstAttempt <= window && row.value.failedAttempts >= maxAttempts)
    ensures !r.0 ==> r.1 == 0
    ensures r.0 ==> r.1 == if row.Some? && now - row.value.firstAttempt <= window
                           then maxAttempts - row.value.failedAttempts else maxAttempts
  {
    match row
    case None => (true, maxAttempts)
    case Some(item) =>
      if now - item.firstAttempt > window then (true, maxAttempts)
      else if item.failedAttempts >= maxAttempts then (false, 0)
      else (true, maxAttempts - item.failedAttempts)
  }

  /** `record_failed_attempt` on a counter: the atomic update increments the
      count from 0, keeps the first attempt (or sets it to now), and sets the
      last attempt and the expiry `now + window + 60`; when the window since
      the first attempt has passed, the counter is rewritten as one failure
      starting now. The new count is returned with the new counter. */
  function RecordFailure(row: Option<RateItem>, now: int, window: int): (r: (RateItem, int))
    ensures r.1 == r.0.failedAttempts
    ensures r.0.lastAttempt == now && r.0.ttl == now + window + 60
    ensures row.None? && window >= 0 ==> r.0.failedAttempts == 1 && r.0.firstAttempt == now
    ensures row.Some? && now - row.value.firstAttempt <= window ==>
      r.0.failedAttempts == row.value.failedAttempts + 1 && r.0.firstAttempt == row.value.firstAttempt
    ensures row.Some? && now - row.value.firstAttempt > window ==>
      r.0 == RateItem(1, now, now, now + window + 60)
  {
    var failed := if row.Some? then row.value.failedAttempts + 1 else 1;
    var first := if row.Some? then row.value.firstAttempt else now;
    var ttl := now + window + 60;
    if now - first > window then (RateItem(1, now, now, ttl), 1)
    else (RateItem(failed, first, now, ttl), failed)
  }

  /** The counter left by failures at the given times, starting from none. */
  function Failures(times: seq<int>, window: int): Option<RateItem> {
    if |times| == 0 then None
    else Some(RecordFailure(Failures(times[..|times| - 1], window), times[|times| - 1], window).0)
  }

  /** Failures that all fall within one window of the first are all counted. */
  lemma {:induction false} FailuresWithinWindow(times: seq<int>, window: int)
    requires |times| > 0
    requires forall i :: 0 <= i < |times| ==> times[0] <= times[i] <= times[0] + window
    ensures Failures(times, window) ==
      Some(RateItem(|times|, times[0], times[|times| - 1], times[|times| - 1] + window + 60))
  {
    if |times| > 1 {
      var prefix := times[..|times| - 1];
      assert forall i :: 0 <= i < |prefix| ==> prefix[i] == times[i];
      FailuresWithinWindow(prefix, window);
    }
  }

  /** The lockout: `max_attempts` failures within one window refuse the next
      login attempt anywhere in that window, with nothing left. */
  lemma LockedOutAfterMaxFailures(times: seq<int>, window: int, maxAttempts: int, now: int)
    requires |times| > 0 && |times| >= maxAttempts
    requires forall i :: 0 <= i < |times| ==> times[0] <= times[i] <= times[0] + window
    requires now - times[0] <= window
    ensures RateCheck(Failures(times, window), now, maxAttempts, window) == (false, 0)
  {
    FailuresWithinWindow(times, window);
  }

  /** Fewer failures than the limit leave the difference as the allowance. */
  lemma AllowanceAfterFailures(times: seq<int>, window: int, maxAttempts: int, now: int)
    requires |times| > 0 && |times| < maxAttempts
    requires forall i :: 0 <= i < |times| ==> times[0] <= times[i] <= times[0] + window
    requires now - times[0] <= window
    ensures RateCheck(Failures(times, window), now, maxAttempts, window) == (true, maxAttempts - |times|)
  {
    FailuresWithinWindow(times, window);
  }

  /** Library entries for the items of a sync body that carry a TMDB id, in
      order, a later item replacing an earlier one with the same id. */
  function SyncInto(library: map<(int, string), LibraryEntry>, items: seq<LibraryItem>, mediaType: string): map<(int, string), LibraryEntry>
  {
    if |items| == 0 then library
    else
      var before := SyncInto(library, items[..|items| - 1], mediaType);
      var it := items[|items| - 1];
      if it.tmdbId.Some? then before[(it.tmdbId.value, mediaType) := LibraryEntry(it.tvdbId, it.title, it.year)]
      else before
  }

  /** After a sync every item that carries a TMDB id is in the library under
      the synced media type, and nothing else was removed. */
  lemma {:induction false} SyncIntoContains(library: map<(int, string), LibraryEntry>, items: seq<LibraryItem>, mediaType: string)
    ensures forall i :: 0 <= i < |items| && items[i].tmdbId.Some? ==> (items[i].tmdbId.value, mediaType) in SyncInto(library, items, mediaType)
    ensures library.Keys <= SyncInto(library, items, mediaType).Keys
  {
    if |items| > 0 {
      var prefix := items[..|items| - 1];
      SyncIntoContains(library, prefix, mediaType);
      assert forall i :: 0 <= i < |prefix| ==> prefix[i] == items[i];
    }
  }

  /** The number of items of a sync body that carry a TMDB id. */
  function WithTmdb(items: seq<LibraryItem>): nat {
    if |items| == 0 then 0
    else WithTmdb(items[..|items| - 1]) + (if items[|items| - 1].tmdbId.Some? then 1 else 0)
  }

  /** Whether a key is in the scope of `get_all_requests`: a request of the
      given media type, or when none is given (or it is empty) any item whose
      partition key does not start with the rate-limit prefix. */
  predicate InScope(table: map<Key, Row>, k: Key, mediaType: Option<string>) {
    k in table && table[k].Request? &&
    if StrTruthy(mediaType) then k.0 == mediaType.value else !StartsWith(k.0, RateLimitPrefix)
  }

  ghost function ScopeItems(table: map<Key, Row>, keys: set<Key>, mediaType: Option<string>): set<RequestItem> {
    set k | k in keys && InScope(table, k, mediaType) :: table[k].req
  }

  /** One more key examined adds its request, if in scope, to the items
      found so far; in a valid table that request was not among them. */
  lemma ScopeItemsStep(table: map<Key, Row>, seen: set<Key>, k: Key, mediaType: Option<string>)
    requires TableValid(table) && k !in seen
    ensures InScope(table, k, mediaType) ==>
      table[k].req !in ScopeItems(table, seen, mediaType) &&
      ScopeItems(table, seen + {k}, mediaType) == ScopeItems(table, seen, mediaType) + {table[k].req}
    ensures !InScope(table, k, mediaType) ==> ScopeItems(table, seen + {k}, mediaType) == ScopeItems(table, seen, mediaType)
  {
    if InScope(table, k, mediaType) {
      forall k2 | k2 in seen && InScope(table, k2, mediaType)
        ensures table[k2].req != table[k].req
      {
        assert RequestKey(table[k2].req) == k2;
      }
    }
  }

  /** Adding a new element to a set adds one occurrence to its multiset. */
  lemma MultisetAddNew<T>(s: set<T>, x: T)
    requires x !in s
    ensures multiset(s + {x}) == multiset(s) + multiset{x}
  {
  }

  function CreatedAt(r: RequestItem): string {
    r.createdAt
  }

  /** A pending request whose title matches after trimming and lower-casing,
      of the given media type, and of the given year when one is given. */
  predicate TitleMatch(r: RequestItem, title: string, mediaType: string, year: Option<int>) {
    r.addedAt.None? && r.mediaType == mediaType && Lower(Strip(r.title)) == Lower(Strip(title))
    && (year.None? || r.year == year)
  }

  predicate TitleMatchAt(table: map<Key, Row>, k: Key, title: string, mediaType: string, year: Option<int>) {
    k in table && table[k].Request? && TitleMatch(table[k].req, title, mediaType, year)
  }

  /** A stored request of the media type that carries the TVDB id. */
  predicate TvdbMatch(table: map<Key, Row>, k: Key, tvdbId: int, mediaType: string) {
    k in table && table[k].Request? && k.0 == mediaType && table[k].req.tvdbId == Some(tvdbId)
  }

  /** The match a query on the media type meets first: the one with the
      smallest TMDB id. */
  ghost predicate TvdbPick(table: map<Key, Row>, k: Key, tvdbId: int, mediaType: string) {
    TvdbMatch(table, k, tvdbId, mediaType)
    && forall k2 :: TvdbMatch(table, k2, tvdbId, mediaType) ==> k.1 <= k2.1
  }

  /** At most one key is the first match. */
  lemma TvdbPickUnique(table: map<Key, Row>, k1: Key, k2: Key, tvdbId: int, mediaType: string)
    requires TvdbPick(table, k1, tvdbId, mediaType) && TvdbPick(table, k2, tvdbId, mediaType)
    ensures k1 == k2
  {
  }

  /** The key `find_by_tvdb_id` finds, if any. */
  ghost function TvdbLookup(table: map<Key, Row>, tvdbId: int, mediaType: string): (r: Option<Key>)
    ensures r.Some? ==> TvdbPick(table, r.value, tvdbId, mediaType)
    ensures r.None? ==> forall k :: !TvdbPick(table, k, tvdbId, mediaType)
  {
    if exists k :: TvdbPick(table, k, tvdbId, mediaType) then
      var k :| TvdbPick(table, k, tvdbId, mediaType);
      Some(k)
    else None
  }

  /** The keyword parameters `DynamoDBClient.query` declares. */
  const QueryParameters: set<string> := {"key_condition_expression", "expression_attribute_values", "expression_attribute_names"}

  /** The keyword arguments `find_by_tvdb_id` passes to it. */
  const TvdbQueryArguments: set<string> := {"key_condition_expression", "filter_expression", "expression_attribute_values"}

  /** `find_by_tvdb_id` as written: the call raises a TypeError unless every
      keyword argument is a declared parameter, and the handler turns that
      into None; only a call that binds would run the query. */
  ghost function FindByTvdbIdAsWritten(table: map<Key, Row>, tvdbId: int, mediaType: string): Option<RequestItem> {
    if TvdbQueryArguments <= QueryParameters then
      match TvdbLookup(table, tvdbId, mediaType)
      case None => None
      case Some(k) => Some(table[k].req)
    else None
  }

  /** As written, the lookup finds nothing whatever the table holds, because
      the query call passes `filter_expression`, which the client does not
      accept. */
  lemma FindByTvdbIdAsWrittenNeverFinds(table: map<Key, Row>, tvdbId: int, mediaType: string)
    ensures FindByTvdbIdAsWritten(table, tvdbId, mediaType) == None
  {
    assert "filter_expression" in TvdbQueryArguments && "filter_expression" !in QueryParameters;
  }

  /** A pending tv request with TVDB id 81189 that the written lookup misses
      and the intended one finds. */
  lemma FindByTvdbIdAsWrittenMisses()
    ensures var req := NewRequest(1396, "tv", "Breaking Bad", None, None, None, None, Some(81189), None, "2024-01-01T00:00:00");
      var table := map[("tv", 1396) := Request(req)];
      && FindByTvdbIdAsWritten(table, 81189, "tv") == None
      && TvdbLookup(table, 81189, "tv") == Some(("tv", 1396))
  {
    var req := NewRequest(1396, "tv", "Breaking Bad", None, None, None, None, Some(81189), None, "2024-01-01T00:00:00");
    var table := map[("tv", 1396) := Request(req)];
    FindByTvdbIdAsWrittenNeverFinds(table, 81189, "tv");
    assert TvdbPick(table, ("tv", 1396), 81189, "tv");
  }

  /** A stored request that carries the Plex GUID. */
  predicate CarriesGuid(table: map<Key, Row>, k: Key, plexGuid: string) {
    k in table && table[k].Request? && table[k].req.plexGuid == Some(plexGuid)
  }

  /** The title match at `k` is the only one. */
  ghost predicate UniqueTitleMatch(table: map<Key, Row>, k: Key, title: string, mediaType: string, year: Option<int>) {
    TitleMatchAt(table, k, title, mediaType, year)
    && forall k2 :: TitleMatchAt(table, k2, title, mediaType, year) ==> k2 == k
  }

  class Store {
    var table: map<Key, Row>
    var library: map<(int, string), LibraryEntry>
    var guidCache: map<string, GuidCacheEntry>

    ghost predicate Valid()
      reads this
    {
      TableValid(table)
    }

    constructor()
      ensures Valid() && table == map[] && library == map[] && guidCache == map[]
    {
      table := map[];
      library := map[];
      guidCache := map[];
    }

    /** `add_request`: True iff the item was written; an existing request is
        never overwritten. */
    method AddRequest(tmdbId: int, mediaType: string, title: string, year: Option<int>,
                      overview: Option<string>, posterPath: Option<string>, imdbId: Option<string>,
                      tvdbId: Option<int>, requestedBy: Option<string>, nowIso: string, fault: bool)
      returns (added: bool)
      requires Valid()
      modifies this
      ensures Valid()
      ensures fault ==> !added && table == old(table)
      ensures !fault ==> ((added, table) ==
        AddSpec(old(table), NewRequest(tmdbId, mediaType, title, year, overview, posterPath, imdbId, tvdbId, requestedBy, nowIso)))
      ensures library == old(library) && guidCache == old(guidCache)
    {
      if fault {
        return false;
      }
      var item := NewRequest(tmdbId, mediaType, title, year, overview, posterPath, imdbId, tvdbId, requestedBy, nowIso);
      added, table := AddSpec(table, item).0, AddSpec(table, item).1;
    }

    /** `remove_request`: deletes the key (absent or not) and reports True. */
    method RemoveRequest(tmdbId: int, mediaType: string, fault: bool) returns (ok: bool)
      requires Valid()
      modifies this
      ensures Valid()
      ensures ok == !fault
      ensures table == if fault then old(table) else old(table) - {(mediaType, tmdbId)}
      ensures library == old(library) && guidCache == old(guidCache)
    {
      if fault {
        return false;
      }
      table := table - {(mediaType, tmdbId)};
      ok := true;
    }

    /** `is_requested`: whether any item has the key. */
    method IsRequested(tmdbId: int, mediaType: string, fault: bool) returns (found: bool)
      ensures found <==> !fault && (mediaType, tmdbId) in table
    {
      found := !fault && (mediaType, tmdbId) in table;
    }

    /** `get_all_requests`: the requests of one media type, or every item
        that is not a rate-limit counter; each exactly once, newest
        `created_at` first; an empty list on a storage failure. */
    method GetAllRequests(mediaType: Option<string>, fault: bool) returns (r: seq<RequestItem>)
      requires Valid()
      ensures fault ==> r == []
      ensures !fault ==> multiset(r) == multiset(ScopeItems(table, table.Keys, mediaType))
      ensures SortedBy(r, CreatedAt, true)
    {
      if fault {
        return [];
      }
      var acc := ScanScope(mediaType);
      r := SortBy(acc, CreatedAt, true);
      SortBySorted(acc, CreatedAt, true);
    }

    /** The scan of `get_all_requests`: the requests in scope, in the
        table's (unspecified) key order. */
    method ScanScope(mediaType: Option<string>) returns (acc: seq<RequestItem>)
      requires Valid()
      ensures multiset(acc) == multiset(ScopeItems(table, table.Keys, mediaType))
    {
      var keys := table.Keys;
      acc := [];
      ghost var seen: set<Key> := {};
      while keys != {}
        invariant keys + seen == table.Keys
        invariant keys !! seen
        invariant multiset(acc) == multiset(ScopeItems(table, seen, mediaType))
        decreases |keys|
      {
        var k :| k in keys;
        assert k !in seen;
        ScopeItemsStep(table, seen, k, mediaType);
        if InScope(table, k, mediaType) {
          MultisetAddNew(ScopeItems(table, seen, mediaType), table[k].req);
          acc := acc + [table[k].req];
        }
        keys := keys - {k};
        seen := seen + {k};
      }
    }

    /** `mark_as_added`: the updated request, or None when there is no such
        request or it was already marked (the condition fails), or on a
        storage failure. */
    method MarkAsAdded(tmdbId: int, mediaType: string, nowIso: string, fault: bool) returns (r: Option<RequestItem>)
      requires Valid()
      modifies this
      ensures Valid()
      ensures fault ==> r.None? && table == old(table)
      ensures !fault ==> (r, table) == MarkSpec(old(table), (mediaType, tmdbId), nowIso)
      ensures library == old(library) && guidCache == old(guidCache)
    {
      if fault {
        return None;
      }
      var res := MarkSpec(table, (mediaType, tmdbId), nowIso);
      r, table := res.0, res.1;
    }

    /** `find_by_tvdb_id` as the store interface documents it: a request of
        the media type with that TVDB id, the one with the smallest TMDB id
        (the table's sort-key order), or None when there is none or storage
        fails. */
    method FindByTvdbId(tvdbId: int, mediaType: string, fault: bool) returns (r: Option<RequestItem>)
      requires Valid()
      ensures r.Some? ==> (!fault && TvdbPick(table, RequestKey(r.value), tvdbId, mediaType)
        && table[RequestKey(r.value)] == Request(r.value))
      ensures r.None? ==> fault || forall k :: !TvdbMatch(table, k, tvdbId, mediaType)
      ensures !fault ==> (r.Some? <==> TvdbLookup(table, tvdbId, mediaType).Some?)
      ensures r.Some? ==> RequestKey(r.value) == TvdbLookup(table, tvdbId, mediaType).value
    {
      if fault {
        return None;
      }
      var keys := table.Keys;
      var best: Option<Key> := None;
      while keys != {}
        invariant keys <= table.Keys
        invariant best.Some? ==> (best.value in table && table[best.value].Request? && best.value.0 == mediaType
          && table[best.value].req.tvdbId == Some(tvdbId))
        invariant best.Some? ==> forall k :: k in table.Keys - keys && table[k].Request? && k.0 == mediaType && table[k].req.tvdbId == Some(tvdbId) ==> best.value.1 <= k.1
        invariant best.None? ==> forall k :: k in table.Keys - keys && table[k].Request? && k.0 == mediaType ==> table[k].req.tvdbId != Some(tvdbId)
        decreases |keys|
      {
        var k :| k in keys;
        if table[k].Request? && k.0 == mediaType && table[k].req.tvdbId == Some(tvdbId) && (best.None? || k.1 < best.value.1) {
          best := Some(k);
        }
        keys := keys - {k};
      }
      if best.Some? {
        r := Some(table[best.value].req);
        assert TvdbPick(table, best.value, tvdbId, mediaType);
        TvdbPickUnique(table, best.value, TvdbLookup(table, tvdbId, mediaType).value, tvdbId, mediaType);
      } else {
        r := None;
      }
    }

    /** `find_by_plex_guid`: some request that carries the GUID (a scan
        returns them in no promised order), or None. */
    method FindByPlexGuid(plexGuid: string, fault: bool) returns (r: Option<RequestItem>)
      requires Valid()
      ensures r.Some? ==> !fault && CarriesGuid(table, RequestKey(r.value), plexGuid) && table[RequestKey(r.value)] == Request(r.value)
      ensures r.None? ==> fault || forall k :: !CarriesGuid(table, k, plexGuid)
    {
      if !fault && exists k :: k in table && CarriesGuid(table, k, plexGuid) {
        var k :| k in table && CarriesGuid(table, k, plexGuid);
        r := Some(table[k].req);
      } else {
        r := None;
      }
    }

    /** `update_plex_guid`: records the GUID on the request. */
    method UpdatePlexGuid(tmdbId: int, mediaType: string, plexGuid: string, fault: bool) returns (ok: bool)
      requires Valid()
      modifies this
      ensures Valid()
      ensures ok == !fault
      ensures table == if !fault && (mediaType, tmdbId) in old(table) && old(table)[(mediaType, tmdbId)].Request?
        then old(table)[(mediaType, tmdbId) := Request(old(table)[(mediaType, tmdbId)].req.(plexGuid := Some(plexGuid)))]
        else old(table)
      ensures library == old(library) && guidCache == old(guidCache)
    {
      if fault {
        return false;
      }
      var key := (mediaType, tmdbId);
      if key in table && table[key].Request? {
        table := table[key := Request(table[key].req.(plexGuid := Some(plexGuid)))];
      }
      ok := true;
    }

    /** `check_rate_limit`: (allowed, attempts remaining); fails open with the
        full allowance when storage fails. */
    method CheckRateLimit(ip: string, maxAttempts: int, window: int, now: int, fault: bool) returns (allowed: bool, remaining: int)
      ensures (allowed, remaining) == if fault then (true, maxAttempts) else RateCheck(RateRowOf(table, ip), now, maxAttempts, window)
    {
      if fault {
        return true, maxAttempts;
      }
      var r := RateCheck(RateRowOf(table, ip), now, maxAttempts, window);
      allowed, remaining := r.0, r.1;
    }

    /** `record_failed_attempt`: the new failure count (0 when storage
        fails), with the counter row rewritten accordingly. */
    method RecordFailedAttempt(ip: string, window: int, now: int, fault: bool) returns (count: int)
      requires Valid()
      modifies this
      ensures Valid()
      ensures fault ==> count == 0 && table == old(table)
      ensures !fault ==> var (row, n) := RecordFailure(RateRowOf(old(table), ip), now, window);
        count == n && table == old(table)[RateKey(ip) := RateLimit(row)]
      ensures library == old(library) && guidCache == old(guidCache)
    {
      if fault {
        return 0;
      }
      var res := RecordFailure(RateRowOf(table, ip), now, window);
      assert StartsWith(RateKey(ip).0, RateLimitPrefix);
      table := table[RateKey(ip) := RateLimit(res.0)];
      count := res.1;
    }

    /** `clear_rate_limit`: deletes the counter, so the next check allows the
        full allowance. */
    method ClearRateLimit(ip: string, fault: bool) returns (ok: bool)
      requires Valid()
      modifies this
      ensures Valid()
      ensures ok == !fault
      ensures table == if fault then old(table) else old(table) - {RateKey(ip)}
      ensures !fault ==> forall now, m, w :: RateCheck(RateRowOf(table, ip), now, m, w) == (true, m)
      ensures library == old(library) && guidCache == old(guidCache)
    {
      if fault {
        return false;
      }
      table := table - {RateKey(ip)};
      ok := true;
    }

    /** `sync_library`: with `clear_first` the library of that media type is
        emptied first; then each item carrying a TMDB id is upserted, and
        their number is returned. */
    method SyncLibrary(items: seq<LibraryItem>, mediaType: string, clearFirst: bool) returns (count: nat)
      modifies this
      ensures library == SyncInto(if clearFirst then map k | k in old(library) && k.1 != mediaType :: old(library)[k]
                                  else old(library), items, mediaType)
      ensures count == WithTmdb(items)
      ensures table == old(table) && guidCache == old(guidCache)
    {
      if clearFirst {
        library := map k | k in library && k.1 != mediaType :: library[k];
      }
      ghost var start := library;
      var i := 0;
      count := 0;
      while i < |items|
        invariant 0 <= i <= |items|
        invariant library == SyncInto(start, items[..i], mediaType)
        invariant count == WithTmdb(items[..i])
        invariant table == old(table) && guidCache == old(guidCache)
      {
        var it := items[i];
        assert items[..i + 1][..i] == items[..i];
        if it.tmdbId.Some? {
          library := library[(it.tmdbId.value, mediaType) := LibraryEntry(it.tvdbId, it.title, it.year)];
          count := count + 1;
        }
        i := i + 1;
      }
      assert items[..|items|] == items;
    }

    /** `is_in_library` */
    method IsInLibrary(tmdbId: int, mediaType: string) returns (found: bool)
      ensures found <==> (tmdbId, mediaType) in library
    {
      found := (tmdbId, mediaType) in library;
    }

    /** `get_library_ids`: the (TMDB id, media type) pairs, of one media type
        when one is given. */
    method GetLibraryIds(mediaType: Option<string>) returns (ids: set<(int, string)>)
      ensures forall p :: p in ids <==> p in library && (StrTruthy(mediaType) ==> p.1 == mediaType.value)
    {
      ids := set p | p in library && (StrTruthy(mediaType) ==> p.1 == mediaType.value);
    }

    method GetPlexGuidCache(plexGuid: string) returns (r: Option<GuidCacheEntry>)
      ensures r.Some? <==> plexGuid in guidCache
      ensures r.Some? ==> r.value == guidCache[plexGuid]
    {
      r := if plexGuid in guidCache then Some(guidCache[plexGuid]) else None;
    }

    method SetPlexGuidCache(plexGuid: string, tmdbId: Option<int>, tvdbId: Option<int>) returns (ok: bool)
      modifies this
      ensures ok
      ensures guidCache == old(guidCache)[plexGuid := GuidCacheEntry(tmdbId, tvdbId)]
      ensures table == old(table) && library == old(library)
    {
      guidCache := guidCache[plexGuid := GuidCacheEntry(tmdbId, tvdbId)];
      ok := true;
    }

    /** `find_by_title`: the pending request matched on its normalized title,
        only when exactly one request matches. */
    method FindByTitle(title: string, mediaType: string, year: Option<int>) returns (r: Option<RequestItem>)
      requires Valid()
      ensures r.Some? ==> (UniqueTitleMatch(table, RequestKey(r.value), title, mediaType, year)
        && table[RequestKey(r.value)] == Request(r.value))
      ensures r.None? ==> forall k :: !UniqueTitleMatch(table, k, title, mediaType, year)
      ensures r.Some? ==> exists k :: TitleMatchAt(table, k, title, mediaType, year) && table[k] == Request(r.value)
      ensures r.Some? ==> forall k :: TitleMatchAt(table, k, title, mediaType, year) ==> table[k].req == r.value
      ensures r.None? ==> ((forall k :: !TitleMatchAt(table, k, title, mediaType, year))
        || exists k1, k2 :: k1 != k2 && TitleMatchAt(table, k1, title, mediaType, year) && TitleMatchAt(table, k2, title, mediaType, year))
    {
      var matches := set k | k in table && TitleMatchAt(table, k, title, mediaType, year);
      if matches == {} {
        assert forall k :: TitleMatchAt(table, k, title, mediaType, year) ==> k in matches;
        r := None;
      } else {
        var k1 :| k1 in matches;
        if matches - {k1} == {} {
          assert forall k :: TitleMatchAt(table, k, title, mediaType, year) ==> k == k1 by {
            forall k | TitleMatchAt(table, k, title, mediaType, year) ensures k == k1 {
              assert k in matches;
              assert k !in matches - {k1};
            }
          }
          r := Some(table[k1].req);
        } else {
          var k2 :| k2 in matches - {k1};
          assert k1 != k2 && TitleMatchAt(table, k1, title, mediaType, year) && TitleMatchAt(table, k2, title, mediaType, year);
          r := None;
        }
      }
    }
  }
}
