/** The list and library endpoints of the unified application: the Radarr
    and Sonarr import lists of pending requests behind the feed-token gate,
    and the library sync behind the webhook-token gate, which upserts the
    posted items and marks the matching requests as added. */
module Endpoints {
  import opened Common
  import opened Text
  import opened Storage
  import opened ArrLists
  import opened Webhook
  import opened Gates

  /** `reqs` is what `get_all_requests` returns for a media type: each
      request of that type exactly once, newest `created_at` first. */
  ghost predicate Listing(table: map<Key, Row>, mediaType: string, reqs: seq<RequestItem>) {
    multiset(reqs) == multiset(ScopeItems(table, table.Keys, Some(mediaType)))
    && SortedBy(reqs, CreatedAt, true)
  }

  /** A stored request of the given media type. */
  predicate RequestOfType(table: map<Key, Row>, k: Key, mediaType: string) {
    k in table && table[k].Request? && k.0 == mediaType
  }

  /** A listing holds exactly the stored requests of its media type. */
  lemma ListingMembers(table: map<Key, Row>, mediaType: string, reqs: seq<RequestItem>)
    requires mediaType != "" && Listing(table, mediaType, reqs)
    ensures forall x :: x in reqs <==> exists k :: RequestOfType(table, k, mediaType) && x == table[k].req
  {
    forall x
      ensures x in reqs <==> exists k :: RequestOfType(table, k, mediaType) && x == table[k].req
    {
      calc {
        x in reqs;
        x in multiset(reqs);
        x in ScopeItems(table, table.Keys, Some(mediaType));
      }
      if exists k :: RequestOfType(table, k, mediaType) && x == table[k].req {
        var k :| RequestOfType(table, k, mediaType) && x == table[k].req;
        assert InScope(table, k, Some(mediaType));
      }
    }
  }

  /** `list_radarr`: behind the feed-token gate, the Radarr entry of every
      movie request not yet added, newest first. A storage failure yields an
      empty list. */
  method ListRadarr(store: Store, feedToken: Option<string>, token: Option<string>, fault: bool)
    returns (r: Result<seq<RadarrItem>, HttpError>)
    requires store.Valid()
    ensures VerifyFeedToken(feedToken, token).Fail? ==> r == Err(VerifyFeedToken(feedToken, token).error)
    ensures VerifyFeedToken(feedToken, token).Pass? && fault ==> r == Ok([])
    ensures VerifyFeedToken(feedToken, token).Pass? && !fault ==>
      r.Ok? && exists reqs :: Listing(store.table, "movie", reqs) && r.value == RadarrItems(NotAdded(reqs))
  {
    var gate := VerifyFeedToken(feedToken, token);
    if gate.Fail? {
      return Err(gate.error);
    }
    var all := store.GetAllRequests(Some("movie"), fault);
    var pending := NotAdded(all);
    var items: seq<RadarrItem> := [];
    var i := 0;
    while i < |pending|
      invariant 0 <= i <= |pending|
      invariant items == RadarrItems(pending[..i])
    {
      RadarrItemsSnoc(pending, i);
      items := items + [RadarrEntry(pending[i])];
      i := i + 1;
    }
    assert pending[..|pending|] == pending;
    r := Ok(items);
  }

  /** The Radarr list shows exactly the movie requests not yet added. */
  lemma RadarrListExact(table: map<Key, Row>, reqs: seq<RequestItem>)
    requires Listing(table, "movie", reqs)
    ensures forall e :: e in RadarrItems(NotAdded(reqs)) <==>
      exists k :: RequestOfType(table, k, "movie") && NotYetAdded(table[k].req) && e == RadarrEntry(table[k].req)
  {
    ListingMembers(table, "movie", reqs);
    var p := NotAdded(reqs);
    forall e
      ensures e in RadarrItems(p) <==>
        exists k :: RequestOfType(table, k, "movie") && NotYetAdded(table[k].req) && e == RadarrEntry(table[k].req)
    {
      if e in RadarrItems(p) {
        var i :| 0 <= i < |p| && RadarrItems(p)[i] == e;
        assert p[i] in p;
      }
      if exists k :: RequestOfType(table, k, "movie") && NotYetAdded(table[k].req) && e == RadarrEntry(table[k].req) {
        var k :| RequestOfType(table, k, "movie") && NotYetAdded(table[k].req) && e == RadarrEntry(table[k].req);
        var x := table[k].req;
        assert x in p;
        var i :| 0 <= i < |p| && p[i] == x;
        assert RadarrItems(p)[i] == e;
      }
    }
  }

  /** `list_sonarr`: behind the feed-token gate, the TVDB id of every tv
      request not yet added that has one, newest first. */
  method ListSonarr(store: Store, feedToken: Option<string>, token: Option<string>, fault: bool)
    returns (r: Result<seq<SonarrItem>, HttpError>)
    requires store.Valid()
    ensures VerifyFeedToken(feedToken, token).Fail? ==> r == Err(VerifyFeedToken(feedToken, token).error)
    ensures VerifyFeedToken(feedToken, token).Pass? && fault ==> r == Ok([])
    ensures VerifyFeedToken(feedToken, token).Pass? && !fault ==>
      r.Ok? && exists reqs :: Listing(store.table, "tv", reqs) && r.value == SonarrItems(NotAdded(reqs))
  {
    var gate := VerifyFeedToken(feedToken, token);
    if gate.Fail? {
      return Err(gate.error);
    }
    var all := store.GetAllRequests(Some("tv"), fault);
    var pending := NotAdded(all);
    var items: seq<SonarrItem> := [];
    var i := 0;
    while i < |pending|
      invariant 0 <= i <= |pending|
      invariant items == SonarrItems(pending[..i])
    {
      assert pending[..i + 1][..i] == pending[..i];
      if IntTruthy(pending[i].tvdbId) {
        items := items + [SonarrEntry(pending[i])];
      }
      i := i + 1;
    }
    assert pending[..|pending|] == pending;
    r := Ok(items);
  }

  /** The Sonarr list shows exactly the tv requests not yet added that have
      a TVDB id. */
  lemma SonarrListExact(table: map<Key, Row>, reqs: seq<RequestItem>)
    requires Listing(table, "tv", reqs)
    ensures forall e :: e in SonarrItems(NotAdded(reqs)) <==>
      exists k :: RequestOfType(table, k, "tv") && NotYetAdded(table[k].req) && IntTruthy(table[k].req.tvdbId)
                  && e == SonarrEntry(table[k].req)
  {
    ListingMembers(table, "tv", reqs);
    var p := NotAdded(reqs);
    SonarrItemsOf(p);
    forall e
      ensures e in SonarrItems(p) <==>
        exists k :: RequestOfType(table, k, "tv") && NotYetAdded(table[k].req) && IntTruthy(table[k].req.tvdbId)
                    && e == SonarrEntry(table[k].req)
    {
      if e in SonarrItems(p) {
        var j :| 0 <= j < |p| && IntTruthy(p[j].tvdbId) && e == SonarrEntry(p[j]);
        assert p[j] in p;
      }
      if exists k :: RequestOfType(table, k, "tv") && NotYetAdded(table[k].req) && IntTruthy(table[k].req.tvdbId)
                     && e == SonarrEntry(table[k].req) {
        var k :| RequestOfType(table, k, "tv") && NotYetAdded(table[k].req) && IntTruthy(table[k].req.tvdbId)
                 && e == SonarrEntry(table[k].req);
        var x := table[k].req;
        assert x in p;
        var j :| 0 <= j < |p| && p[j] == x;
      }
    }
  }

  /** The decoded body of a library sync: not JSON, JSON but not an array,
      or an array of library items. */
  datatype SyncBody = NotJson | NotArray | Items(items: seq<LibraryItem>)

  /** The response of a library sync. */
  datatype SyncResult = SyncResult(synced: nat, markedAsAdded: nat, mediaType: string)

  /** The request keys a sync body names: each item's non-zero TMDB id
      under the synced media type. */
  function BodyKeys(items: seq<LibraryItem>, mediaType: string): (s: set<Key>)
    ensures forall i :: 0 <= i < |items| && IntTruthy(items[i].tmdbId) ==> (mediaType, items[i].tmdbId.value) in s
    ensures forall k :: k in s ==> k.0 == mediaType
  {
    set i | 0 <= i < |items| && IntTruthy(items[i].tmdbId) :: (mediaType, items[i].tmdbId.value)
  }

  /** The pending requests among a set of keys. */
  function PendingAmong(table: map<Key, Row>, keys: set<Key>): set<Key> {
    set k | k in keys && Pending(table, k)
  }

  /** The marking pass of the sync, item by item: `mark_as_added` for each
      non-zero TMDB id; the number of successful marks and the new table. */
  function MarkAll(table: map<Key, Row>, items: seq<LibraryItem>, mediaType: string, nowIso: string): (map<Key, Row>, nat) {
    if |items| == 0 then (table, 0)
    else
      var done := MarkAll(table, items[..|items| - 1], mediaType, nowIso);
      MarkOne(done.0, done.1, items[|items| - 1], mediaType, nowIso)
  }

  /** One item of the marking pass: the table and count after it. */
  function MarkOne(table: map<Key, Row>, n: nat, item: LibraryItem, mediaType: string, nowIso: string): (map<Key, Row>, nat) {
    if IntTruthy(item.tmdbId) then
      var r := MarkSpec(table, (mediaType, item.tmdbId.value), nowIso);
      (r.1, n + if r.0.Some? then 1 else 0)
    else (table, n)
  }

  /** `t` and `n` are `table` after marking the requests named by `keys`:
      the pending ones among them are marked at `nowIso` and counted, and
      nothing else changes. */
  ghost predicate Marked(table: map<Key, Row>, keys: set<Key>, t: map<Key, Row>, n: nat, nowIso: string) {
    && t.Keys == table.Keys
    && (forall k :: Pending(t, k) <==> Pending(table, k) && k !in keys)
    && (forall k :: k in table && k !in PendingAmong(table, keys) ==> t[k] == table[k])
    && (forall k :: k in PendingAmong(table, keys) ==> t[k] == Request(table[k].req.(addedAt := Some(nowIso))))
    && n == |PendingAmong(table, keys)|
  }

  /** The marking pass marks every pending request the body names, once
      however often it is named, changes nothing else, and counts the
      distinct requests it marked. */
  lemma {:induction false} MarkAllFacts(table: map<Key, Row>, items: seq<LibraryItem>, mediaType: string, nowIso: string)
    ensures var (t, n) := MarkAll(table, items, mediaType, nowIso);
      && t.Keys == table.Keys
      && (forall k :: Pending(t, k) <==> Pending(table, k) && k !in BodyKeys(items, mediaType))
      && (forall k :: k in table && k !in PendingAmong(table, BodyKeys(items, mediaType)) ==> t[k] == table[k])
      && (forall k :: k in PendingAmong(table, BodyKeys(items, mediaType)) ==>
            t[k] == Request(table[k].req.(addedAt := Some(nowIso))))
      && n == |PendingAmong(table, BodyKeys(items, mediaType))|
  {
    MarkAllMarked(table, items, mediaType, nowIso);
  }

  lemma {:induction false} MarkAllMarked(table: map<Key, Row>, items: seq<LibraryItem>, mediaType: string, nowIso: string)
    ensures Marked(table, BodyKeys(items, mediaType), MarkAll(table, items, mediaType, nowIso).0,
                   MarkAll(table, items, mediaType, nowIso).1, nowIso)
  {
    if |items| == 0 {
      assert PendingAmong(table, BodyKeys(items, mediaType)) == {};
    } else {
      var init := items[..|items| - 1];
      var last := items[|items| - 1];
      MarkAllMarked(table, init, mediaType, nowIso);
      BodyKeysSnoc(items, mediaType);
      if IntTruthy(last.tmdbId) {
        var (t, n) := MarkAll(table, init, mediaType, nowIso);
        MarkedStep(table, BodyKeys(init, mediaType), t, n, (mediaType, last.tmdbId.value), nowIso);
      }
    }
  }

  /** The keys a body names are those of all but its last item, and the
      last item's key when it has a TMDB id. */
  lemma BodyKeysSnoc(items: seq<LibraryItem>, mediaType: string)
    requires |items| > 0
    ensures var last := items[|items| - 1];
      BodyKeys(items, mediaType) == BodyKeys(items[..|items| - 1], mediaType)
        + (if IntTruthy(last.tmdbId) then {(mediaType, last.tmdbId.value)} else {})
  {
    var init := items[..|items| - 1];
    assert forall i :: 0 <= i < |init| ==> init[i] == items[i];
    var keys := BodyKeys(items, mediaType);
    forall x | x in keys
      ensures x in BodyKeys(init, mediaType) || x == (mediaType, items[|items| - 1].tmdbId.value)
    {
      var i :| 0 <= i < |items| && IntTruthy(items[i].tmdbId) && x == (mediaType, items[i].tmdbId.value);
      if i < |init| {
        assert x in BodyKeys(init, mediaType);
      }
    }
  }

  /** Marking one more key keeps the marked-state description. */
  lemma MarkedStep(table: map<Key, Row>, keys: set<Key>, t: map<Key, Row>, n: nat, k: Key, nowIso: string)
    requires Marked(table, keys, t, n, nowIso)
    ensures var (m, t2) := MarkSpec(t, k, nowIso);
      Marked(table, keys + {k}, t2, n + if m.Some? then 1 else 0, nowIso)
  {
    if Pending(table, k) && k !in keys {
      assert PendingAmong(table, keys + {k}) == PendingAmong(table, keys) + {k};
      assert k !in PendingAmong(table, keys);
    } else {
      assert PendingAmong(table, keys + {k}) == PendingAmong(table, keys);
    }
  }

  /** The marking loop of the sync: `mark_as_added` for every item with a
      non-zero TMDB id, counting the successful marks. */
  method MarkItems(store: Store, items: seq<LibraryItem>, mediaType: string, nowIso: string) returns (marked: nat)
    requires store.Valid()
    modifies store
    ensures store.Valid()
    ensures (store.table, marked) == MarkAll(old(store.table), items, mediaType, nowIso)
    ensures store.library == old(store.library) && store.guidCache == old(store.guidCache)
  {
    marked := 0;
    ghost var table0 := store.table;
    var i := 0;
    while i < |items|
      invariant 0 <= i <= |items|
      invariant store.Valid()
      invariant (store.table, marked) == MarkAll(table0, items[..i], mediaType, nowIso)
      invariant store.library == old(store.library) && store.guidCache == old(store.guidCache)
    {
      MarkAllSnoc(table0, items, mediaType, nowIso, i);
      ghost var before := (store.table, marked);
      var tmdbId := items[i].tmdbId;
      if IntTruthy(tmdbId) {
        var m := store.MarkAsAdded(tmdbId.value, mediaType, nowIso, false);
        if m.Some? {
          marked := marked + 1;
        }
      }
      assert (store.table, marked) == MarkOne(before.0, before.1, items[i], mediaType, nowIso);
      i := i + 1;
    }
    assert items[..|items|] == items;
  }

  /** Marking one more item takes the mark of that item's key, if any. */
  lemma MarkAllSnoc(table: map<Key, Row>, items: seq<LibraryItem>, mediaType: string, nowIso: string, i: nat)
    requires i < |items|
    ensures var done := MarkAll(table, items[..i], mediaType, nowIso);
      MarkAll(table, items[..i + 1], mediaType, nowIso) == MarkOne(done.0, done.1, items[i], mediaType, nowIso)
  {
    assert items[..i + 1][..i] == items[..i];
  }

  /** A second sync of the same body marks nothing and changes nothing. */
  lemma ResyncMarksNothing(table: map<Key, Row>, items: seq<LibraryItem>, mediaType: string, now1: string, now2: string)
    ensures var t := MarkAll(table, items, mediaType, now1).0;
      MarkAll(t, items, mediaType, now2) == (t, 0)
  {
    var t := MarkAll(table, items, mediaType, now1).0;
    MarkAllFacts(table, items, mediaType, now1);
    MarkAllFacts(t, items, mediaType, now2);
    var t2 := MarkAll(t, items, mediaType, now2).0;
    assert PendingAmong(t, BodyKeys(items, mediaType)) == {};
    assert t2 == t;
  }

  /** `sync_library_endpoint`, behind the webhook-token gate: the media type
      must be movie or tv and the body a JSON array; the items are synced into
      the library (the library of that type emptied first with `clear`), then
      every item with a non-zero TMDB id marks its request as added. */
  method SyncLibraryEndpoint(store: Store, webhookToken: Option<string>, token: Option<string>,
                             mediaType: string, clear: bool, body: SyncBody, nowIso: string)
    returns (r: Result<SyncResult, HttpError>)
    requires store.Valid()
    modifies store
    ensures store.Valid()
    ensures VerifyPlexWebhookToken(webhookToken, token).Fail? ==> r == Err(VerifyPlexWebhookToken(webhookToken, token).error)
    ensures VerifyPlexWebhookToken(webhookToken, token).Pass? && mediaType !in {"movie", "tv"} ==>
      r == Err(HttpError(400, "media_type must be 'movie' or 'tv'"))
    ensures VerifyPlexWebhookToken(webhookToken, token).Pass? && mediaType in {"movie", "tv"} && body.NotJson? ==>
      r == Err(HttpError(400, "Invalid JSON body"))
    ensures VerifyPlexWebhookToken(webhookToken, token).Pass? && mediaType in {"movie", "tv"} && body.NotArray? ==>
      r == Err(HttpError(400, "Body must be a JSON array"))
    ensures r.Err? ==> store.table == old(store.table) && store.library == old(store.library)
    ensures r.Ok? <==> VerifyPlexWebhookToken(webhookToken, token).Pass? && mediaType in {"movie", "tv"} && body.Items?
    ensures r.Ok? ==>
      && r.value.mediaType == mediaType
      && r.value.synced == WithTmdb(body.items)
      && store.library == SyncInto(if clear then map k | k in old(store.library) && k.1 != mediaType :: old(store.library)[k]
                                   else old(store.library), body.items, mediaType)
      && (store.table, r.value.markedAsAdded) == MarkAll(old(store.table), body.items, mediaType, nowIso)
    ensures store.guidCache == old(store.guidCache)
  {
    var gate := VerifyPlexWebhookToken(webhookToken, token);
    if gate.Fail? {
      return Err(gate.error);
    }
    if mediaType !in {"movie", "tv"} {
      return Err(HttpError(400, "media_type must be 'movie' or 'tv'"));
    }
    if body.NotJson? {
      return Err(HttpError(400, "Invalid JSON body"));
    }
    if body.NotArray? {
      return Err(HttpError(400, "Body must be a JSON array"));
    }
    var items := body.items;
    var count := store.SyncLibrary(items, mediaType, clear);
    var marked := MarkItems(store, items, mediaType, nowIso);
    r := Ok(SyncResult(count, marked, mediaType));
  }
}
