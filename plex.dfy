/** Plex webhook payloads: the external ids found in an item's `Guid` list
    and the media record extracted from the payload's metadata, with the
    per-type rules that keep only show-level ids. */
module Plex {
  import opened Common
  import opened Text

  /** The external ids of one item; each absent until a GUID supplies it. */
  datatype GuidIds = GuidIds(tmdbId: Option<int>, tvdbId: Option<int>, imdbId: Option<string>)

  const NoIds := GuidIds(None, None, None)

  /** The integer after a `scheme://` prefix, when the GUID has that prefix
      and the rest parses as a Python integer. Every scheme used here is
      seven characters long including `://`. */
  function IntAfter(guid: string, scheme: string): Option<int> {
    if StartsWith(guid, scheme) then ParseInt(guid[|scheme|..]) else None
  }

  /** What one GUID (the `id` of a `Guid` entry, "" when absent) does to the
      ids found so far: a `tmdb://` or `tvdb://` GUID whose suffix is an
      integer overwrites that id, any `imdb://` GUID overwrites the IMDb id,
      and anything else changes nothing. */
  function ApplyGuid(acc: GuidIds, guid: string): GuidIds {
    if StartsWith(guid, "tmdb://") then
      (match IntAfter(guid, "tmdb://") case Some(v) => acc.(tmdbId := Some(v)) case None => acc)
    else if StartsWith(guid, "tvdb://") then
      (match IntAfter(guid, "tvdb://") case Some(v) => acc.(tvdbId := Some(v)) case None => acc)
    else if StartsWith(guid, "imdb://") then acc.(imdbId := Some(guid[7..]))
    else acc
  }

  /** The ids of a `Guid` list: the left fold of `ApplyGuid` from no ids. */
  function GuidIdsOf(guids: seq<Option<string>>): GuidIds {
    if |guids| == 0 then NoIds
    else ApplyGuid(GuidIdsOf(guids[..|guids| - 1]), guids[|guids| - 1].GetOr(""))
  }

  /** `parse_guid_list`: one pass over the list, updating the result. */
  method ParseGuidList(guids: seq<Option<string>>) returns (ids: GuidIds)
    ensures ids == GuidIdsOf(guids)
  {
    ids := NoIds;
    var i := 0;
    while i < |guids|
      invariant 0 <= i <= |guids|
      invariant ids == GuidIdsOf(guids[..i])
    {
      var guid := guids[i].GetOr("");
      assert guids[..i + 1][..i] == guids[..i];
      if StartsWith(guid, "tmdb://") {
        var v := IntAfter(guid, "tmdb://");
        if v.Some? {
          ids := ids.(tmdbId := v);
        }
      } else if StartsWith(guid, "tvdb://") {
        var v := IntAfter(guid, "tvdb://");
        if v.Some? {
          ids := ids.(tvdbId := v);
        }
      } else if StartsWith(guid, "imdb://") {
        ids := ids.(imdbId := Some(guid[7..]));
      }
      i := i + 1;
    }
    assert guids[..|guids|] == guids;
  }

  /** The TMDB id a single GUID supplies, if any. */
  function TmdbOf(g: Option<string>): Option<int> {
    IntAfter(g.GetOr(""), "tmdb://")
  }

  /** The TVDB id a single GUID supplies, if any. */
  function TvdbOf(g: Option<string>): Option<int> {
    IntAfter(g.GetOr(""), "tvdb://")
  }

  /** The IMDb id a single GUID supplies, if any. */
  function ImdbOf(g: Option<string>): Option<string> {
    var s := g.GetOr("");
    if StartsWith(s, "imdb://") then Some(s[7..]) else None
  }

  /** One GUID sets exactly the ids it supplies and keeps the others. */
  lemma ApplyGuidFields(acc: GuidIds, g: Option<string>)
    ensures ApplyGuid(acc, g.GetOr("")).tmdbId == if TmdbOf(g).Some? then TmdbOf(g) else acc.tmdbId
    ensures ApplyGuid(acc, g.GetOr("")).tvdbId == if TvdbOf(g).Some? then TvdbOf(g) else acc.tvdbId
    ensures ApplyGuid(acc, g.GetOr("")).imdbId == if ImdbOf(g).Some? then ImdbOf(g) else acc.imdbId
  {
    SchemesExclusive(g.GetOr(""));
  }

  /** The last present value of a sequence of optional values. */
  function LastSome<T>(xs: seq<Option<T>>): Option<T> {
    if |xs| == 0 then None
    else if xs[|xs| - 1].Some? then xs[|xs| - 1]
    else LastSome(xs[..|xs| - 1])
  }

  /** `LastSome` is absent exactly when every value is, and otherwise is the
      value at some position after which every value is absent. */
  lemma {:induction false} LastSomeIsLast<T>(xs: seq<Option<T>>)
    ensures LastSome(xs).None? <==> forall i :: 0 <= i < |xs| ==> xs[i].None?
    ensures LastSome(xs).Some? ==>
      exists i :: (0 <= i < |xs| && xs[i] == LastSome(xs) && forall j :: i < j < |xs| ==> xs[j].None?)
  {
    if |xs| > 0 && xs[|xs| - 1].None? {
      var n := |xs| - 1;
      var prefix := xs[..n];
      LastSomeIsLast(prefix);
      assert forall i :: 0 <= i < n ==> prefix[i] == xs[i];
      if LastSome(xs).Some? {
        var i :| 0 <= i < n && prefix[i] == LastSome(prefix) && forall j :: i < j < n ==> prefix[j].None?;
        assert xs[i] == LastSome(xs);
      }
    }
  }

  /** The ids each GUID of the list supplies, position by position. */
  function TmdbIds(guids: seq<Option<string>>): (r: seq<Option<int>>)
    ensures |r| == |guids| && forall i :: 0 <= i < |guids| ==> r[i] == TmdbOf(guids[i])
  {
    seq(|guids|, i requires 0 <= i < |guids| => TmdbOf(guids[i]))
  }

  function TvdbIds(guids: seq<Option<string>>): (r: seq<Option<int>>)
    ensures |r| == |guids| && forall i :: 0 <= i < |guids| ==> r[i] == TvdbOf(guids[i])
  {
    seq(|guids|, i requires 0 <= i < |guids| => TvdbOf(guids[i]))
  }

  function ImdbIds(guids: seq<Option<string>>): (r: seq<Option<string>>)
    ensures |r| == |guids| && forall i :: 0 <= i < |guids| ==> r[i] == ImdbOf(guids[i])
  {
    seq(|guids|, i requires 0 <= i < |guids| => ImdbOf(guids[i]))
  }

  /** Each id of the fold is the last one the list supplies: a later GUID of
      the same scheme overwrites an earlier one, a `tmdb://` or `tvdb://`
      GUID with a non-integer suffix supplies nothing, and an id no GUID
      supplies stays absent. */
  lemma GuidIdsLastWins(guids: seq<Option<string>>)
    ensures GuidIdsOf(guids) == GuidIds(LastSome(TmdbIds(guids)), LastSome(TvdbIds(guids)), LastSome(ImdbIds(guids)))
  {
    TmdbLastWins(guids);
    TvdbLastWins(guids);
    ImdbLastWins(guids);
  }

  lemma {:induction false} TmdbLastWins(guids: seq<Option<string>>)
    ensures GuidIdsOf(guids).tmdbId == LastSome(TmdbIds(guids))
  {
    if |guids| > 0 {
      var n := |guids| - 1;
      var prefix := guids[..n];
      TmdbLastWins(prefix);
      ApplyGuidFields(GuidIdsOf(prefix), guids[n]);
      assert TmdbIds(guids)[..n] == TmdbIds(prefix);
    }
  }

  lemma {:induction false} TvdbLastWins(guids: seq<Option<string>>)
    ensures GuidIdsOf(guids).tvdbId == LastSome(TvdbIds(guids))
  {
    if |guids| > 0 {
      var n := |guids| - 1;
      var prefix := guids[..n];
      TvdbLastWins(prefix);
      ApplyGuidFields(GuidIdsOf(prefix), guids[n]);
      assert TvdbIds(guids)[..n] == TvdbIds(prefix);
    }
  }

  lemma {:induction false} ImdbLastWins(guids: seq<Option<string>>)
    ensures GuidIdsOf(guids).imdbId == LastSome(ImdbIds(guids))
  {
    if |guids| > 0 {
      var n := |guids| - 1;
      var prefix := guids[..n];
      ImdbLastWins(prefix);
      ApplyGuidFields(GuidIdsOf(prefix), guids[n]);
      assert ImdbIds(guids)[..n] == ImdbIds(prefix);
    }
  }

  /** A GUID has at most one of the three schemes. */
  lemma SchemesExclusive(s: string)
    ensures StartsWith(s, "tmdb://") ==> !StartsWith(s, "tvdb://") && !StartsWith(s, "imdb://")
    ensures StartsWith(s, "tvdb://") ==> !StartsWith(s, "imdb://")
  {
    if StartsWith(s, "tmdb://") {
      assert s[1] == 'm';
    }
    if StartsWith(s, "tvdb://") {
      assert s[0] == 't';
    }
  }

  /** The `Metadata` object of a webhook payload; an absent string or number
      field is None, and an absent `Guid` list is empty. */
  datatype Metadata = Metadata(
    kind: Option<string>,
    title: Option<string>, parentTitle: Option<string>, grandparentTitle: Option<string>,
    year: Option<int>, parentYear: Option<int>, grandparentYear: Option<int>,
    guid: Option<string>, parentGuid: Option<string>, grandparentGuid: Option<string>,
    guids: seq<Option<string>>)

  /** `PlexMedia`: the media type ("movie" or "tv"), the Plex type, the
      show-level title, year and Plex GUID, the show-level external ids, and
      for an episode the episode's own TVDB id. */
  datatype PlexMedia = PlexMedia(
    mediaType: string, plexType: string, title: string, year: Option<int>,
    tmdbId: Option<int>, tvdbId: Option<int>, imdbId: Option<string>,
    plexGuid: Option<string>, episodeTvdbId: Option<int>)

  predicate Supported(kind: string) {
    kind == "movie" || kind == "show" || kind == "season" || kind == "episode"
  }

  /** `parse_plex_payload` on the payload's metadata (None when the payload
      has none). */
  function ParsePlexPayload(metadata: Option<Metadata>): (r: Option<PlexMedia>)
    ensures r.Some? <==> metadata.Some? && Supported(metadata.value.kind.GetOr(""))
    ensures r.Some? ==> var m := metadata.value; var ids := GuidIdsOf(m.guids);
      && r.value.plexType == m.kind.value
      && (r.value.mediaType == "movie" <==> m.kind.value == "movie")
      && (r.value.mediaType == "tv" <==> m.kind.value != "movie")
      && r.value.imdbId == ids.imdbId
      && (m.kind.value in {"movie", "show"} ==>
            r.value.title == m.title.GetOr("Unknown") && r.value.year == m.year && r.value.plexGuid == m.guid
            && r.value.tmdbId == ids.tmdbId && r.value.tvdbId == ids.tvdbId && r.value.episodeTvdbId.None?)
      && (m.kind.value == "season" ==>
            r.value.title == m.parentTitle.GetOr("Unknown") && r.value.year == m.parentYear
            && r.value.plexGuid == m.parentGuid
            && r.value.tmdbId.None? && r.value.tvdbId.None? && r.value.episodeTvdbId.None?)
      && (m.kind.value == "episode" ==>
            r.value.title == m.grandparentTitle.GetOr("Unknown") && r.value.year == m.grandparentYear
            && r.value.plexGuid == m.grandparentGuid && r.value.tmdbId == ids.tmdbId
            && (IntTruthy(ids.tvdbId) ==> r.value.episodeTvdbId == ids.tvdbId && r.value.tvdbId.None?)
            && (!IntTruthy(ids.tvdbId) ==> r.value.episodeTvdbId.None? && r.value.tvdbId == ids.tvdbId))
  {
    var m := metadata.GetOr(Metadata(None, None, None, None, None, None, None, None, None, None, []));
    var kind := m.kind.GetOr("");
    if !Supported(kind) then None
    else
      var mediaType := if kind == "movie" then "movie" else "tv";
      var title :=
        if kind == "season" then m.parentTitle.GetOr("Unknown")
        else if kind == "episode" then m.grandparentTitle.GetOr("Unknown")
        else m.title.GetOr("Unknown");
      var year := if kind == "season" then m.parentYear else if kind == "episode" then m.grandparentYear else m.year;
      var plexGuid := if kind == "season" then m.parentGuid else if kind == "episode" then m.grandparentGuid else m.guid;
      var ids := GuidIdsOf(m.guids);
      var episodeTvdbId := if kind == "episode" && IntTruthy(ids.tvdbId) then ids.tvdbId else None;
      var tvdbId := if kind == "season" || (kind == "episode" && IntTruthy(ids.tvdbId)) then None else ids.tvdbId;
      var tmdbId := if kind == "season" then None else ids.tmdbId;
      Some(PlexMedia(mediaType, kind, title, year, tmdbId, tvdbId, ids.imdbId, plexGuid, episodeTvdbId))
  }

  /** A parsed record never carries both a show-level TVDB id and an
      episode TVDB id, and only an episode carries the latter. */
  lemma ShowAndEpisodeTvdbExclusive(metadata: Option<Metadata>)
    requires ParsePlexPayload(metadata).Some?
    ensures ParsePlexPayload(metadata).value.tvdbId.None? || ParsePlexPayload(metadata).value.episodeTvdbId.None?
    ensures ParsePlexPayload(metadata).value.episodeTvdbId.Some? ==> ParsePlexPayload(metadata).value.plexType == "episode"
  {
  }

  /** Every external id of a parsed record was supplied by a GUID of the
      item's own list, and by no GUID after it. */
  lemma PayloadIdsFromGuids(metadata: Option<Metadata>)
    requires ParsePlexPayload(metadata).Some?
    ensures var r := ParsePlexPayload(metadata).value; var g := metadata.value.guids;
      && (r.tmdbId.Some? ==> exists i :: (0 <= i < |g| && TmdbOf(g[i]) == r.tmdbId && forall j :: i < j < |g| ==> TmdbOf(g[j]).None?))
      && (r.imdbId.Some? ==> exists i :: (0 <= i < |g| && ImdbOf(g[i]) == r.imdbId && forall j :: i < j < |g| ==> ImdbOf(g[j]).None?))
  {
    var g := metadata.value.guids;
    GuidIdsLastWins(g);
    LastSomeIsLast(TmdbIds(g));
    LastSomeIsLast(ImdbIds(g));
  }
}
