/** The JSON lists that Radarr and Sonarr import, built from stored requests:
    Radarr gets a display title with optional IMDb id and poster URL per
    movie, Sonarr gets the TVDB id, as text, of each show that has one. */
module ArrLists {
  import opened Common
  import opened Text
  import opened Storage

  const PosterBase := "https://image.tmdb.org/t/p/w300"

  /** "Title (Year)" when the year is present and non-zero, else the title. */
  function DisplayTitle(title: string, year: Option<int>): (t: string)
    ensures IntTruthy(year) ==> t == title + " (" + IntToString(year.value) + ")"
    ensures !IntTruthy(year) ==> t == title
    ensures title <= t
  {
    if IntTruthy(year) then title + " (" + IntToString(year.value) + ")" else title
  }

  /** One entry of the Radarr (StevenLu custom) list. */
  datatype RadarrItem = RadarrItem(title: string, imdbId: Option<string>, posterUrl: Option<string>)

  /** One entry of the Sonarr custom list. */
  datatype SonarrItem = SonarrItem(tvdbId: string)

  /** The Radarr entry of a request; a field that is absent or empty in the
      request is absent from the entry. */
  function RadarrEntry(req: RequestItem): (e: RadarrItem)
    ensures e.title == DisplayTitle(req.title, req.year)
    ensures e.imdbId.Some? <==> StrTruthy(req.imdbId)
    ensures e.imdbId.Some? ==> e.imdbId == req.imdbId
    ensures e.posterUrl.Some? <==> StrTruthy(req.posterPath)
    ensures e.posterUrl.Some? ==> e.posterUrl.value == PosterBase + req.posterPath.value
  {
    RadarrItem(DisplayTitle(req.title, req.year),
               if StrTruthy(req.imdbId) then req.imdbId else None,
               if StrTruthy(req.posterPath) then Some(PosterBase + req.posterPath.value) else None)
  }

  /** One Radarr entry per request, in order. */
  function RadarrItems(reqs: seq<RequestItem>): (r: seq<RadarrItem>)
    ensures |r| == |reqs| && forall i :: 0 <= i < |reqs| ==> r[i] == RadarrEntry(reqs[i])
  {
    if |reqs| == 0 then [] else [RadarrEntry(reqs[0])] + RadarrItems(reqs[1..])
  }

  /** The list of one more request ends in that request's entry. */
  lemma RadarrItemsSnoc(reqs: seq<RequestItem>, n: nat)
    requires n < |reqs|
    ensures RadarrItems(reqs[..n + 1]) == RadarrItems(reqs[..n]) + [RadarrEntry(reqs[n])]
  {
    var a := RadarrItems(reqs[..n + 1]);
    var b := RadarrItems(reqs[..n]) + [RadarrEntry(reqs[n])];
    forall i | 0 <= i <= n
      ensures a[i] == b[i]
    {
      assert reqs[..n + 1][i] == reqs[i];
    }
  }

  /** The Sonarr entries: the TVDB id as decimal text for each request whose
      TVDB id is present and non-zero, in order. */
  function SonarrItems(reqs: seq<RequestItem>): seq<SonarrItem> {
    if |reqs| == 0 then []
    else SonarrItems(reqs[..|reqs| - 1])
         + (if IntTruthy(reqs[|reqs| - 1].tvdbId) then [SonarrEntry(reqs[|reqs| - 1])] else [])
  }

  /** The Sonarr entry of a request that has a TVDB id. */
  function SonarrEntry(req: RequestItem): SonarrItem
    requires IntTruthy(req.tvdbId)
  {
    SonarrItem(IntToString(req.tvdbId.value))
  }

  /** Sonarr entries are exactly the entries of the requests that have a
      TVDB id. */
  lemma {:induction false} SonarrItemsOf(reqs: seq<RequestItem>)
    ensures forall e :: e in SonarrItems(reqs) <==>
      exists j :: 0 <= j < |reqs| && IntTruthy(reqs[j].tvdbId) && e == SonarrEntry(reqs[j])
    ensures |SonarrItems(reqs)| <= |reqs|
  {
    if |reqs| > 0 {
      var init := reqs[..|reqs| - 1];
      SonarrItemsOf(init);
      forall e
        ensures e in SonarrItems(reqs) <==> exists j :: 0 <= j < |reqs| && IntTruthy(reqs[j].tvdbId) && e == SonarrEntry(reqs[j])
      {
        if e in SonarrItems(init) {
          var j :| 0 <= j < |init| && IntTruthy(init[j].tvdbId) && e == SonarrEntry(init[j]);
          assert reqs[j] == init[j];
        }
        if exists j :: 0 <= j < |reqs| && IntTruthy(reqs[j].tvdbId) && e == SonarrEntry(reqs[j]) {
          var j :| 0 <= j < |reqs| && IntTruthy(reqs[j].tvdbId) && e == SonarrEntry(reqs[j]);
          if j < |reqs| - 1 {
            assert reqs[j] == init[j];
          }
        }
      }
    }
  }

  /** Every Sonarr entry reads back as the TVDB id of a request that has
      one, and every such request has its entry. */
  lemma SonarrItemsExact(reqs: seq<RequestItem>)
    ensures forall e :: e in SonarrItems(reqs) ==>
      exists j :: 0 <= j < |reqs| && IntTruthy(reqs[j].tvdbId) && ParseInt(e.tvdbId) == reqs[j].tvdbId
    ensures forall j :: 0 <= j < |reqs| && IntTruthy(reqs[j].tvdbId) ==> SonarrEntry(reqs[j]) in SonarrItems(reqs)
  {
    SonarrItemsOf(reqs);
    forall e | e in SonarrItems(reqs)
      ensures exists j :: 0 <= j < |reqs| && IntTruthy(reqs[j].tvdbId) && ParseInt(e.tvdbId) == reqs[j].tvdbId
    {
      var j :| 0 <= j < |reqs| && IntTruthy(reqs[j].tvdbId) && e == SonarrEntry(reqs[j]);
      ParseIntToString(reqs[j].tvdbId.value);
    }
  }

  /** A request counts as not yet added when its `added_at` is absent or
      empty. */
  predicate NotYetAdded(r: RequestItem) {
    !StrTruthy(r.addedAt)
  }

  /** The requests not yet added, in order. */
  function NotAdded(reqs: seq<RequestItem>): (r: seq<RequestItem>)
    ensures forall x :: x in r <==> x in reqs && NotYetAdded(x)
    ensures |r| <= |reqs|
  {
    if |reqs| == 0 then []
    else (if NotYetAdded(reqs[0]) then [reqs[0]] else []) + NotAdded(reqs[1..])
  }
}
