/** What both RSS generators share: the feed object they fill (the
    `FeedGenerator` of the `feedgen` package, reduced to the fields they
    set), its entries, and the choice of an entry's publication date. The
    XML serialisation is not modelled. */
module Feed {
  import opened Common
  import opened Text
  import opened Seqs

  /** A `datetime`: its wall-clock reading and its UTC offset in minutes,
      None for a naive value. */
  datatype Moment = Moment(wall: string, offset: Option<int>)

  /** One feed item as the generators fill it. Every GUID is set with
      `permalink=False`. */
  datatype FeedEntry = FeedEntry(id: string, title: string, description: string, guid: string, link: string,
                                 pubDate: Moment)

  /** `req['overview'] or "No description available"`. */
  function Describe(overview: Option<string>): (d: string)
    ensures StrTruthy(overview) ==> d == overview.value
    ensures !StrTruthy(overview) ==> d == "No description available"
    ensures d != ""
  {
    if StrTruthy(overview) then overview.value else "No description available"
  }

  /** A `datetime` that carries a UTC offset. */
  predicate Aware(m: Moment) {
    m.offset.Some?
  }

  /** `m.replace(tzinfo=timezone.utc)` for a naive value; an aware value is
      kept. */
  function AsUtc(m: Moment): (u: Moment)
    ensures Aware(u) && u.wall == m.wall
    ensures Aware(m) ==> u == m
    ensures !Aware(m) ==> u.offset == Some(0)
  {
    if m.offset.None? then Moment(m.wall, Some(0)) else m
  }

  /** The text of the `ValueError` raised by feedgen's `pubDate` setter for a
      naive `datetime`. */
  const NaiveDateError := "Datetime object has no timezone info"

  /** A stored `created_at` text that `fromisoformat` reads as a naive
      `datetime` (no offset in the text, such as SQLite's
      `CURRENT_TIMESTAMP`). */
  predicate NaiveStored(createdAt: string, fromIso: string -> Option<Moment>) {
    && createdAt != ""
    && fromIso(Replace(createdAt, "Z", "+00:00")).Some?
    && !Aware(fromIso(Replace(createdAt, "Z", "+00:00")).value)
  }

  /** The publication date of a stored `created_at` text: parsed with
      `datetime.fromisoformat` after `Z` becomes `+00:00`; the current time
      when the text is empty or does not parse. */
  function PubDateOfText(createdAt: string, now: Moment, fromIso: string -> Option<Moment>): (d: Moment)
    ensures createdAt == "" ==> d == now
    ensures createdAt != "" && fromIso(Replace(createdAt, "Z", "+00:00")).Some? ==>
      d == fromIso(Replace(createdAt, "Z", "+00:00")).value
    ensures createdAt != "" && fromIso(Replace(createdAt, "Z", "+00:00")).None? ==> d == now
  {
    if createdAt != "" then
      match fromIso(Replace(createdAt, "Z", "+00:00"))
      case Some(m) => m
      case None => now
    else now
  }

  /** With the clock read in UTC, a text's publication date is naive
      exactly when `fromisoformat` reads the text as naive. */
  lemma PubDateOfTextAware(createdAt: string, now: Moment, fromIso: string -> Option<Moment>)
    requires Aware(now)
    ensures Aware(PubDateOfText(createdAt, now, fromIso)) <==> !NaiveStored(createdAt, fromIso)
  {
  }

  const TmdbPage := "https://www.themoviedb.org/"

  /** `"tmdb-{tmdb_id}"` */
  function TmdbGuid(tmdbId: int): string {
    "tmdb-" + IntToString(tmdbId)
  }

  /** `"tvdb-{tvdb_id}"` */
  function TvdbGuid(tvdbId: int): string {
    "tvdb-" + IntToString(tvdbId)
  }

  /** `"[Movie]"` for movies, `"[TV]"` for anything else. */
  function TypeLabel(mediaType: string): string {
    if mediaType == "movie" then "Movie" else "TV"
  }

  /** The entry id: `"{media_type}-{tmdb_id}"`. */
  function EntryId(mediaType: string, tmdbId: int): string {
    mediaType + "-" + IntToString(tmdbId)
  }

  /** Entry ids tell the requests of the two media types apart: equal ids
      mean the same key. */
  lemma EntryIdInjective(m1: string, t1: int, m2: string, t2: int)
    requires m1 in {"movie", "tv"} && m2 in {"movie", "tv"}
    requires EntryId(m1, t1) == EntryId(m2, t2)
    ensures m1 == m2 && t1 == t2
  {
    var e := EntryId(m1, t1);
    assert e[0] == m1[0] && e[0] == m2[0];
    assert m1 == m2;
    var n := |m1| + 1;
    assert e[n..] == IntToString(t1);
    assert EntryId(m2, t2)[n..] == IntToString(t2);
    IntToStringInjective(t1, t2);
  }

  /** Two TMDB GUIDs are equal only for equal ids. */
  lemma TmdbGuidInjective(a: int, b: int)
    requires TmdbGuid(a) == TmdbGuid(b)
    ensures a == b
  {
    assert TmdbGuid(a)[5..] == IntToString(a);
    assert TmdbGuid(b)[5..] == IntToString(b);
    IntToStringInjective(a, b);
  }

  /** Which feed an entry is built for. */
  datatype FeedKind = Movies | Shows | All

  /** The feed the generators fill: its channel fields and its entries in
      the order they were added. */
  class FeedGenerator {
    var title: string
    var description: string
    var link: string
    var language: string
    var lastBuildDate: Moment
    var entries: seq<FeedEntry>

    /** `create_feed_generator`: an English feed with a self link, built
        now, with no entries. */
    constructor (title: string, description: string, link: string, now: Moment)
      ensures this.title == title && this.description == description && this.link == link
      ensures language == "en" && lastBuildDate == now
      ensures entries == []
    {
      this.title := title;
      this.description := description;
      this.link := link;
      language := "en";
      lastBuildDate := now;
      entries := [];
    }

    /** `add_entry` followed by the setters of that entry. The `pubDate`
        setter raises `ValueError` on a naive `datetime`, which abandons the
        whole feed; the entry the source had already added, still undated,
        is then not kept here. */
    method AddEntry(e: FeedEntry) returns (ok: bool)
      modifies this
      ensures ok <==> Aware(e.pubDate)
      ensures entries == if ok then old(entries) + [e] else old(entries)
      ensures title == old(title) && description == old(description) && link == old(link)
      ensures language == old(language) && lastBuildDate == old(lastBuildDate)
    {
      ok := Aware(e.pubDate);
      if ok {
        entries := entries + [e];
      }
    }
  }

  /** Every entry has an aware publication date. */
  predicate AllDated(es: seq<FeedEntry>) {
    forall i :: 0 <= i < |es| ==> Aware(es[i].pubDate)
  }

  /** The loop every generator runs: one entry per item, in order. It stops
      at the first entry whose date the `pubDate` setter refuses, having
      added the entries before it. */
  method AddEntries<T>(fg: FeedGenerator, items: seq<T>, entryOf: T -> FeedEntry) returns (ok: bool)
    modifies fg
    ensures ok <==> AllDated(Map(items, entryOf))
    ensures ok ==> fg.entries == old(fg.entries) + Map(items, entryOf)
    ensures !ok ==>
      exists n :: 0 <= n < |items| && !Aware(entryOf(items[n]).pubDate) &&
        AllDated(Map(items[..n], entryOf)) && fg.entries == old(fg.entries) + Map(items[..n], entryOf)
    ensures fg.title == old(fg.title) && fg.description == old(fg.description) && fg.link == old(fg.link)
    ensures fg.language == old(fg.language) && fg.lastBuildDate == old(fg.lastBuildDate)
  {
    var i := 0;
    ok := true;
    while i < |items|
      invariant 0 <= i <= |items|
      invariant AllDated(Map(items[..i], entryOf))
      invariant fg.entries == old(fg.entries) + Map(items[..i], entryOf)
      invariant fg.title == old(fg.title) && fg.description == old(fg.description) && fg.link == old(fg.link)
      invariant fg.language == old(fg.language) && fg.lastBuildDate == old(fg.lastBuildDate)
    {
      MapSnoc(items, entryOf, i);
      ok := fg.AddEntry(entryOf(items[i]));
      if !ok {
        assert !AllDated(Map(items, entryOf)) by {
          assert Map(items, entryOf)[i] == entryOf(items[i]);
        }
        return;
      }
      i := i + 1;
    }
    assert items[..i] == items;
  }

  /** Where every entry takes its date from a stored text, the entries are
      all dated exactly when no stored text reads as naive. */
  lemma DatedUnlessNaive<T>(items: seq<T>, entryOf: T -> FeedEntry, createdAt: T -> string, now: Moment,
                            fromIso: string -> Option<Moment>)
    requires Aware(now)
    requires forall i :: 0 <= i < |items| ==> entryOf(items[i]).pubDate == PubDateOfText(createdAt(items[i]), now, fromIso)
    ensures AllDated(Map(items, entryOf)) <==> forall i :: 0 <= i < |items| ==> !NaiveStored(createdAt(items[i]), fromIso)
  {
    forall i | 0 <= i < |items|
      ensures Aware(Map(items, entryOf)[i].pubDate) <==> !NaiveStored(createdAt(items[i]), fromIso)
    {
      PubDateOfTextAware(createdAt(items[i]), now, fromIso);
    }
  }
}
