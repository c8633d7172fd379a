/** The library sync script: collecting the TMDB and TVDB ids of the items
    of the selected Plex sections, one entry per TMDB id, and posting them
    to the sync endpoint in fixed-size batches after an optional clear that
    is retried a bounded number of times. The Plex server and the HTTP
    calls are parameters. */
module PlexSync {
  import opened Common
  import opened Text
  import opened Plex

  /** A library section: its type ("movie" or "show"), its title and its
      items. */
  datatype Section = Section(kind: string, title: string, items: seq<SectionItem>)

  /** An item of a section: its title and the ids of its `guids`. */
  datatype SectionItem = SectionItem(title: string, guids: seq<string>)

  /** An entry of the sync body. */
  datatype SyncItem = SyncItem(tmdbId: int, tvdbId: Option<int>, title: string)

  /** The GUID list as the webhook parser reads it. */
  function AsGuidList(guids: seq<string>): (r: seq<Option<string>>)
    ensures |r| == |guids| && forall i :: 0 <= i < |guids| ==> r[i] == Some(guids[i])
  {
    seq(|guids|, i requires 0 <= i < |guids| => Some(guids[i]))
  }

  /** The TMDB and TVDB ids of an item: the same left fold as the webhook's
      GUID parser, so a later GUID of a scheme overwrites an earlier one and
      a suffix `int()` rejects is skipped. */
  function ItemIdsOf(guids: seq<string>): (Option<int>, Option<int>) {
    var ids := GuidIdsOf(AsGuidList(guids));
    (ids.tmdbId, ids.tvdbId)
  }

  /** The GUID loop of `get_library_items` for one item. */
  method ReadIds(guids: seq<string>) returns (tmdbId: Option<int>, tvdbId: Option<int>)
    ensures (tmdbId, tvdbId) == ItemIdsOf(guids)
  {
    tmdbId, tvdbId := None, None;
    var i := 0;
    while i < |guids|
      invariant 0 <= i <= |guids|
      invariant (tmdbId, tvdbId) == ItemIdsOf(guids[..i])
    {
      ItemIdsSnoc(guids, i);
      var g := guids[i];
      if StartsWith(g, "tmdb://") {
        var v := ParseInt(g[7..]);
        if v.Some? {
          tmdbId := v;
        }
      } else if StartsWith(g, "tvdb://") {
        var v := ParseInt(g[7..]);
        if v.Some? {
          tvdbId := v;
        }
      }
      i := i + 1;
    }
    assert guids[..|guids|] == guids;
  }

  /** One more GUID of an item applies to the ids of the ones before it. */
  lemma ItemIdsSnoc(guids: seq<string>, i: nat)
    requires i < |guids|
    ensures var ids := ApplyGuid(GuidIdsOf(AsGuidList(guids[..i])), guids[i]);
      ItemIdsOf(guids[..i + 1]) == (ids.tmdbId, ids.tvdbId)
  {
    assert AsGuidList(guids[..i + 1])[..i] == AsGuidList(guids[..i]);
  }

  /** A section is read when it has the wanted type and, when a non-empty
      name filter is given, its title is in the filter. */
  predicate Selected(s: Section, libraryType: string, names: seq<string>) {
    s.kind == (if libraryType == "movie" then "movie" else "show")
    && (|names| == 0 || s.title in names)
  }

  /** The items of the selected sections, section by section, from
      section `j` on. */
  function CandidatesFrom(sections: seq<Section>, libraryType: string, names: seq<string>, j: nat): seq<SectionItem>
    decreases |sections| - j
  {
    if j >= |sections| then []
    else (if Selected(sections[j], libraryType, names) then sections[j].items else [])
         + CandidatesFrom(sections, libraryType, names, j + 1)
  }

  function TmdbOfItem(it: SectionItem): Option<int> {
    ItemIdsOf(it.guids).0
  }

  function EntryOf(it: SectionItem): SyncItem
    requires TmdbOfItem(it).Some?
  {
    SyncItem(TmdbOfItem(it).value, ItemIdsOf(it.guids).1, it.title)
  }

  /** The entries of the candidates with a non-zero TMDB id not in `seen`
      and not seen earlier in the list. */
  function Dedup(cands: seq<SectionItem>, seen: set<int>): seq<SyncItem> {
    if |cands| == 0 then []
    else
      var t := TmdbOfItem(cands[0]);
      if IntTruthy(t) && t.value !in seen then [EntryOf(cands[0])] + Dedup(cands[1..], seen + {t.value})
      else Dedup(cands[1..], seen)
  }

  /** The TMDB ids of a list of entries. */
  function IdsOf(items: seq<SyncItem>): set<int> {
    set i | 0 <= i < |items| :: items[i].tmdbId
  }

  /** `get_library_items`: every item of every selected section in order;
      an item with a non-zero TMDB id whose id was not met before yields one
      entry. */
  method GetLibraryItems(sections: seq<Section>, libraryType: string, names: seq<string>) returns (items: seq<SyncItem>)
    ensures items == Dedup(CandidatesFrom(sections, libraryType, names, 0), {})
  {
    var seen: set<int> := {};
    items := [];
    var j := 0;
    while j < |sections|
      invariant 0 <= j <= |sections|
      invariant items + Dedup(CandidatesFrom(sections, libraryType, names, j), seen)
                == Dedup(CandidatesFrom(sections, libraryType, names, 0), {})
    {
      var section := sections[j];
      if Selected(section, libraryType, names) {
        var rest := CandidatesFrom(sections, libraryType, names, j + 1);
        assert section.items + rest == CandidatesFrom(sections, libraryType, names, j);
        seen, items := AddSection(section.items, rest, seen, items);
      } else {
        assert CandidatesFrom(sections, libraryType, names, j) == CandidatesFrom(sections, libraryType, names, j + 1);
      }
      j := j + 1;
    }
  }

  /** The item loop of one selected section: the entries of its items
      followed by those of the later candidates `rest` are the entries of
      all of them. */
  method AddSection(sectionItems: seq<SectionItem>, ghost rest: seq<SectionItem>, seen: set<int>, items: seq<SyncItem>)
    returns (seen': set<int>, items': seq<SyncItem>)
    ensures items' + Dedup(rest, seen') == items + Dedup(sectionItems + rest, seen)
  {
    seen', items' := seen, items;
    var k := 0;
    while k < |sectionItems|
      invariant 0 <= k <= |sectionItems|
      invariant items' + Dedup(sectionItems[k..] + rest, seen') == items + Dedup(sectionItems + rest, seen)
    {
      var it := sectionItems[k];
      assert (sectionItems[k..] + rest)[1..] == sectionItems[k + 1..] + rest;
      DedupCons(sectionItems[k..] + rest, sectionItems[k + 1..] + rest, seen');
      var tmdbId, tvdbId := ReadIds(it.guids);
      if IntTruthy(tmdbId) && tmdbId.value !in seen' {
        seen' := seen' + {tmdbId.value};
        items' := items' + [SyncItem(tmdbId.value, tvdbId, it.title)];
      }
      k := k + 1;
    }
    assert sectionItems[|sectionItems|..] + rest == rest;
  }

  /** `Dedup` of a non-empty list, one candidate at a time. */
  lemma DedupCons(cands: seq<SectionItem>, tail: seq<SectionItem>, seen: set<int>)
    requires |cands| > 0 && tail == cands[1..]
    ensures var t := TmdbOfItem(cands[0]);
      Dedup(cands, seen) == if IntTruthy(t) && t.value !in seen then [EntryOf(cands[0])] + Dedup(tail, seen + {t.value})
                            else Dedup(tail, seen)
  {
  }

  /** The candidate at `i` is the first with TMDB id `id`. */
  predicate FirstWithId(cands: seq<SectionItem>, i: int, id: int) {
    0 <= i < |cands| && TmdbOfItem(cands[i]) == Some(id)
    && forall i2 :: 0 <= i2 < i ==> TmdbOfItem(cands[i2]) != Some(id)
  }

  /** The deduplicated entries have pairwise distinct TMDB ids, none of them
      already seen. */
  lemma {:induction false} DedupDistinct(cands: seq<SectionItem>, seen: set<int>)
    ensures forall i, j :: 0 <= i < j < |Dedup(cands, seen)| ==> Dedup(cands, seen)[i].tmdbId != Dedup(cands, seen)[j].tmdbId
    ensures forall i :: 0 <= i < |Dedup(cands, seen)| ==> Dedup(cands, seen)[i].tmdbId !in seen
    ensures forall i :: 0 <= i < |Dedup(cands, seen)| ==> Dedup(cands, seen)[i].tmdbId != 0
  {
    if |cands| > 0 {
      var t := TmdbOfItem(cands[0]);
      if IntTruthy(t) && t.value !in seen {
        DedupDistinct(cands[1..], seen + {t.value});
        var r := Dedup(cands, seen);
        var rt := Dedup(cands[1..], seen + {t.value});
        assert r == [EntryOf(cands[0])] + rt;
        assert forall i :: 0 < i < |r| ==> r[i] == rt[i - 1];
      } else {
        DedupDistinct(cands[1..], seen);
      }
    }
  }

  /** Every candidate with a non-zero TMDB id has its id seen before or
      listed. */
  lemma {:induction false} DedupCovers(cands: seq<SectionItem>, seen: set<int>)
    ensures forall i :: 0 <= i < |cands| && IntTruthy(TmdbOfItem(cands[i])) ==>
      TmdbOfItem(cands[i]).value in seen + IdsOf(Dedup(cands, seen))
  {
    if |cands| > 0 {
      var t := TmdbOfItem(cands[0]);
      var tail := cands[1..];
      var taken := IntTruthy(t) && t.value !in seen;
      var s2 := if taken then seen + {t.value} else seen;
      DedupCons(cands, tail, seen);
      DedupCovers(tail, s2);
      var r := Dedup(cands, seen);
      var rt := Dedup(tail, s2);
      var off := if taken then 1 else 0;
      assert r[off..] == rt;
      if taken {
        assert r[0].tmdbId == t.value;
      }
      forall i | 0 < i < |cands| && IntTruthy(TmdbOfItem(cands[i]))
        ensures TmdbOfItem(cands[i]).value in seen + IdsOf(r)
      {
        assert cands[i] == tail[i - 1];
        var x := TmdbOfItem(cands[i]).value;
        if x in IdsOf(rt) {
          var k :| 0 <= k < |rt| && rt[k].tmdbId == x;
          assert r[k + off] == rt[k];
        }
      }
    }
  }

  /** `e` is the entry of the first candidate with its TMDB id. */
  predicate IsFirstEntry(cands: seq<SectionItem>, e: SyncItem) {
    exists i :: 0 <= i < |cands| && FirstWithId(cands, i, e.tmdbId) && e == EntryOf(cands[i])
  }

  /** Each entry is made from the first candidate with its TMDB id. */
  lemma {:induction false} DedupFirst(cands: seq<SectionItem>, seen: set<int>)
    ensures forall j :: 0 <= j < |Dedup(cands, seen)| ==> IsFirstEntry(cands, Dedup(cands, seen)[j])
  {
    if |cands| > 0 {
      var t := TmdbOfItem(cands[0]);
      var tail := cands[1..];
      var taken := IntTruthy(t) && t.value !in seen;
      var s2 := if taken then seen + {t.value} else seen;
      DedupCons(cands, tail, seen);
      DedupFirst(tail, s2);
      DedupDistinct(tail, s2);
      var r := Dedup(cands, seen);
      var rt := Dedup(tail, s2);
      var off := if taken then 1 else 0;
      forall j | 0 <= j < |r|
        ensures IsFirstEntry(cands, r[j])
      {
        if j < off {
          assert r[j] == EntryOf(cands[0]);
          assert FirstWithId(cands, 0, r[j].tmdbId);
        } else {
          assert r[j] == rt[j - off];
          FirstEntryShift(cands, rt[j - off]);
        }
      }
    }
  }

  /** The first candidate with an id the head of the list does not have is
      the first one in the tail too. */
  lemma FirstEntryShift(cands: seq<SectionItem>, e: SyncItem)
    requires |cands| > 0 && IsFirstEntry(cands[1..], e) && TmdbOfItem(cands[0]) != Some(e.tmdbId)
    ensures IsFirstEntry(cands, e)
  {
    var tail := cands[1..];
    var i :| 0 <= i < |tail| && FirstWithId(tail, i, e.tmdbId) && e == EntryOf(tail[i]);
    assert cands[i + 1] == tail[i];
    forall i2 | 1 <= i2 < i + 1 ensures TmdbOfItem(cands[i2]) != Some(e.tmdbId) {
      assert cands[i2] == tail[i2 - 1];
    }
    assert FirstWithId(cands, i + 1, e.tmdbId);
  }

  /** `clear_library`: attempt `k` (from 1) succeeds when `attempt(k)`;
      at most `maxRetries` attempts, stopping at the first success. Returns
      whether one succeeded and how many were made. */
  method ClearLibrary(maxRetries: int, attempt: nat -> bool) returns (ok: bool, tries: nat)
    ensures ok <==> exists k :: 1 <= k <= maxRetries && attempt(k)
    ensures ok ==> 1 <= tries <= maxRetries && attempt(tries) && forall k :: 1 <= k < tries ==> !attempt(k)
    ensures !ok ==> tries == if maxRetries < 0 then 0 else maxRetries
  {
    tries := 0;
    var k := 1;
    while k <= maxRetries
      invariant 1 <= k <= if maxRetries < 1 then 1 else maxRetries + 1
      invariant tries == k - 1
      invariant forall j :: 1 <= j < k ==> !attempt(j)
    {
      tries := k;
      if attempt(k) {
        return true, tries;
      }
      if k >= maxRetries {
        return false, tries;
      }
      k := k + 1;
    }
    return false, tries;
  }

  /** What one POST to the sync endpoint gave: an HTTP or transport error,
      or the counts the endpoint reported (0 when absent). */
  datatype BatchReply = PostFailed | Reply(synced: int, marked: int)

  /** The aggregated result of `sync_to_overseer`. */
  datatype SyncTotals = SyncTotals(synced: int, markedAsAdded: int, mediaType: string)

  function Min(a: int, b: int): int {
    if a <= b then a else b
  }

  /** The slices `items[i:i + size]` for `i` in `range(start, len(items), size)`. */
  function BatchesFrom(items: seq<SyncItem>, size: nat, start: nat): seq<seq<SyncItem>>
    requires size > 0
    decreases |items| - start
  {
    if start >= |items| then []
    else [items[start..Min(start + size, |items|)]] + BatchesFrom(items, size, start + size)
  }

  function Flatten(bs: seq<seq<SyncItem>>): seq<SyncItem> {
    if |bs| == 0 then [] else bs[0] + Flatten(bs[1..])
  }

  /** The batches are consecutive: together they are exactly the items,
      in order. */
  lemma {:induction false} BatchesCover(items: seq<SyncItem>, size: nat, start: nat)
    requires size > 0 && start <= |items|
    ensures Flatten(BatchesFrom(items, size, start)) == items[start..]
    decreases |items| - start
  {
    if start < |items| {
      var end := Min(start + size, |items|);
      BatchesCover(items, size, end);
      if end < start + size {
        assert BatchesFrom(items, size, start + size) == [];
        assert items[end..] == [];
      }
      var bs := BatchesFrom(items, size, start);
      assert bs[1..] == BatchesFrom(items, size, start + size);
      assert items[start..] == items[start..end] + items[end..];
    }
  }

  /** There are `ceil((len - start) / size)` batches: `size` times their
      number covers the items with less than one batch to spare. */
  lemma {:induction false} BatchesCount(items: seq<SyncItem>, size: nat, start: nat)
    requires size > 0 && start <= |items|
    ensures var n := |BatchesFrom(items, size, start)|;
      |items| - start <= n * size < |items| - start + size
    decreases |items| - start
  {
    if start < |items| {
      var n := |BatchesFrom(items, size, start)|;
      if start + size <= |items| {
        BatchesCount(items, size, start + size);
        var m := |BatchesFrom(items, size, start + size)|;
        assert n == m + 1;
        assert n * size == m * size + size;
      } else {
        assert BatchesFrom(items, size, start + size) == [];
        assert n == 1;
      }
    }
  }

  /** Each batch has 1 to `size` items, and all but the last exactly
      `size`. */
  lemma {:induction false} BatchSizes(items: seq<SyncItem>, size: nat, start: nat)
    requires size > 0
    ensures forall k :: 0 <= k < |BatchesFrom(items, size, start)| ==> 1 <= |BatchesFrom(items, size, start)[k]| <= size
    ensures forall k :: 0 <= k < |BatchesFrom(items, size, start)| - 1 ==> |BatchesFrom(items, size, start)[k]| == size
    decreases |items| - start
  {
    if start < |items| {
      var bs := BatchesFrom(items, size, start);
      BatchSizes(items, size, start + size);
      var rest := BatchesFrom(items, size, start + size);
      assert bs == [bs[0]] + rest;
      if |rest| > 0 {
        assert start + size < |items|;
      }
      forall k | 0 <= k < |bs|
        ensures 1 <= |bs[k]| <= size && (k < |bs| - 1 ==> |bs[k]| == size)
      {
        if k > 0 {
          assert bs[k] == rest[k - 1];
        } else {
          assert |bs[0]| == Min(start + size, |items|) - start;
        }
      }
    }
  }

  /** Posting the batches in order: the batches sent (up to and including
      the first that fails) and, when none fails, the summed counts. */
  function PostAll(bs: seq<seq<SyncItem>>, post: seq<SyncItem> -> BatchReply): (seq<seq<SyncItem>>, Option<(int, int)>) {
    if |bs| == 0 then ([], Some((0, 0)))
    else match post(bs[0])
      case PostFailed => ([bs[0]], None)
      case Reply(s, m) =>
        var (sent, tot) := PostAll(bs[1..], post);
        ([bs[0]] + sent, if tot.Some? then Some((s + tot.value.0, m + tot.value.1)) else None)
  }

  /** The counts reported for a list of batches. */
  function SumSynced(bs: seq<seq<SyncItem>>, post: seq<SyncItem> -> BatchReply): int {
    if |bs| == 0 then 0 else (match post(bs[0]) case Reply(s, _) => s case PostFailed => 0) + SumSynced(bs[1..], post)
  }

  function SumMarked(bs: seq<seq<SyncItem>>, post: seq<SyncItem> -> BatchReply): int {
    if |bs| == 0 then 0 else (match post(bs[0]) case Reply(_, m) => m case PostFailed => 0) + SumMarked(bs[1..], post)
  }

  /** Posting a non-empty list of batches: the first post, then the rest
      when it succeeds. */
  lemma PostAllCons(bs: seq<seq<SyncItem>>, post: seq<SyncItem> -> BatchReply)
    requires |bs| > 0
    ensures PostAll(bs, post) == match post(bs[0])
      case PostFailed => ([bs[0]], None)
      case Reply(s, m) => After([bs[0]], s, m, PostAll(bs[1..], post))
  {
  }

  /** Posting stops at the first failure; when every post succeeds all
      batches are sent and the totals are the sums of the reported
      counts. */
  lemma PostAllOutcome(bs: seq<seq<SyncItem>>, post: seq<SyncItem> -> BatchReply)
    ensures PostAll(bs, post).1.Some? <==> forall k :: 0 <= k < |bs| ==> post(bs[k]).Reply?
    ensures PostAll(bs, post).1.Some? ==>
      PostAll(bs, post).0 == bs && PostAll(bs, post).1.value == (SumSynced(bs, post), SumMarked(bs, post))
    ensures PostAll(bs, post).1.None? ==> exists k :: (0 <= k < |bs| && post(bs[k]).PostFailed?
      && PostAll(bs, post).0 == bs[..k + 1] && forall j :: 0 <= j < k ==> post(bs[j]).Reply?)
  {
    PostAllSucceeds(bs, post);
    PostAllStops(bs, post);
  }

  lemma {:induction false} PostAllSucceeds(bs: seq<seq<SyncItem>>, post: seq<SyncItem> -> BatchReply)
    ensures PostAll(bs, post).1.Some? <==> forall k :: 0 <= k < |bs| ==> post(bs[k]).Reply?
    ensures PostAll(bs, post).1.Some? ==>
      PostAll(bs, post).0 == bs && PostAll(bs, post).1.value == (SumSynced(bs, post), SumMarked(bs, post))
  {
    if |bs| > 0 {
      var tail := bs[1..];
      PostAllSucceeds(tail, post);
      PostAllCons(bs, post);
      forall k | 1 <= k < |bs| ensures bs[k] == tail[k - 1] {
      }
      if post(bs[0]).Reply? {
        assert [bs[0]] + tail == bs;
      }
    }
  }

  lemma {:induction false} PostAllStops(bs: seq<seq<SyncItem>>, post: seq<SyncItem> -> BatchReply)
    ensures PostAll(bs, post).1.None? ==> exists k :: (0 <= k < |bs| && post(bs[k]).PostFailed?
      && PostAll(bs, post).0 == bs[..k + 1] && forall j :: 0 <= j < k ==> post(bs[j]).Reply?)
  {
    if |bs| > 0 {
      PostAllCons(bs, post);
      if post(bs[0]).PostFailed? {
        assert bs[..1] == [bs[0]];
      } else if PostAll(bs, post).1.None? {
        var tail := bs[1..];
        PostAllStops(tail, post);
        var k :| 0 <= k < |tail| && post(tail[k]).PostFailed?
          && PostAll(tail, post).0 == tail[..k + 1] && forall j :: 0 <= j < k ==> post(tail[j]).Reply?;
        assert [bs[0]] + tail[..k + 1] == bs[..k + 2];
        assert post(bs[k + 1]).PostFailed?;
        forall j | 0 <= j < k + 1 ensures post(bs[j]).Reply? {
          if j > 0 {
            assert bs[j] == tail[j - 1];
          }
        }
      }
    }
  }

  /** The outcome of the remaining posts after `sent` was sent with the
      counts `synced` and `marked` so far. */
  function After(sent: seq<seq<SyncItem>>, synced: int, marked: int, rest: (seq<seq<SyncItem>>, Option<(int, int)>))
    : (seq<seq<SyncItem>>, Option<(int, int)>)
  {
    (sent + rest.0, if rest.1.Some? then Some((synced + rest.1.value.0, marked + rest.1.value.1)) else None)
  }

  /** Sending one more batch folds into the outcome so far. */
  lemma AfterSnoc(sent: seq<seq<SyncItem>>, batch: seq<SyncItem>, synced: int, marked: int, s: int, m: int,
                  rest: (seq<seq<SyncItem>>, Option<(int, int)>))
    ensures After(sent + [batch], synced + s, marked + m, rest) == After(sent, synced, marked, After([batch], s, m, rest))
  {
    assert (sent + [batch]) + rest.0 == sent + ([batch] + rest.0);
  }

  /** `sync_to_overseer`: with `clear_first`, the library is cleared first
      (three attempts) and a failed clear raises before any batch is sent;
      then the items go out in slices of `batchSize` (`range` raises for a
      zero step and is empty for a negative one), a failed post raising,
      and the reported counts are summed. */
  method SyncToOverseer(items: seq<SyncItem>, mediaType: string, batchSize: int, clearFirst: bool,
                        clearAttempt: nat -> bool, post: seq<SyncItem> -> BatchReply)
    returns (r: Result<SyncTotals, string>, sent: seq<seq<SyncItem>>)
    ensures clearFirst && !(exists k :: 1 <= k <= 3 && clearAttempt(k)) ==> r == Err("Failed to clear library") && sent == []
    ensures r.Ok? ==> batchSize != 0 && (clearFirst ==> exists k :: 1 <= k <= 3 && clearAttempt(k))
    ensures batchSize < 0 && r.Ok? ==> sent == [] && r.value == SyncTotals(0, 0, mediaType)
    ensures batchSize == 0 && (!clearFirst || exists k :: 1 <= k <= 3 && clearAttempt(k)) ==>
      r == Err("range() arg 3 must not be zero") && sent == []
    ensures batchSize < 0 && (!clearFirst || exists k :: 1 <= k <= 3 && clearAttempt(k)) ==>
      r == Ok(SyncTotals(0, 0, mediaType)) && sent == []
    ensures batchSize > 0 && (!clearFirst || exists k :: 1 <= k <= 3 && clearAttempt(k)) ==>
      var (s, tot) := PostAll(BatchesFrom(items, batchSize, 0), post);
      && sent == s
      && (r.Ok? <==> tot.Some?)
      && (r.Ok? ==> r.value == SyncTotals(tot.value.0, tot.value.1, mediaType))
  {
    sent := [];
    if clearFirst {
      var ok, _ := ClearLibrary(3, clearAttempt);
      if !ok {
        return Err("Failed to clear library"), [];
      }
    }
    if batchSize == 0 {
      return Err("range() arg 3 must not be zero"), [];
    }
    if batchSize < 0 {
      return Ok(SyncTotals(0, 0, mediaType)), [];
    }
    var size: nat := batchSize;
    var totals;
    totals, sent := PostBatches(items, size, post);
    if totals.None? {
      return Err("HTTP error"), sent;
    }
    r := Ok(SyncTotals(totals.value.0, totals.value.1, mediaType));
  }

  /** The batch loop of `sync_to_overseer`: the batches sent and, when no
      post failed, the summed counts. */
  method PostBatches(items: seq<SyncItem>, size: nat, post: seq<SyncItem> -> BatchReply)
    returns (totals: Option<(int, int)>, sent: seq<seq<SyncItem>>)
    requires size > 0
    ensures (sent, totals) == PostAll(BatchesFrom(items, size, 0), post)
  {
    sent := [];
    var totalSynced := 0;
    var totalMarked := 0;
    var i: nat := 0;
    assert [] + PostAll(BatchesFrom(items, size, 0), post).0 == PostAll(BatchesFrom(items, size, 0), post).0;
    while i < |items|
      invariant PostAll(BatchesFrom(items, size, 0), post) == After(sent, totalSynced, totalMarked, PostAll(BatchesFrom(items, size, i), post))
      decreases |items| - i
    {
      var batch := items[i..Min(i + size, |items|)];
      ghost var bsI := BatchesFrom(items, size, i);
      assert bsI[0] == batch && bsI[1..] == BatchesFrom(items, size, i + size);
      PostAllCons(bsI, post);
      var reply := post(batch);
      if reply.PostFailed? {
        assert PostAll(bsI, post) == ([batch], None);
        return None, sent + [batch];
      }
      assert PostAll(bsI, post) == After([batch], reply.synced, reply.marked, PostAll(bsI[1..], post));
      AfterSnoc(sent, batch, totalSynced, totalMarked, reply.synced, reply.marked, PostAll(bsI[1..], post));
      sent := sent + [batch];
      totalSynced := totalSynced + reply.synced;
      totalMarked := totalMarked + reply.marked;
      i := i + size;
    }
    assert BatchesFrom(items, size, i) == [];
    assert sent + [] == sent;
    totals := Some((totalSynced, totalMarked));
  }
}
