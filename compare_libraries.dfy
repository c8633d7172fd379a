/** The library comparison script: the TMDB id -> title dictionary of each
    of two Plex movie sections, the ids found in only one of them listed by
    title, and the count found in both. A Python dictionary is modelled as
    an association list in insertion order. */
module CompareLibraries {
  import opened Common
  import opened Text
  import opened Seqs
  import opened Dicts

  /** An item of a section: its title and its GUID ids. */
  datatype LibItem = LibItem(title: string, guids: seq<string>)

  /** A library section: its title and its items. */
  datatype Section = Section(title: string, items: seq<LibItem>)

  /** The TMDB id -> title dictionary of a section. */
  type Movies = Dict<int, string>

  predicate IsTmdbGuid(g: string) {
    StartsWith(g, "tmdb://")
  }

  /** The entry an item contributes. */
  function ItemEntry(item: LibItem): Option<(int, string)> {
    match FirstIndex(item.guids, IsTmdbGuid)
    case None => None
    case Some(i) =>
      match ParseInt(item.guids[i][7..])
      case None => None
      case Some(id) => Some((id, item.title))
  }

  /** Only the first `tmdb://` GUID of an item is looked at: the item
      contributes its title under that GUID's number, and nothing when
      `int()` rejects that GUID's suffix, whatever GUIDs follow. */
  lemma ItemEntryFirstGuid(item: LibItem, i: nat)
    requires i < |item.guids| && IsTmdbGuid(item.guids[i])
    requires forall j :: 0 <= j < i ==> !IsTmdbGuid(item.guids[j])
    ensures ParseInt(item.guids[i][7..]).None? ==> ItemEntry(item).None?
    ensures ParseInt(item.guids[i][7..]).Some? ==>
      ItemEntry(item) == Some((ParseInt(item.guids[i][7..]).value, item.title))
  {
    var f := FirstIndex(item.guids, IsTmdbGuid);
    assert f == Some(i);
  }

  /** An item without a `tmdb://` GUID contributes nothing. */
  lemma ItemEntryNoGuid(item: LibItem)
    requires forall j :: 0 <= j < |item.guids| ==> !IsTmdbGuid(item.guids[j])
    ensures ItemEntry(item).None?
  {
  }

  /** The entries of the items, in order. */
  function Entries(items: seq<LibItem>): (r: seq<Option<(int, string)>>)
    ensures |r| == |items| && forall j :: 0 <= j < |items| ==> r[j] == ItemEntry(items[j])
  {
    seq(|items|, j requires 0 <= j < |items| => ItemEntry(items[j]))
  }

  /** The dictionary built from a sequence of entries, in order, a later
      entry overwriting the title of an earlier one with the same id. */
  function Fold(es: seq<Option<(int, string)>>): Movies {
    if |es| == 0 then [] else Step(Fold(es[..|es| - 1]), es[|es| - 1])
  }

  /** One entry's effect on the dictionary. */
  function Step(m: Movies, e: Option<(int, string)>): Movies {
    match e
    case None => m
    case Some((id, t)) => Put(m, id, t)
  }

  /** The dictionary `get_movies_from_library` builds from the items. */
  function MoviesOf(items: seq<LibItem>): Movies {
    Fold(Entries(items))
  }

  /** `get_movies_from_library`. */
  method GetMovies(items: seq<LibItem>) returns (movies: Movies)
    ensures movies == MoviesOf(items)
  {
    ghost var es := Entries(items);
    movies := [];
    var n := 0;
    while n < |items|
      invariant 0 <= n <= |items|
      invariant movies == Fold(es[..n])
    {
      assert es[..n + 1][..n] == es[..n];
      ghost var next := Step(movies, ItemEntry(items[n]));
      assert Fold(es[..n + 1]) == next;
      var item := items[n];
      var g := 0;
      ghost var done := false;
      while g < |item.guids|
        invariant 0 <= g <= |item.guids|
        invariant forall j :: 0 <= j < g ==> !IsTmdbGuid(item.guids[j])
        invariant next == Step(movies, ItemEntry(item)) && !done
      {
        if StartsWith(item.guids[g], "tmdb://") {
          ItemEntryFirstGuid(item, g);
          var v := ParseInt(item.guids[g][7..]);
          if v.Some? {
            movies := Put(movies, v.value, item.title);
          }
          assert movies == next;
          done := true;
          break;
        }
        g := g + 1;
      }
      if !done {
        ItemEntryNoGuid(item);
      }
      n := n + 1;
    }
    assert es[..n] == es;
  }

  /** Entry `e` carries the id `k`. */
  predicate Gives(e: Option<(int, string)>, k: int) {
    e.Some? && e.value.0 == k
  }

  /** The dictionary has one entry per id. */
  lemma {:induction false} FoldDistinct(es: seq<Option<(int, string)>>)
    ensures DistinctKeys(Fold(es))
  {
    if |es| > 0 {
      FoldDistinct(es[..|es| - 1]);
      match es[|es| - 1]
      case None =>
      case Some((id, t)) => PutDistinct(Fold(es[..|es| - 1]), id, t);
    }
  }

  /** An id is in the dictionary iff some entry carries it. */
  lemma {:induction false} FoldKeys(es: seq<Option<(int, string)>>, k: int)
    ensures k in Keys(Fold(es)) <==> exists j :: 0 <= j < |es| && Gives(es[j], k)
  {
    if |es| > 0 {
      var init := es[..|es| - 1];
      FoldKeys(init, k);
      assert forall j :: 0 <= j < |init| ==> init[j] == es[j];
      if exists j :: 0 <= j < |es| && Gives(es[j], k) {
        var j :| 0 <= j < |es| && Gives(es[j], k);
        if j < |init| {
          assert Gives(init[j], k);
        }
      }
    }
  }

  /** Entry `j` is the last one that carries `k`. */
  predicate LastGiver(es: seq<Option<(int, string)>>, j: int, k: int) {
    0 <= j < |es| && Gives(es[j], k) && forall j' :: j < j' < |es| ==> !Gives(es[j'], k)
  }

  /** The title stored under an id is the one of the last entry that
      carries it. */
  lemma {:induction false} FoldLastWins(es: seq<Option<(int, string)>>, k: int)
    requires k in Keys(Fold(es))
    ensures exists j :: LastGiver(es, j, k) && Get(Fold(es), k) == Some(es[j].value.1)
    decreases |es|, 1
  {
    var init := es[..|es| - 1];
    var last := |es| - 1;
    var e := es[last];
    if Gives(e, k) {
      PutGet(Fold(init), k, e.value.1, k);
      assert LastGiver(es, last, k);
    } else {
      if e.Some? {
        PutGet(Fold(init), e.value.0, e.value.1, k);
      }
      assert Get(Fold(es), k) == Get(Fold(init), k);
      FoldLastWinsStep(es, k);
    }
  }

  /** The step of `FoldLastWins` where the last entry does not carry `k`. */
  lemma {:induction false} FoldLastWinsStep(es: seq<Option<(int, string)>>, k: int)
    requires |es| > 0 && !Gives(es[|es| - 1], k)
    requires k in Keys(Fold(es[..|es| - 1]))
    requires Get(Fold(es), k) == Get(Fold(es[..|es| - 1]), k)
    ensures exists j :: LastGiver(es, j, k) && Get(Fold(es), k) == Some(es[j].value.1)
    decreases |es|, 0
  {
    var init := es[..|es| - 1];
    FoldLastWins(init, k);
    var j :| LastGiver(init, j, k) && Get(Fold(init), k) == Some(init[j].value.1);
    assert init[j] == es[j];
    assert forall j' :: j < j' < |init| ==> init[j'] == es[j'];
    assert LastGiver(es, j, k);
  }

  /** Over the items: the dictionary has one entry per id, an id is in it
      iff some item contributes it, and the title under an id is the one of
      the last item contributing that id. */
  lemma MoviesFacts(items: seq<LibItem>, k: int)
    ensures DistinctKeys(MoviesOf(items))
    ensures k in Keys(MoviesOf(items)) <==>
      exists j :: 0 <= j < |items| && ItemEntry(items[j]).Some? && ItemEntry(items[j]).value.0 == k
    ensures k in Keys(MoviesOf(items)) ==> exists j :: (0 <= j < |items|
      && ItemEntry(items[j]) == Some((k, items[j].title))
      && Get(MoviesOf(items), k) == Some(items[j].title)
      && forall j' :: j < j' < |items| ==> ItemEntry(items[j']).None? || ItemEntry(items[j']).value.0 != k)
  {
    var es := Entries(items);
    FoldDistinct(es);
    FoldKeys(es, k);
    if k in Keys(MoviesOf(items)) {
      FoldLastWins(es, k);
      var j :| LastGiver(es, j, k) && Get(Fold(es), k) == Some(es[j].value.1);
      assert ItemEntry(items[j]) == Some((k, items[j].title));
    }
  }

  /** The section search: each section is taken as the first library when
      its title matches, and only otherwise (`elif`) as the second; a later
      match replaces an earlier one. */
  method FindSections(sections: seq<Section>, lib1: string, lib2: string) returns (s1: Option<nat>, s2: Option<nat>)
    ensures s1.Some? ==> (s1.value < |sections| && sections[s1.value].title == lib1
      && forall j :: s1.value < j < |sections| ==> sections[j].title != lib1)
    ensures s1.None? ==> forall j :: 0 <= j < |sections| ==> sections[j].title != lib1
    ensures s2.Some? ==> (s2.value < |sections| && sections[s2.value].title == lib2 && lib2 != lib1
      && forall j :: s2.value < j < |sections| ==> sections[j].title != lib2)
    ensures s2.None? ==> forall j :: 0 <= j < |sections| ==> sections[j].title != lib2 || lib2 == lib1
    ensures s1.Some? && s2.Some? ==> s1.value != s2.value
  {
    s1, s2 := None, None;
    var i := 0;
    while i < |sections|
      invariant 0 <= i <= |sections|
      invariant s1.Some? ==> (s1.value < i && sections[s1.value].title == lib1
        && forall j :: s1.value < j < i ==> sections[j].title != lib1)
      invariant s1.None? ==> forall j :: 0 <= j < i ==> sections[j].title != lib1
      invariant s2.Some? ==> (s2.value < i && sections[s2.value].title == lib2 && lib2 != lib1
        && forall j :: s2.value < j < i ==> sections[j].title != lib2)
      invariant s2.None? ==> forall j :: 0 <= j < i ==> sections[j].title != lib2 || lib2 == lib1
    {
      if sections[i].title == lib1 {
        s1 := Some(i);
      } else if sections[i].title == lib2 {
        s2 := Some(i);
      }
      i := i + 1;
    }
  }

  /** The entries of `a` whose id is not a key of `b`, in `a`'s order. */
  function OnlyIn(a: Movies, b: Movies): (r: Movies)
    ensures |r| <= |a|
  {
    if |a| == 0 then []
    else
      var r := OnlyIn(a[..|a| - 1], b);
      if a[|a| - 1].0 in Keys(b) then r else r + [a[|a| - 1]]
  }

  /** An entry is listed iff it is an entry of `a` whose id `b` lacks. */
  lemma {:induction false} OnlyInMembers(a: Movies, b: Movies)
    ensures forall e :: e in OnlyIn(a, b) <==> e in a && e.0 !in Keys(b)
    ensures Keys(OnlyIn(a, b)) == Keys(a) - Keys(b)
  {
    if |a| > 0 {
      var init := a[..|a| - 1];
      OnlyInMembers(init, b);
      assert a == init + [a[|a| - 1]];
      if a[|a| - 1].0 !in Keys(b) {
        var r := OnlyIn(init, b);
        assert (r + [a[|a| - 1]])[..|r|] == r;
      }
    }
  }

  /** The two only-in dictionaries share no id. */
  lemma OnlyInDisjoint(a: Movies, b: Movies)
    ensures Keys(OnlyIn(a, b)) !! Keys(OnlyIn(b, a))
  {
    OnlyInMembers(a, b);
    OnlyInMembers(b, a);
  }

  /** With distinct keys, the entries dropped from `a` are exactly the ids
      the two dictionaries share, so `len(a) - len(only_in_a)` counts the
      ids in both. */
  lemma {:induction false} InBothCount(a: Movies, b: Movies)
    requires DistinctKeys(a)
    ensures |a| - |OnlyIn(a, b)| == |Keys(a) * Keys(b)|
  {
    if |a| > 0 {
      var init := a[..|a| - 1];
      var k := a[|a| - 1].0;
      assert DistinctKeys(init);
      InBothCount(init, b);
      KeysAt(init);
      forall i | 0 <= i < |init|
        ensures init[i].0 != k
      {
        assert init[i] == a[i];
      }
      if k in Keys(b) {
        assert Keys(a) * Keys(b) == (Keys(init) * Keys(b)) + {k};
      } else {
        assert Keys(a) * Keys(b) == Keys(init) * Keys(b);
      }
    }
  }

  function TitleOf(e: (int, string)): string {
    e.1
  }

  /** What the script reports: the size of each dictionary, each only-in
      dictionary sorted by title (a stable sort, ties keeping dictionary
      order), and the count in both. */
  datatype Report = Report(lib1Total: nat, lib2Total: nat, onlyIn1: Movies, onlyIn2: Movies, inBoth: int)

  /** `main` after the connection: a missing section is an error, checked
      for the first library before the second. */
  method Compare(sections: seq<Section>, lib1: string, lib2: string) returns (r: Result<Report, string>)
    ensures r.Err? <==> ((forall j :: 0 <= j < |sections| ==> sections[j].title != lib1)
      || (forall j :: 0 <= j < |sections| ==> sections[j].title != lib2 || lib2 == lib1))
    ensures r.Err? && (forall j :: 0 <= j < |sections| ==> sections[j].title != lib1) ==>
      r.error == "Library '" + lib1 + "' not found"
    ensures r.Err? && (exists j :: 0 <= j < |sections| && sections[j].title == lib1) ==>
      r.error == "Library '" + lib2 + "' not found"
    ensures r.Ok? ==> exists i1, i2 :: (0 <= i1 < |sections| && 0 <= i2 < |sections| && i1 != i2
      && sections[i1].title == lib1 && sections[i2].title == lib2
      && var m1 := MoviesOf(sections[i1].items);
      && var m2 := MoviesOf(sections[i2].items);
      && r.value.lib1Total == |m1| && r.value.lib2Total == |m2|
      && r.value.onlyIn1 == SortBy(OnlyIn(m1, m2), TitleOf, false)
      && r.value.onlyIn2 == SortBy(OnlyIn(m2, m1), TitleOf, false)
      && r.value.inBoth == |m1| - |OnlyIn(m1, m2)|)
  {
    var s1, s2 := FindSections(sections, lib1, lib2);
    if s1.None? {
      return Err("Library '" + lib1 + "' not found");
    }
    if s2.None? {
      return Err("Library '" + lib2 + "' not found");
    }
    var m1 := GetMovies(sections[s1.value].items);
    var m2 := GetMovies(sections[s2.value].items);
    var only1 := OnlyIn(m1, m2);
    var only2 := OnlyIn(m2, m1);
    r := Ok(Report(|m1|, |m2|, SortBy(only1, TitleOf, false), SortBy(only2, TitleOf, false), |m1| - |only1|));
  }

  /** The report's listings hold exactly the only-in entries, in ascending
      title order, no id in both listings, and the in-both count is the
      number of shared ids. */
  lemma ReportFacts(items1: seq<LibItem>, items2: seq<LibItem>)
    ensures var m1 := MoviesOf(items1);
      var m2 := MoviesOf(items2);
      && SortedBy(SortBy(OnlyIn(m1, m2), TitleOf, false), TitleOf, false)
      && (forall e :: e in SortBy(OnlyIn(m1, m2), TitleOf, false) <==> e in m1 && e.0 !in Keys(m2))
      && Keys(OnlyIn(m1, m2)) !! Keys(OnlyIn(m2, m1))
      && |m1| - |OnlyIn(m1, m2)| == |Keys(m1) * Keys(m2)|
  {
    var m1 := MoviesOf(items1);
    var m2 := MoviesOf(items2);
    FoldDistinct(Entries(items1));
    SortBySorted(OnlyIn(m1, m2), TitleOf, false);
    OnlyInMembers(m1, m2);
    var s := SortBy(OnlyIn(m1, m2), TitleOf, false);
    assert forall e :: e in s <==> e in multiset(s);
    assert forall e :: e in OnlyIn(m1, m2) <==> e in multiset(OnlyIn(m1, m2));
    OnlyInDisjoint(m1, m2);
    InBothCount(m1, m2);
  }
}
