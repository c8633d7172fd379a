/** The response-shaping side of the Plex OAuth client: the request headers,
    the authorization URL, and the server, library and library-item lists
    built from decoded plex.tv and Plex server responses. The HTTP calls
    themselves are left out; their decoded bodies are the inputs here. */
module PlexAuth {
  import opened Common
  import opened Text
  import opened Seqs

  const PlexAuthUrl := "https://app.plex.tv/auth"

  /** `_get_plex_headers`: six constant headers (the client identifier and
      product name come from the settings), and the token when one is
      given. */
  function PlexHeaders(clientId: string, product: string, token: Option<string>): (h: map<string, string>)
    ensures h.Keys == {"Accept", "X-Plex-Client-Identifier", "X-Plex-Product", "X-Plex-Version",
                       "X-Plex-Platform", "X-Plex-Device"} + (if StrTruthy(token) then {"X-Plex-Token"} else {})
    ensures h["Accept"] == "application/json" && h["X-Plex-Version"] == "1.0.0"
    ensures h["X-Plex-Platform"] == "Web" && h["X-Plex-Device"] == "Browser"
    ensures h["X-Plex-Client-Identifier"] == clientId && h["X-Plex-Product"] == product
    ensures StrTruthy(token) ==> h["X-Plex-Token"] == token.value
  {
    var base := map["Accept" := "application/json",
                    "X-Plex-Client-Identifier" := clientId,
                    "X-Plex-Product" := product,
                    "X-Plex-Version" := "1.0.0",
                    "X-Plex-Platform" := "Web",
                    "X-Plex-Device" := "Browser"];
    if StrTruthy(token) then base["X-Plex-Token" := token.value] else base
  }

  /** The query parameters of the authorization URL. */
  function AuthParams(clientId: string, code: string, product: string, callback: Option<string>): seq<string> {
    ["clientID=" + clientId, "code=" + code, "context[device][product]=" + product]
    + (if StrTruthy(callback) then ["forwardUrl=" + callback.value] else [])
  }

  /** `get_auth_url`: the Plex auth page with the parameters after `#!?`,
      joined by `&`. */
  function AuthUrl(clientId: string, code: string, product: string, callback: Option<string>): (u: string)
    ensures StartsWith(u, PlexAuthUrl + "#!?")
  {
    PlexAuthUrl + "#!?" + Join(AuthParams(clientId, code, product, callback), "&")
  }

  /** When no value holds an `&`, the fragment splits back into the client
      id, the PIN code, the product and, exactly when a callback is given,
      the forward URL. */
  lemma AuthUrlParams(clientId: string, code: string, product: string, callback: Option<string>)
    requires '&' !in clientId && '&' !in code && '&' !in product
    requires StrTruthy(callback) ==> '&' !in callback.value
    ensures var parts := Split(AuthUrl(clientId, code, product, callback)[|PlexAuthUrl + "#!?"|..], '&');
      && |parts| == (if StrTruthy(callback) then 4 else 3)
      && parts[0] == "clientID=" + clientId && parts[1] == "code=" + code
      && parts[2] == "context[device][product]=" + product
      && (StrTruthy(callback) ==> parts[3] == "forwardUrl=" + callback.value)
  {
    var params := AuthParams(clientId, code, product, callback);
    forall i | 0 <= i < |params| ensures '&' !in params[i] {
    }
    SplitOfJoin(params, '&');
    var u := AuthUrl(clientId, code, product, callback);
    assert u[|PlexAuthUrl + "#!?"|..] == Join(params, ['&']);
  }

  /** One connection of a resource; `local` and `relay` are the truthiness
      of those fields. */
  datatype Connection = Connection(local: bool, relay: bool, uri: Option<string>)

  predicate IsLocal(c: Connection) { c.local }

  predicate IsRelay(c: Connection) { c.relay }

  /** The URI of the first connection passing `p`, if there is one. */
  function FirstUri(conns: seq<Connection>, p: Connection -> bool): Option<string> {
    match FirstIndex(conns, p)
    case Some(i) => conns[i].uri
    case None => None
  }

  /** The connection URL of a server: the first local connection's URI;
      when that is absent or empty, the first relay connection's; when that
      too is, the first connection's. */
  function ConnectionUrl(conns: seq<Connection>): (url: Option<string>)
    ensures |conns| == 0 ==> url.None?
    ensures url.Some? ==> exists i :: 0 <= i < |conns| && conns[i].uri == url
    ensures StrTruthy(FirstUri(conns, IsLocal)) ==> url == FirstUri(conns, IsLocal)
    ensures !StrTruthy(FirstUri(conns, IsLocal)) && StrTruthy(FirstUri(conns, IsRelay)) ==> url == FirstUri(conns, IsRelay)
    ensures (forall i :: 0 <= i < |conns| ==> !conns[i].local && !conns[i].relay) && |conns| > 0 ==> url == conns[0].uri
  {
    var local := FirstUri(conns, IsLocal);
    if StrTruthy(local) then local
    else
      var relay := FirstUri(conns, IsRelay);
      if StrTruthy(relay) then relay
      else if |conns| > 0 then conns[0].uri
      else local
  }

  /** The connection search of `get_servers`: a loop for the first local
      connection, then (if its URI is absent or empty) one for the first
      relay connection, then the first connection. */
  method SelectConnection(conns: seq<Connection>) returns (url: Option<string>)
    ensures url == ConnectionUrl(conns)
  {
    url := None;
    var i := 0;
    while i < |conns|
      invariant 0 <= i <= |conns|
      invariant forall j :: 0 <= j < i ==> !conns[j].local
      invariant url.None?
    {
      if conns[i].local {
        url := conns[i].uri;
        break;
      }
      i := i + 1;
    }
    assert url == FirstUri(conns, IsLocal);
    if !StrTruthy(url) {
      var local := url;
      i := 0;
      while i < |conns|
        invariant 0 <= i <= |conns|
        invariant forall j :: 0 <= j < i ==> !conns[j].relay
        invariant url == local
      {
        if conns[i].relay {
          url := conns[i].uri;
          break;
        }
        i := i + 1;
      }
      assert url == if FirstIndex(conns, IsRelay).Some? then FirstUri(conns, IsRelay) else local;
      if !StrTruthy(url) && |conns| > 0 {
        url := conns[0].uri;
      }
    }
  }

  /** A plex.tv resource; `owned` and `home` are false when absent. */
  datatype Resource = Resource(provided: Option<string>, connections: seq<Connection>, clientIdentifier: Option<string>,
                               name: Option<string>, owned: bool, home: bool, accessToken: Option<string>)

  /** A server entry of the `get_servers` result. */
  datatype Server = Server(id: Option<string>, name: Option<string>, url: Option<string>, owned: bool, home: bool,
                           accessToken: Option<string>)

  predicate IsServer(r: Resource) {
    r.provided == Some("server")
  }

  function ServerOf(r: Resource): Server {
    Server(r.clientIdentifier, r.name, ConnectionUrl(r.connections), r.owned, r.home, r.accessToken)
  }

  /** The response loop of `get_servers`: one entry per resource that
      provides a server, in order. */
  method GetServers(resources: seq<Resource>) returns (servers: seq<Server>)
    ensures servers == FilterMap(resources, IsServer, ServerOf)
  {
    servers := [];
    var i := 0;
    while i < |resources|
      invariant 0 <= i <= |resources|
      invariant servers == FilterMap(resources[..i], IsServer, ServerOf)
    {
      assert resources[..i + 1][..i] == resources[..i];
      var res := resources[i];
      if res.provided == Some("server") {
        var url := SelectConnection(res.connections);
        servers := servers + [Server(res.clientIdentifier, res.name, url, res.owned, res.home, res.accessToken)];
      }
      i := i + 1;
    }
    assert resources[..|resources|] == resources;
  }

  /** Only server resources are listed, each with its own identifier and
      selected connection URL, and every server resource is listed. */
  lemma ServersExact(resources: seq<Resource>)
    ensures forall s :: s in FilterMap(resources, IsServer, ServerOf) <==>
      exists i :: 0 <= i < |resources| && resources[i].provided == Some("server") && s == ServerOf(resources[i])
  {
    FilterMapMembers(resources, IsServer, ServerOf);
  }

  /** A library section as the server reports it. */
  datatype Directory = Directory(kind: Option<string>, key: Option<string>, title: Option<string>, uuid: Option<string>)

  /** A library of the `get_libraries` result; `kind` is "movie" or "tv". */
  datatype Library = Library(key: Option<string>, title: Option<string>, kind: string, uuid: Option<string>)

  predicate IsMediaSection(d: Directory) {
    d.kind == Some("movie") || d.kind == Some("show")
  }

  function LibraryOf(d: Directory): Library {
    Library(d.key, d.title, if d.kind == Some("movie") then "movie" else "tv", d.uuid)
  }

  /** The response loop of `get_libraries`: movie and show sections only,
      in order. */
  method GetLibraries(dirs: seq<Directory>) returns (libs: seq<Library>)
    ensures libs == FilterMap(dirs, IsMediaSection, LibraryOf)
  {
    libs := [];
    var i := 0;
    while i < |dirs|
      invariant 0 <= i <= |dirs|
      invariant libs == FilterMap(dirs[..i], IsMediaSection, LibraryOf)
    {
      assert dirs[..i + 1][..i] == dirs[..i];
      var d := dirs[i];
      if d.kind == Some("movie") || d.kind == Some("show") {
        libs := libs + [Library(d.key, d.title, if d.kind == Some("movie") then "movie" else "tv", d.uuid)];
      }
      i := i + 1;
    }
    assert dirs[..|dirs|] == dirs;
  }

  /** Every listed library is a movie or tv library made from a movie or
      show section (`show` becoming "tv"), and every such section is
      listed. */
  lemma LibrariesExact(dirs: seq<Directory>)
    ensures forall l :: l in FilterMap(dirs, IsMediaSection, LibraryOf) <==>
      exists i :: 0 <= i < |dirs| && IsMediaSection(dirs[i]) && l == LibraryOf(dirs[i])
    ensures forall l :: l in FilterMap(dirs, IsMediaSection, LibraryOf) ==> l.kind in {"movie", "tv"}
  {
    FilterMapMembers(dirs, IsMediaSection, LibraryOf);
  }

  /** The external ids read from an item's `Guid` list. */
  datatype ItemIds = ItemIds(tmdbId: Option<int>, tvdbId: Option<int>, imdbId: Option<string>)

  /** One GUID applied to the ids read so far: the scheme is removed with
      `str.replace` (every occurrence) and a `tmdb://` or `tvdb://` rest is
      read with `int()`; None where `int()` raises. */
  function ApplyItemGuid(acc: ItemIds, guid: string): Option<ItemIds> {
    if StartsWith(guid, "tmdb://") then
      match ParseInt(Replace(guid, "tmdb://", ""))
      case Some(v) => Some(acc.(tmdbId := Some(v)))
      case None => None
    else if StartsWith(guid, "tvdb://") then
      match ParseInt(Replace(guid, "tvdb://", ""))
      case Some(v) => Some(acc.(tvdbId := Some(v)))
      case None => None
    else if StartsWith(guid, "imdb://") then Some(acc.(imdbId := Some(Replace(guid, "imdb://", ""))))
    else Some(acc)
  }

  /** The ids of a whole `Guid` list, GUID by GUID; None once one raises. */
  function ItemIdsOf(guids: seq<string>): Option<ItemIds> {
    if |guids| == 0 then Some(ItemIds(None, None, None))
    else match ItemIdsOf(guids[..|guids| - 1])
      case None => None
      case Some(acc) => ApplyItemGuid(acc, guids[|guids| - 1])
  }

  /** The decimal form of an id after its scheme reads back as the id. */
  lemma IdGuidRoundTrip(scheme: string, n: int)
    requires scheme in {"tmdb://", "tvdb://"}
    ensures ParseInt(Replace(scheme + IntToString(n), scheme, "")) == Some(n)
  {
    var d := IntToString(n);
    NoSchemeInDigits(scheme, n);
    ReplaceLeading(scheme, d, "");
    assert "" + d == d;
    ParseIntToString(n);
  }

  /** No GUID scheme occurs in the decimal form of an integer. */
  lemma NoSchemeInDigits(scheme: string, n: int)
    requires scheme in {"tmdb://", "tvdb://"}
    ensures forall i: nat :: !OccursAt(IntToString(n), scheme, i)
  {
    var d := IntToString(n);
    IntToStringChars(n);
    forall i: nat ensures !OccursAt(d, scheme, i) {
      if i < |d| {
        assert d[i] != 't';
      }
    }
  }

  /** The ids loop of `get_library_items` for one item. */
  method ReadItemIds(guids: seq<string>) returns (ids: Option<ItemIds>)
    ensures ids == ItemIdsOf(guids)
  {
    var acc := ItemIds(None, None, None);
    var i := 0;
    while i < |guids|
      invariant 0 <= i <= |guids|
      invariant ItemIdsOf(guids[..i]) == Some(acc)
    {
      assert guids[..i + 1][..i] == guids[..i];
      var g := guids[i];
      if StartsWith(g, "tmdb://") {
        var v := ParseInt(Replace(g, "tmdb://", ""));
        if v.None? {
          assert guids[..i + 1][..i] == guids[..i];
          ItemIdsFailStays(guids, i + 1);
          return None;
        }
        acc := acc.(tmdbId := v);
      } else if StartsWith(g, "tvdb://") {
        var v := ParseInt(Replace(g, "tvdb://", ""));
        if v.None? {
          ItemIdsFailStays(guids, i + 1);
          return None;
        }
        acc := acc.(tvdbId := v);
      } else if StartsWith(g, "imdb://") {
        acc := acc.(imdbId := Some(Replace(g, "imdb://", "")));
      }
      i := i + 1;
    }
    assert guids[..|guids|] == guids;
    ids := Some(acc);
  }

  /** Once a GUID raises, the whole list does. */
  lemma {:induction false} ItemIdsFailStays(guids: seq<string>, n: nat)
    requires n <= |guids| && ItemIdsOf(guids[..n]).None?
    ensures ItemIdsOf(guids).None?
    decreases |guids| - n
  {
    if n < |guids| {
      assert guids[..n + 1][..n] == guids[..n];
      ItemIdsFailStays(guids, n + 1);
    } else {
      assert guids[..n] == guids;
    }
  }

  /** An item of a library section as the server reports it. */
  datatype ItemMetadata = ItemMetadata(title: Option<string>, year: Option<int>, key: Option<string>,
                                       ratingKey: Option<string>, guids: seq<string>)

  /** An item of the `get_library_items` result. */
  datatype SectionItem = SectionItem(title: Option<string>, year: Option<int>, plexKey: Option<string>,
                                       ratingKey: Option<string>, ids: ItemIds)

  /** The entry of an item whose ids were read. */
  function EntryOf(m: ItemMetadata): SectionItem {
    SectionItem(m.title, m.year, m.key, m.ratingKey, ItemIdsOf(m.guids).GetOr(ItemIds(None, None, None)))
  }

  /** An item is listed when it has a non-zero TMDB or TVDB id. */
  predicate HasExternalId(m: ItemMetadata) {
    IntTruthy(EntryOf(m).ids.tmdbId) || IntTruthy(EntryOf(m).ids.tvdbId)
  }

  /** The items loop of `get_library_items`: None when some item's GUID
      raises, else the items with an external id, in order, and the
      reported total (0 when absent). */
  method GetLibraryItems(metas: seq<ItemMetadata>, totalSize: Option<int>)
    returns (r: Option<(seq<SectionItem>, int)>)
    ensures r.None? <==> exists i :: 0 <= i < |metas| && ItemIdsOf(metas[i].guids).None?
    ensures r.Some? ==> r.value == (FilterMap(metas, HasExternalId, EntryOf), totalSize.GetOr(0))
  {
    var items: seq<SectionItem> := [];
    var i := 0;
    while i < |metas|
      invariant 0 <= i <= |metas|
      invariant ListedSoFar(metas, i, items)
    {
      var e, keep := ReadEntry(metas[i]);
      if e.None? {
        assert ItemIdsOf(metas[i].guids).None?;
        return None;
      }
      ListedStep(metas, i, items, keep);
      if keep {
        items := items + [e.value];
      }
      i := i + 1;
    }
    assert ListedSoFar(metas, |metas|, items);
    assert metas[..|metas|] == metas;
    r := Some((items, totalSize.GetOr(0)));
  }

  /** The state of the items loop after `i` items: all read, and the
      listed ones collected. */
  ghost predicate ListedSoFar(metas: seq<ItemMetadata>, i: nat, items: seq<SectionItem>) {
    i <= |metas|
    && (forall j :: 0 <= j < i ==> ItemIdsOf(metas[j].guids).Some?)
    && items == FilterMap(metas[..i], HasExternalId, EntryOf)
  }

  lemma ListedStep(metas: seq<ItemMetadata>, i: nat, items: seq<SectionItem>, keep: bool)
    requires i < |metas| && ListedSoFar(metas, i, items)
    requires ItemIdsOf(metas[i].guids).Some? && (keep <==> HasExternalId(metas[i]))
    ensures ListedSoFar(metas, i + 1, items + if keep then [EntryOf(metas[i])] else [])
  {
    FilterMapSnoc(metas, HasExternalId, EntryOf, i);
  }

  /** One item of the loop: its entry, None when a GUID raises, and
      whether it is listed. */
  method ReadEntry(m: ItemMetadata) returns (e: Option<SectionItem>, keep: bool)
    ensures e.None? <==> ItemIdsOf(m.guids).None?
    ensures e.Some? ==> e.value == EntryOf(m) && (keep <==> HasExternalId(m))
  {
    var ids := ReadItemIds(m.guids);
    if ids.None? {
      return None, false;
    }
    e := Some(SectionItem(m.title, m.year, m.key, m.ratingKey, ids.value));
    keep := IntTruthy(ids.value.tmdbId) || IntTruthy(ids.value.tvdbId);
  }

  /** Every listed item has a non-zero TMDB or TVDB id read from its own
      GUIDs, and every item that has one is listed. */
  lemma LibraryItemsExact(metas: seq<ItemMetadata>)
    ensures forall e :: e in FilterMap(metas, HasExternalId, EntryOf) <==>
      exists i :: 0 <= i < |metas| && HasExternalId(metas[i]) && e == EntryOf(metas[i])
    ensures forall e :: e in FilterMap(metas, HasExternalId, EntryOf) ==> IntTruthy(e.ids.tmdbId) || IntTruthy(e.ids.tvdbId)
  {
    FilterMapMembers(metas, HasExternalId, EntryOf);
  }
}
