/**
 The nested store of src/cookie/store.rs: domain, then path, then one name map for host-only cookies
 and one for Domain cookies. `View` is the flat map it stands for.
 */
module CookieStore {
  import opened Wrappers
  import opened CookieMatching
  import opened CookieModel
  import opened Uris
  import opened CookieListing

  type NameMap = map<string, Entry>
  type PathMap = map<string, ScopeMap>
  type DomainMap = map<Host, PathMap>

  datatype ScopeMap = ScopeMap(hostOnly: NameMap, domain: NameMap) {
    function Scope(flag: bool): NameMap {
      if flag then hostOnly else domain
    }

    function Insert(name: string, flag: bool, entry: Entry): (scopes: ScopeMap)
      ensures scopes.Scope(flag) == Scope(flag)[name := entry] && scopes.Scope(!flag) == Scope(!flag)
      ensures !scopes.IsEmpty()
    {
      assert name in hostOnly[name := entry] && name in domain[name := entry];
      if flag then this.(hostOnly := hostOnly[name := entry]) else this.(domain := domain[name := entry])
    }

    function Remove(name: string, flag: bool): (scopes: ScopeMap)
      ensures scopes.Scope(flag) == Scope(flag) - {name} && scopes.Scope(!flag) == Scope(!flag)
    {
      if flag then this.(hostOnly := hostOnly - {name}) else this.(domain := domain - {name})
    }

    function RemoveAll(name: string): (scopes: ScopeMap)
      ensures forall flag :: scopes.Scope(flag) == Scope(flag) - {name}
    {
      ScopeMap(hostOnly - {name}, domain - {name})
    }

    function Without(name: string, hostOnly: Option<bool>): (scopes: ScopeMap)
      ensures forall flag, n :: n in scopes.Scope(flag) <==>
                n in Scope(flag) && !(n == name && (hostOnly.None? || hostOnly.value == flag))
      ensures forall flag, n :: n in scopes.Scope(flag) ==> scopes.Scope(flag)[n] == Scope(flag)[n]
    {
      match hostOnly
      case Some(flag) => Remove(name, flag)
      case None => RemoveAll(name)
    }

    /** Entries called `name`, the host-only one first. */
    function Entries(name: string): (found: seq<Entry>)
      ensures forall e :: e in found <==> exists flag :: name in Scope(flag) && Scope(flag)[name] == e
    {
      var found := (if name in hostOnly then [hostOnly[name]] else []) + (if name in domain then [domain[name]] else []);
      assert forall flag :: name in Scope(flag) ==> Scope(flag)[name] in found;
      assert name in hostOnly ==> name in Scope(true);
      assert name in domain ==> name in Scope(false);
      found
    }

    /** The unexpired entry called `name` of one scope. */
    function Live(name: string, flag: bool, now: int): Option<Entry> {
      if name in Scope(flag) && !Scope(flag)[name].cookie.IsExpired(now) then Some(Scope(flag)[name]) else None
    }

    /** The older of the unexpired entries called `name`. */
    function Oldest(name: string, now: int): Option<Entry> {
      match (Live(name, true, now), Live(name, false, now))
      case (Some(a), Some(b)) => Some(if a.index <= b.index then a else b)
      case (Some(a), None) => Some(a)
      case (None, second) => second
    }

    predicate IsEmpty() {
      hostOnly == map[] && domain == map[]
    }
  }

  /** The scopes stored for a domain and path; no slot reads as two empty scopes. */
  function Slot(cookies: DomainMap, d: Host, p: string): ScopeMap {
    if d in cookies && p in cookies[d] then cookies[d][p] else ScopeMap(map[], map[])
  }

  predicate Has(cookies: DomainMap, k: Key) {
    k.name in Slot(cookies, k.domain, k.path).Scope(k.hostOnly)
  }

  function At(cookies: DomainMap, k: Key): Entry
    requires Has(cookies, k)
  {
    Slot(cookies, k.domain, k.path).Scope(k.hostOnly)[k.name]
  }

  ghost function Flat(cookies: DomainMap): (flat: map<Key, Entry>)
    ensures forall k :: k in flat <==> Has(cookies, k)
    ensures forall k :: k in flat ==> flat[k] == At(cookies, k)
  {
    var keys := set d, p, flag: bool, n | d in cookies && p in cookies[d] && n in cookies[d][p].Scope(flag) :: Key(d, p, n, flag);
    assert forall k :: Has(cookies, k) ==> Key(k.domain, k.path, k.name, k.hostOnly) in keys;
    map k | k in keys :: At(cookies, k)
  }

  /** The unexpired entry of one slot and scope is the one the flat map has there. */
  lemma LiveInScope(s: State, cookies: DomainMap, host: Host, path: string, name: string, flag: bool, now: int)
    requires s.entries == Flat(cookies)
    ensures var k, live := Key(host, path, name, flag), Slot(cookies, host, path).Live(name, flag, now);
            && (live.Some? <==> InScope(s, k, host, path, name, now))
            && (live.Some? ==> s.entries[k] == live.value)
  {
    hide Flat, Slot, Cookie.IsExpired;
    assert Has(cookies, Key(host, path, name, flag)) <==> Key(host, path, name, flag) in s.entries;
  }

  /** A slot yields the oldest unexpired cookie of its exact scope, if there is one. */
  lemma OldestOfScope(s: State, cookies: DomainMap, host: Host, path: string, name: string, now: int)
    requires s.entries == Flat(cookies)
    ensures var oldest := Slot(cookies, host, path).Oldest(name, now);
            && (oldest.None? <==> forall k :: !InScope(s, k, host, path, name, now))
            && (oldest.Some? ==> exists k :: IsOldest(s, k, host, path, name, now) && s.entries[k] == oldest.value)
  {
    var hostKey, domainKey := Key(host, path, name, true), Key(host, path, name, false);
    var scopes := Slot(cookies, host, path);
    assert forall k :: InScope(s, k, host, path, name, now) ==> k == hostKey || k == domainKey;
    LiveInScope(s, cookies, host, path, name, true, now);
    LiveInScope(s, cookies, host, path, name, false, now);
    hide Flat, Slot, InScope, ScopeMap.Live;
    var first, second := scopes.Live(name, true, now), scopes.Live(name, false, now);
    assert first.Some? && (second.Some? ==> first.value.index <= second.value.index) ==> IsOldest(s, hostKey, host, path, name, now);
    assert second.Some? && (first.Some? ==> second.value.index <= first.value.index) ==> IsOldest(s, domainKey, host, path, name, now);
  }

  /** Two flat maps with the same lookups are the same map. */
  lemma FlatIs(cookies: DomainMap, flat: map<Key, Entry>)
    requires forall k :: k in flat <==> Has(cookies, k)
    requires forall k :: k in flat ==> flat[k] == At(cookies, k)
    ensures Flat(cookies) == flat
  {
    assert forall k :: k in flat <==> k in Flat(cookies);
  }

  /** `after` is `before` with `scopes` in the slot (`d`, `p`). */
  ghost predicate SlotReplaced(before: DomainMap, d: Host, p: string, scopes: ScopeMap, after: DomainMap) {
    forall d', p' :: Slot(after, d', p') == if d' == d && p' == p then scopes else Slot(before, d', p')
  }

  /** What the flat map has at a key, read off the nested maps. */
  lemma SlotLookup(cookies: DomainMap, k: Key)
    ensures k in Flat(cookies) <==> k.name in Slot(cookies, k.domain, k.path).Scope(k.hostOnly)
    ensures k in Flat(cookies) ==> Flat(cookies)[k] == Slot(cookies, k.domain, k.path).Scope(k.hostOnly)[k.name]
  {
    hide Flat;
    assert k in Flat(cookies) <==> Has(cookies, k);
  }

  /** Storing one more entry in a slot is a point update of the flat map. */
  lemma FlatAfterInsert(before: DomainMap, k: Key, entry: Entry, after: DomainMap)
    requires SlotReplaced(before, k.domain, k.path, Slot(before, k.domain, k.path).Insert(k.name, k.hostOnly, entry), after)
    ensures Flat(after) == Flat(before)[k := entry]
  {
    var scopes := Slot(before, k.domain, k.path);
    var flat := Flat(before)[k := entry];
    forall x: Key
      ensures x in flat <==> Has(after, x)
      ensures Has(after, x) ==> flat[x] == At(after, x)
    {
      var inBefore := Has(before, x);
      assert Slot(after, x.domain, x.path) ==
        if x.domain == k.domain && x.path == k.path then scopes.Insert(k.name, k.hostOnly, entry) else Slot(before, x.domain, x.path);
    }
    FlatIs(after, flat);
  }

  lemma LookupAfterRemove(before: DomainMap, d: Host, p: string, name: string, hostOnly: Option<bool>, after: DomainMap, x: Key)
    requires SlotReplaced(before, d, p, Slot(before, d, p).Without(name, hostOnly), after)
    ensures Has(after, x) <==> Has(before, x) && !Selects(x, d, p, name, hostOnly)
    ensures Has(after, x) ==> At(after, x) == At(before, x)
  {
    assert Slot(after, x.domain, x.path) ==
      if x.domain == d && x.path == p then Slot(before, d, p).Without(name, hostOnly) else Slot(before, x.domain, x.path);
  }

  /** The path and domain maps that remain after `scopes` replaces a slot and empty maps are dropped. */
  ghost function PrunedPaths(pathMap: PathMap, p: string, scopes: ScopeMap): PathMap {
    if p !in pathMap then pathMap else if scopes.IsEmpty() then pathMap - {p} else pathMap[p := scopes]
  }

  lemma PrunedPathsSlot(pathMap: PathMap, d: Host, p: string, scopes: ScopeMap, x: string)
    requires p !in pathMap ==> scopes == ScopeMap(map[], map[])
    ensures Slot(map[d := PrunedPaths(pathMap, p, scopes)], d, x) ==
            if x == p then scopes else Slot(map[d := pathMap], d, x)
  {
    if scopes.IsEmpty() {
      assert scopes == ScopeMap(map[], map[]);
    }
  }

  lemma PruningReplacesSlot(before: DomainMap, d: Host, p: string, name: string, hostOnly: Option<bool>, after: DomainMap)
    requires var left := Slot(before, d, p).Without(name, hostOnly);
             after == if d !in before then before
                      else if PrunedPaths(before[d], p, left) == map[] then before - {d}
                      else before[d := PrunedPaths(before[d], p, left)]
    ensures SlotReplaced(before, d, p, Slot(before, d, p).Without(name, hostOnly), after)
  {
    var left := Slot(before, d, p).Without(name, hostOnly);
    if d !in before || p !in before[d] {
      assert left.hostOnly == map[] && left.domain == map[];
    }
    forall d', p'
      ensures Slot(after, d', p') == if d' == d && p' == p then left else Slot(before, d', p')
    {
      if d' == d && d in before {
        PrunedPathsSlot(before[d], d, p, left, p');
      }
    }
  }

  /** Dropping a name from a slot drops exactly the selected keys of the flat map. */
  lemma FlatAfterRemove(s: State, before: DomainMap, d: Host, p: string, name: string, hostOnly: Option<bool>, after: DomainMap)
    requires s.entries == Flat(before)
    requires SlotReplaced(before, d, p, Slot(before, d, p).Without(name, hostOnly), after)
    ensures Flat(after) == Remove(s, d, p, name, hostOnly).entries
  {
    var flat := Remove(s, d, p, name, hostOnly).entries;
    forall x: Key
      ensures x in flat <==> Has(after, x)
      ensures Has(after, x) ==> flat[x] == At(after, x)
    {
      LookupAfterRemove(before, d, p, name, hostOnly, after, x);
    }
    FlatIs(after, flat);
  }

  class Store {
    var cookies: DomainMap
    var nextCreationIndex: nat

    /** No inner map is left empty, and the counter is a `u64`. */
    ghost predicate Valid()
      reads this
    {
      && nextCreationIndex <= MAX_INDEX
      && (forall d :: d in cookies ==> cookies[d] != map[])
      && (forall d, p :: d in cookies && p in cookies[d] ==> !cookies[d][p].IsEmpty())
    }

    ghost function View(): State
      reads this
    {
      State(Flat(cookies), nextCreationIndex)
    }

    constructor ()
      ensures Valid() && View() == EMPTY
    {
      cookies, nextCreationIndex := map[], 0;
      new;
      FlatIs(cookies, map[]);
    }

    method InsertStoredCookie(domain: Host, path: string, cookie: Cookie)
      requires Valid()
      modifies this
      ensures Valid() && View() == Insert(old(View()), domain, path, cookie)
    {
      var hostOnly := cookie.Domain().None?;
      ghost var k := Key(domain, path, cookie.name, hostOnly);
      SlotLookup(cookies, k);
      hide Flat, ScopeMap.Insert, Cookie.Domain, SlotReplaced;
      if domain in cookies && path in cookies[domain] && cookie.name in cookies[domain][path].Scope(hostOnly) {
        var scopes := cookies[domain][path];
        var entry := scopes.Scope(hostOnly)[cookie.name];
        if entry.cookie.value != cookie.value {
          entry := entry.(index := nextCreationIndex);
          nextCreationIndex := SaturatingInc(nextCreationIndex);
        }
        entry := entry.(cookie := cookie);
        SetSlot(domain, path, scopes.Insert(cookie.name, hostOnly, entry));
        FlatAfterInsert(old(cookies), k, entry, cookies);
        return;
      }
      var creationIndex := nextCreationIndex;
      nextCreationIndex := SaturatingInc(nextCreationIndex);
      var entry := Entry(cookie, creationIndex);
      var scopes := if domain in cookies && path in cookies[domain] then cookies[domain][path] else ScopeMap(map[], map[]);
      SetSlot(domain, path, scopes.Insert(cookie.name, hostOnly, entry));
      FlatAfterInsert(old(cookies), k, entry, cookies);
    }

    method SetSlot(domain: Host, path: string, scopes: ScopeMap)
      requires Valid() && !scopes.IsEmpty()
      modifies this`cookies
      ensures Valid() && SlotReplaced(old(cookies), domain, path, scopes, cookies)
    {
      var pathMap := if domain in cookies then cookies[domain] else map[];
      assert path in pathMap[path := scopes];
      cookies := cookies[domain := pathMap[path := scopes]];
    }

    method RemoveStoredCookie(domain: Host, path: string, name: string, hostOnly: bool)
      requires Valid()
      modifies this
      ensures Valid() && View() == Remove(old(View()), domain, path, name, Some(hostOnly))
    {
      RemoveStoredCookieInner(domain, path, name, Some(hostOnly));
    }

    method RemoveStoredCookies(domain: Host, path: string, name: string)
      requires Valid()
      modifies this
      ensures Valid() && View() == Remove(old(View()), domain, path, name, None)
    {
      RemoveStoredCookieInner(domain, path, name, None);
    }

    method RemoveStoredCookieInner(domain: Host, path: string, name: string, hostOnly: Option<bool>)
      requires Valid()
      modifies this
      ensures Valid() && View() == Remove(old(View()), domain, path, name, hostOnly)
    {
      hide Flat, SlotReplaced, CookieModel.Remove, ScopeMap.Without;
      if domain in cookies {
        var pathMap := PrunePath(cookies[domain], path, name, hostOnly);
        cookies := if pathMap == map[] then cookies - {domain} else cookies[domain := pathMap];
      }
      PruningReplacesSlot(old(cookies), domain, path, name, hostOnly, cookies);
      FlatAfterRemove(old(View()), old(cookies), domain, path, name, hostOnly, cookies);
    }

    /** Drops a name from one path of a domain, and the path with it if nothing is left there. */
    static method PrunePath(paths: PathMap, path: string, name: string, hostOnly: Option<bool>) returns (pathMap: PathMap)
      requires forall p :: p in paths ==> !paths[p].IsEmpty()
      ensures pathMap == if path in paths then PrunedPaths(paths, path, paths[path].Without(name, hostOnly)) else paths
      ensures forall p :: p in pathMap ==> !pathMap[p].IsEmpty()
    {
      pathMap := paths;
      if path in pathMap {
        var scopes := pathMap[path].Without(name, hostOnly);
        pathMap := if scopes.IsEmpty() then pathMap - {path} else pathMap[path := scopes];
      }
    }

    /** Searches every related domain and covered path for a live Secure cookie of that name. */
    predicate WouldOverlaySecureCookie(name: string, domain: Host, path: string, now: int)
      reads this
    {
      exists d | d in cookies ::
        (DomainMatch(d, domain) || DomainMatch(domain, d)) && PathsOverlay(cookies[d], name, path, now)
    }

    static predicate PathsOverlay(pathMap: PathMap, name: string, path: string, now: int) {
      exists p | p in pathMap :: PathMatch(path, p) && ScopesOverlay(pathMap[p], name, now)
    }

    static predicate ScopesOverlay(scopes: ScopeMap, name: string, now: int) {
      exists e | e in scopes.Entries(name) :: LiveSecure(e, now)
    }

    /** The nested search finds exactly what the flat map has. */
    lemma OverlayAgrees(name: string, domain: Host, path: string, now: int)
      ensures WouldOverlaySecureCookie(name, domain, path, now) <==> Overlays(View(), name, domain, path, now)
    {
      hide WouldOverlaySecureCookie, Overlays;
      FoundOverlays(name, domain, path, now);
      OverlayIsFound(name, domain, path, now);
    }

    lemma FoundOverlays(name: string, domain: Host, path: string, now: int)
      ensures WouldOverlaySecureCookie(name, domain, path, now) ==> Overlays(View(), name, domain, path, now)
    {
      var flat := View().entries;
      hide Flat, LiveSecure, DomainMatch, PathMatch;
      if WouldOverlaySecureCookie(name, domain, path, now) {
        var d :| d in cookies && (DomainMatch(d, domain) || DomainMatch(domain, d)) && PathsOverlay(cookies[d], name, path, now);
        var p :| p in cookies[d] && PathMatch(path, p) && ScopesOverlay(cookies[d][p], name, now);
        var e :| e in cookies[d][p].Entries(name) && LiveSecure(e, now);
        var flag :| name in cookies[d][p].Scope(flag) && cookies[d][p].Scope(flag)[name] == e;
        var k := Key(d, p, name, flag);
        assert Has(cookies, k) && At(cookies, k) == e;
        assert k in flat && Shadows(k, name, domain, path) && LiveSecure(flat[k], now);
      }
    }

    lemma OverlayIsFound(name: string, domain: Host, path: string, now: int)
      ensures Overlays(View(), name, domain, path, now) ==> WouldOverlaySecureCookie(name, domain, path, now)
    {
      var flat := View().entries;
      hide Flat, LiveSecure, DomainMatch, PathMatch;
      if Overlays(View(), name, domain, path, now) {
        var k :| k in flat && Shadows(k, name, domain, path) && LiveSecure(flat[k], now);
        assert Has(cookies, k) && flat[k] == At(cookies, k);
        assert flat[k] in cookies[k.domain][k.path].Entries(name);
        assert ScopesOverlay(cookies[k.domain][k.path], name, now);
        assert PathsOverlay(cookies[k.domain], name, path, now);
      }
    }

    /** Walks the nested maps in whatever order their keys come out. */
    method All() returns (items: seq<Item>)
      ensures Enumerates(items, View().entries)
    {
      items := [];
      var domains := cookies.Keys;
      ghost var done: map<Key, Entry> := map[];
      while domains != {}
        invariant domains <= cookies.Keys
        invariant Enumerates(items, done)
        invariant forall k :: k in done <==> Has(cookies, k) && k.domain !in domains
        invariant forall k :: k in done ==> done[k] == At(cookies, k)
      {
        var d :| d in domains;
        var more, extent := AllOfDomain(d, cookies[d]);
        EnumeratesAppend(items, done, more, extent);
        items, done, domains := items + more, done + extent, domains - {d};
      }
      FlatIs(cookies, done);
    }

    static method AllOfDomain(d: Host, pathMap: PathMap) returns (items: seq<Item>, ghost extent: map<Key, Entry>)
      ensures Enumerates(items, extent)
      ensures forall k :: k in extent <==> k.domain == d && k.path in pathMap && k.name in pathMap[k.path].Scope(k.hostOnly)
      ensures forall k :: k in extent ==> extent[k] == pathMap[k.path].Scope(k.hostOnly)[k.name]
    {
      items, extent := [], map[];
      var paths := pathMap.Keys;
      while paths != {}
        invariant paths <= pathMap.Keys
        invariant Enumerates(items, extent)
        invariant forall k :: k in extent <==>
                    k.domain == d && k.path in pathMap && k.path !in paths && k.name in pathMap[k.path].Scope(k.hostOnly)
        invariant forall k :: k in extent ==> extent[k] == pathMap[k.path].Scope(k.hostOnly)[k.name]
      {
        var p :| p in paths;
        var hosts, hostExtent := AllOfScope(d, p, true, pathMap[p].hostOnly);
        var rest, restExtent := AllOfScope(d, p, false, pathMap[p].domain);
        EnumeratesAppend(hosts, hostExtent, rest, restExtent);
        EnumeratesAppend(items, extent, hosts + rest, hostExtent + restExtent);
        items, extent, paths := items + (hosts + rest), extent + (hostExtent + restExtent), paths - {p};
      }
    }

    static method AllOfScope(d: Host, p: string, flag: bool, names: NameMap) returns (items: seq<Item>, ghost extent: map<Key, Entry>)
      ensures Enumerates(items, extent)
      ensures forall k :: k in extent <==> k.domain == d && k.path == p && k.hostOnly == flag && k.name in names
      ensures forall k :: k in extent ==> extent[k] == names[k.name]
    {
      items, extent := [], map[];
      var todo := names.Keys;
      while todo != {}
        invariant todo <= names.Keys
        invariant Enumerates(items, extent)
        invariant forall k :: k in extent <==> k.domain == d && k.path == p && k.hostOnly == flag && k.name in names && k.name !in todo
        invariant forall k :: k in extent ==> extent[k] == names[k.name]
      {
        var n :| n in todo;
        var k := Key(d, p, n, flag);
        EnumeratesOne(k, names[n]);
        EnumeratesAppend(items, extent, [Item(k, names[n])], map[k := names[n]]);
        items, extent, todo := items + [Item(k, names[n])], extent + map[k := names[n]], todo - {n};
      }
    }

    /** The unexpired entries that apply to a request, in no particular order. */
    method MatchingCookies(uri: Uri, host: Host, now: int) returns (items: seq<Item>)
      ensures Enumerates(items, Matching(View(), uri, host, now))
    {
      var all := All();
      var wanted := (x: Item) => CookieModel.Matches(uri, host, now, x.key, x.entry);
      items := Filter(all, wanted);
      MatchingIsKept(all, View(), uri, host, now, wanted);
    }
  }
}
