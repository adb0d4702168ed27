/**
 What the jar stores and sends in terms of the standard: labels of hosts, segments of paths, seconds of
 Max-Age. Nothing here uses the matching and placement functions of the model; they are proved to meet it.
 */
module CookieRules {
  import opened Wrappers
  import opened Text
  import opened Uris
  import opened CookieMatching
  import opened CookieModel
  import opened CookieListing
  import opened CookieProperties

  /** The host is the domain or, as a name, below it. */
  ghost predicate HostCovered(host: Host, domain: Host) {
    || host == domain
    || (host.Domain? && domain.Domain? && ProperLabelSuffix(Split(host.name, '.'), Split(domain.name, '.')))
  }

  /** The segments of the cookie path begin those of the request path. */
  ghost predicate PathCovered(requestPath: string, cookiePath: string) {
    requestPath == cookiePath || ProperPiecePrefix(Split(requestPath, '/'), Segments(cookiePath))
  }

  /** A stored cookie is alive: its Max-Age, if it still has one, is positive and its deadline lies ahead. */
  predicate Alive(c: Cookie, time: int) {
    && (c.maxAge.Some? ==> c.maxAge.value > 0)
    && (match c.expires case Some(DateTime(at)) => time < at case _ => true)
  }

  lemma RulesAgree(host: Host, domain: Host, requestPath: string, cookiePath: string, c: Cookie, time: int)
    ensures DomainMatch(host, domain) <==> HostCovered(host, domain)
    ensures PathMatch(requestPath, cookiePath) <==> PathCovered(requestPath, cookiePath)
    ensures !c.IsExpired(time) <==> Alive(c, time)
  {
    hide Split, DomainMatch, PathMatch, Segments;
    DomainMatchIsLabelSuffix(host, domain);
    PathMatchIsSegmentPrefix(requestPath, cookiePath);
  }

  // ---------- what is sent ----------

  /** Section 5.4 of RFC 6265 for one stored cookie and one request. */
  ghost predicate ToBeSent(k: Key, c: Cookie, uri: Uri, host: Host, now: int) {
    && (uri.scheme == Some(Http) || uri.scheme == Some(Https))
    && (host == k.domain || (!k.hostOnly && HostCovered(host, k.domain)))
    && PathCovered(uri.path, k.path)
    && !(c.secure == Some(true) && uri.scheme == Some(Http))
    && (match c.expires case Some(DateTime(at)) => now < at case _ => true)
  }

  lemma MatchesExactly(syntax: HostSyntax, s: State, uri: Uri, host: Host, now: int, k: Key)
    requires k in s.entries && InItsSlot(syntax, k, s.entries[k])
    ensures k in Matching(s, uri, host, now) <==> ToBeSent(k, s.entries[k].cookie, uri, host, now)
  {
    assert HostCovered(k.domain, k.domain);
    hide HostCovered, PathCovered, DomainMatch, PathMatch;
    var c := s.entries[k].cookie;
    RulesAgree(host, k.domain, uri.path, k.path, c, now);
  }

  /** A request carries exactly the cookies that the standard sends with it, and each as it is stored. */
  lemma SentExactly(syntax: HostSyntax, s: State, uri: Uri, host: Host, now: int, items: seq<Item>)
    requires WellFormed(syntax, s) && Selection(s, uri, host, now, items)
    ensures forall k :: (exists x :: x in items && x.key == k) <==> k in s.entries && ToBeSent(k, s.entries[k].cookie, uri, host, now)
    ensures forall x :: x in items ==> x.key in s.entries && x.entry == s.entries[x.key]
  {
    hide ToBeSent, InItsSlot, CookieModel.Matches;
    EnumeratesPointwise(items, Matching(s, uri, host, now));
    forall k
      ensures (exists x :: x in items && x.key == k) <==> k in s.entries && ToBeSent(k, s.entries[k].cookie, uri, host, now)
    {
      if k in s.entries {
        MatchesExactly(syntax, s, uri, host, now, k);
        if k in Matching(s, uri, host, now) {
          assert Item(k, s.entries[k]) in items;
        }
      }
    }
  }

  /** Exports, counts and exact-scope lookups see exactly the cookies that are alive. */
  lemma UnexpiredExactly(s: State, now: int, k: Key)
    ensures k in Unexpired(s, now) <==> k in s.entries && Alive(s.entries[k].cookie, now)
  {
  }

  /** All places moved up by one, behind the first if that is legal. */
  function Behind(first: bool, at: seq<nat>): (later: seq<nat>)
    ensures |later| == |at| + if first then 1 else 0
    ensures first ==> later[0] == 0
    ensures forall j :: 0 <= j < |at| ==> later[if first then j + 1 else j] == at[j] + 1
  {
    (if first then [0] else []) + seq(|at|, j requires 0 <= j < |at| => at[j] + 1)
  }

  lemma BehindMembers(first: bool, at: seq<nat>, i: nat)
    ensures i in Behind(first, at) <==> if i == 0 then first else i - 1 in at
  {
    var later := Behind(first, at);
    if i > 0 && i - 1 in at {
      var j :| 0 <= j < |at| && at[j] == i - 1;
      assert later[if first then j + 1 else j] == i;
    }
    if i in later {
      var j :| 0 <= j < |later| && later[j] == i;
      var k := if first then j - 1 else j;
      assert i > 0 ==> at[k] == i - 1;
    }
  }

  /** The legal fields are those at these places, in order. */
  ghost predicate AreKeptAt(fields: seq<string>, at: seq<nat>) {
    && |at| == |ValidOnly(fields)|
    && (forall j :: 0 <= j < |at| ==> at[j] < |fields| && ValidOnly(fields)[j] == fields[at[j]])
    && (forall j, k :: 0 <= j < k < |at| ==> at[j] < at[k])
    && (forall i: nat :: i in at <==> i < |fields| && ValidHeaderValue(fields[i]))
  }

  lemma {:induction false} KeptAt(fields: seq<string>) returns (at: seq<nat>)
    ensures AreKeptAt(fields, at)
  {
    at := [];
    if fields != [] {
      at := KeptAt(fields[1..]);
      OneMoreField(fields, at);
      at := Behind(ValidHeaderValue(fields[0]), at);
    }
  }

  lemma BehindIncreases(first: bool, at: seq<nat>)
    requires forall j, k :: 0 <= j < k < |at| ==> at[j] < at[k]
    ensures forall j, k :: 0 <= j < k < |Behind(first, at)| ==> Behind(first, at)[j] < Behind(first, at)[k]
  {
    var later := Behind(first, at);
    hide Behind;
    forall j, k | 0 <= j < k < |later|
      ensures later[j] < later[k]
    {
      var d := if first then 1 else 0;
      assert later[k] == at[k - d] + 1 && (j >= d ==> later[j] == at[j - d] + 1);
    }
  }

  lemma BehindPick(fields: seq<string>, first: bool, kept: seq<string>, at: seq<nat>, j: nat)
    requires fields != [] && |at| == |kept| && j < |Behind(first, at)|
    requires var d := if first then 1 else 0; j >= d ==> at[j - d] + 1 < |fields| && kept[j - d] == fields[at[j - d] + 1]
    ensures var later := Behind(first, at);
            later[j] < |fields| && ((if first then [fields[0]] else []) + kept)[j] == fields[later[j]]
  {
    var d := if first then 1 else 0;
    if j >= d {
      assert Behind(first, at)[j] == at[j - d] + 1;
    }
  }

  lemma BehindPicks(fields: seq<string>, at: seq<nat>)
    requires fields != [] && AreKeptAt(fields[1..], at)
    ensures var later := Behind(ValidHeaderValue(fields[0]), at);
            && |later| == |ValidOnly(fields)|
            && forall j :: 0 <= j < |later| ==> later[j] < |fields| && ValidOnly(fields)[j] == fields[later[j]]
  {
    var first, d := ValidHeaderValue(fields[0]), if ValidHeaderValue(fields[0]) then 1 else 0;
    var later, kept := Behind(first, at), ValidOnly(fields[1..]);
    assert ValidOnly(fields) == (if first then [fields[0]] else []) + kept;
    forall j | 0 <= j < |later|
      ensures later[j] < |fields| && ValidOnly(fields)[j] == fields[later[j]]
    {
      assert j >= d ==> at[j - d] < |fields[1..]| && kept[j - d] == fields[1..][at[j - d]];
      hide ValidHeaderValue, ValidOnly, Behind, AreKeptAt;
      BehindPick(fields, first, kept, at, j);
    }
  }

  lemma OneMoreField(fields: seq<string>, at: seq<nat>)
    requires fields != [] && AreKeptAt(fields[1..], at)
    ensures AreKeptAt(fields, Behind(ValidHeaderValue(fields[0]), at))
  {
    hide ValidHeaderValue, ValidOnly, Behind;
    var first := ValidHeaderValue(fields[0]);
    var later := Behind(first, at);
    BehindPicks(fields, at);
    BehindIncreases(first, at);
    forall i: nat
      ensures i in later <==> i < |fields| && ValidHeaderValue(fields[i])
    {
      BehindMembers(first, at, i);
      if 0 < i < |fields| {
        assert fields[1..][i - 1] == fields[i];
      }
      assert i > 0 ==> (i - 1 in at <==> i - 1 < |fields[1..]| && ValidHeaderValue(fields[1..][i - 1]));
    }
  }

  /**
   What is sent for a cookie in a field of its own is its name, an equals sign and its value: one field
   for each cookie for which that is a legal field value, in the order of the cookies.
   */
  lemma FieldsAreTheLegalPairs(items: seq<Item>, version: Version) returns (at: seq<nat>)
    requires version.Http2? || version.Http3?
    ensures Render(items, version).Uncompressed? && |Render(items, version).fields| == |at|
    ensures forall j :: 0 <= j < |at| ==>
              && at[j] < |items|
              && Render(items, version).fields[j] == items[at[j]].entry.cookie.name + "=" + items[at[j]].entry.cookie.value
    ensures forall j, k :: 0 <= j < k < |at| ==> at[j] < at[k]
    ensures forall i: nat :: i in at <==>
              i < |items| && ValidHeaderValue(items[i].entry.cookie.name + "=" + items[i].entry.cookie.value)
  {
    hide ValidHeaderValue, ValidOnly;
    at := KeptAt(Pairs(items));
  }

  // ---------- what is stored ----------

  /** The host and scope a cookie is accepted under. */
  ghost predicate Accepted(syntax: HostSyntax, cookie: Cookie, uri: Uri, host: Host, domain: Host) {
    && syntax.RequestHost(uri) == Some(host)
    && (cookie.secure == Some(true) ==> uri.scheme == Some(Https))
    && (match cookie.Domain()
        case None => domain == host
        case Some(raw) => syntax.Canonical(raw) == Some(domain) && HostCovered(host, domain))
  }

  /** A path without its last segment. */
  function Directory(path: string): string {
    if path == "" || path[0] != '/' then "/"
    else
      var pieces := Split(path, '/');
      var directory := Join(pieces[..|pieces| - 1], "/");
      if directory == "" then "/" else directory
  }

  /** An absolute Path attribute, or else the directory of the request path. */
  function ScopePath(cookie: Cookie, uri: Uri): string {
    match cookie.path
    case Some(path) => if path != "" && path[0] == '/' then path else Directory(uri.path)
    case None => Directory(uri.path)
  }

  function ScopeKey(cookie: Cookie, uri: Uri, domain: Host): Key {
    Key(domain, ScopePath(cookie, uri), cookie.name, cookie.Domain().None?)
  }

  /** A live Secure cookie of that name on a related domain whose path covers the new one. */
  ghost predicate ShadowsSecure(s: State, k: Key, now: int) {
    exists sk :: sk in s.entries && IsShadowed(sk, s.entries[sk].cookie, k, now)
  }

  ghost predicate IsShadowed(sk: Key, c: Cookie, k: Key, now: int) {
    && sk.name == k.name && (HostCovered(sk.domain, k.domain) || HostCovered(k.domain, sk.domain))
    && PathCovered(k.path, sk.path) && c.secure == Some(true) && Alive(c, now)
  }

  /** Max-Age takes precedence over Expires. */
  predicate DeadOnArrival(cookie: Cookie, now: int) {
    match cookie.maxAge
    case Some(d) => d <= 0
    case None => match cookie.expires case Some(DateTime(at)) => at <= now case _ => false
  }

  /** Whether a cookie received at `now` is alive at `time`; the calendar ends with the year 9999. */
  predicate AliveAt(cookie: Cookie, now: int, time: int) {
    match cookie.maxAge
    case Some(d) => time < now + d && time < 253402300799999999999
    case None => match cookie.expires case Some(DateTime(at)) => time < at case _ => true
  }

  lemma PlacedWhereAccepted(syntax: HostSyntax, cookie: Cookie, uri: Uri, now: int, host: Host, domain: Host)
    requires Accepted(syntax, cookie, uri, host, domain)
    ensures Place(syntax, cookie, uri, now).Some?
    ensures var p := Place(syntax, cookie, uri, now).value;
            && p.domain == domain && p.path == ScopePath(cookie, uri) && p.expired == DeadOnArrival(cookie, now)
            && p.cookie.name == cookie.name && p.cookie.value == cookie.value && p.cookie.secure == cookie.secure
            && p.cookie.httpOnly == cookie.httpOnly && p.cookie.Domain().None? == cookie.Domain().None?
            && p.cookie.domainAttribute == (if cookie.Domain().Some? then Some(syntax.show(domain)) else None)
            && (!p.expired ==> forall time :: now <= time ==> (Alive(p.cookie, time) <==> AliveAt(cookie, now, time)))
  {
    PathAgrees(cookie, uri);
    if cookie.Domain().Some? {
      RulesAgree(host, domain, "", "", cookie, now);
    }
    hide HostCovered, DomainMatch, ScopePath, EffectivePath;
  }

  lemma PathAgrees(cookie: Cookie, uri: Uri)
    ensures EffectivePath(cookie, uri) == ScopePath(cookie, uri)
  {
    hide Split, Join;
    assert forall path: string :: StartsWith(path, "/") <==> path != "" && path[0] == '/' by {
      forall path: string
        ensures StartsWith(path, "/") <==> path != "" && path[0] == '/'
      {
        if path != "" {
          assert path[..1] == [path[0]];
        }
      }
    }
    if StartsWith(uri.path, DEFAULT_PATH) {
      DefaultPathIsDirectory(uri.path);
    }
  }

  lemma NowhereAccepted(syntax: HostSyntax, cookie: Cookie, uri: Uri, now: int)
    requires forall host, domain :: !Accepted(syntax, cookie, uri, host, domain)
    ensures Place(syntax, cookie, uri, now).None?
  {
    match syntax.RequestHost(uri)
    case None =>
    case Some(host) =>
      match cookie.Domain()
      case None => assert !Accepted(syntax, cookie, uri, host, host);
      case Some(raw) =>
        match syntax.Canonical(raw)
        case None =>
        case Some(domain) =>
          assert !Accepted(syntax, cookie, uri, host, domain);
          RulesAgree(host, domain, "", "", cookie, now);
          hide HostCovered, DomainMatch;
  }

  lemma OverlayIsShadow(s: State, k: Key, now: int)
    ensures Overlays(s, k.name, k.domain, k.path, now) <==> ShadowsSecure(s, k, now)
  {
    forall sk | sk in s.entries
      ensures Shadows(sk, k.name, k.domain, k.path) && LiveSecure(s.entries[sk], now) <==> IsShadowed(sk, s.entries[sk].cookie, k, now)
    {
      RulesAgree(sk.domain, k.domain, k.path, sk.path, s.entries[sk].cookie, now);
      RulesAgree(k.domain, sk.domain, k.path, sk.path, s.entries[sk].cookie, now);
      hide HostCovered, PathCovered, DomainMatch, PathMatch, Alive;
    }
    hide Shadows, LiveSecure, IsShadowed;
  }

  /** A cookie that is accepted nowhere changes nothing. */
  lemma AddRejects(syntax: HostSyntax, s: State, cookie: Cookie, uri: Uri, now: int)
    requires forall host, domain :: !Accepted(syntax, cookie, uri, host, domain)
    ensures Add(syntax, s, cookie, uri, now) == s
  {
    NowhereAccepted(syntax, cookie, uri, now);
  }

  /**
   What `add` does with a cookie that is accepted: nothing, if it comes over an insecure transport and
   would be shadowed by a live Secure cookie; removal of its own scope's entry, if it is dead on arrival;
   and otherwise it is stored under its own key, with the lifetime it came with, in the place of an
   entry with the same value or else as the newest.
   */
  lemma AddExactly(syntax: HostSyntax, s: State, cookie: Cookie, uri: Uri, now: int, host: Host, domain: Host)
    requires Accepted(syntax, cookie, uri, host, domain)
    ensures var s', k := Add(syntax, s, cookie, uri, now), ScopeKey(cookie, uri, domain);
            if uri.scheme != Some(Https) && ShadowsSecure(s, k, now) then s' == s
            else if DeadOnArrival(cookie, now) then s' == s.(entries := s.entries - {k})
            else
              && k in s'.entries && s'.entries - {k} == s.entries - {k}
              && var e := s'.entries[k];
                 && e.cookie.name == cookie.name && e.cookie.value == cookie.value && e.cookie.secure == cookie.secure
                 && e.cookie.httpOnly == cookie.httpOnly && e.cookie.path == Some(k.path)
                 && e.cookie.domainAttribute == (if cookie.Domain().Some? then Some(syntax.show(domain)) else None)
                 && (forall time :: now <= time ==> (Alive(e.cookie, time) <==> AliveAt(cookie, now, time)))
                 && (if k in s.entries && s.entries[k].cookie.value == cookie.value
                     then e.index == s.entries[k].index && s'.next == s.next
                     else e.index == s.next && s'.next == if s.next < 0xFFFF_FFFF_FFFF_FFFF then s.next + 1 else s.next)
  {
    var k, s' := ScopeKey(cookie, uri, domain), Add(syntax, s, cookie, uri, now);
    PlacedWhereAccepted(syntax, cookie, uri, now, host, domain);
    OverlayIsShadow(s, k, now);
    hide Place, Accepted, Overlays, ShadowsSecure, DeadOnArrival, AliveAt, ScopePath, Cookie.Domain;
    var p := Place(syntax, cookie, uri, now).value;
    if uri.scheme != Some(Https) && Overlays(s, cookie.name, p.domain, p.path, now) {
    } else if p.expired {
      RemoveOne(s, k);
    } else {
      StoreOne(s, k, p.cookie.(path := Some(p.path)));
    }
  }

  lemma RemoveOne(s: State, k: Key)
    ensures Remove(s, k.domain, k.path, k.name, Some(k.hostOnly)) == s.(entries := s.entries - {k})
  {
    assert Remove(s, k.domain, k.path, k.name, Some(k.hostOnly)).entries == s.entries - {k};
  }

  lemma StoreOne(s: State, k: Key, c: Cookie)
    requires k.name == c.name && k.hostOnly == c.Domain().None?
    ensures var s' := Insert(s, k.domain, k.path, c);
            && k in s'.entries && s'.entries - {k} == s.entries - {k} && s'.entries[k].cookie == c
            && (if k in s.entries && s.entries[k].cookie.value == c.value
                then s'.entries[k].index == s.entries[k].index && s'.next == s.next
                else s'.entries[k].index == s.next && s'.next == SaturatingInc(s.next))
  {
    hide Cookie.Domain;
  }

  /**
   Section 5.3 and 5.4 of RFC 6265 together: a cookie just stored through a URI is sent back to that URI,
   at that moment and at every later one, exactly while its lifetime lasts and if its path covers the
   request path.
   */
  lemma StoredCookieIsSentBack(syntax: HostSyntax, s: State, cookie: Cookie, uri: Uri, now: int, host: Host, domain: Host, time: int)
    requires uri.scheme == Some(Http) || uri.scheme == Some(Https)
    requires Accepted(syntax, cookie, uri, host, domain) && !DeadOnArrival(cookie, now) && now <= time
    requires uri.scheme == Some(Http) ==> !ShadowsSecure(s, ScopeKey(cookie, uri, domain), now)
    ensures ScopeKey(cookie, uri, domain) in Matching(Add(syntax, s, cookie, uri, now), uri, host, time)
       <==> PathCovered(uri.path, ScopePath(cookie, uri)) && AliveAt(cookie, now, time)
  {
    var k, s' := ScopeKey(cookie, uri, domain), Add(syntax, s, cookie, uri, now);
    AddExactly(syntax, s, cookie, uri, now, host, domain);
    var e := s'.entries[k];
    assert e.cookie.Domain().None? <==> cookie.Domain().None?;
    HostIsCovered(syntax, cookie, uri, host, domain);
    assert cookie.secure == Some(true) ==> uri.scheme == Some(Https);
    RulesAgree(host, domain, uri.path, k.path, e.cookie, time);
    hide Add, ShadowsSecure, AliveAt, DeadOnArrival, HostCovered, PathCovered, DomainMatch, PathMatch, ScopePath, Alive, Cookie.IsExpired, Accepted, Cookie.Domain;
  }

  lemma HostIsCovered(syntax: HostSyntax, cookie: Cookie, uri: Uri, host: Host, domain: Host)
    requires Accepted(syntax, cookie, uri, host, domain)
    ensures HostCovered(host, domain) && (cookie.Domain().None? ==> host == domain)
  {
  }

  /** Removal takes out both scopes of the name at exactly the host and path of the URI, and nothing else. */
  lemma RemoveExactly(syntax: HostSyntax, s: State, name: string, uri: Uri)
    ensures var s' := RemoveCookie(syntax, s, name, uri);
            && s'.next == s.next
            && (forall k :: k in s'.entries <==>
                  k in s.entries && !(syntax.RequestHost(uri) == Some(k.domain) && k.path == uri.path && k.name == name))
            && (forall k :: k in s'.entries ==> s'.entries[k] == s.entries[k])
  {
  }
}
