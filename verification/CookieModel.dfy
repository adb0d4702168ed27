/**
 Cookies and the flat storage model: one map keyed by (domain, path, name, host-only flag), as
 section 5.7 of RFC 6265bis describes it. Every operation of the jar is specified as a function on
 this model; the nested store of CookieStore.dfy is proved to implement it.
 */
module CookieModel {
  import opened Wrappers
  import opened Text
  import opened CookieMatching
  import opened Uris

  /** Points in time and durations are nanoseconds; the calendar of the `time` crate ends here. */
  const MAX_TIME: int := 253402300799999999999

  /** Creation indices are `u64` values. */
  const MAX_INDEX: nat := 0xFFFF_FFFF_FFFF_FFFF

  datatype Expiration = Session | DateTime(at: int)

  datatype Cookie = Cookie(
    name: string,
    value: string,
    domainAttribute: Option<string>,
    path: Option<string>,
    secure: Option<bool>,
    httpOnly: Option<bool>,
    maxAge: Option<int>,
    expires: Option<Expiration>
  ) {
    /** The Domain attribute as readers see it: without a leading dot. */
    function Domain(): Option<string> {
      match domainAttribute
      case Some(d) => Some(if StartsWith(d, ".") then d[1..] else d)
      case None => None
    }

    function ExpiresDatetime(): Option<int> {
      match expires
      case Some(DateTime(at)) => Some(at)
      case _ => None
    }

    predicate IsExpired(now: int) {
      || (maxAge.Some? && maxAge.value <= 0)
      || (ExpiresDatetime().Some? && ExpiresDatetime().value <= now)
    }
  }

  /** The host parser and printer of the URL library, as parameters of the model. */
  datatype HostSyntax = HostSyntax(parse: string -> Option<Host>, show: Host -> string) {
    function Canonical(host: string): Option<Host> {
      parse(if StartsWith(host, ".") then host[1..] else host)
    }

    function RequestHost(uri: Uri): Option<Host> {
      match uri.host
      case Some(host) => Canonical(host)
      case None => None
    }
  }

  datatype Entry = Entry(cookie: Cookie, index: nat)

  datatype Key = Key(domain: Host, path: string, name: string, hostOnly: bool)

  datatype State = State(entries: map<Key, Entry>, next: nat)

  const EMPTY := State(map[], 0)

  function SaturatingInc(n: nat): nat {
    if n < MAX_INDEX then n + 1 else n
  }

  // ---------- storage ----------

  function Insert(s: State, domain: Host, path: string, cookie: Cookie): State {
    var k := Key(domain, path, cookie.name, cookie.Domain().None?);
    if k in s.entries && s.entries[k].cookie.value == cookie.value then
      s.(entries := s.entries[k := Entry(cookie, s.entries[k].index)])
    else
      State(s.entries[k := Entry(cookie, s.next)], SaturatingInc(s.next))
  }

  /** `hostOnly` selects one storage scope; `None` selects both. */
  ghost function Remove(s: State, domain: Host, path: string, name: string, hostOnly: Option<bool>): (r: State)
    ensures forall k :: k in r.entries <==> k in s.entries && !Selects(k, domain, path, name, hostOnly)
    ensures forall k :: k in r.entries ==> r.entries[k] == s.entries[k]
    ensures r.next == s.next
  {
    s.(entries := map k | k in s.entries && !Selects(k, domain, path, name, hostOnly) :: s.entries[k])
  }

  predicate Selects(k: Key, domain: Host, path: string, name: string, hostOnly: Option<bool>) {
    k.domain == domain && k.path == path && k.name == name && (hostOnly.None? || hostOnly.value == k.hostOnly)
  }

  ghost predicate Overlays(s: State, name: string, domain: Host, path: string, now: int) {
    exists k :: k in s.entries && Shadows(k, name, domain, path) && LiveSecure(s.entries[k], now)
  }

  predicate Shadows(k: Key, name: string, domain: Host, path: string) {
    && k.name == name
    && (DomainMatch(k.domain, domain) || DomainMatch(domain, k.domain))
    && PathMatch(path, k.path)
  }

  predicate LiveSecure(e: Entry, now: int) {
    e.cookie.secure == Some(true) && !e.cookie.IsExpired(now)
  }

  /** Where and how `add` wants to store a cookie; `None` when the cookie is ignored outright. */
  datatype Placement = Placement(domain: Host, path: string, cookie: Cookie, expired: bool)

  function Place(syntax: HostSyntax, cookie: Cookie, uri: Uri, now: int): Option<Placement> {
    if cookie.secure == Some(true) && !uri.IsHttps() then None
    else match syntax.RequestHost(uri)
      case None => None
      case Some(host) =>
        match PlaceDomain(syntax, cookie, host)
        case None => None
        case Some((domain, scoped)) =>
          Some(Placement(domain, EffectivePath(cookie, uri), WithDeadline(scoped, now), ExpiredOnArrival(cookie, now)))
  }

  function PlaceDomain(syntax: HostSyntax, cookie: Cookie, host: Host): Option<(Host, Cookie)> {
    match cookie.Domain()
    case None => Some((host, cookie))
    case Some(raw) =>
      match syntax.Canonical(raw)
      case None => None
      case Some(domain) =>
        if DomainMatch(host, domain) then Some((domain, cookie.(domainAttribute := Some(syntax.show(domain))))) else None
  }

  function EffectivePath(cookie: Cookie, uri: Uri): string {
    if cookie.path.Some? && StartsWith(cookie.path.value, DEFAULT_PATH) then cookie.path.value
    else NormalizePath(uri.path)
  }

  /** Max-Age takes precedence over Expires. */
  predicate ExpiredOnArrival(cookie: Cookie, now: int) {
    match cookie.maxAge
    case Some(maxAge) => maxAge <= 0
    case None => cookie.ExpiresDatetime().Some? && cookie.ExpiresDatetime().value <= now
  }

  function SaturatingAdd(now: int, duration: int): int {
    if now + duration > MAX_TIME then MAX_TIME else now + duration
  }

  /** A positive Max-Age becomes an absolute deadline that replaces Expires. */
  function WithDeadline(cookie: Cookie, now: int): Cookie {
    if cookie.maxAge.Some? && cookie.maxAge.value > 0 then
      cookie.(maxAge := None, expires := Some(DateTime(SaturatingAdd(now, cookie.maxAge.value))))
    else cookie
  }

  ghost function Add(syntax: HostSyntax, s: State, cookie: Cookie, uri: Uri, now: int): State {
    match Place(syntax, cookie, uri, now)
    case None => s
    case Some(p) =>
      if !uri.IsHttps() && Overlays(s, cookie.name, p.domain, p.path, now) then s
      else if p.expired then Remove(s, p.domain, p.path, cookie.name, Some(cookie.Domain().None?))
      else Insert(s, p.domain, p.path, p.cookie.(path := Some(p.path)))
  }

  ghost function RemoveCookie(syntax: HostSyntax, s: State, name: string, uri: Uri): State {
    match syntax.RequestHost(uri)
    case None => s
    case Some(host) => Remove(s, host, uri.path, name, None)
  }

  // ---------- exact scopes ----------

  /** `k` names an unexpired cookie of an exact host and path. */
  ghost predicate InScope(s: State, k: Key, host: Host, path: string, name: string, now: int) {
    && k in s.entries && !s.entries[k].cookie.IsExpired(now)
    && k.domain == host && k.path == path && k.name == name
  }

  /** No other cookie in the scope is older. */
  ghost predicate IsOldest(s: State, k: Key, host: Host, path: string, name: string, now: int) {
    && InScope(s, k, host, path, name, now)
    && (forall k' :: InScope(s, k', host, path, name, now) ==> s.entries[k].index <= s.entries[k'].index)
  }

  // ---------- runs ----------

  datatype Op =
    | AddOp(cookie: Cookie, uri: Uri, now: int)
    | RemoveOp(name: string, uri: Uri)
    | ClearOp

  ghost function Step(syntax: HostSyntax, s: State, op: Op): State {
    match op
    case AddOp(cookie, uri, now) => Add(syntax, s, cookie, uri, now)
    case RemoveOp(name, uri) => RemoveCookie(syntax, s, name, uri)
    case ClearOp => EMPTY
  }

  ghost function Run(syntax: HostSyntax, s: State, ops: seq<Op>): State
    decreases |ops|
  {
    if ops == [] then s else Run(syntax, Step(syntax, s, ops[0]), ops[1..])
  }

  /** One `add` for each well-formed field value, in order. */
  function AddOps(cookies: seq<Option<Cookie>>, uri: Uri, clock: seq<int>): seq<Op>
    requires |clock| == |cookies|
  {
    if cookies == [] then []
    else (if cookies[0].Some? then [AddOp(cookies[0].value, uri, clock[0])] else []) + AddOps(cookies[1..], uri, clock[1..])
  }

  // ---------- retrieval ----------

  datatype Item = Item(key: Key, entry: Entry)

  predicate Matches(uri: Uri, host: Host, now: int, k: Key, e: Entry) {
    && (uri.IsHttp() || uri.IsHttps())
    && DomainMatch(host, k.domain)
    && (e.cookie.Domain().None? ==> host == k.domain)
    && PathMatch(uri.path, k.path)
    && !(e.cookie.secure == Some(true) && uri.IsHttp())
    && !e.cookie.IsExpired(now)
  }

  ghost function Bindings(m: map<Key, Entry>): (bindings: set<Item>)
    ensures forall x :: x in bindings <==> x.key in m && m[x.key] == x.entry
  {
    set k | k in m :: Item(k, m[k])
  }

  /** `items` lists exactly the bindings of `m`, each once, in any order. */
  ghost predicate Enumerates(items: seq<Item>, m: map<Key, Entry>) {
    multiset(items) == multiset(Bindings(m))
  }

  /** The order of a request (longest path first, then oldest) and of an export (oldest first). */
  datatype Order = RequestOrder | CreationOrder {
    function Rank(x: Item): int {
      if RequestOrder? then -|x.key.path| else 0
    }

    predicate Le(a: Item, b: Item) {
      Rank(a) < Rank(b) || (Rank(a) == Rank(b) && a.entry.index <= b.entry.index)
    }
  }

  ghost predicate SortedBy(items: seq<Item>, order: Order) {
    forall i, j :: 0 <= i < j < |items| ==> order.Le(items[i], items[j])
  }

  datatype Version = Http1 | Http2 | Http3

  datatype Cookies = Compressed(field: string) | Uncompressed(fields: seq<string>) | NoCookies

  function Pair(c: Cookie): string {
    c.name + "=" + c.value
  }

  function Pairs(items: seq<Item>): (pairs: seq<string>)
    ensures |pairs| == |items|
    ensures forall i :: 0 <= i < |items| ==> pairs[i] == Pair(items[i].entry.cookie)
  {
    seq(|items|, i requires 0 <= i < |items| => Pair(items[i].entry.cookie))
  }

  function ValidOnly(fields: seq<string>): seq<string> {
    if fields == [] then []
    else (if ValidHeaderValue(fields[0]) then [fields[0]] else []) + ValidOnly(fields[1..])
  }

  function Render(items: seq<Item>, version: Version): Cookies {
    if version.Http2? || version.Http3? then Uncompressed(ValidOnly(Pairs(items)))
    else if items == [] || !ValidHeaderValue(Join(Pairs(items), "; ")) then NoCookies
    else Compressed(Join(Pairs(items), "; "))
  }

  ghost function Matching(s: State, uri: Uri, host: Host, now: int): map<Key, Entry> {
    map k | k in s.entries && Matches(uri, host, now, k, s.entries[k]) :: s.entries[k]
  }

  ghost function Unexpired(s: State, now: int): map<Key, Entry> {
    map k | k in s.entries && !s.entries[k].cookie.IsExpired(now) :: s.entries[k]
  }

  /** `items` is a legal order in which `cookies` may serialize the matching entries. */
  ghost predicate Selection(s: State, uri: Uri, host: Host, now: int, items: seq<Item>) {
    Enumerates(items, Matching(s, uri, host, now)) && SortedBy(items, RequestOrder)
  }

  ghost predicate Answer(s: State, uri: Uri, host: Host, version: Version, now: int, out: Cookies) {
    exists items :: Selection(s, uri, host, now, items) && out == Render(items, version)
  }

  /** `out` is a legal answer of `cookies`. */
  ghost predicate Answers(syntax: HostSyntax, s: State, uri: Uri, version: Version, now: int, out: Cookies) {
    match syntax.RequestHost(uri)
    case None => out == NoCookies
    case Some(host) => Answer(s, uri, host, version, now, out)
  }

  /** `items` is a legal export: every unexpired entry once, oldest first. */
  ghost predicate Exports(s: State, now: int, items: seq<Item>) {
    Enumerates(items, Unexpired(s, now)) && SortedBy(items, CreationOrder)
  }
}
