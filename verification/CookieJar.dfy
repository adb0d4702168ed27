/**
 The jar of src/cookie/jar.rs over the nested store. Each operation is proved against its
 specification on the flat model. The clock is the parameter `now`; the lock is held for one call.
 */
module CookieJar {
  import opened Wrappers
  import opened Text
  import opened CookieMatching
  import opened CookieModel
  import opened Uris
  import opened CookieListing
  import opened CookieStore

  class Jar {
    const syntax: HostSyntax
    var store: Store

    ghost predicate Valid()
      reads this, store
    {
      store.Valid()
    }

    ghost function View(): State
      reads this, store
    {
      store.View()
    }

    constructor (syntax: HostSyntax)
      ensures Valid() && fresh(store) && View() == EMPTY && this.syntax == syntax
    {
      this.syntax := syntax;
      store := new Store();
    }

    method Add(cookie: Cookie, uri: Uri, now: int)
      requires Valid()
      modifies store
      ensures Valid() && store == old(store)
      ensures View() == CookieModel.Add(syntax, old(View()), cookie, uri, now)
    {
      hide CookieModel.Insert, CookieModel.Remove, Overlays, Flat;
      var placement := Locate(syntax, cookie, uri, now);
      if placement.None? {
        return;
      }
      var Placement(domain, path, c, expired) := placement.value;
      store.OverlayAgrees(c.name, domain, path, now);
      if !uri.IsHttps() && store.WouldOverlaySecureCookie(c.name, domain, path, now) {
        return;
      }
      if expired {
        store.RemoveStoredCookie(domain, path, c.name, cookie.Domain().None?);
      } else {
        store.InsertStoredCookie(domain, path, c.(path := Some(path)));
      }
    }

    /** The checks and attribute rewrites of `add` before it takes the lock. */
    static method Locate(syntax: HostSyntax, cookie: Cookie, uri: Uri, now: int) returns (placement: Option<Placement>)
      ensures placement == Place(syntax, cookie, uri, now)
    {
      var c := cookie;
      if c.secure == Some(true) && !uri.IsHttps() {
        return None;
      }
      if uri.host.None? {
        return None;
      }
      var host := syntax.Canonical(uri.host.value);
      if host.None? {
        return None;
      }
      var domain := host.value;
      if c.Domain().Some? {
        var canonical := syntax.Canonical(c.Domain().value);
        if canonical.None? || !DomainMatch(host.value, canonical.value) {
          return None;
        }
        domain := canonical.value;
        c := c.(domainAttribute := Some(syntax.show(domain)));
      }
      var expired;
      match c.maxAge {
        case Some(maxAge) =>
          expired := maxAge <= 0;
          if !expired {
            c := c.(maxAge := None, expires := Some(DateTime(SaturatingAdd(now, maxAge))));
          }
        case None =>
          expired := c.ExpiresDatetime().Some? && c.ExpiresDatetime().value <= now;
      }
      var path := if c.path.Some? && StartsWith(c.path.value, DEFAULT_PATH) then c.path.value else NormalizePath(uri.path);
      placement := Some(Placement(domain, path, c, expired));
    }

    /** Stores the field values of one response, each at its own clock reading; `None` is a malformed one. */
    method SetCookies(cookies: seq<Option<Cookie>>, uri: Uri, clock: seq<int>)
      requires Valid() && |clock| == |cookies|
      modifies store
      ensures Valid() && store == old(store)
      ensures View() == Run(syntax, old(View()), AddOps(cookies, uri, clock))
    {
      for i := 0 to |cookies|
        invariant Valid() && store == old(store)
        invariant Run(syntax, View(), AddOps(cookies[i..], uri, clock[i..])) == Run(syntax, old(View()), AddOps(cookies, uri, clock))
      {
        hide Cookie.IsExpired;
        assert cookies[i..][1..] == cookies[i + 1..] && clock[i..][1..] == clock[i + 1..];
        ghost var ops := AddOps(cookies[i..], uri, clock[i..]);
        if cookies[i].Some? {
          assert ops[1..] == AddOps(cookies[i + 1..], uri, clock[i + 1..]);
          Add(cookies[i].value, uri, clock[i]);
        } else {
          assert ops == AddOps(cookies[i + 1..], uri, clock[i + 1..]);
        }
      }
    }

    method Remove(name: string, uri: Uri)
      requires Valid()
      modifies store
      ensures Valid() && store == old(store)
      ensures View() == RemoveCookie(syntax, old(View()), name, uri)
    {
      if uri.host.Some? {
        var host := syntax.Canonical(uri.host.value);
        if host.Some? {
          store.RemoveStoredCookies(host.value, uri.path, name);
        }
      }
    }

    method Clear()
      requires Valid()
      modifies this
      ensures Valid() && fresh(store) && View() == EMPTY
    {
      store := new Store();
    }

    /** The older of the unexpired host-only and Domain cookies of an exact URI scope. */
    function Get(name: string, uri: Uri, now: int): (cookie: Option<Cookie>)
      reads this, store
      ensures cookie.None? <==>
              syntax.RequestHost(uri).None? || forall k :: !InScope(View(), k, syntax.RequestHost(uri).value, uri.path, name, now)
      ensures cookie.Some? ==> exists k ::
                IsOldest(View(), k, syntax.RequestHost(uri).value, uri.path, name, now) && View().entries[k].cookie == cookie.value
    {
      match syntax.RequestHost(uri)
      case None => None
      case Some(host) =>
        OldestOfScope(View(), store.cookies, host, uri.path, name, now);
        match Slot(store.cookies, host, uri.path).Oldest(name, now)
        case Some(e) => Some(e.cookie)
        case None => None
    }

    predicate Contains(name: string, uri: Uri, now: int)
      reads this, store
      ensures Contains(name, uri, now) <==> Get(name, uri, now).Some?
    {
      match syntax.RequestHost(uri)
      case None => false
      case Some(host) =>
        exists e | e in Slot(store.cookies, host, uri.path).Entries(name) :: !e.cookie.IsExpired(now)
    }

    method Len(now: int) returns (n: nat)
      ensures n == |Unexpired(View(), now)|
    {
      var items := Live(now);
      EnumerationSize(items, Unexpired(View(), now));
      n := |items|;
    }

    method IsEmpty(now: int) returns (empty: bool)
      ensures empty <==> Unexpired(View(), now) == map[]
    {
      var items := Live(now);
      EnumerationSize(items, Unexpired(View(), now));
      empty := items == [];
    }

    method Live(now: int) returns (items: seq<Item>)
      ensures Enumerates(items, Unexpired(View(), now))
    {
      var all := store.All();
      var wanted := (x: Item) => !x.entry.cookie.IsExpired(now);
      items := Filter(all, wanted);
      UnexpiredIsKept(all, View(), now, wanted);
    }

    /** Snapshots of every unexpired cookie, in creation order. */
    method GetAll(now: int) returns (items: seq<Item>)
      ensures Exports(View(), now, items)
    {
      var live := Live(now);
      items := Sort(live, CreationOrder);
    }

    method Matches(uri: Uri, now: int) returns (items: seq<Item>)
      ensures syntax.RequestHost(uri).None? ==> items == []
      ensures syntax.RequestHost(uri).Some? ==>
                Enumerates(items, Matching(View(), uri, syntax.RequestHost(uri).value, now))
    {
      var host := syntax.RequestHost(uri);
      if host.None? {
        return [];
      }
      items := store.MatchingCookies(uri, host.value, now);
    }

    /** The Cookie field value or values for a request. */
    method Cookies(uri: Uri, version: Version, now: int) returns (out: CookieModel.Cookies)
      ensures Answers(syntax, View(), uri, version, now, out)
    {
      var host := syntax.RequestHost(uri);
      if host.None? {
        return NoCookies;
      }
      var found := store.MatchingCookies(uri, host.value, now);
      var items := Sort(found, RequestOrder);
      if version.Http2? || version.Http3? {
        var fields := FieldPerCookie(items);
        out := Uncompressed(fields);
      } else {
        var text := OneField(items);
        out := if text == "" || !ValidHeaderValue(text) then NoCookies else Compressed(text);
      }
      assert Selection(View(), uri, host.value, now, items) && out == Render(items, version);
    }

    static method FieldPerCookie(items: seq<Item>) returns (fields: seq<string>)
      ensures fields == ValidOnly(Pairs(items))
    {
      fields := [];
      for i := 0 to |items|
        invariant fields + ValidOnly(Pairs(items)[i..]) == ValidOnly(Pairs(items))
      {
        var field := items[i].entry.cookie.name + "=" + items[i].entry.cookie.value;
        assert Pairs(items)[i..][1..] == Pairs(items)[i + 1..];
        if ValidHeaderValue(field) {
          fields := fields + [field];
        }
      }
    }

    static method OneField(items: seq<Item>) returns (text: string)
      ensures text == Join(Pairs(items), "; ")
      ensures text == "" <==> items == []
    {
      text := "";
      ghost var pairs := Pairs(items);
      for i := 0 to |items|
        invariant text == Join(pairs[..i], "; ")
        invariant text == "" <==> i == 0
      {
        ghost var soFar := text;
        if text != "" {
          text := text + "; ";
        }
        text := text + items[i].entry.cookie.name;
        text := text + "=";
        text := text + items[i].entry.cookie.value;
        assert pairs[..i + 1] == pairs[..i] + [pairs[i]];
        if i > 0 {
          JoinAppend(pairs[..i], [pairs[i]], "; ");
          assert text == soFar + "; " + pairs[i];
        } else {
          assert text == pairs[0];
        }
      }
      assert pairs[..|items|] == pairs;
    }
  }
}
