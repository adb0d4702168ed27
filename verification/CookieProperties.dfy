/**
 What the jar guarantees over whole runs: a well-formed store, one answer per request, most specific
 cookies first, protection of Secure cookies, and a lossless export.
 */
module CookieProperties {
  import opened Wrappers
  import opened Text
  import opened CookieMatching
  import opened CookieModel
  import opened Uris
  import opened CookieListing

  // ---------- invariants of every run ----------

  /** The cookie in a slot says so itself, and its Max-Age has become a deadline. */
  predicate InItsSlot(syntax: HostSyntax, k: Key, e: Entry) {
    && e.cookie.name == k.name
    && (if k.hostOnly then e.cookie.Domain().None? else e.cookie.domainAttribute == Some(syntax.show(k.domain)))
    && e.cookie.path == Some(k.path) && StartsWith(k.path, DEFAULT_PATH)
    && e.cookie.maxAge.None?
  }

  /** Creation indices are below the counter and distinct until the counter saturates. */
  ghost predicate WellFormed(syntax: HostSyntax, s: State) {
    && s.next <= MAX_INDEX
    && (forall k :: k in s.entries ==> InItsSlot(syntax, k, s.entries[k]))
    && (forall k :: k in s.entries ==> s.entries[k].index < s.next || s.entries[k].index == MAX_INDEX == s.next)
    && (forall k, k' :: k in s.entries && k' in s.entries && k != k' && s.entries[k].index == s.entries[k'].index ==>
          s.entries[k].index == MAX_INDEX)
  }

  lemma InsertKeepsWellFormed(syntax: HostSyntax, s: State, domain: Host, path: string, cookie: Cookie)
    requires WellFormed(syntax, s)
    requires InItsSlot(syntax, Key(domain, path, cookie.name, cookie.Domain().None?), Entry(cookie, 0))
    ensures WellFormed(syntax, Insert(s, domain, path, cookie))
  {
    assert forall index :: InItsSlot(syntax, Key(domain, path, cookie.name, cookie.Domain().None?), Entry(cookie, index));
    hide InItsSlot, Cookie.Domain;
  }

  lemma PlacedInItsSlot(syntax: HostSyntax, cookie: Cookie, uri: Uri, now: int)
    ensures match Place(syntax, cookie, uri, now)
            case None => true
            case Some(p) =>
              && p.cookie.name == cookie.name && p.cookie.value == cookie.value && p.cookie.secure == cookie.secure
              && p.cookie.Domain().None? == cookie.Domain().None?
              && (!p.expired ==> InItsSlot(syntax, Key(p.domain, p.path, cookie.name, cookie.Domain().None?),
                                           Entry(p.cookie.(path := Some(p.path)), 0)))
  {
    DefaultPathCoversItsRequest(uri.path);
  }

  lemma StepKeepsWellFormed(syntax: HostSyntax, s: State, op: Op)
    requires WellFormed(syntax, s)
    ensures WellFormed(syntax, Step(syntax, s, op))
  {
    if op.AddOp? {
      PlacedInItsSlot(syntax, op.cookie, op.uri, op.now);
      match Place(syntax, op.cookie, op.uri, op.now)
      case None =>
      case Some(p) =>
        if !p.expired {
          InsertKeepsWellFormed(syntax, s, p.domain, p.path, p.cookie.(path := Some(p.path)));
        }
    }
  }

  /** Every run of add, remove and clear keeps the store well formed. */
  lemma {:induction false} RunKeepsWellFormed(syntax: HostSyntax, s: State, ops: seq<Op>)
    requires WellFormed(syntax, s)
    ensures WellFormed(syntax, Run(syntax, s, ops))
    decreases |ops|
  {
    if ops != [] {
      StepKeepsWellFormed(syntax, s, ops[0]);
      RunKeepsWellFormed(syntax, Step(syntax, s, ops[0]), ops[1..]);
    }
  }

  /** An `add` changes nothing outside the one scope it stores into. */
  lemma AddTouchesOneKey(syntax: HostSyntax, s: State, cookie: Cookie, uri: Uri, now: int, k: Key)
    requires match Place(syntax, cookie, uri, now)
             case None => true
             case Some(p) => k != Key(p.domain, p.path, cookie.name, cookie.Domain().None?)
    ensures k in Add(syntax, s, cookie, uri, now).entries <==> k in s.entries
    ensures k in s.entries ==> Add(syntax, s, cookie, uri, now).entries[k] == s.entries[k]
  {
    PlacedInItsSlot(syntax, cookie, uri, now);
  }

  // ---------- one answer ----------

  lemma ListedIndicesDistinct(syntax: HostSyntax, s: State, m: map<Key, Entry>, items: seq<Item>)
    requires WellFormed(syntax, s) && s.next < MAX_INDEX
    requires forall k :: k in m ==> k in s.entries && m[k] == s.entries[k]
    requires Enumerates(items, m)
    ensures DistinctIndices(items)
  {
    EnumeratesPointwise(items, m);
  }

  /** Below saturation the answer does not depend on the order in which hash maps are walked. */
  lemma OneAnswer(syntax: HostSyntax, s: State, uri: Uri, version: Version, now: int, a: Cookies, b: Cookies)
    requires WellFormed(syntax, s) && s.next < MAX_INDEX
    requires Answers(syntax, s, uri, version, now, a) && Answers(syntax, s, uri, version, now, b)
    ensures a == b
  {
    match syntax.RequestHost(uri)
    case None =>
    case Some(host) =>
      var x :| Selection(s, uri, host, now, x) && a == Render(x, version);
      var y :| Selection(s, uri, host, now, y) && b == Render(y, version);
      ListedIndicesDistinct(syntax, s, Matching(s, uri, host, now), x);
      SortedEnumerationUnique(x, y, RequestOrder);
  }

  lemma OneExport(syntax: HostSyntax, s: State, now: int, a: seq<Item>, b: seq<Item>)
    requires WellFormed(syntax, s) && s.next < MAX_INDEX
    requires Exports(s, now, a) && Exports(s, now, b)
    ensures a == b
  {
    ListedIndicesDistinct(syntax, s, Unexpired(s, now), a);
    SortedEnumerationUnique(a, b, CreationOrder);
  }

  // ---------- retrieval ----------

  /**
   A selection lists exactly the matching entries, each once. Its paths form a chain under path
   matching, most specific first; entries of one path are oldest first. Plain HTTP never sees Secure.
   */
  lemma SelectionIsMostSpecificFirst(s: State, uri: Uri, host: Host, now: int, items: seq<Item>)
    requires Selection(s, uri, host, now, items)
    ensures forall x :: x in items <==> x.key in s.entries && s.entries[x.key] == x.entry && Matches(uri, host, now, x.key, x.entry)
    ensures forall i, j :: 0 <= i < j < |items| ==>
              && items[i].key != items[j].key
              && PathMatch(items[i].key.path, items[j].key.path)
              && (items[i].key.path == items[j].key.path ==> items[i].entry.index <= items[j].entry.index)
    ensures uri.IsHttp() ==> forall x :: x in items ==> x.entry.cookie.secure != Some(true)
  {
    EnumeratesPointwise(items, Matching(s, uri, host, now));
    forall i, j | 0 <= i < j < |items|
      ensures PathMatch(items[i].key.path, items[j].key.path)
      ensures items[i].key.path == items[j].key.path ==> items[i].entry.index <= items[j].entry.index
    {
      assert items[i] in items && items[j] in items;
      assert RequestOrder.Le(items[i], items[j]);
      MatchingPathsAreComparable(uri.path, items[i].key.path, items[j].key.path);
    }
  }

  lemma {:induction false} JoinIsValid(fields: seq<string>)
    ensures ValidHeaderValue(Join(fields, "; ")) <==> forall i :: 0 <= i < |fields| ==> ValidHeaderValue(fields[i])
  {
    if |fields| > 1 {
      JoinIsValid(fields[1..]);
      var joined := Join(fields, "; ");
      assert joined == fields[0] + "; " + Join(fields[1..], "; ");
      assert ValidHeaderValue(joined) <==> ValidHeaderValue(fields[0]) && ValidHeaderValue(Join(fields[1..], "; ")) by {
        assert forall c :: c in joined <==> c in fields[0] || c in "; " || c in Join(fields[1..], "; ");
      }
      assert forall i :: 1 <= i < |fields| ==> fields[i] == fields[1..][i - 1];
    }
  }

  lemma {:induction false} AllValidKept(fields: seq<string>)
    requires forall i :: 0 <= i < |fields| ==> ValidHeaderValue(fields[i])
    ensures ValidOnly(fields) == fields
  {
    if fields != [] {
      AllValidKept(fields[1..]);
    }
  }

  /**
   Section 8.2.3 of RFC 9113: the HTTP/1.1 field is the "; " join of the HTTP/2 fields exactly when
   some cookie applies and every pair is a legal field value; otherwise HTTP/1.1 sends no field at all.
   */
  lemma CompressedIsJoinOfFields(items: seq<Item>, version: Version)
    requires version.Http2? || version.Http3?
    ensures Render(items, Http1) == Compressed(Join(Render(items, version).fields, "; "))
       <==> items != [] && forall i :: 0 <= i < |items| ==> ValidHeaderValue(Pair(items[i].entry.cookie))
    ensures Render(items, Http1).NoCookies?
       <==> items == [] || exists i :: 0 <= i < |items| && !ValidHeaderValue(Pair(items[i].entry.cookie))
  {
    JoinIsValid(Pairs(items));
    if forall i :: 0 <= i < |items| ==> ValidHeaderValue(Pair(items[i].entry.cookie)) {
      AllValidKept(Pairs(items));
    } else {
      var i :| 0 <= i < |items| && !ValidHeaderValue(Pair(items[i].entry.cookie));
      assert !ValidHeaderValue(Pairs(items)[i]);
    }
  }

  // ---------- Secure cookies ----------

  /**
   The Secure entries alive at `until` are the same before and after, and no entry that is new or
   changed has the name of one of them on a related domain under its path.
   */
  ghost predicate SecureRespected(s: State, s': State, until: int) {
    && (forall k :: k in s.entries && LiveSecure(s.entries[k], until) ==> k in s'.entries && s'.entries[k] == s.entries[k])
    && (forall k :: k in s'.entries && LiveSecure(s'.entries[k], until) ==> k in s.entries && s'.entries[k] == s.entries[k])
    && (forall k, sk | Changed(s, s', k) && sk in s.entries && LiveSecure(s.entries[sk], until) ::
          !Shadows(sk, k.name, k.domain, k.path))
  }

  ghost predicate Changed(s: State, s': State, k: Key) {
    k in s'.entries && (k !in s.entries || s'.entries[k] != s.entries[k])
  }

  /** Section 5.7 of RFC 6265bis for one `add` from an insecure origin. */
  lemma InsecureAddRespectsSecure(syntax: HostSyntax, s: State, cookie: Cookie, uri: Uri, now: int, until: int)
    requires !uri.IsHttps() && now <= until
    ensures SecureRespected(s, Add(syntax, s, cookie, uri, now), until)
  {
    match Place(syntax, cookie, uri, now)
    case None =>
    case Some(p) =>
      if Overlays(s, cookie.name, p.domain, p.path, now) {
        assert Add(syntax, s, cookie, uri, now) == s;
        return;
      }
      var target := Key(p.domain, p.path, cookie.name, cookie.Domain().None?);
      PlacedInItsSlot(syntax, cookie, uri, now);
      assert target in Add(syntax, s, cookie, uri, now).entries ==>
          Add(syntax, s, cookie, uri, now).entries[target].cookie.secure != Some(true);
      forall k | k != target
        ensures k in Add(syntax, s, cookie, uri, now).entries <==> k in s.entries
        ensures k in s.entries ==> Add(syntax, s, cookie, uri, now).entries[k] == s.entries[k]
      {
        AddTouchesOneKey(syntax, s, cookie, uri, now, k);
      }
      hide CookieModel.Add, Shadows, Cookie.Domain, Place;
      NotShadowed(s, target, now, until);
      OneChange(s, Add(syntax, s, cookie, uri, now), target, until);
  }

  lemma ShadowsItself(k: Key)
    ensures Shadows(k, k.name, k.domain, k.path)
  {
    DomainMatchPartialOrder(k.domain, k.domain, k.domain);
    PathMatchPartialOrder(k.path, k.path, k.path);
  }

  /** What overlays nothing alive now shadows nothing that is alive later. */
  lemma NotShadowed(s: State, target: Key, now: int, until: int)
    requires now <= until && !Overlays(s, target.name, target.domain, target.path, now)
    ensures forall sk :: sk in s.entries && LiveSecure(s.entries[sk], until) ==> !Shadows(sk, target.name, target.domain, target.path)
  {
    hide Shadows;
    forall sk | sk in s.entries && LiveSecure(s.entries[sk], until)
      ensures !Shadows(sk, target.name, target.domain, target.path)
    {
      assert LiveSecure(s.entries[sk], now);
    }
  }

  /** A change at one key that nothing alive and Secure shadows. */
  lemma OneChange(s: State, s': State, target: Key, until: int)
    requires forall k :: k != target ==> (k in s'.entries <==> k in s.entries)
    requires forall k :: k != target && k in s.entries ==> s'.entries[k] == s.entries[k]
    requires forall sk :: sk in s.entries && LiveSecure(s.entries[sk], until) ==> !Shadows(sk, target.name, target.domain, target.path)
    requires target in s'.entries ==> s'.entries[target].cookie.secure != Some(true)
    ensures SecureRespected(s, s', until)
  {
    ShadowsItself(target);
    hide Shadows, Cookie.IsExpired;
  }

  /** All operations of a run are adds from insecure origins no later than `until`. */
  predicate InsecureUntil(ops: seq<Op>, until: int) {
    forall i :: 0 <= i < |ops| ==> ops[i].AddOp? && !ops[i].uri.IsHttps() && ops[i].now <= until
  }

  /**
   However many responses arrive over insecure transports, the Secure cookies alive at `until` are
   exactly the ones there were, and nothing stored meanwhile shadows one of them.
   */
  lemma {:induction false} InsecureRunRespectsSecure(syntax: HostSyntax, s: State, ops: seq<Op>, until: int)
    requires InsecureUntil(ops, until)
    ensures SecureRespected(s, Run(syntax, s, ops), until)
    decreases |ops|
  {
    if ops != [] {
      var op := ops[0];
      var mid := Step(syntax, s, op);
      InsecureAddRespectsSecure(syntax, s, op.cookie, op.uri, op.now, until);
      InsecureRunRespectsSecure(syntax, mid, ops[1..], until);
      var s' := Run(syntax, s, ops);
      forall k, sk | Changed(s, s', k) && sk in s.entries && LiveSecure(s.entries[sk], until)
        ensures !Shadows(sk, k.name, k.domain, k.path)
      {
        assert sk in mid.entries && mid.entries[sk] == s.entries[sk];
        assert Changed(mid, s', k) || Changed(s, mid, k);
      }
    }
  }
}
