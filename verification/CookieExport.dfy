/**
 Exporting a jar and importing the snapshots into an empty one loses nothing a request could see.
 */
module CookieExport {
  import opened Wrappers
  import opened Text
  import opened CookieMatching
  import opened CookieModel
  import opened Uris
  import opened CookieListing
  import opened CookieProperties

  ghost predicate Live(s: State, now: int, k: Key) {
    k in s.entries && !s.entries[k].cookie.IsExpired(now)
  }

  /** Two stores hold the same cookies alive at `now`, created in the same order. */
  ghost predicate Mirrors(s: State, t: State, now: int) {
    && (forall k :: Live(s, now, k) <==> Live(t, now, k))
    && (forall k :: Live(s, now, k) ==> s.entries[k].cookie == t.entries[k].cookie)
    && (forall k, k' :: Live(s, now, k) && Live(s, now, k') ==>
          (s.entries[k].index <= s.entries[k'].index <==> t.entries[k].index <= t.entries[k'].index))
  }

  lemma MirrorMatches(s: State, t: State, uri: Uri, host: Host, now: int, time: int, k: Key)
    requires Mirrors(s, t, now) && now <= time
    ensures k in Matching(s, uri, host, time) <==> k in Matching(t, uri, host, time)
    ensures k in Matching(s, uri, host, time) ==> Live(s, now, k) && Live(t, now, k)
  {
    var a, b := Live(s, now, k), Live(t, now, k);
  }

  /** The same cookies as entries of another store. */
  ghost predicate Translates(x: seq<Item>, t: map<Key, Entry>, y: seq<Item>) {
    && |y| == |x|
    && (forall i :: 0 <= i < |x| ==> x[i].key in t && y[i] == Item(x[i].key, t[x[i].key]) && x[i].entry.cookie == y[i].entry.cookie)
  }

  lemma TranslationEnumerates(x: seq<Item>, m: map<Key, Entry>, t: map<Key, Entry>, y: seq<Item>)
    requires Enumerates(x, m) && Translates(x, t, y) && m.Keys == t.Keys
    ensures Enumerates(y, t)
  {
    EnumeratesPointwise(x, m);
    forall z
      ensures z in y <==> z.key in t && t[z.key] == z.entry
    {
      if z.key in t && t[z.key] == z.entry {
        assert z.key in m && Item(z.key, m[z.key]) in x;
        var i :| 0 <= i < |x| && x[i] == Item(z.key, m[z.key]);
        assert y[i] == z;
      }
    }
    PointwiseEnumerates(y, t);
  }

  lemma TranslationRenders(x: seq<Item>, t: map<Key, Entry>, y: seq<Item>, version: Version)
    requires Translates(x, t, y)
    ensures Render(y, version) == Render(x, version)
  {
    assert Pairs(y) == Pairs(x);
  }

  lemma TranslationSorted(s: State, t: State, now: int, x: seq<Item>, y: seq<Item>)
    requires Mirrors(s, t, now) && SortedBy(x, RequestOrder)
    requires Translates(x, t.entries, y)
    requires forall i :: 0 <= i < |x| ==> Live(s, now, x[i].key) && x[i].entry == s.entries[x[i].key]
    ensures SortedBy(y, RequestOrder)
  {
    forall i, j | 0 <= i < j < |y|
      ensures RequestOrder.Le(y[i], y[j])
    {
      assert RequestOrder.Le(x[i], x[j]);
      assert Live(s, now, x[i].key) && Live(s, now, x[j].key);
    }
  }

  lemma SelectionIsLive(s: State, t: State, uri: Uri, host: Host, now: int, time: int, x: seq<Item>)
    requires Mirrors(s, t, now) && now <= time
    requires Enumerates(x, Matching(s, uri, host, time))
    ensures Matching(s, uri, host, time).Keys == Matching(t, uri, host, time).Keys
    ensures forall i :: 0 <= i < |x| ==>
              && Live(s, now, x[i].key) && x[i].entry == s.entries[x[i].key]
              && x[i].key in Matching(t, uri, host, time) && x[i].entry.cookie == t.entries[x[i].key].cookie
  {
    EnumeratesPointwise(x, Matching(s, uri, host, time));
    forall k
      ensures k in Matching(s, uri, host, time) <==> k in Matching(t, uri, host, time)
    {
      MirrorMatches(s, t, uri, host, now, time, k);
    }
    forall i | 0 <= i < |x|
      ensures Live(s, now, x[i].key) && x[i].entry == s.entries[x[i].key]
      ensures x[i].key in Matching(t, uri, host, time) && x[i].entry.cookie == t.entries[x[i].key].cookie
    {
      assert x[i] in x;
      MirrorMatches(s, t, uri, host, now, time, x[i].key);
    }
  }

  lemma MirrorSelection(s: State, t: State, uri: Uri, host: Host, now: int, time: int, x: seq<Item>, version: Version)
    requires Mirrors(s, t, now) && now <= time
    requires Selection(s, uri, host, time, x)
    ensures Answer(t, uri, host, version, time, Render(x, version))
  {
    hide Render, SortedBy, Enumerates, Matches;
    var theirs := Matching(t, uri, host, time);
    SelectionIsLive(s, t, uri, host, now, time, x);
    var y := seq(|x|, i requires 0 <= i < |x| => Item(x[i].key, theirs[x[i].key]));
    TranslationEnumerates(x, Matching(s, uri, host, time), theirs, y);
    TranslationSorted(s, t, now, x, y);
    TranslationRenders(x, theirs, y, version);
    assert Selection(t, uri, host, time, y);
  }

  lemma MirrorAnswers(syntax: HostSyntax, s: State, t: State, uri: Uri, version: Version, now: int, time: int, out: Cookies)
    requires Mirrors(s, t, now) && now <= time
    requires Answers(syntax, s, uri, version, time, out)
    ensures Answers(syntax, t, uri, version, time, out)
  {
    match syntax.RequestHost(uri)
    case None =>
    case Some(host) =>
      assert Answer(s, uri, host, version, time, out);
      var x: seq<Item> :| Selection(s, uri, host, time, x) && out == Render(x, version);
      MirrorSelection(s, t, uri, host, now, time, x, version);
  }

  // ---------- importing ----------

  /** One `add` for each snapshot, each at its own clock reading. */
  function ImportOps(items: seq<Item>, uris: seq<Uri>, times: seq<int>): seq<Op>
    requires |uris| == |items| == |times|
  {
    seq(|items|, i requires 0 <= i < |items| => AddOp(items[i].entry.cookie, uris[i], times[i]))
  }

  /** The snapshots that are still alive when they are added. */
  function Arrived(items: seq<Item>, times: seq<int>): seq<Item>
    requires |items| == |times|
  {
    if items == [] then []
    else
      var n := |items| - 1;
      Arrived(items[..n], times[..n]) + if items[n].entry.cookie.IsExpired(times[n]) then [] else [items[n]]
  }

  lemma {:induction false} ArrivedSpec(items: seq<Item>, times: seq<int>)
    requires |items| == |times|
    ensures |Arrived(items, times)| <= |items|
    ensures forall x :: x in Arrived(items, times) ==> x in items
    ensures forall i :: 0 <= i < |items| && !items[i].entry.cookie.IsExpired(times[i]) ==> items[i] in Arrived(items, times)
    ensures Increasing(items) ==> Increasing(Arrived(items, times))
  {
    hide Cookie.IsExpired;
    if items != [] {
      var n := |items| - 1;
      ArrivedSpec(items[..n], times[..n]);
      assert forall i :: 0 <= i < n ==> items[..n][i] == items[i] && times[..n][i] == times[i];
      if Increasing(items) {
        var before := Arrived(items[..n], times[..n]);
        assert forall i :: 0 <= i < |before| ==> before[i] in items[..n];
      }
    }
  }

  /** Creation indices rise from each snapshot to the next. */
  ghost predicate Increasing(items: seq<Item>) {
    forall i, j :: 0 <= i < j < |items| ==> items[i].entry.index < items[j].entry.index
  }

  /** Each snapshot is added through an https URI of the host it was stored under. */
  predicate Addressed(syntax: HostSyntax, items: seq<Item>, uris: seq<Uri>) {
    && |uris| == |items|
    && (forall i :: 0 <= i < |items| ==> uris[i].IsHttps() && syntax.RequestHost(uris[i]) == Some(items[i].key.domain))
  }

  /** Printing the domain of each Domain cookie and canonicalizing it again gives that domain. */
  predicate Reparses(syntax: HostSyntax, items: seq<Item>) {
    forall i :: 0 <= i < |items| && items[i].entry.cookie.Domain().Some? ==>
      syntax.Canonical(items[i].entry.cookie.Domain().value) == Some(items[i].key.domain)
  }

  /** `t` holds the cookies of `items`, numbered by position. */
  ghost predicate Numbers(t: State, items: seq<Item>) {
    && t.next == |items|
    && (forall i :: 0 <= i < |items| ==> items[i].key in t.entries && t.entries[items[i].key] == Entry(items[i].entry.cookie, i))
    && (forall k :: k in t.entries ==> exists i :: 0 <= i < |items| && items[i].key == k)
  }

  /** A snapshot that is alive when it is added goes under its own key with the next index. */
  lemma ImportOne(syntax: HostSyntax, t: State, items: seq<Item>, x: Item, uri: Uri, now: int)
    requires Numbers(t, items) && |items| < MAX_INDEX
    requires forall i :: 0 <= i < |items| ==> items[i].key != x.key
    requires InItsSlot(syntax, x.key, x.entry) && !x.entry.cookie.IsExpired(now)
    requires Addressed(syntax, [x], [uri]) && Reparses(syntax, [x])
    ensures Numbers(Step(syntax, t, AddOp(x.entry.cookie, uri, now)), items + [x])
  {
    assert uri == [uri][0] && x == [x][0];
    DomainMatchPartialOrder(x.key.domain, x.key.domain, x.key.domain);
    var c := x.entry.cookie;
    assert Place(syntax, c, uri, now) == Some(Placement(x.key.domain, x.key.path, c, false));
    assert c.(path := Some(x.key.path)) == c;
    var t' := Step(syntax, t, AddOp(c, uri, now));
    assert t' == State(t.entries[x.key := Entry(c, t.next)], t.next + 1);
    assert (items + [x])[|items|] == x;
    forall k | k in t'.entries
      ensures exists i :: 0 <= i < |items + [x]| && (items + [x])[i].key == k
    {
      if k != x.key {
        var i :| 0 <= i < |items| && items[i].key == k;
        assert (items + [x])[i].key == k;
      }
    }
  }

  /** A snapshot that has expired when it is added changes nothing. */
  lemma ImportLate(syntax: HostSyntax, t: State, x: Item, uri: Uri, now: int)
    requires x.key !in t.entries
    requires InItsSlot(syntax, x.key, x.entry) && x.entry.cookie.IsExpired(now)
    requires Addressed(syntax, [x], [uri]) && Reparses(syntax, [x])
    ensures Step(syntax, t, AddOp(x.entry.cookie, uri, now)) == t
  {
    assert uri == [uri][0] && x == [x][0];
    DomainMatchPartialOrder(x.key.domain, x.key.domain, x.key.domain);
    var c := x.entry.cookie;
    assert Place(syntax, c, uri, now) == Some(Placement(x.key.domain, x.key.path, c, true));
    var t' := Remove(t, x.key.domain, x.key.path, c.name, Some(c.Domain().None?));
    assert forall k :: k in t.entries ==> k != x.key;
    assert t'.entries == t.entries;
  }

  lemma {:induction false} RunSnoc(syntax: HostSyntax, s: State, ops: seq<Op>, op: Op)
    ensures Run(syntax, s, ops + [op]) == Step(syntax, Run(syntax, s, ops), op)
    decreases |ops|
  {
    if ops != [] {
      assert (ops + [op])[1..] == ops[1..] + [op];
      RunSnoc(syntax, Step(syntax, s, ops[0]), ops[1..], op);
    } else {
      assert Run(syntax, s, ops + [op]) == Run(syntax, Step(syntax, s, op), (ops + [op])[1..]);
    }
  }

  lemma ImportOpsSnoc(items: seq<Item>, uris: seq<Uri>, times: seq<int>, n: nat)
    requires n < |items| == |uris| == |times|
    ensures ImportOps(items[..n + 1], uris[..n + 1], times[..n + 1])
         == ImportOps(items[..n], uris[..n], times[..n]) + [AddOp(items[n].entry.cookie, uris[n], times[n])]
  {
  }

  lemma {:induction false} ImportNumbers(syntax: HostSyntax, items: seq<Item>, uris: seq<Uri>, times: seq<int>, n: nat)
    requires n <= |items| == |times| == |uris| && |items| <= MAX_INDEX
    requires forall i, j :: 0 <= i < j < |items| ==> items[i].key != items[j].key
    requires forall x :: x in items ==> InItsSlot(syntax, x.key, x.entry)
    requires Addressed(syntax, items, uris) && Reparses(syntax, items)
    ensures Numbers(Run(syntax, EMPTY, ImportOps(items[..n], uris[..n], times[..n])), Arrived(items[..n], times[..n]))
  {
    if n > 0 {
      OneAddressed(syntax, items, uris, n - 1);
      hide *;
      var m := n - 1;
      var ops := ImportOps(items[..m], uris[..m], times[..m]);
      ImportNumbers(syntax, items, uris, times, m);
      ImportOpsSnoc(items, uris, times, m);
      RunSnoc(syntax, EMPTY, ops, AddOp(items[m].entry.cookie, uris[m], times[m]));
      ArrivedSpec(items[..m], times[..m]);
      NewKey(items, m, Arrived(items[..m], times[..m]));
      ArrivedSnoc(items, times, m);
      assert items[m] in items;
      ImportNext(syntax, Run(syntax, EMPTY, ops), Arrived(items[..m], times[..m]), items[m], uris[m], times[m]);
    }
  }

  lemma OneAddressed(syntax: HostSyntax, items: seq<Item>, uris: seq<Uri>, i: nat)
    requires i < |items| && Addressed(syntax, items, uris) && Reparses(syntax, items)
    ensures Addressed(syntax, [items[i]], [uris[i]]) && Reparses(syntax, [items[i]])
  {
  }

  lemma ArrivedSnoc(items: seq<Item>, times: seq<int>, n: nat)
    requires n < |items| == |times|
    ensures Arrived(items[..n + 1], times[..n + 1])
         == Arrived(items[..n], times[..n]) + if items[n].entry.cookie.IsExpired(times[n]) then [] else [items[n]]
  {
    assert items[..n + 1][..n] == items[..n] && times[..n + 1][..n] == times[..n];
  }

  lemma ImportNext(syntax: HostSyntax, t: State, before: seq<Item>, x: Item, uri: Uri, now: int)
    requires Numbers(t, before) && |before| < MAX_INDEX
    requires forall i :: 0 <= i < |before| ==> before[i].key != x.key
    requires InItsSlot(syntax, x.key, x.entry)
    requires Addressed(syntax, [x], [uri]) && Reparses(syntax, [x])
    ensures Numbers(Step(syntax, t, AddOp(x.entry.cookie, uri, now)), before + if x.entry.cookie.IsExpired(now) then [] else [x])
  {
    hide InItsSlot, Addressed, Reparses, Step, Cookie.IsExpired;
    if x.entry.cookie.IsExpired(now) {
      assert before + [] == before;
      ImportLate(syntax, t, x, uri, now);
    } else {
      hide Numbers;
      ImportOne(syntax, t, before, x, uri, now);
    }
  }

  lemma NewKey(items: seq<Item>, m: nat, before: seq<Item>)
    requires m < |items| && forall i, j :: 0 <= i < j < |items| ==> items[i].key != items[j].key
    requires forall x :: x in before ==> x in items[..m]
    ensures forall i :: 0 <= i < |before| ==> before[i].key != items[m].key
  {
    forall i | 0 <= i < |before|
      ensures before[i].key != items[m].key
    {
      assert before[i] in items[..m];
    }
  }

  /** Strictly increasing indices outrun positions, so an export never saturates the importing jar. */
  lemma {:induction false} PositionBelowIndex(items: seq<Item>, i: nat)
    requires i < |items|
    requires Increasing(items)
    ensures i <= items[i].entry.index
  {
    if i > 0 {
      PositionBelowIndex(items, i - 1);
    }
  }

  /**
   The round trip: for every well-formed jar below saturation, importing its export at `now` gives a
   jar with the same answer to every request in every HTTP version, at every time by which the export
   and all imports have been made.
   */
  lemma ExportImportRoundTrip(syntax: HostSyntax, s: State, now: int, items: seq<Item>, uris: seq<Uri>, times: seq<int>,
                              uri: Uri, version: Version, time: int, out: Cookies)
    requires WellFormed(syntax, s) && s.next < MAX_INDEX
    requires Exports(s, now, items)
    requires Addressed(syntax, items, uris) && Reparses(syntax, items)
    requires now <= time && MadeBy(items, times, time)
    ensures Answers(syntax, s, uri, version, time, out)
       <==> Answers(syntax, Run(syntax, EMPTY, ImportOps(items, uris, times)), uri, version, time, out)
  {
    hide WellFormed, Exports, Answers, Run, Mirrors, ImportOps, Reparses;
    var t := Run(syntax, EMPTY, ImportOps(items, uris, times));
    ExportMirrors(syntax, s, now, items, uris, times, time);
    if Answers(syntax, s, uri, version, time, out) {
      MirrorAnswers(syntax, s, t, uri, version, time, time, out);
    }
    if Answers(syntax, t, uri, version, time, out) {
      MirrorAnswers(syntax, t, s, uri, version, time, time, out);
    }
  }

  /** One clock reading for each snapshot, none later than `time`. */
  predicate MadeBy(items: seq<Item>, times: seq<int>, time: int) {
    |times| == |items| && forall i :: 0 <= i < |times| ==> times[i] <= time
  }

  lemma ExportMirrors(syntax: HostSyntax, s: State, now: int, items: seq<Item>, uris: seq<Uri>, times: seq<int>, time: int)
    requires WellFormed(syntax, s) && s.next < MAX_INDEX
    requires Exports(s, now, items)
    requires Addressed(syntax, items, uris) && Reparses(syntax, items)
    requires now <= time && MadeBy(items, times, time)
    ensures Mirrors(s, Run(syntax, EMPTY, ImportOps(items, uris, times)), time)
    ensures Mirrors(Run(syntax, EMPTY, ImportOps(items, uris, times)), s, time)
  {
    hide Mirrors, Run, ImportOps, Reparses;
    ExportIndicesIncrease(syntax, s, now, items);
    ExportSlots(syntax, s, now, items);
    ImportMirrors(syntax, s, now, items, uris, times, time);
  }

  lemma ImportMirrors(syntax: HostSyntax, s: State, now: int, items: seq<Item>, uris: seq<Uri>, times: seq<int>, time: int)
    requires |items| <= MAX_INDEX && Exports(s, now, items) && Increasing(items)
    requires forall x :: x in items ==> InItsSlot(syntax, x.key, x.entry)
    requires Addressed(syntax, items, uris) && Reparses(syntax, items)
    requires now <= time && MadeBy(items, times, time)
    ensures Mirrors(s, Run(syntax, EMPTY, ImportOps(items, uris, times)), time)
    ensures Mirrors(Run(syntax, EMPTY, ImportOps(items, uris, times)), s, time)
  {
    hide Mirrors, Run, ImportOps, Reparses, InItsSlot, Numbers, Arrived;
    EnumeratesPointwise(items, Unexpired(s, now));
    ImportNumbers(syntax, items, uris, times, |items|);
    assert items[..|items|] == items && uris[..|items|] == uris && times[..|items|] == times;
    ArrivedSpec(items, times);
    SurvivorsArrive(s, now, items, times, time);
    NumberedMirrors(s, Run(syntax, EMPTY, ImportOps(items, uris, times)), time, Arrived(items, times));
  }

  /** What is alive at `time` was alive at the export and at its import. */
  lemma SurvivorsArrive(s: State, now: int, items: seq<Item>, times: seq<int>, time: int)
    requires now <= time && MadeBy(items, times, time)
    requires forall x :: x in items <==> x.key in s.entries && s.entries[x.key] == x.entry && !x.entry.cookie.IsExpired(now)
    ensures forall k :: Live(s, time, k) ==> Item(k, s.entries[k]) in Arrived(items, times)
  {
    ArrivedSpec(items, times);
    forall k | Live(s, time, k)
      ensures Item(k, s.entries[k]) in Arrived(items, times)
    {
      assert Item(k, s.entries[k]) in items;
      var i :| 0 <= i < |items| && items[i] == Item(k, s.entries[k]);
      assert !items[i].entry.cookie.IsExpired(times[i]);
    }
  }

  lemma ExportSlots(syntax: HostSyntax, s: State, now: int, items: seq<Item>)
    requires WellFormed(syntax, s) && s.next < MAX_INDEX
    requires Exports(s, now, items) && Increasing(items)
    ensures |items| <= MAX_INDEX
    ensures forall x :: x in items ==> InItsSlot(syntax, x.key, x.entry)
  {
    EnumeratesPointwise(items, Unexpired(s, now));
    if items != [] {
      PositionBelowIndex(items, |items| - 1);
      assert items[|items| - 1] in items;
    }
  }

  lemma ExportIndicesIncrease(syntax: HostSyntax, s: State, now: int, items: seq<Item>)
    requires WellFormed(syntax, s) && s.next < MAX_INDEX
    requires Exports(s, now, items)
    ensures Increasing(items)
  {
    EnumeratesPointwise(items, Unexpired(s, now));
    forall i, j | 0 <= i < j < |items|
      ensures items[i].entry.index < items[j].entry.index
    {
      assert items[i] in items && items[j] in items;
      assert CreationOrder.Le(items[i], items[j]);
    }
  }

  lemma NumberedMirrors(s: State, t: State, time: int, items: seq<Item>)
    requires Numbers(t, items) && Increasing(items)
    requires forall x :: x in items ==> x.key in s.entries && s.entries[x.key] == x.entry
    requires forall k :: Live(s, time, k) ==> Item(k, s.entries[k]) in items
    ensures Mirrors(s, t, time) && Mirrors(t, s, time)
  {
    forall k
      ensures Live(s, time, k) <==> Live(t, time, k)
      ensures Live(s, time, k) ==> exists i :: 0 <= i < |items| && items[i] == Item(k, s.entries[k]) && t.entries[k] == Entry(s.entries[k].cookie, i)
    {
      if Live(s, time, k) {
        var i :| 0 <= i < |items| && items[i] == Item(k, s.entries[k]);
      }
      if k in t.entries {
        var i :| 0 <= i < |items| && items[i].key == k;
        assert items[i] in items;
      }
    }
  }
}
