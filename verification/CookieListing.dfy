/**
 Listing a flat map: hash maps are walked in an arbitrary order, filtered, and sorted by library code
 whose only promise is an ordered permutation.
 */
module CookieListing {
  import opened CookieMatching
  import opened CookieModel
  import opened Uris

  lemma EnumeratesOne(k: Key, e: Entry)
    ensures Enumerates([Item(k, e)], map[k := e])
  {
    assert Bindings(map[k := e]) == {Item(k, e)};
  }

  lemma DisjointUnion(a: set<Item>, b: set<Item>)
    requires a !! b
    ensures multiset(a + b) == multiset(a) + multiset(b)
  {
  }

  lemma EnumeratesAppend(a: seq<Item>, m: map<Key, Entry>, b: seq<Item>, n: map<Key, Entry>)
    requires Enumerates(a, m) && Enumerates(b, n)
    requires m.Keys !! n.Keys
    ensures Enumerates(a + b, m + n)
  {
    assert Bindings(m + n) == Bindings(m) + Bindings(n) && Bindings(m) !! Bindings(n);
    hide Bindings;
    DisjointUnion(Bindings(m), Bindings(n));
  }

  /** The pointwise reading of an enumeration. */
  lemma EnumeratesPointwise(items: seq<Item>, m: map<Key, Entry>)
    requires Enumerates(items, m)
    ensures forall x :: x in items <==> x.key in m && m[x.key] == x.entry
    ensures forall i, j :: 0 <= i < j < |items| ==> items[i].key != items[j].key
  {
    forall x
      ensures x in items <==> x in Bindings(m)
    {
      assert x in items <==> x in multiset(items);
    }
    forall i, j | 0 <= i < j < |items|
      ensures items[i].key != items[j].key
    {
      assert items[i] in items && items[j] in items;
      assert items == items[..j] + items[j..];
      assert items[i] in items[..j] && items[j] in items[j..];
      assert items[i] == items[j] ==> multiset(items)[items[i]] >= 2;
    }
  }

  lemma {:induction false} DistinctCount(items: seq<Item>, x: Item)
    requires forall i, j :: 0 <= i < j < |items| ==> items[i].key != items[j].key
    ensures multiset(items)[x] == if x in items then 1 else 0
  {
    if items != [] {
      assert items == [items[0]] + items[1..];
      DistinctCount(items[1..], x);
    }
  }

  lemma PointwiseEnumerates(items: seq<Item>, m: map<Key, Entry>)
    requires forall i, j :: 0 <= i < j < |items| ==> items[i].key != items[j].key
    requires forall x :: x in items <==> x.key in m && m[x.key] == x.entry
    ensures Enumerates(items, m)
  {
    forall x
      ensures multiset(items)[x] == multiset(Bindings(m))[x]
    {
      DistinctCount(items, x);
    }
  }

  lemma EnumerationSize(items: seq<Item>, m: map<Key, Entry>)
    requires Enumerates(items, m)
    ensures |items| == |m|
  {
    assert |items| == |multiset(items)|;
    MultisetSize(Bindings(m));
    BindingsSize(m);
  }

  lemma MultisetSize(items: set<Item>)
    ensures |multiset(items)| == |items|
  {
  }

  lemma OneBindingMore(m: map<Key, Entry>, k: Key)
    requires k in m
    ensures Bindings(m) == Bindings(m - {k}) + {Item(k, m[k])} && Item(k, m[k]) !in Bindings(m - {k})
    ensures |m| == |m - {k}| + 1
  {
    assert m.Keys == (m - {k}).Keys + {k};
  }

  lemma {:induction false} BindingsSize(m: map<Key, Entry>)
    ensures |Bindings(m)| == |m|
  {
    if m == map[] {
      assert Bindings(m) == {};
    } else {
      hide Bindings;
      var k :| k in m;
      OneBindingMore(m, k);
      BindingsSize(m - {k});
    }
  }

  function Keep(items: seq<Item>, wanted: Item -> bool): seq<Item> {
    if items == [] then []
    else
      var last := items[|items| - 1];
      Keep(items[..|items| - 1], wanted) + if wanted(last) then [last] else []
  }

  lemma {:induction false} KeepCounts(items: seq<Item>, wanted: Item -> bool, x: Item)
    ensures multiset(Keep(items, wanted))[x] == if wanted(x) then multiset(items)[x] else 0
  {
    if items != [] {
      var last := items[|items| - 1];
      assert items == items[..|items| - 1] + [last];
      KeepCounts(items[..|items| - 1], wanted, x);
    }
  }

  lemma KeepEnumerates(items: seq<Item>, m: map<Key, Entry>, wanted: Item -> bool)
    requires Enumerates(items, m)
    ensures Enumerates(Keep(items, wanted), map k | k in m && wanted(Item(k, m[k])) :: m[k])
  {
    var kept := map k | k in m && wanted(Item(k, m[k])) :: m[k];
    forall x
      ensures multiset(Keep(items, wanted))[x] == multiset(Bindings(kept))[x]
    {
      KeepCounts(items, wanted, x);
      assert multiset(items)[x] == multiset(Bindings(m))[x];
      assert x in Bindings(kept) <==> x in Bindings(m) && wanted(x);
    }
  }

  lemma MatchingIsKept(items: seq<Item>, s: State, uri: Uri, host: Host, now: int, wanted: Item -> bool)
    requires Enumerates(items, s.entries)
    requires forall x :: wanted(x) <==> Matches(uri, host, now, x.key, x.entry)
    ensures Enumerates(Keep(items, wanted), Matching(s, uri, host, now))
  {
    hide Matches, Enumerates, Keep;
    KeepEnumerates(items, s.entries, wanted);
    assert (map k | k in s.entries && wanted(Item(k, s.entries[k])) :: s.entries[k]) == Matching(s, uri, host, now);
  }

  lemma UnexpiredIsKept(items: seq<Item>, s: State, now: int, wanted: Item -> bool)
    requires Enumerates(items, s.entries)
    requires forall x :: wanted(x) <==> !x.entry.cookie.IsExpired(now)
    ensures Enumerates(Keep(items, wanted), Unexpired(s, now))
  {
    hide Cookie.IsExpired, Enumerates, Keep;
    KeepEnumerates(items, s.entries, wanted);
    assert (map k | k in s.entries && wanted(Item(k, s.entries[k])) :: s.entries[k]) == Unexpired(s, now);
  }

  method Filter(items: seq<Item>, wanted: Item -> bool) returns (kept: seq<Item>)
    ensures kept == Keep(items, wanted)
  {
    kept := [];
    for i := 0 to |items|
      invariant kept == Keep(items[..i], wanted)
    {
      assert items[..i + 1][..i] == items[..i];
      if wanted(items[i]) {
        kept := kept + [items[i]];
      }
    }
    assert items[..|items|] == items;
  }

  /** Sorting permutes; ties may come out either way. */
  method Sort(items: seq<Item>, order: Order) returns (sorted: seq<Item>)
    ensures multiset(sorted) == multiset(items) && SortedBy(sorted, order)
  {
    sorted := [];
    for i := 0 to |items|
      invariant multiset(sorted) == multiset(items[..i]) && SortedBy(sorted, order)
    {
      assert items[..i + 1] == items[..i] + [items[i]];
      sorted := InsertSorted(sorted, items[i], order);
    }
    assert items[..|items|] == items;
  }

  method InsertSorted(sorted: seq<Item>, x: Item, order: Order) returns (longer: seq<Item>)
    requires SortedBy(sorted, order)
    ensures SortedBy(longer, order) && multiset(longer) == multiset(sorted) + multiset{x}
  {
    var j := |sorted|;
    while j > 0 && !order.Le(sorted[j - 1], x)
      invariant 0 <= j <= |sorted|
      invariant forall h :: j <= h < |sorted| ==> order.Le(x, sorted[h])
    {
      j := j - 1;
    }
    InsertInOrder(sorted, j, x, order);
    longer := sorted[..j] + [x] + sorted[j..];
    assert sorted == sorted[..j] + sorted[j..];
  }

  lemma InsertInOrder(sorted: seq<Item>, j: nat, x: Item, order: Order)
    requires SortedBy(sorted, order)
    requires j <= |sorted|
    requires j > 0 ==> order.Le(sorted[j - 1], x)
    requires forall h :: j <= h < |sorted| ==> order.Le(x, sorted[h])
    ensures SortedBy(sorted[..j] + [x] + sorted[j..], order)
  {
    var all := sorted[..j] + [x] + sorted[j..];
    forall a, b | 0 <= a < b < |all|
      ensures order.Le(all[a], all[b])
    {
      var first, second := if a < j then a else a - 1, if b < j then b else b - 1;
      assert a != j ==> all[a] == sorted[first];
      assert b != j ==> all[b] == sorted[second];
      if b == j {
        assert a < j - 1 ==> order.Le(sorted[a], sorted[j - 1]);
      } else if a != j {
        assert order.Le(sorted[first], sorted[second]);
      }
    }
  }

  /** No two listed entries were created at the same index. */
  ghost predicate DistinctIndices(items: seq<Item>) {
    forall x, y :: x in items && y in items && x.entry.index == y.entry.index ==> x == y
  }

  lemma HeadIsLeast(a: seq<Item>, b: seq<Item>, order: Order)
    requires multiset(a) == multiset(b) && a != [] && b != []
    requires SortedBy(a, order)
    ensures b[0] in a && order.Le(a[0], b[0])
  {
    assert b[0] in multiset(b);
    var i :| 0 <= i < |a| && a[i] == b[0];
    assert i > 0 ==> order.Le(a[0], a[i]);
  }

  /** Without ties there is one way to sort, whatever order the hash maps were walked in. */
  lemma {:induction false} SortedEnumerationUnique(a: seq<Item>, b: seq<Item>, order: Order)
    requires multiset(a) == multiset(b)
    requires SortedBy(a, order) && SortedBy(b, order)
    requires DistinctIndices(a)
    ensures a == b
  {
    assert |a| == |multiset(a)| == |b|;
    if a != [] {
      HeadIsLeast(a, b, order);
      HeadIsLeast(b, a, order);
      assert b[0] in a && a[0] in a;
      hide SortedBy, DistinctIndices, Order.Le;
      assert a[0] == b[0] by { SameLeast(a, a[0], b[0], order); }
      TailOf(a, order);
      TailOf(b, order);
      SortedEnumerationUnique(a[1..], b[1..], order);
    }
  }

  lemma SameLeast(a: seq<Item>, x: Item, y: Item, order: Order)
    requires DistinctIndices(a) && x in a && y in a && order.Le(x, y) && order.Le(y, x)
    ensures x == y
  {
  }

  lemma TailOf(a: seq<Item>, order: Order)
    requires a != [] && SortedBy(a, order)
    ensures SortedBy(a[1..], order) && multiset(a[1..]) == multiset(a) - multiset{a[0]}
    ensures DistinctIndices(a) ==> DistinctIndices(a[1..])
  {
    hide Order.Le;
    assert a == [a[0]] + a[1..];
  }
}
