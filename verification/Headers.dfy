/**
 Header maps and the two in-place operations on them: reordering (src/header.rs) and override
 (src/util.rs, src/client/layer/config.rs).
 */
module Headers {
  import opened Wrappers
  import opened Uris
  import opened Sequences

  /** A header map: its names in storage order, and each name's values in the order they were added. */
  datatype Map<V> = Map(names: seq<string>, values: map<string, seq<V>>) {
    function Get(name: string): seq<V> {
      if name in values then values[name] else []
    }
  }

  ghost predicate Good<V>(m: Map<V>) {
    && Distinct(m.names)
    && (forall name :: name in m.names <==> name in m.values)
    && (forall name :: name in m.values ==> m.values[name] != [])
  }

  /** The map with `name` standing for `values` at its old place, or at the end. */
  function Put<V>(m: Map<V>, name: string, values: seq<V>): Map<V> {
    Map(if name in m.values then m.names else m.names + [name], m.values[name := values])
  }

  function Position(names: seq<string>, name: string): (p: nat)
    requires name in names
    ensures p < |names| && names[p] == name
  {
    if names[|names| - 1] == name then |names| - 1 else Position(names[..|names| - 1], name)
  }

  /** Removal moves the last name into the gap. */
  function SwapRemoved(names: seq<string>, name: string): seq<string> {
    if name !in names then names
    else
      var p, last := Position(names, name), |names| - 1;
      if p == last then names[..last] else names[p := names[last]][..last]
  }

  lemma SwapRemovedSpec(names: seq<string>, name: string)
    requires Distinct(names)
    ensures Distinct(SwapRemoved(names, name))
    ensures forall x :: x in SwapRemoved(names, name) <==> x in names && x != name
    ensures forall i :: 0 <= i < |SwapRemoved(names, name)| ==>
              SwapRemoved(names, name)[i] == if names[i] == name then names[|names| - 1] else names[i]
  {
    if name in names {
      var p, last := Position(names, name), |names| - 1;
      var left := SwapRemoved(names, name);
      forall x
        ensures x in left <==> x in names && x != name
      {
        if x in names && x != name {
          var i :| 0 <= i < |names| && names[i] == x;
          assert left[if i == last then p else i] == x;
        }
      }
    }
  }

  function Removed<V>(m: Map<V>, name: string): Map<V> {
    Map(SwapRemoved(m.names, name), m.values - {name})
  }

  /** Every name with every value, in order. */
  function Pairs<V>(m: Map<V>): seq<(string, V)>
    requires forall name :: name in m.names ==> name in m.values
  {
    PairsOf(m.names, m.values)
  }

  function PairsOf<V>(names: seq<string>, values: map<string, seq<V>>): seq<(string, V)>
    requires forall name :: name in names ==> name in values
  {
    if names == [] then []
    else PairsOf(names[..|names| - 1], values) + NamePairs(names[|names| - 1], values[names[|names| - 1]])
  }

  function NamePairs<V>(name: string, values: seq<V>): (pairs: seq<(string, V)>)
    ensures |pairs| == |values| && forall i :: 0 <= i < |pairs| ==> pairs[i] == (name, values[i])
  {
    seq(|values|, i requires 0 <= i < |values| => (name, values[i]))
  }

  lemma {:induction false} PairsAppend<V>(a: seq<string>, b: seq<string>, values: map<string, seq<V>>)
    requires forall name :: name in a + b ==> name in values
    ensures PairsOf(a + b, values) == PairsOf(a, values) + PairsOf(b, values)
  {
    if b == [] {
      assert a + b == a;
    } else {
      var n := |b| - 1;
      var init, last := b[..n], b[n];
      assert b == init + [last] && a + b == (a + init) + [last];
      hide PairsOf;
      PairsAppend(a, init, values);
      PairsSnoc(a + init, last, values);
      PairsSnoc(init, last, values);
    }
  }

  lemma PairsSnoc<V>(names: seq<string>, last: string, values: map<string, seq<V>>)
    requires forall name :: name in names + [last] ==> name in values
    ensures forall name :: name in names ==> name in values
    ensures last in values && PairsOf(names + [last], values) == PairsOf(names, values) + NamePairs(last, values[last])
  {
    assert (names + [last])[..|names|] == names;
    assert forall name :: name in names ==> name in names + [last];
    assert last in names + [last];
  }

  /** Pairs depend only on the values of the names listed. */
  lemma {:induction false} PairsAgree<V>(names: seq<string>, a: map<string, seq<V>>, b: map<string, seq<V>>)
    requires forall name :: name in names ==> name in a && name in b && a[name] == b[name]
    ensures PairsOf(names, a) == PairsOf(names, b)
  {
    if names != [] {
      PairsAgree(names[..|names| - 1], a, b);
    }
  }

  class HeaderMap<V> {
    var content: Map<V>

    constructor ()
      ensures content == Map([], map[])
    {
      content := Map([], map[]);
    }

    method Append(name: string, value: V)
      modifies this
      ensures content == Put(old(content), name, old(content).Get(name) + [value])
    {
      if name in content.values {
        content := content.(values := content.values[name := content.values[name] + [value]]);
      } else {
        content := Map(content.names + [name], content.values[name := [] + [value]]);
      }
    }

    method Insert(name: string, value: V)
      modifies this
      ensures content == Put(old(content), name, [value])
    {
      if name in content.values {
        content := content.(values := content.values[name := [value]]);
      } else {
        content := Map(content.names + [name], content.values[name := [value]]);
      }
    }

    method Remove(name: string)
      modifies this
      ensures content == Removed(old(content), name)
    {
      var names := content.names;
      if name in names {
        var p, last := Position(names, name), |names| - 1;
        if p != last {
          names := names[p := names[last]];
        }
        names := names[..last];
      }
      content := Map(names, content.values - {name});
    }

    /** Takes over the values of one name, given as a drained entry: insert the first, append the others. */
    method TakeEntry(name: string, values: seq<V>)
      requires values != [] && name !in content.values
      modifies this
      ensures content == Put(old(content), name, values)
    {
      Insert(name, values[0]);
      assert values[..1] == [values[0]];
      for k := 1 to |values|
        invariant content == Put(old(content), name, values[..k])
      {
        Append(name, values[k]);
        assert values[..k + 1] == values[..k] + [values[k]];
        assert content.values == old(content).values[name := values[..k + 1]];
      }
      assert values[..|values|] == values;
    }

    /** Appends every value of one name, if there are any. */
    method AppendAll(name: string, values: seq<V>)
      requires name !in content.values
      modifies this
      ensures content == if values == [] then old(content) else Put(old(content), name, values)
    {
      for k := 0 to |values|
        invariant content == if k == 0 then old(content) else Put(old(content), name, values[..k])
      {
        Append(name, values[k]);
        assert values[..k + 1] == values[..k] + [values[k]];
        assert content.values == old(content).values[name := values[..k + 1]];
      }
      assert values[..|values|] == values;
    }
  }

  // ---------- reordering ----------

  /** The configured names that are present, in configured order. */
  function Front<V>(order: seq<string>, m: Map<V>): seq<string> {
    if order == [] then []
    else Front(order[..|order| - 1], m) + if order[|order| - 1] in m.values then [order[|order| - 1]] else []
  }

  /** The names left after the configured ones are removed one by one. */
  function Rest(order: seq<string>, names: seq<string>): seq<string> {
    if order == [] then names else SwapRemoved(Rest(order[..|order| - 1], names), order[|order| - 1])
  }

  /** Configured names first; each name keeps its values. */
  function Reordered<V>(order: seq<string>, m: Map<V>): Map<V> {
    Map(Front(order, m) + Rest(order, m.names), m.values)
  }

  lemma {:induction false} RestSpec(order: seq<string>, names: seq<string>)
    requires Distinct(names)
    ensures Distinct(Rest(order, names))
    ensures forall x :: x in Rest(order, names) <==> x in names && x !in order
  {
    if order != [] {
      var n := |order| - 1;
      assert order == order[..n] + [order[n]];
      RestSpec(order[..n], names);
      SwapRemovedSpec(Rest(order[..n], names), order[n]);
    }
  }

  lemma {:induction false} FrontSpec<V>(order: seq<string>, m: Map<V>)
    requires Distinct(order)
    ensures Distinct(Front(order, m))
    ensures forall x :: x in Front(order, m) <==> x in order && x in m.values
  {
    if order != [] {
      var n := |order| - 1;
      assert order == order[..n] + [order[n]];
      FrontSpec(order[..n], m);
      assert order[n] !in order[..n];
    }
  }

  /**
   Reordering gives every name the same list of values, keeps the same set of distinct names, and puts
   exactly the configured ones first.
   */
  lemma ReorderingLosesNothing<V>(order: seq<string>, m: Map<V>)
    requires Good(m) && Distinct(order)
    ensures Good(Reordered(order, m))
    ensures forall name :: Reordered(order, m).Get(name) == m.Get(name)
    ensures forall i :: 0 <= i < |Reordered(order, m).names| ==>
              (i < |Front(order, m)| <==> Reordered(order, m).names[i] in order)
  {
    FrontSpec(order, m);
    RestSpec(order, m.names);
    var front, rest := Front(order, m), Rest(order, m.names);
    forall i | 0 <= i < |front + rest|
      ensures i < |front| <==> (front + rest)[i] in order
    {
      if i < |front| { assert front[i] in front; } else { assert rest[i - |front|] in rest; }
    }
    forall i, j | 0 <= i < j < |front + rest|
      ensures (front + rest)[i] != (front + rest)[j]
    {
      if i < |front| && j >= |front| { assert rest[j - |front|] in rest && front[i] in front; }
    }
  }

  /** A map with none of the configured names is left exactly as it is. */
  lemma {:induction false} NothingConfigured<V>(order: seq<string>, m: Map<V>)
    requires Good(m) && forall name :: name in order ==> name !in m.values
    ensures Reordered(order, m) == m
  {
    NoFront(order, m);
    NoneRemoved(order, m.names);
    assert [] + m.names == m.names;
  }

  lemma {:induction false} NoFront<V>(order: seq<string>, m: Map<V>)
    requires forall name :: name in order ==> name !in m.values
    ensures Front(order, m) == []
  {
    if order != [] {
      NoFront(order[..|order| - 1], m);
    }
  }

  lemma {:induction false} NoneRemoved(order: seq<string>, names: seq<string>)
    requires forall name :: name in order ==> name !in names
    ensures Rest(order, names) == names
  {
    if order != [] {
      NoneRemoved(order[..|order| - 1], names);
    }
  }

  /** The place of a configured name among the configured names. */
  lemma {:induction false} FrontFollowsOrder<V>(order: seq<string>, m: Map<V>, i: nat, j: nat) returns (a: nat, b: nat)
    requires Distinct(order) && i < j < |Front(order, m)|
    ensures a < b < |order| && order[a] == Front(order, m)[i] && order[b] == Front(order, m)[j]
  {
    var n := |order| - 1;
    var f := Front(order[..n], m);
    if j < |f| {
      a, b := FrontFollowsOrder(order[..n], m, i, j);
    } else {
      FrontSpec(order[..n], m);
      assert f[i] in order[..n];
      a :| 0 <= a < n && order[..n][a] == f[i];
      b := n;
    }
  }

  /** How many values a map holds. */
  function Len<V>(m: Map<V>): nat
    requires forall name :: name in m.names ==> name in m.values
  {
    |Pairs(m)|
  }

  /** Where `Call` leaves the map alone there is nothing to reorder. */
  lemma NothingToReorder<V>(order: seq<string>, m: Map<V>)
    requires Good(m) && Distinct(order) && (Len(m) <= 1 || order == [])
    ensures Reordered(order, m) == m
  {
    if order != [] {
      AtLeastOneEach(m.names, m.values);
      FrontSpec(order, m);
      RestSpec(order, m.names);
      hide Front, Rest, PairsOf;
      if m.names == [] {
        Nothing(Front(order, m));
        Nothing(Rest(order, m.names));
      } else {
        SingleName(order, m, m.names[0]);
      }
    }
  }

  lemma SingleName<V>(order: seq<string>, m: Map<V>, name: string)
    requires m.names == [name] && name in m.values && forall x :: x in m.values <==> x in m.names
    requires Distinct(Front(order, m)) && forall x :: x in Front(order, m) <==> x in order && x in m.values
    requires Distinct(Rest(order, m.names)) && forall x :: x in Rest(order, m.names) <==> x in m.names && x !in order
    ensures Front(order, m) + Rest(order, m.names) == [name]
  {
    hide Front, Rest;
    AllTheSame(Front(order, m), name);
    AllTheSame(Rest(order, m.names), name);
  }

  lemma {:induction false} AtLeastOneEach<V>(names: seq<string>, values: map<string, seq<V>>)
    requires forall name :: name in names ==> name in values && values[name] != []
    ensures |PairsOf(names, values)| >= |names|
  {
    if names != [] {
      AtLeastOneEach(names[..|names| - 1], values);
    }
  }

  lemma Member(names: seq<string>, i: nat)
    requires i < |names|
    ensures names[i] in names
  {
  }

  lemma Nothing(names: seq<string>)
    requires forall x :: x !in names
    ensures names == []
  {
    if names != [] {
      Member(names, 0);
    }
  }

  lemma AllTheSame(names: seq<string>, name: string)
    requires Distinct(names) && forall x :: x in names ==> x == name
    ensures names == if name in names then [name] else []
  {
    if names != [] {
      Member(names, 0);
      if |names| > 1 {
        Member(names, 1);
      }
    }
  }

  /** The name as it goes over the wire: the first spelling it was configured with, or itself. */
  function Spelling(spellings: map<string, seq<string>>, name: string): string {
    if name in spellings && spellings[name] != [] then spellings[name][0] else name
  }

  function Spelled<V>(spellings: map<string, seq<string>>, pairs: seq<(string, V)>): (spelled: seq<(string, V)>)
    ensures |spelled| == |pairs|
    ensures forall i :: 0 <= i < |pairs| ==> spelled[i] == (Spelling(spellings, pairs[i].0), pairs[i].1)
  {
    seq(|pairs|, i requires 0 <= i < |pairs| => (Spelling(spellings, pairs[i].0), pairs[i].1))
  }

  /** A configured order: names, each with the spellings it was given. */
  class OrigHeaderMap {
    const order: seq<string>
    const spellings: map<string, seq<string>>

    ghost predicate Valid() {
      && Distinct(order)
      && (forall name :: name in spellings <==> name in order)
      && (forall name :: name in spellings ==> spellings[name] != [])
    }

    constructor (order: seq<string>, spellings: map<string, seq<string>>)
      requires Distinct(order)
      requires forall name :: name in spellings <==> name in order
      requires forall name :: name in spellings ==> spellings[name] != []
      ensures this.order == order && this.spellings == spellings && Valid()
    {
      this.order, this.spellings := order, spellings;
    }

    /** Sorts the headers in place. */
    method Call<V>(headers: HeaderMap<V>)
      requires Valid() && Good(headers.content)
      modifies headers
      ensures headers.content == Reordered(order, old(headers.content))
    {
      if Len(headers.content) <= 1 || order == [] {
        NothingToReorder(order, headers.content);
        return;
      }
      ghost var all := headers.content;
      var sorted := new HeaderMap<V>();
      MoveConfigured(sorted, headers);
      DrainInto(sorted, headers, all);
      headers.content := sorted.content;
    }

    /** First loop: the configured names move over, in order. */
    method MoveConfigured<V>(sorted: HeaderMap<V>, headers: HeaderMap<V>)
      requires Valid() && Good(headers.content) && sorted.content == Map([], map[]) && sorted != headers
      modifies sorted, headers
      ensures sorted.content == Grown(order, [], old(headers.content)) && headers.content == Left(order, old(headers.content))
    {
      ghost var all := headers.content;
      NothingMoved(all);
      assert order[..0] == [];
      for i := 0 to |order|
        invariant sorted.content == Grown(order[..i], [], all) && headers.content == Left(order[..i], all)
      {
        hide Grown, Left, Removed;
        assert order[i] !in order[..i];
        assert order[..i + 1] == order[..i] + [order[i]];
        MoveStep(order[..i], all, order[i]);
        LeftStep(order[..i], all, order[i]);
        sorted.AppendAll(order[i], headers.content.Get(order[i]));
        headers.Remove(order[i]);
      }
      assert order[..|order|] == order;
    }

    /** Second loop: the drained rest is added behind. */
    method DrainInto<V>(sorted: HeaderMap<V>, headers: HeaderMap<V>, ghost all: Map<V>)
      requires Valid() && Good(all) && sorted != headers
      requires sorted.content == Grown(order, [], all) && headers.content == Left(order, all)
      modifies sorted
      ensures sorted.content == Reordered(order, all)
    {
      var rest := headers.content;
      RestNames(order, all);
      assert rest.names[..0] == [];
      for j := 0 to |rest.names|
        invariant sorted.content == Grown(order, rest.names[..j], all)
      {
        hide Grown, Left;
        var name := rest.names[j];
        assert rest.names[..j + 1] == rest.names[..j] + [name];
        GrownStep(order, rest.names[..j], all, name);
        sorted.TakeEntry(name, rest.values[name]);
      }
      assert rest.names[..|rest.names|] == rest.names;
      GrownAll(order, all);
    }

    /** Visits every header, spelled as configured: what `Call` would leave, in that order. */
    method CallVisit<V>(headers: HeaderMap<V>) returns (visited: seq<(string, V)>)
      requires Valid() && Good(headers.content)
      modifies headers
      ensures Good(Reordered(order, old(headers.content)))
      ensures visited == Spelled(spellings, Pairs(Reordered(order, old(headers.content))))
      ensures var pairs := Pairs(Reordered(order, old(headers.content)));
              |visited| == |pairs| && forall i :: 0 <= i < |pairs| ==>
                visited[i] == (if pairs[i].0 in order then spellings[pairs[i].0][0] else pairs[i].0, pairs[i].1)
    {
      ghost var all := headers.content;
      ReorderingLosesNothing(order, all);
      visited := [];
      NothingMoved(all);
      assert order[..0] == [];
      for i := 0 to |order|
        invariant headers.content == Left(order[..i], all)
        invariant visited == Spelled(spellings, FrontPairs(order[..i], all))
      {
        hide Left, Spelled, FrontPairs;
        assert order[i] !in order[..i];
        assert order[..i + 1] == order[..i] + [order[i]];
        var more := VisitName(headers, order[i], order[..i], all);
        SpelledStep(spellings, order[..i], all, order[i]);
        visited := visited + more;
      }
      assert order[..|order|] == order;
      LeftIsGood(order, all);
      VisitedSpelled(all);
      visited := visited + PairsOf(headers.content.names, headers.content.values);
    }

    lemma VisitedSpelled<V>(m: Map<V>)
      requires Valid() && Good(m) && Good(Reordered(order, m))
      ensures forall x :: x in Left(order, m).names ==> x in Left(order, m).values
      ensures Spelled(spellings, FrontPairs(order, m)) + PairsOf(Left(order, m).names, Left(order, m).values)
           == Spelled(spellings, Pairs(Reordered(order, m)))
    {
      LeftIsGood(order, m);
      VisitedAll(order, m);
      var left := Left(order, m);
      RestSpec(order, m.names);
      hide Left, FrontPairs, Reordered, PairsOf, Pairs;
      RestKeepsItsSpelling(left.names, left.values);
      SpelledAppend(spellings, FrontPairs(order, m), PairsOf(left.names, left.values));
    }

    /** Visits one configured name: its first spelling takes all values, further ones find nothing. */
    method VisitName<V>(headers: HeaderMap<V>, name: string, ghost before: seq<string>, ghost all: Map<V>) returns (visited: seq<(string, V)>)
      requires Valid() && name in order
      requires Good(all) && name !in before && headers.content == Left(before, all)
      modifies headers
      ensures headers.content == Left(before + [name], all)
      ensures visited == Spelled(spellings, if name in all.values then NamePairs(name, all.values[name]) else [])
    {
      hide Left, Removed;
      visited := [];
      var names := spellings[name];
      for k := 0 to |names|
        invariant headers.content == Left(if k == 0 then before else before + [name], all)
        invariant visited == if k == 0 then [] else Spelled(spellings, if name in all.values then NamePairs(name, all.values[name]) else [])
      {
        LeftGet(before, all, name);
        visited := visited + NamePairs(names[k], headers.content.Get(name));
        headers.Remove(name);
      }
    }

    /** Names that are not configured go out as they are. */
    lemma RestKeepsItsSpelling<V>(names: seq<string>, values: map<string, seq<V>>)
      requires Valid() && forall name :: name in names ==> name in values && name !in order
      ensures Spelled(spellings, PairsOf(names, values)) == PairsOf(names, values)
    {
      PairsNames(names, values);
    }
  }

  lemma SpelledAppend<V>(spellings: map<string, seq<string>>, a: seq<(string, V)>, b: seq<(string, V)>)
    ensures Spelled(spellings, a + b) == Spelled(spellings, a) + Spelled(spellings, b)
  {
  }

  lemma SpelledStep<V>(spellings: map<string, seq<string>>, order: seq<string>, m: Map<V>, name: string)
    ensures Spelled(spellings, FrontPairs(order + [name], m)) ==
            Spelled(spellings, FrontPairs(order, m)) + Spelled(spellings, if name in m.values then NamePairs(name, m.values[name]) else [])
  {
    assert (order + [name])[..|order|] == order;
    SpelledAppend(spellings, FrontPairs(order, m), if name in m.values then NamePairs(name, m.values[name]) else []);
  }

  lemma {:induction false} PairsNames<V>(names: seq<string>, values: map<string, seq<V>>)
    requires forall name :: name in names ==> name in values
    ensures forall i :: 0 <= i < |PairsOf(names, values)| ==> PairsOf(names, values)[i].0 in names
  {
    if names != [] {
      PairsNames(names[..|names| - 1], values);
    }
  }

  /** A name not yet removed has its values; removing it again changes nothing. */
  lemma LeftGet<V>(order: seq<string>, m: Map<V>, name: string)
    requires Good(m) && name !in order
    ensures Left(order, m).Get(name) == m.Get(name)
    ensures Removed(Left(order, m), name) == Left(order + [name], m)
    ensures Left(order + [name], m).Get(name) == []
    ensures Removed(Left(order + [name], m), name) == Left(order + [name], m)
  {
    LeftStep(order, m, name);
    RestSpec(order + [name], m.names);
    assert Left(order + [name], m).values - {name} == Left(order + [name], m).values;
  }

  /** The sorted map when the names of `order` and then `more` have been added. */
  function Grown<V>(order: seq<string>, more: seq<string>, m: Map<V>): Map<V> {
    Map(Front(order, m) + more, map x | x in m.values && (x in order || x in more) :: m.values[x])
  }

  /** What is left of a map once some names are removed, one by one. */
  function Left<V>(order: seq<string>, m: Map<V>): Map<V> {
    Map(Rest(order, m.names), map x | x in m.values && x !in order :: m.values[x])
  }

  lemma NothingMoved<V>(m: Map<V>)
    ensures Grown([], [], m) == Map([], map[])
    ensures Left([], m) == m
  {
    assert Grown([], [], m).values == map[];
    assert Left([], m).values == m.values;
  }

  lemma MoveStep<V>(order: seq<string>, m: Map<V>, name: string)
    requires Good(m) && name !in order
    ensures name !in Grown(order, [], m).values
    ensures var values := Left(order, m).Get(name);
            Grown(order + [name], [], m) == if values == [] then Grown(order, [], m) else Put(Grown(order, [], m), name, values)
  {
    var before, after := Grown(order, [], m), Grown(order + [name], [], m);
    assert (order + [name])[..|order|] == order;
    if name in m.values {
      assert after.values == before.values[name := m.values[name]];
      assert after.names == before.names + [name];
    } else {
      assert after.values == before.values;
      assert after.names == before.names;
    }
  }

  lemma LeftStep<V>(order: seq<string>, m: Map<V>, name: string)
    ensures Removed(Left(order, m), name) == Left(order + [name], m)
  {
    assert (order + [name])[..|order|] == order;
    assert Left(order, m).values - {name} == Left(order + [name], m).values;
  }

  /** The remaining names are new to the sorted map and keep their values. */
  lemma RestNames<V>(order: seq<string>, m: Map<V>)
    requires Good(m)
    ensures Distinct(Left(order, m).names)
    ensures forall x :: x in Left(order, m).names ==> x !in order && x in m.values && x in Left(order, m).values && Left(order, m).values[x] == m.values[x] != []
  {
    RestSpec(order, m.names);
  }

  lemma GrownStep<V>(order: seq<string>, more: seq<string>, m: Map<V>, name: string)
    requires name in m.values && name !in order && name !in more
    ensures name !in Grown(order, more, m).values
    ensures Grown(order, more + [name], m) == Put(Grown(order, more, m), name, m.values[name])
  {
    assert Grown(order, more + [name], m).values == Grown(order, more, m).values[name := m.values[name]];
    assert Front(order, m) + (more + [name]) == Front(order, m) + more + [name];
  }

  lemma GrownAll<V>(order: seq<string>, m: Map<V>)
    requires Good(m)
    ensures Grown(order, Left(order, m).names, m) == Reordered(order, m)
  {
    RestSpec(order, m.names);
    assert Grown(order, Left(order, m).names, m).values == m.values;
  }

  function FrontPairs<V>(order: seq<string>, m: Map<V>): seq<(string, V)> {
    if order == [] then []
    else
      var name := order[|order| - 1];
      FrontPairs(order[..|order| - 1], m) + if name in m.values then NamePairs(name, m.values[name]) else []
  }

  lemma {:induction false} FrontPairsSpec<V>(order: seq<string>, m: Map<V>)
    requires forall x :: x in Front(order, m) ==> x in m.values
    ensures FrontPairs(order, m) == PairsOf(Front(order, m), m.values)
  {
    if order != [] {
      var init, name := order[..|order| - 1], order[|order| - 1];
      assert forall x :: x in Front(init, m) ==> x in Front(order, m);
      FrontPairsSpec(init, m);
      if name in m.values {
        assert Front(order, m)[..|Front(init, m)|] == Front(init, m);
      } else {
        assert Front(order, m) == Front(init, m);
      }
    }
  }

  lemma LeftIsGood<V>(order: seq<string>, m: Map<V>)
    requires Good(m)
    ensures forall x :: x in Left(order, m).names ==> x in Left(order, m).values
    ensures forall x :: x in Left(order, m).names ==> x in m.values && Left(order, m).values[x] == m.values[x]
  {
    RestSpec(order, m.names);
  }

  lemma VisitedAll<V>(order: seq<string>, m: Map<V>)
    requires Good(m) && Distinct(order) && Good(Reordered(order, m))
    requires forall x :: x in Left(order, m).names ==> x in Left(order, m).values
    ensures FrontPairs(order, m) + PairsOf(Left(order, m).names, Left(order, m).values) == Pairs(Reordered(order, m))
  {
    FrontSpec(order, m);
    FrontPairsSpec(order, m);
    LeftIsGood(order, m);
    PairsAgree(Left(order, m).names, Left(order, m).values, m.values);
    PairsAppend(Front(order, m), Rest(order, m.names), m.values);
  }

  // ---------- override ----------

  /** Each name of `src` replaces the values of that name in `dst`. */
  function Overridden<V>(dst: Map<V>, src: Map<V>, n: nat): Map<V>
    requires n <= |src.names| && forall name :: name in src.names ==> name in src.values
  {
    if n == 0 then dst else Put(Overridden(dst, src, n - 1), src.names[n - 1], src.values[src.names[n - 1]])
  }

  function Override<V>(dst: Map<V>, src: Map<V>): Map<V>
    requires forall name :: name in src.names ==> name in src.values
  {
    Overridden(dst, src, |src.names|)
  }

  lemma {:induction false} OverriddenIsGood<V>(dst: Map<V>, src: Map<V>, n: nat)
    requires Good(dst) && Good(src) && n <= |src.names|
    ensures Good(Overridden(dst, src, n))
  {
    if n > 0 {
      OverriddenIsGood(dst, src, n - 1);
      var name := src.names[n - 1];
      assert name in src.names;
      PutIsGood(Overridden(dst, src, n - 1), name, src.values[name]);
    }
  }

  lemma {:induction false} OverriddenGet<V>(dst: Map<V>, src: Map<V>, n: nat, name: string)
    requires n <= |src.names| && forall x :: x in src.names ==> x in src.values
    ensures Overridden(dst, src, n).Get(name) == if name in src.names[..n] then src.values[name] else dst.Get(name)
  {
    if n > 0 {
      OverriddenGet(dst, src, n - 1, name);
      assert Overridden(dst, src, n) == Put(Overridden(dst, src, n - 1), src.names[n - 1], src.values[src.names[n - 1]]);
      hide Overridden;
      assert src.names[..n] == src.names[..n - 1] + [src.names[n - 1]];
    }
  }

  lemma PutIsGood<V>(m: Map<V>, name: string, values: seq<V>)
    requires Good(m) && values != []
    ensures Good(Put(m, name, values))
  {
    var m' := Put(m, name, values);
    forall x
      ensures x in m'.names <==> x in m'.values
    {
      assert x in m'.names <==> x in m.names || x == name;
    }
  }

  /** Exactly the names of `src` are replaced, with their full lists; all others are kept. */
  lemma OverrideReplacesExactly<V>(dst: Map<V>, src: Map<V>)
    requires Good(dst) && Good(src)
    ensures Good(Override(dst, src))
    ensures forall name :: Override(dst, src).Get(name) == if src.Get(name) != [] then src.Get(name) else dst.Get(name)
  {
    OverriddenIsGood(dst, src, |src.names|);
    assert src.names[..|src.names|] == src.names;
    forall name
      ensures Override(dst, src).Get(name) == if src.Get(name) != [] then src.Get(name) else dst.Get(name)
    {
      OverriddenGet(dst, src, |src.names|, name);
    }
  }

  /** As multimaps, override is associative and repeating it changes nothing. */
  lemma OverrideLaws<V>(a: Map<V>, b: Map<V>, c: Map<V>, name: string)
    requires Good(a) && Good(b) && Good(c)
    ensures Good(Override(a, b)) && Good(Override(b, c))
    ensures Override(Override(a, b), c).Get(name) == Override(a, Override(b, c)).Get(name)
    ensures Override(Override(a, b), b).Get(name) == Override(a, b).Get(name)
  {
    hide Override;
    OverrideReplacesExactly(a, b);
    OverrideReplacesExactly(b, c);
    OverrideReplacesExactly(Override(a, b), c);
    OverrideReplacesExactly(a, Override(b, c));
    OverrideReplacesExactly(Override(a, b), b);
  }

  /** What draining a map yields for one name: the name with the first value, nothing with the others. */
  function Drained<V>(name: string, values: seq<V>): (stream: seq<(Option<string>, V)>)
    ensures |stream| == |values|
    ensures forall i :: 0 <= i < |stream| ==> stream[i] == (if i == 0 then Some(name) else None, values[i])
  {
    seq(|values|, i requires 0 <= i < |values| => (if i == 0 then Some(name) else None, values[i]))
  }

  /** What draining the first `n` names of a map yields. */
  function Stream<V>(src: Map<V>, n: nat): seq<(Option<string>, V)>
    requires n <= |src.names| && forall name :: name in src.names ==> name in src.values
  {
    if n == 0 then [] else Stream(src, n - 1) + Drained(src.names[n - 1], src.values[src.names[n - 1]])
  }

  /** What a stream of entries makes of a map, and the name touched last. */
  function Replayed<V>(dst: Map<V>, stream: seq<(Option<string>, V)>): (r: (Map<V>, Option<string>))
    ensures stream != [] && stream[0].0.Some? ==> r.1.Some?
    ensures r.1.Some? ==> r.1.value in r.0.values
  {
    if stream == [] then (dst, None)
    else
      var (before, previous) := Replayed(dst, stream[..|stream| - 1]);
      match stream[|stream| - 1]
      case (Some(name), value) => (Put(before, name, [value]), Some(name))
      case (None, value) =>
        if previous.None? then (before, previous)
        else (Put(before, previous.value, before.values[previous.value] + [value]), previous)
  }

  /** The first `k` drained values of a name, behind whatever came before, stand for that name. */
  lemma {:induction false} ReplayedName<V>(dst: Map<V>, before: seq<(Option<string>, V)>, name: string, values: seq<V>, k: nat)
    requires 0 < k <= |values|
    ensures Replayed(dst, before + Drained(name, values)[..k]) == (Put(Replayed(dst, before).0, name, values[..k]), Some(name))
  {
    hide Put, Replayed;
    var drained := Drained(name, values);
    DrainedPrefix(name, values, k);
    assert before + drained[..k] == before + drained[..k - 1] + [drained[k - 1]];
    ReplayedSnoc(dst, before + drained[..k - 1], drained[k - 1]);
    if k == 1 {
      assert before + drained[..0] == before;
      assert values[..1] == [values[0]];
    } else {
      ReplayedName(dst, before, name, values, k - 1);
      PutTwice(Replayed(dst, before).0, name, values[..k - 1], values[..k]);
    }
  }

  lemma DrainedPrefix<V>(name: string, values: seq<V>, k: nat)
    requires 0 < k <= |values|
    ensures Drained(name, values)[..k] == Drained(name, values)[..k - 1] + [(if k == 1 then Some(name) else None, values[k - 1])]
    ensures values[..k] == values[..k - 1] + [values[k - 1]]
  {
  }

  lemma ReplayedSnoc<V>(dst: Map<V>, stream: seq<(Option<string>, V)>, entry: (Option<string>, V))
    ensures var (before, previous) := Replayed(dst, stream);
            Replayed(dst, stream + [entry]) ==
            match entry
            case (Some(name), value) => (Put(before, name, [value]), Some(name))
            case (None, value) =>
              if previous.None? then (before, previous)
              else (Put(before, previous.value, before.values[previous.value] + [value]), previous)
  {
    hide Put;
    assert (stream + [entry])[..|stream|] == stream;
  }

  /** Replaying all that a map yields replaces its names, one full list after the other. */
  lemma {:induction false} ReplayedIsOverride<V>(dst: Map<V>, src: Map<V>, n: nat)
    requires Good(src) && n <= |src.names|
    ensures Replayed(dst, Stream(src, n)).0 == Overridden(dst, src, n)
    ensures n > 0 ==> Stream(src, n) != [] && Stream(src, n)[0].0.Some?
  {
    if n > 0 {
      ReplayedIsOverride(dst, src, n - 1);
      var name := src.names[n - 1];
      assert name in src.names;
      hide Replayed, Put, Drained;
      WholeName(dst, Stream(src, n - 1), name, src.values[name]);
      StreamStarts(Stream(src, n - 1), name, src.values[name]);
    }
  }

  lemma WholeName<V>(dst: Map<V>, before: seq<(Option<string>, V)>, name: string, values: seq<V>)
    requires values != []
    ensures Replayed(dst, before + Drained(name, values)).0 == Put(Replayed(dst, before).0, name, values)
  {
    hide Replayed, Put;
    ReplayedName(dst, before, name, values, |values|);
    assert Drained(name, values)[..|values|] == Drained(name, values) && values[..|values|] == values;
  }

  lemma StreamStarts<V>(before: seq<(Option<string>, V)>, name: string, values: seq<V>)
    requires values != [] && (before != [] ==> before[0].0.Some?)
    ensures before + Drained(name, values) != [] && (before + Drained(name, values))[0].0.Some?
  {
  }

  lemma ReplayedStep<V>(dst: Map<V>, stream: seq<(Option<string>, V)>, p: nat)
    requires p < |stream| && stream[0].0.Some?
    ensures var (before, previous) := Replayed(dst, stream[..p]);
            Replayed(dst, stream[..p + 1]) ==
            match stream[p]
            case (Some(name), value) => (Put(before, name, [value]), Some(name))
            case (None, value) => (Put(before, previous.value, before.values[previous.value] + [value]), previous)
  {
    hide Put;
    assert stream[..p + 1][..p] == stream[..p];
    if p > 0 {
      assert stream[..p][0] == stream[0];
    }
  }

  /**
   The loop over the drained stream of `src`: a name starts a new entry, values without a name extend
   the entry touched last.
   */
  method ReplaceHeaders<V>(dst: HeaderMap<V>, src: Map<V>)
    requires Good(dst.content) && Good(src)
    modifies dst
    ensures dst.content == Override(old(dst.content), src)
  {
    var stream := Stream(src, |src.names|);
    var previous: Option<string> := None;
    ReplayedIsOverride(dst.content, src, |src.names|);
    assert stream[..0] == [];
    for p := 0 to |stream|
      invariant (dst.content, previous) == Replayed(old(dst.content), stream[..p])
    {
      hide Put, Stream, Overridden, Replayed;
      ReplayedStep(old(dst.content), stream, p);
      var (key, value) := stream[p];
      match key {
        case Some(name) =>
          dst.Insert(name, value);
          previous := Some(name);
        case None =>
          dst.Append(previous.value, value);
      }
    }
    assert stream[..|stream|] == stream;
  }

  lemma PutTwice<V>(m: Map<V>, name: string, a: seq<V>, b: seq<V>)
    ensures Put(Put(m, name, a), name, b) == Put(m, name, b)
    ensures Put(m, name, a).Get(name) == a
  {
    assert m.values[name := a][name := b] == m.values[name := b];
  }

  datatype Outcome<V> = BadScheme | Forwarded(headers: Map<V>)

  /**
   The configuration layer: a request with a foreign scheme is refused; otherwise, with default
   headers on, each name carries the request's values where it has any and the defaults elsewhere.
   */
  method ConfigCall<V>(httpsOnly: bool, defaults: Map<V>, useDefaults: bool, uri: Uri, headers: HeaderMap<V>) returns (outcome: Outcome<V>)
    requires Good(defaults) && Good(headers.content)
    modifies headers
    ensures outcome.BadScheme? <==> !(uri.IsHttps() || (uri.IsHttp() && !httpsOnly))
    ensures outcome.Forwarded? ==> outcome.headers == headers.content && Good(outcome.headers)
    ensures outcome.Forwarded? ==> forall name ::
              outcome.headers.Get(name) ==
              if old(headers.content).Get(name) != [] || !useDefaults then old(headers.content).Get(name) else defaults.Get(name)
  {
    if !(uri.IsHttp() || uri.IsHttps()) || (httpsOnly && !uri.IsHttps()) {
      return BadScheme;
    }
    if useDefaults {
      var dest := new HeaderMap<V>();
      dest.content := defaults;
      ReplaceHeaders(dest, headers.content);
      OverrideReplacesExactly(defaults, headers.content);
      headers.content := dest.content;
    }
    outcome := Forwarded(headers.content);
  }
}
