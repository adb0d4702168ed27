/**
 The two-level TLS session cache of src/tls/session.rs: per-key LRU lists and a reverse index from
 session to key. Sessions are equal when their ids are.
 */
module TlsSessionCache {
  import opened Wrappers

  type Key = nat
  type Id = nat

  datatype TlsVersion = Tls10 | Tls11 | Tls12 | Tls13

  datatype Session = Session(id: Id, version: TlsVersion)

  predicate Holds(list: seq<Session>, id: Id) {
    exists i :: 0 <= i < |list| && list[i].id == id
  }

  /** The list without the session called `id`. */
  function Without(list: seq<Session>, id: Id): (rest: seq<Session>)
    ensures |rest| <= |list|
  {
    if list == [] then []
    else if list[0].id == id then list[1..]
    else [list[0]] + Without(list[1..], id)
  }

  function Find(list: seq<Session>, id: Id): (found: Session)
    requires Holds(list, id)
    ensures found.id == id && found in list
  {
    if list[0].id == id then list[0] else Find(list[1..], id)
  }

  /** The `lru` crate's map with unit values, least recently used first. No bound means unbounded. */
  datatype Lru = Lru(items: seq<Session>, bound: Option<nat>) {
    /** Storing a present id keeps the session first stored and makes it newest; a new one may push the oldest out. */
    function Put(session: Session): Lru {
      if Holds(items, session.id) then
        this.(items := Without(items, session.id) + [Find(items, session.id)])
      else if bound.Some? && |items| >= bound.value && items != [] then
        this.(items := items[1..] + [session])
      else
        this.(items := items + [session])
    }

    function PopLru(): Lru {
      if items == [] then this else this.(items := items[1..])
    }

    function Pop(id: Id): Lru {
      this.(items := Without(items, id))
    }
  }

  datatype State = State(reverse: map<Id, Key>, lists: map<Key, Lru>)

  const EMPTY := State(map[], map[])

  function Bound(capacity: nat): Option<nat> {
    if capacity == 0 then None else Some(capacity)
  }

  class LruTlsSessionCache {
    const perHostSessionCapacity: nat
    var reverse: map<Id, Key>
    var perHostSessions: map<Key, Lru>

    ghost function View(): State
      reads this
    {
      State(reverse, perHostSessions)
    }

    constructor (perHostSessionCapacity: nat)
      ensures this.perHostSessionCapacity == perHostSessionCapacity && View() == EMPTY
    {
      this.perHostSessionCapacity := perHostSessionCapacity;
      reverse, perHostSessions := map[], map[];
    }

    method Put(key: Key, session: Session)
      modifies this
      ensures View() == Stored(perHostSessionCapacity, old(View()), key, session)
    {
      var sessions := if key in perHostSessions then perHostSessions[key] else Lru([], Bound(perHostSessionCapacity));
      var evicted: Option<Session> := None;
      if |sessions.items| >= perHostSessionCapacity {
        if sessions.items != [] {
          evicted := Some(sessions.items[0]);
        }
        sessions := sessions.PopLru();
      }
      sessions := sessions.Put(session);
      perHostSessions := perHostSessions[key := sessions];
      if evicted.Some? {
        reverse := reverse - {evicted.value.id};
      }
      reverse := reverse[session.id := key];
    }

    method Pop(key: Key) returns (session: Option<Session>)
      modifies this
      ensures session == Next(old(View()), key)
      ensures View() == Taken(old(View()), key)
    {
      if key !in perHostSessions || perHostSessions[key].items == [] {
        return None;
      }
      var oldest := perHostSessions[key].items[0];
      if oldest.version == Tls13 {
        if oldest.id in reverse {
          var owner := reverse[oldest.id];
          reverse := reverse - {oldest.id};
          if owner in perHostSessions {
            var rest := perHostSessions[owner].Pop(oldest.id);
            perHostSessions := if rest.items == [] then perHostSessions - {owner} else perHostSessions[owner := rest];
          }
        }
      }
      session := Some(oldest);
    }
  }

  // ---------- the specification ----------

  function ListOf(capacity: nat, s: State, key: Key): Lru {
    if key in s.lists then s.lists[key] else Lru([], Bound(capacity))
  }

  /** The list of `key` once room has been made for one more session. */
  function WithRoom(capacity: nat, s: State, key: Key): Lru {
    var sessions := ListOf(capacity, s, key);
    if |sessions.items| >= capacity then sessions.PopLru() else sessions
  }

  function Stored(capacity: nat, s: State, key: Key, session: Session): State {
    var sessions := ListOf(capacity, s, key);
    var evicted := if |sessions.items| >= capacity && sessions.items != [] then {sessions.items[0].id} else {};
    State((s.reverse - evicted)[session.id := key], s.lists[key := WithRoom(capacity, s, key).Put(session)])
  }

  function Next(s: State, key: Key): Option<Session> {
    if key in s.lists && s.lists[key].items != [] then Some(s.lists[key].items[0]) else None
  }

  function Taken(s: State, key: Key): State {
    match Next(s, key)
    case Some(oldest) =>
      if oldest.version == Tls13 && oldest.id in s.reverse then
        var owner := s.reverse[oldest.id];
        var rest := if owner in s.lists then s.lists[owner].Pop(oldest.id) else Lru([], None);
        State(s.reverse - {oldest.id}, if rest.items == [] then s.lists - {owner} else s.lists[owner := rest])
      else s
    case None => s
  }

  // ---------- consistency ----------

  ghost predicate DistinctIds(list: seq<Session>) {
    forall i, j :: 0 <= i < j < |list| ==> list[i].id != list[j].id
  }

  function Most(capacity: nat): nat {
    if capacity == 0 then 1 else capacity
  }

  ghost predicate GoodList(capacity: nat, list: Lru) {
    list.items != [] && DistinctIds(list.items) && |list.items| <= Most(capacity) && list.bound == Bound(capacity)
  }

  /** `id` is listed under `key`. */
  ghost predicate Listed(s: State, key: Key, id: Id) {
    key in s.lists && Holds(s.lists[key].items, id)
  }

  ghost predicate GoodLists(capacity: nat, s: State) {
    forall key :: key in s.lists ==> GoodList(capacity, s.lists[key])
  }

  /** The reverse index knows exactly where `id` is listed. */
  ghost predicate Indexed(s: State, id: Id) {
    forall key :: Listed(s, key, id) <==> id in s.reverse && s.reverse[id] == key
  }

  /** The reverse index is the exact inverse of the lists; lists are non-empty, distinct and bounded. */
  ghost predicate Consistent(capacity: nat, s: State) {
    GoodLists(capacity, s) && forall id :: Indexed(s, id)
  }

  lemma DistinctTail(list: seq<Session>)
    requires DistinctIds(list) && list != []
    ensures DistinctIds(list[1..]) && forall x :: x in list <==> x == list[0] || x in list[1..]
    ensures forall x :: x in list[1..] ==> x.id != list[0].id
  {
    assert list == [list[0]] + list[1..];
  }

  lemma DistinctWithHead(head: Session, tail: seq<Session>)
    requires DistinctIds(tail) && forall x :: x in tail ==> x.id != head.id
    ensures DistinctIds([head] + tail)
  {
    var list := [head] + tail;
    forall i, j | 0 <= i < j < |list|
      ensures list[i].id != list[j].id
    {
      assert list[j] == tail[j - 1] && tail[j - 1] in tail;
    }
  }

  lemma {:induction false} WithoutMembers(list: seq<Session>, id: Id)
    requires DistinctIds(list)
    ensures DistinctIds(Without(list, id))
    ensures forall x :: x in Without(list, id) <==> x in list && x.id != id
    ensures |Without(list, id)| == |list| - if exists x :: x in list && x.id == id then 1 else 0
  {
    if list != [] {
      DistinctTail(list);
      if list[0].id != id {
        WithoutMembers(list[1..], id);
        hide DistinctIds;
        DistinctWithHead(list[0], Without(list[1..], id));
      } else {
        assert list[0] in list;
      }
    }
  }

  lemma {:induction false} WithoutAbsent(list: seq<Session>, id: Id)
    requires !Holds(list, id)
    ensures Without(list, id) == list
  {
    if list != [] {
      assert list[0].id != id && list == [list[0]] + list[1..];
      assert forall i :: 0 <= i < |list[1..]| ==> list[1..][i] == list[i + 1];
      WithoutAbsent(list[1..], id);
    }
  }

  lemma WithoutSpec(list: seq<Session>, id: Id)
    requires DistinctIds(list)
    ensures DistinctIds(Without(list, id))
    ensures !Holds(Without(list, id), id)
    ensures forall x :: x in Without(list, id) <==> x in list && x.id != id
    ensures Holds(list, id) ==> |Without(list, id)| == |list| - 1
    ensures !Holds(list, id) ==> Without(list, id) == list
  {
    hide Without, DistinctIds, Holds;
    WithoutMembers(list, id);
    HoldsIsMembership(list, id);
    HoldsIsMembership(Without(list, id), id);
    if !Holds(list, id) {
      WithoutAbsent(list, id);
    }
  }

  lemma HoldsIsMembership(list: seq<Session>, id: Id)
    ensures Holds(list, id) <==> exists x :: x in list && x.id == id
  {
  }

  /** Room is made before storing, so the inner LRU never evicts anything on its own. */
  lemma InnerLruNeverEvicts(capacity: nat, s: State, key: Key, session: Session)
    requires GoodLists(capacity, s)
    ensures var room := WithRoom(capacity, s, key);
            && DistinctIds(room.items) && |room.items| < Most(capacity) && room.bound == Bound(capacity)
            && room.Put(session).items == Without(room.items, session.id)
                 + [if Holds(room.items, session.id) then Find(room.items, session.id) else session]
  {
    hide Without, Find;
    var room := WithRoom(capacity, s, key);
    assert key in s.lists ==> GoodList(capacity, s.lists[key]);
    WithoutSpec(room.items, session.id);
  }

  /** What is listed under `key` after a put: the new id and whatever was not evicted. */
  lemma StoredLists(capacity: nat, s: State, key: Key, session: Session)
    requires GoodLists(capacity, s)
    ensures GoodList(capacity, Stored(capacity, s, key, session).lists[key])
    ensures forall id :: Holds(Stored(capacity, s, key, session).lists[key].items, id) <==>
              id == session.id || Holds(WithRoom(capacity, s, key).items, id)
  {
    var room := WithRoom(capacity, s, key).items;
    var last := if Holds(room, session.id) then Find(room, session.id) else session;
    InnerLruNeverEvicts(capacity, s, key, session);
    assert Stored(capacity, s, key, session).lists[key] == Lru(Without(room, session.id) + [last], Bound(capacity));
    WithoutSpec(room, session.id);
    hide Without, Find, WithRoom, Stored;
    LastReplaces(room, Without(room, session.id), last);
  }

  /** A list with one id taken out and a session of that id put last. */
  lemma LastReplaces(room: seq<Session>, rest: seq<Session>, last: Session)
    requires DistinctIds(rest) && !Holds(rest, last.id)
    requires forall x :: x in rest <==> x in room && x.id != last.id
    ensures DistinctIds(rest + [last])
    ensures forall id :: Holds(rest + [last], id) <==> id == last.id || Holds(room, id)
  {
    var items := rest + [last];
    assert items[|rest|] == last;
    forall id
      ensures Holds(items, id) <==> id == last.id || Holds(room, id)
    {
      HoldsIsMembership(items, id);
      HoldsIsMembership(room, id);
      assert forall x :: x in items <==> x in rest || x == last;
    }
  }

  /** Making room drops exactly the oldest session of a full list. */
  lemma RoomLists(capacity: nat, s: State, key: Key, id: Id)
    requires GoodLists(capacity, s)
    ensures var items := ListOf(capacity, s, key).items;
            Holds(WithRoom(capacity, s, key).items, id) <==>
            Listed(s, key, id) && !(|items| >= capacity && items != [] && items[0].id == id)
  {
    var items := ListOf(capacity, s, key).items;
    assert key in s.lists ==> GoodList(capacity, s.lists[key]);
    if items != [] {
      assert items == [items[0]] + items[1..];
      if Holds(items, id) && items[0].id != id {
        var i :| 0 <= i < |items| && items[i].id == id;
        assert items[1..][i - 1].id == id;
      }
    }
  }

  /** Whatever else happens, a put keeps every list non-empty, distinct and bounded. */
  lemma PutKeepsGoodLists(capacity: nat, s: State, key: Key, session: Session)
    requires GoodLists(capacity, s)
    ensures GoodLists(capacity, Stored(capacity, s, key, session))
  {
    StoredLists(capacity, s, key, session);
  }

  /** Where an id is listed after a put. */
  lemma ListedAfterPut(capacity: nat, s: State, key: Key, session: Session, k: Key, id: Id)
    requires GoodLists(capacity, s)
    ensures var items := ListOf(capacity, s, key).items;
            Listed(Stored(capacity, s, key, session), k, id) <==>
            if k != key then Listed(s, k, id)
            else id == session.id || (Listed(s, key, id) && !(|items| >= capacity && items != [] && items[0].id == id))
  {
    StoredLists(capacity, s, key, session);
    RoomLists(capacity, s, key, id);
  }

  /** A put leaves an id indexed exactly when it does not put that id under a second key. */
  lemma PutIndexedIff(capacity: nat, s: State, key: Key, session: Session, id: Id)
    requires GoodLists(capacity, s) && Indexed(s, id)
    ensures Indexed(Stored(capacity, s, key, session), id)
       <==> !(session.id == id && id in s.reverse && s.reverse[id] != key)
  {
    var s' := Stored(capacity, s, key, session);
    var items := ListOf(capacity, s, key).items;
    forall k
      ensures Listed(s', k, id) <==>
              if k != key then Listed(s, k, id)
              else id == session.id || (Listed(s, key, id) && !(|items| >= capacity && items != [] && items[0].id == id))
    {
      ListedAfterPut(capacity, s, key, session, k, id);
    }
    if items != [] {
      assert items[0].id == id ==> Listed(s, key, id);
    }
    assert id in s.reverse ==> Listed(s, s.reverse[id], id);
    hide Stored, ListOf, Listed;
    StoredReverse(capacity, s, key, session);
  }

  lemma StoredReverse(capacity: nat, s: State, key: Key, session: Session)
    ensures var items := ListOf(capacity, s, key).items;
            var evicted := if |items| >= capacity && items != [] then {items[0].id} else {};
            Stored(capacity, s, key, session).reverse == (s.reverse - evicted)[session.id := key]
  {
  }

  /**
   A put keeps the cache consistent exactly when its id is not stored under another key: otherwise
   the other list keeps an entry that the reverse index no longer knows.
   */
  lemma PutConsistentIff(capacity: nat, s: State, key: Key, session: Session)
    requires Consistent(capacity, s)
    ensures Consistent(capacity, Stored(capacity, s, key, session))
       <==> (session.id in s.reverse ==> s.reverse[session.id] == key)
  {
    hide Indexed, GoodLists, Stored;
    PutKeepsGoodLists(capacity, s, key, session);
    forall id
      ensures Indexed(Stored(capacity, s, key, session), id) <==> !(session.id == id && id in s.reverse && s.reverse[id] != key)
    {
      PutIndexedIff(capacity, s, key, session, id);
    }
    var own := Indexed(Stored(capacity, s, key, session), session.id);
  }

  /** Whatever else happens, a pop keeps every list non-empty, distinct and bounded. */
  lemma PopKeepsGoodLists(capacity: nat, s: State, key: Key)
    requires GoodLists(capacity, s)
    ensures GoodLists(capacity, Taken(s, key))
    ensures Next(s, key).Some? <==> key in s.lists
  {
    if key in s.lists {
      assert GoodList(capacity, s.lists[key]);
      var oldest := s.lists[key].items[0];
      if oldest.version == Tls13 && oldest.id in s.reverse && s.reverse[oldest.id] in s.lists {
        var owner := s.reverse[oldest.id];
        assert GoodList(capacity, s.lists[owner]);
        WithoutSpec(s.lists[owner].items, oldest.id);
      }
    }
  }

  /** A pop keeps each indexed id indexed, and unlists exactly the TLS 1.3 session it hands out. */
  lemma PopKeepsIndexed(capacity: nat, s: State, key: Key, id: Id)
    requires GoodLists(capacity, s) && Indexed(s, id)
    ensures Indexed(Taken(s, key), id)
    ensures forall k :: Listed(Taken(s, key), k, id) <==>
              Listed(s, k, id) && !(Next(s, key).Some? && Next(s, key).value.version == Tls13 && id == Next(s, key).value.id)
  {
    if Next(s, key).Some? && Next(s, key).value.version == Tls13 {
      var oldest := Next(s, key).value;
      assert Listed(s, key, oldest.id);
      if oldest.id in s.reverse && s.reverse[oldest.id] in s.lists {
        var owner := s.reverse[oldest.id];
        assert GoodList(capacity, s.lists[owner]);
        WithoutSpec(s.lists[owner].items, oldest.id);
        HoldsIsMembership(Without(s.lists[owner].items, oldest.id), id);
        HoldsIsMembership(s.lists[owner].items, id);
      }
      forall k
        ensures Listed(Taken(s, key), k, id) <==> Listed(s, k, id) && id != oldest.id
      {
        var before := Listed(s, k, id);
      }
    }
  }

  lemma PopKeepsConsistent(capacity: nat, s: State, key: Key)
    requires Consistent(capacity, s)
    ensures Consistent(capacity, Taken(s, key))
    ensures Next(s, key).Some? <==> key in s.lists
    ensures Next(s, key).Some? && Next(s, key).value.version == Tls13 ==>
              forall k, id :: Listed(Taken(s, key), k, id) <==> Listed(s, k, id) && id != Next(s, key).value.id
  {
    hide Indexed, GoodLists, Taken, Next, Listed;
    PopKeepsGoodLists(capacity, s, key);
    forall id
      ensures Indexed(Taken(s, key), id)
    {
      PopKeepsIndexed(capacity, s, key, id);
    }
    if Next(s, key).Some? && Next(s, key).value.version == Tls13 {
      forall k, id
        ensures Listed(Taken(s, key), k, id) <==> Listed(s, k, id) && id != Next(s, key).value.id
      {
        PopKeepsIndexed(capacity, s, key, id);
      }
    }
  }

  // ---------- runs ----------

  datatype Op = PutOp(key: Key, session: Session) | PopOp(key: Key)

  function Step(capacity: nat, s: State, op: Op): State {
    match op
    case PutOp(key, session) => Stored(capacity, s, key, session)
    case PopOp(key) => Taken(s, key)
  }

  /** The state after the operations, from the empty cache. */
  function Run(capacity: nat, ops: seq<Op>): State {
    if ops == [] then EMPTY else Step(capacity, Run(capacity, ops[..|ops| - 1]), ops[|ops| - 1])
  }

  /** This id is never put under a key while it is stored under another; other ids may be. */
  predicate OneKeyFor(capacity: nat, ops: seq<Op>, id: Id) {
    ops == [] ||
    (&& OneKeyFor(capacity, ops[..|ops| - 1], id)
     && var op, s := ops[|ops| - 1], Run(capacity, ops[..|ops| - 1]);
        op.PutOp? && op.session.id == id && id in s.reverse ==> s.reverse[id] == op.key)
  }

  /** Every run whatsoever keeps the lists non-empty, distinct and bounded. */
  lemma {:induction false} RunKeepsGoodLists(capacity: nat, ops: seq<Op>)
    ensures GoodLists(capacity, Run(capacity, ops))
  {
    if ops != [] {
      var before := Run(capacity, ops[..|ops| - 1]);
      RunKeepsGoodLists(capacity, ops[..|ops| - 1]);
      hide GoodLists, Taken, Stored;
      match ops[|ops| - 1]
      case PutOp(key, session) => PutKeepsGoodLists(capacity, before, key, session);
      case PopOp(key) => PopKeepsGoodLists(capacity, before, key);
    }
  }

  /** An id that is put under one key at a time is indexed exactly, whatever happens to other ids. */
  lemma {:induction false} RunIsIndexed(capacity: nat, ops: seq<Op>, id: Id)
    requires OneKeyFor(capacity, ops, id)
    ensures Indexed(Run(capacity, ops), id)
  {
    if ops != [] {
      var before := Run(capacity, ops[..|ops| - 1]);
      RunKeepsGoodLists(capacity, ops[..|ops| - 1]);
      RunIsIndexed(capacity, ops[..|ops| - 1], id);
      hide Indexed, GoodLists, Taken, Stored;
      match ops[|ops| - 1]
      case PutOp(key, session) => PutIndexedIff(capacity, before, key, session, id);
      case PopOp(key) => PopKeepsIndexed(capacity, before, key, id);
    }
  }

  /** No id is ever put under a key while it is stored under another. */
  ghost predicate OneKeyPerId(capacity: nat, ops: seq<Op>) {
    forall id :: OneKeyFor(capacity, ops, id)
  }

  lemma RunIsConsistent(capacity: nat, ops: seq<Op>)
    requires OneKeyPerId(capacity, ops)
    ensures Consistent(capacity, Run(capacity, ops))
  {
    hide Run, GoodLists, Indexed, OneKeyFor;
    RunKeepsGoodLists(capacity, ops);
    forall id
      ensures Indexed(Run(capacity, ops), id)
    {
      RunIsIndexed(capacity, ops, id);
    }
  }

  function PutsOf(ops: seq<Op>, id: Id): nat {
    if ops == [] then 0
    else
      var op := ops[|ops| - 1];
      PutsOf(ops[..|ops| - 1], id) + if op.PutOp? && op.session.id == id then 1 else 0
  }

  /** How often a pop of the run handed out a TLS 1.3 session called `id`. */
  function UsesOf(capacity: nat, ops: seq<Op>, id: Id): nat {
    if ops == [] then 0
    else
      var op := ops[|ops| - 1];
      UsesOf(capacity, ops[..|ops| - 1], id)
      + if op.PopOp? && Next(Run(capacity, ops[..|ops| - 1]), op.key) == Some(Session(id, Tls13)) then 1 else 0
  }

  predicate Holds13(s: State, id: Id) {
    id in s.reverse && s.reverse[id] in s.lists && Session(id, Tls13) in s.lists[s.reverse[id]].items
  }

  /**
   Appendix C.4 of RFC 8446: a TLS 1.3 session is handed out at most as often as its id was put, so
   one put once is handed out at most once. What happens to other ids does not matter.
   */
  lemma {:induction false} SingleUse(capacity: nat, ops: seq<Op>, id: Id)
    requires OneKeyFor(capacity, ops, id)
    ensures UsesOf(capacity, ops, id) + (if Holds13(Run(capacity, ops), id) then 1 else 0) <= PutsOf(ops, id)
  {
    if ops != [] {
      var init, op := ops[..|ops| - 1], ops[|ops| - 1];
      var before, after := Run(capacity, init), Run(capacity, ops);
      SingleUse(capacity, init, id);
      RunKeepsGoodLists(capacity, init);
      RunIsIndexed(capacity, init, id);
      hide Indexed, GoodLists, Taken, Stored, Holds13, Next;
      match op
      case PutOp(key, session) =>
        if session.id != id { PutAddsOnlyItsOwn(capacity, before, key, session, id); }
      case PopOp(key) => PopTakesOne(capacity, before, key, id);
    }
  }

  lemma PutAddsOnlyItsOwn(capacity: nat, s: State, key: Key, session: Session, id: Id)
    requires GoodLists(capacity, s) && Indexed(s, id) && session.id != id
    ensures Holds13(Stored(capacity, s, key, session), id) ==> Holds13(s, id)
  {
    var s' := Stored(capacity, s, key, session);
    if Holds13(s', id) {
      var owner := s.reverse[id];
      assert s'.reverse[id] == owner;
      if owner == key {
        var room := WithRoom(capacity, s, key).items;
        InnerLruNeverEvicts(capacity, s, key, session);
        WithoutSpec(room, session.id);
        assert Session(id, Tls13) in room;
        assert Listed(s, key, id);
      }
    }
  }

  lemma PopTakesOne(capacity: nat, s: State, key: Key, id: Id)
    requires GoodLists(capacity, s) && Indexed(s, id)
    ensures Next(s, key) == Some(Session(id, Tls13)) ==> Holds13(s, id) && !Holds13(Taken(s, key), id)
    ensures Holds13(Taken(s, key), id) ==> Holds13(s, id)
  {
    PopKeepsIndexed(capacity, s, key, id);
    if Next(s, key).Some? {
      var oldest := Next(s, key).value;
      assert Listed(s, key, oldest.id);
      if oldest.id in s.reverse && s.reverse[oldest.id] in s.lists {
        assert GoodList(capacity, s.lists[s.reverse[oldest.id]]);
        WithoutSpec(s.lists[s.reverse[oldest.id]].items, oldest.id);
      }
    }
  }

  // ---------- order ----------

  /** Position of the last put of `id` under `key`, or -1. */
  function LastPut(ops: seq<Op>, key: Key, id: Id): int {
    if ops == [] then -1
    else
      var op := ops[|ops| - 1];
      if op.PutOp? && op.key == key && op.session.id == id then |ops| - 1 else LastPut(ops[..|ops| - 1], key, id)
  }

  ghost predicate OldestFirst(ops: seq<Op>, key: Key, list: seq<Session>) {
    && (forall i, j :: 0 <= i < j < |list| ==> LastPut(ops, key, list[i].id) < LastPut(ops, key, list[j].id))
    && (forall i :: 0 <= i < |list| ==> 0 <= LastPut(ops, key, list[i].id) < |ops|)
  }

  lemma OrderOfTail(ops: seq<Op>, key: Key, list: seq<Session>)
    requires OldestFirst(ops, key, list) && list != []
    ensures OldestFirst(ops, key, list[1..])
    ensures 0 <= LastPut(ops, key, list[0].id) < |ops|
    ensures forall x :: x in list[1..] ==> LastPut(ops, key, list[0].id) < LastPut(ops, key, x.id)
  {
    hide LastPut;
  }

  lemma OrderWithHead(ops: seq<Op>, key: Key, head: Session, tail: seq<Session>)
    requires OldestFirst(ops, key, tail) && 0 <= LastPut(ops, key, head.id) < |ops|
    requires forall i :: 0 <= i < |tail| ==> LastPut(ops, key, head.id) < LastPut(ops, key, tail[i].id)
    ensures OldestFirst(ops, key, [head] + tail)
  {
    hide LastPut;
    var list := [head] + tail;
    forall i, j | 0 <= i < j < |list|
      ensures LastPut(ops, key, list[i].id) < LastPut(ops, key, list[j].id)
    {
      assert list[j] == tail[j - 1] && (i > 0 ==> list[i] == tail[i - 1]);
    }
    forall i | 0 <= i < |list|
      ensures 0 <= LastPut(ops, key, list[i].id) < |ops|
    {
      assert i > 0 ==> list[i] == tail[i - 1];
    }
  }

  lemma {:induction false} WithoutKeepsOrder(ops: seq<Op>, key: Key, list: seq<Session>, id: Id)
    requires OldestFirst(ops, key, list)
    ensures OldestFirst(ops, key, Without(list, id))
    ensures forall x :: x in Without(list, id) ==> x in list
  {
    if list != [] {
      OrderOfTail(ops, key, list);
      if list[0].id != id {
        WithoutKeepsOrder(ops, key, list[1..], id);
        var rest := Without(list[1..], id);
        forall i | 0 <= i < |rest|
          ensures LastPut(ops, key, list[0].id) < LastPut(ops, key, rest[i].id)
        {
          assert rest[i] in list[1..];
        }
        hide Without, OldestFirst, LastPut;
        OrderWithHead(ops, key, list[0], rest);
      }
    }
  }

  /** One more operation that puts none of the listed ids under this key leaves the order alone. */
  lemma LaterOpKeepsOrder(init: seq<Op>, op: Op, key: Key, list: seq<Session>)
    requires OldestFirst(init, key, list)
    requires op.PutOp? && op.key == key ==> !Holds(list, op.session.id)
    ensures OldestFirst(init + [op], key, list)
  {
    assert (init + [op])[..|init|] == init;
    forall i | 0 <= i < |list|
      ensures LastPut(init + [op], key, list[i].id) == LastPut(init, key, list[i].id)
    {
    }
  }

  /** In every run whatsoever each list is ordered by the time of the last put under its key, oldest first. */
  lemma {:induction false} ListsAreOldestFirst(capacity: nat, ops: seq<Op>, key: Key)
    requires key in Run(capacity, ops).lists
    ensures OldestFirst(ops, key, Run(capacity, ops).lists[key].items)
  {
    var init, op := ops[..|ops| - 1], ops[|ops| - 1];
    var before := Run(capacity, init);
    assert ops == init + [op];
    RunKeepsGoodLists(capacity, init);
    if key in before.lists {
      ListsAreOldestFirst(capacity, init, key);
    }
    match op
    case PutOp(k, session) =>
      if k == key {
        PutAppends(capacity, init, before, op, key);
      } else {
        LaterOpKeepsOrder(init, op, key, before.lists[key].items);
      }
    case PopOp(k) =>
      PopKeepsOrder(capacity, init, before, k, key);
      LaterOpKeepsOrder(init, op, key, Taken(before, k).lists[key].items);
  }

  lemma PutAppends(capacity: nat, init: seq<Op>, s: State, op: Op, key: Key)
    requires op.PutOp? && op.key == key
    requires GoodLists(capacity, s)
    requires key in s.lists ==> OldestFirst(init, key, s.lists[key].items)
    ensures OldestFirst(init + [op], key, Stored(capacity, s, key, op.session).lists[key].items)
  {
    var id := op.session.id;
    var room := WithRoom(capacity, s, key).items;
    InnerLruNeverEvicts(capacity, s, key, op.session);
    assert OldestFirst(init, key, room);
    WithoutSpec(room, id);
    WithoutKeepsOrder(init, key, room, id);
    LaterOpKeepsOrder(init, op, key, Without(room, id));
    var items := Stored(capacity, s, key, op.session).lists[key].items;
    assert (init + [op])[..|init|] == init;
    assert items[|items| - 1].id == id && LastPut(init + [op], key, id) == |init|;
    AppendLatest(init, op, key, Without(room, id), items[|items| - 1]);
  }

  lemma AppendLatest(init: seq<Op>, op: Op, key: Key, list: seq<Session>, last: Session)
    requires OldestFirst(init, key, list) && OldestFirst(init + [op], key, list)
    requires op.PutOp? && op.key == key && op.session.id == last.id && !Holds(list, last.id)
    ensures OldestFirst(init + [op], key, list + [last])
  {
    assert (init + [op])[..|init|] == init;
    assert forall i :: 0 <= i < |list| ==> LastPut(init + [op], key, list[i].id) == LastPut(init, key, list[i].id);
  }

  lemma PopKeepsOrder(capacity: nat, init: seq<Op>, s: State, popped: Key, key: Key)
    requires GoodLists(capacity, s)
    requires key in s.lists ==> OldestFirst(init, key, s.lists[key].items)
    requires key in Taken(s, popped).lists
    ensures OldestFirst(init, key, Taken(s, popped).lists[key].items)
  {
    PopKeepsGoodLists(capacity, s, popped);
    if popped in s.lists && key in s.lists {
      WithoutKeepsOrder(init, key, s.lists[key].items, s.lists[popped].items[0].id);
    }
  }

  /** In every run a pop hands out the session of its key whose last put there is the oldest, if there is any. */
  lemma PopIsOldest(capacity: nat, ops: seq<Op>, key: Key)
    ensures match Next(Run(capacity, ops), key)
            case Some(session) =>
              && Listed(Run(capacity, ops), key, session.id)
              && forall id :: Listed(Run(capacity, ops), key, id) && id != session.id ==> LastPut(ops, key, session.id) < LastPut(ops, key, id)
            case None => forall id :: !Listed(Run(capacity, ops), key, id)
  {
    var s := Run(capacity, ops);
    RunKeepsGoodLists(capacity, ops);
    PopKeepsGoodLists(capacity, s, key);
    if key in s.lists {
      ListsAreOldestFirst(capacity, ops, key);
      assert Listed(s, key, s.lists[key].items[0].id);
    }
  }

  // ---------- what happens without the condition ----------

  function Repeat(op: Op, n: nat): seq<Op> {
    if n == 0 then [] else Repeat(op, n - 1) + [op]
  }

  lemma PutUnderNewKey(s: State, key: Key, x: Session)
    requires key !in s.lists
    ensures Stored(1, s, key, x) == State(s.reverse[x.id := key], s.lists[key := Lru([x], Some(1))])
  {
    assert !Holds([], x.id);
    assert [] + [x] == [x];
    assert s.reverse - {} == s.reverse;
  }

  lemma TwoPuts(first: Key, second: Key, x: Session)
    requires first != second
    ensures Run(1, [PutOp(first, x), PutOp(second, x)])
         == State(map[x.id := second], map[first := Lru([x], Some(1)), second := Lru([x], Some(1))])
    ensures !OneKeyFor(1, [PutOp(first, x), PutOp(second, x)], x.id)
    ensures UsesOf(1, [PutOp(first, x), PutOp(second, x)], x.id) == 0
  {
    var ops := [PutOp(first, x), PutOp(second, x)];
    assert ops[..1] == [PutOp(first, x)] && ops[..1][..0] == [];
    PutUnderNewKey(EMPTY, first, x);
    assert Run(1, ops[..1]) == State(map[x.id := first], map[first := Lru([x], Some(1))]);
    PutUnderNewKey(Run(1, ops[..1]), second, x);
    assert UsesOf(1, ops[..1], x.id) == 0;
  }

  // ---------- each operation in full ----------

  function Items(s: State, key: Key): seq<Session> {
    if key in s.lists then s.lists[key].items else []
  }

  /**
   A put into a full list first drops its oldest session, even to refresh one that is there. Then the
   session is the newest under its key, in the form first stored if it is still there, and nothing
   else has changed.
   */
  lemma PutExactly(capacity: nat, s: State, key: Key, session: Session)
    requires GoodLists(capacity, s)
    ensures var s', before := Stored(capacity, s, key, session), Items(s, key);
            var kept := if |before| >= capacity && before != [] then before[1..] else before;
            var after := Items(s', key);
            && (forall k :: k != key ==> Items(s', k) == Items(s, k))
            && after != [] && var newest := after[|after| - 1];
            && newest.id == session.id && (if Holds(kept, session.id) then newest in kept else newest == session)
            && (forall x: Session :: x.id != session.id ==> (x in after <==> x in kept))
            && (forall id :: id in s'.reverse <==> id == session.id || (id in s.reverse && (kept == before || id != before[0].id)))
            && (forall id :: id in s'.reverse ==> s'.reverse[id] == if id == session.id then key else s.reverse[id])
  {
    var s', before := Stored(capacity, s, key, session), Items(s, key);
    var room := WithRoom(capacity, s, key).items;
    InnerLruNeverEvicts(capacity, s, key, session);
    WithoutSpec(room, session.id);
    assert room == if |before| >= capacity && before != [] then before[1..] else before;
    hide Without, Find, Holds;
    assert forall k :: k != key ==> Items(s', k) == Items(s, k);
    assert before != [] ==> |before[1..]| < |before|;
  }

  /**
   A pop hands out the oldest session under the key. It takes it out of the cache only if it is of
   TLS 1.3 and in the index, and then only from where the index says; nothing else changes.
   */
  lemma PopExactly(capacity: nat, s: State, key: Key)
    requires GoodLists(capacity, s)
    ensures var s', items := Taken(s, key), Items(s, key);
            if items == [] then Next(s, key).None? && s' == s
            else
              var x := items[0];
              && Next(s, key) == Some(x)
              && if x.version != Tls13 || x.id !in s.reverse then s' == s
                 else
                   && (forall k, y: Session :: y in Items(s', k) <==> y in Items(s, k) && !(k == s.reverse[x.id] && y.id == x.id))
                   && (forall id :: id in s'.reverse <==> id in s.reverse && id != x.id)
                   && (forall id :: id in s'.reverse ==> s'.reverse[id] == s.reverse[id])
  {
    if key in s.lists {
      var oldest := s.lists[key].items[0];
      if oldest.version == Tls13 && oldest.id in s.reverse && s.reverse[oldest.id] in s.lists {
        WithoutSpec(s.lists[s.reverse[oldest.id]].items, oldest.id);
      }
    }
  }

  /** A pop unlists the TLS 1.3 session it hands out exactly if the index still knows it under that key. */
  lemma PopUnlistsIff(capacity: nat, s: State, key: Key)
    requires GoodLists(capacity, s) && Next(s, key).Some? && Next(s, key).value.version == Tls13
    ensures var x := Next(s, key).value;
            !Listed(Taken(s, key), key, x.id) <==> x.id in s.reverse && s.reverse[x.id] == key
  {
    var x, items := Next(s, key).value, s.lists[key].items;
    assert GoodList(capacity, s.lists[key]) && Holds(items, x.id);
    WithoutSpec(items, x.id);
  }

  /**
   Without the one-key condition single use fails: an id put under two keys is handed out by every
   pop of the first key, for ever.
   */
  lemma {:induction false} TwoKeysBreakSingleUse(first: Key, second: Key, id: Id, n: nat)
    requires first != second
    ensures var ops := [PutOp(first, Session(id, Tls13)), PutOp(second, Session(id, Tls13))];
            && !OneKeyFor(1, ops, id)
            && Next(Run(1, ops + Repeat(PopOp(first), n)), first) == Some(Session(id, Tls13))
            && UsesOf(1, ops + Repeat(PopOp(first), n), id) == n
  {
    var x := Session(id, Tls13);
    var ops := [PutOp(first, x), PutOp(second, x)];
    TwoPuts(first, second, x);
    hide Run, UsesOf, OneKeyFor, Next;
    StaleForever(ops, first, second, x, n);
  }

  /** One more pop at the end of a run. */
  lemma OnePopMore(ops: seq<Op>, key: Key, n: nat)
    requires n > 0
    ensures var before, after := ops + Repeat(PopOp(key), n - 1), ops + Repeat(PopOp(key), n);
            && Run(1, after) == Taken(Run(1, before), key)
            && forall id :: UsesOf(1, after, id) == UsesOf(1, before, id) + if Next(Run(1, before), key) == Some(Session(id, Tls13)) then 1 else 0
  {
    var before, after := ops + Repeat(PopOp(key), n - 1), ops + Repeat(PopOp(key), n);
    assert after == before + [PopOp(key)] && after[..|after| - 1] == before;
    hide Taken, Next;
  }

  /** A session listed under two keys is handed out by every pop of the key the index has forgotten. */
  lemma {:induction false} StaleForever(ops: seq<Op>, first: Key, second: Key, x: Session, n: nat)
    requires first != second && x.version == Tls13 && UsesOf(1, ops, x.id) == 0
    requires Run(1, ops) == State(map[x.id := second], map[first := Lru([x], Some(1)), second := Lru([x], Some(1))])
    ensures var s := Run(1, ops + Repeat(PopOp(first), n));
            && s == (if n == 0 then Run(1, ops) else State(map[], map[first := Lru([x], Some(1))]))
            && Next(s, first) == Some(x) && UsesOf(1, ops + Repeat(PopOp(first), n), x.id) == n
  {
    hide Run, UsesOf;
    if n == 0 {
      assert ops + Repeat(PopOp(first), 0) == ops;
    } else {
      StaleForever(ops, first, second, x, n - 1);
      OnePopMore(ops, first, n);
      StalePop(first, second, x);
    }
  }

  lemma StalePop(first: Key, second: Key, x: Session)
    requires first != second && x.version == Tls13
    ensures Taken(State(map[x.id := second], map[first := Lru([x], Some(1)), second := Lru([x], Some(1))]), first)
         == State(map[], map[first := Lru([x], Some(1))])
    ensures Taken(State(map[], map[first := Lru([x], Some(1))]), first) == State(map[], map[first := Lru([x], Some(1))])
  {
    assert Without([x], x.id) == [];
  }
}
