/**
 The asynchronous mutex of the `tokio` crate as a value: whoever releases it reserves it for the first
 in the queue, and a reservation keeps everyone else out until that one is polled again or gives up.
 */
module FairMutex {
  import opened Sequences

  type Id = nat

  datatype Lock = Free | Held(id: Id) | Reserved(id: Id)

  datatype Mutex = Mutex(lock: Lock, queue: seq<Id>) {
    predicate Admits(id: Id) {
      lock.Free? || lock == Reserved(id)
    }

    predicate InLine(id: Id) {
      id in queue || lock == Reserved(id)
    }

    /** One poll of a waiting call: it gets the lock, or stands in line. */
    function Ask(id: Id): Mutex {
      if Admits(id) then this.(lock := Held(id)) else if id in queue then this else this.(queue := queue + [id])
    }

    function Release(): Mutex {
      if queue == [] then this.(lock := Free) else Mutex(Reserved(queue[0]), queue[1..])
    }

    /** A waiting call goes away; a reservation for it passes on. */
    function GiveUp(id: Id): Mutex {
      if lock == Reserved(id) then Release() else this.(queue := Without(queue, id))
    }
  }

  const UNLOCKED := Mutex(Free, [])

  function Without(queue: seq<Id>, id: Id): (rest: seq<Id>)
    ensures forall x :: x in rest <==> x in queue && x != id
    ensures |rest| <= |queue|
  {
    if queue == [] then []
    else
      var init, last := queue[..|queue| - 1], queue[|queue| - 1];
      assert queue == init + [last];
      Without(init, id) + if last == id then [] else [last]
  }

  /** Nobody stands in line twice, or for a free lock, or with the lock in hand. */
  ghost predicate Sound(m: Mutex) {
    && Distinct(m.queue)
    && (if m.lock.Free? then m.queue == [] else m.lock.id !in m.queue)
  }

  lemma {:induction false} WithoutIsDistinct(queue: seq<Id>, id: Id)
    requires Distinct(queue)
    ensures Distinct(Without(queue, id))
  {
    if queue != [] {
      var init, last := queue[..|queue| - 1], queue[|queue| - 1];
      WithoutIsDistinct(init, id);
      assert forall i :: 0 <= i < |init| ==> init[i] != last;
      assert last !in Without(init, id);
    }
  }

  lemma AskSpec(m: Mutex, id: Id)
    requires Sound(m) && m.lock != Held(id)
    ensures Sound(m.Ask(id))
    ensures if m.Admits(id) then m.Ask(id).lock == Held(id) else m.Ask(id).lock == m.lock
    ensures m.Ask(id).InLine(id) <==> !m.Admits(id)
    ensures forall x :: x != id ==> (m.Ask(id).InLine(x) <==> m.InLine(x))
  {
  }

  lemma ReleaseSpec(m: Mutex)
    requires Sound(m) && !m.lock.Free?
    ensures Sound(m.Release()) && !m.Release().lock.Held?
    ensures m.Release().lock.Free? <==> m.queue == []
    ensures forall x :: m.Release().InLine(x) <==> m.InLine(x) && x != m.lock.id
  {
    if m.queue != [] {
      assert m.queue == [m.queue[0]] + m.queue[1..];
    }
  }

  lemma GiveUpSpec(m: Mutex, id: Id)
    requires Sound(m) && m.lock != Held(id)
    ensures Sound(m.GiveUp(id))
    ensures m.lock != Reserved(id) ==> m.GiveUp(id).lock == m.lock
    ensures m.lock == Reserved(id) ==> !m.GiveUp(id).lock.Held?
    ensures forall x :: m.GiveUp(id).InLine(x) <==> m.InLine(x) && x != id
  {
    if m.lock == Reserved(id) {
      ReleaseSpec(m);
    } else {
      WithoutIsDistinct(m.queue, id);
      assert Without([], id) == [];
    }
  }
}
