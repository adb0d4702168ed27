/**
 The pull-based response of crates/tlsurl-core/src/stream.rs as interleaved steps of readers and
 closers over one lock, one body slot and one cancellation flag.

 Every flag test, lock operation and slot access is its own step, so the schedules include all those
 in which a whole future poll is atomic.
 */
module StreamResponse {
  import opened Wrappers
  import opened Sequences
  import opened FairMutex

  type Reader = Id
  type Chunk = seq<int>

  /** What the transport will produce: chunks in order, then the end or an error. */
  datatype Transport = Transport(chunks: seq<Chunk>, fails: bool)

  datatype Outcome = Delivered(chunk: Chunk) | Ended | Failed | Cancelled

  /** Where a reader is in `next_chunk`. `Owned` readers hold the stream that `position` describes. */
  datatype Reading =
    | Waiting                              // before the lock
    | Locked                               // lock held, flag not yet tested
    | Clearing                             // flag seen, slot about to be cleared
    | Taking                               // about to take the body
    | Selecting(position: nat)             // about to test the flag in the select
    | Polling(position: nat)               // about to poll the transport
    | Got(outcome: Outcome, position: nat) // transport ready, flag about to be tested again
    | Restoring(chunk: Chunk, position: nat) // second test passed, body about to be put back
    | Releasing(outcome: Outcome)          // guard about to be dropped
    | Done(outcome: Outcome)
    | Dropped(reading: bool)               // `reading` futures were waiting for the transport

  /** `late` marks a reader created after the flag was set. */
  datatype ReaderState = ReaderState(at: Reading, late: bool)

  /**
   `closers` counts close calls between setting the flag and trying the lock. `missed` records that
   the last try found the lock held by a reader past its last flag test, or reserved, with a body there. `receivers` names who got each delivered chunk.
   */
  datatype State = State(
    cancelled: bool,
    closers: nat,
    mutex: Mutex,
    body: Option<nat>,
    readers: map<Reader, ReaderState>,
    delivered: seq<Chunk>,
    receivers: seq<Reader>,
    missed: bool
  )

  const START := State(false, 0, UNLOCKED, Some(0), map[], [], [], false)

  datatype Event =
    | Call(reader: Reader)
    | Advance(reader: Reader, ready: bool)
    | Drop(reader: Reader)
    | SetFlag
    | TryClear

  predicate HoldsLock(r: Reading) {
    !r.Waiting? && !r.Done? && !r.Dropped?
  }

  /** A reader that will release the lock without testing the flag again. */
  predicate PastLastTest(r: Reading) {
    r.Restoring? || (r.Releasing? && r.outcome.Delivered?)
  }

  function Goto(s: State, r: Reader, at: Reading): State {
    if r in s.readers then s.(readers := s.readers[r := s.readers[r].(at := at)]) else s
  }

  function Produce(t: Transport, position: nat): Outcome {
    if position < |t.chunks| then Delivered(t.chunks[position]) else if t.fails then Failed else Ended
  }

  /** Where one step takes the reader. */
  function NextAt(t: Transport, s: State, r: Reader, at: Reading, ready: bool): Reading {
    match at
    case Waiting => if s.mutex.Admits(r) then Locked else Waiting
    case Locked => if s.cancelled then Clearing else Taking
    case Clearing => Releasing(Cancelled)
    case Taking => if s.body.Some? then Selecting(s.body.value) else Releasing(Ended)
    case Selecting(position) => if s.cancelled then Releasing(Cancelled) else Polling(position)
    case Polling(position) => if ready then Got(Produce(t, position), position + 1) else Selecting(position)
    case Got(outcome, position) =>
      if s.cancelled then Releasing(Cancelled)
      else if outcome.Delivered? then Restoring(outcome.chunk, position)
      else Releasing(outcome)
    case Restoring(chunk, position) => Releasing(Delivered(chunk))
    case Releasing(outcome) => Done(outcome)
    case Done(_) => at
    case Dropped(_) => at
  }

  /** What the step does to everything shared. */
  function Effect(s: State, r: Reader, at: Reading): State {
    match at
    case Waiting => s.(mutex := s.mutex.Ask(r))
    case Clearing => s.(body := None, missed := false)
    case Taking => s.(body := None)
    case Restoring(_, position) => s.(body := Some(position))
    case Releasing(outcome) =>
      s.(mutex := s.mutex.Release(),
          delivered := if outcome.Delivered? then s.delivered + [outcome.chunk] else s.delivered,
          receivers := if outcome.Delivered? then s.receivers + [r] else s.receivers)
    case _ => s
  }

  /** One step of the reader; events that do not apply change nothing. */
  function AdvanceReader(t: Transport, s: State, r: Reader, ready: bool): State
    requires r in s.readers
  {
    var at := s.readers[r].at;
    Goto(Effect(s, r, at), r, NextAt(t, s, r, at, ready))
  }

  /** A future can only be dropped where it waits: for the lock, or for the transport. */
  function DropReader(s: State, r: Reader): State
    requires r in s.readers
  {
    var at := s.readers[r].at;
    if at.Waiting? then Goto(s, r, Dropped(false)).(mutex := s.mutex.GiveUp(r))
    else if at.Selecting? then Goto(s, r, Dropped(true)).(mutex := s.mutex.Release())
    else s
  }

  /** A try of the lock fails, and no one is bound to test the flag and clear the body later. */
  predicate OutOfReach(s: State) {
    match s.mutex.lock
    case Free => false
    case Held(r) => r in s.readers && PastLastTest(s.readers[r].at)
    case Reserved(_) => s.body.Some?
  }

  function Next(t: Transport, s: State, e: Event): State {
    match e
    case Call(r) => if r in s.readers then s else s.(readers := s.readers[r := ReaderState(Waiting, s.cancelled)])
    case Advance(r, ready) => if r in s.readers then AdvanceReader(t, s, r, ready) else s
    case Drop(r) => if r in s.readers then DropReader(s, r) else s
    case SetFlag => s.(cancelled := true, closers := s.closers + 1)
    case TryClear =>
      if s.closers == 0 then s
      else if s.mutex.lock.Free? then s.(closers := s.closers - 1, body := None, missed := false)
      else s.(closers := s.closers - 1, missed := s.missed || OutOfReach(s))
  }

  function Run(t: Transport, events: seq<Event>): State {
    if events == [] then START else Next(t, Run(t, events[..|events| - 1]), events[|events| - 1])
  }

  // ---------- invariants of every schedule ----------

  /** As many chunks have been delivered as the stream has moved on. */
  predicate DeliveredTo(s: State, position: nat) {
    |s.delivered| == position
  }

  /** What the holder of the lock knows about the body and the deliveries. */
  predicate HolderInv(t: Transport, s: State, at: Reading) {
    match at
    case Selecting(p) => s.body.None? && DeliveredTo(s, p)
    case Polling(p) => s.body.None? && DeliveredTo(s, p)
    case Got(outcome, p) => s.body.None? && p > 0 && DeliveredTo(s, p - 1) && outcome == Produce(t, p - 1)
    case Restoring(chunk, p) =>
      s.body.None? && 0 < p <= |t.chunks| && DeliveredTo(s, p - 1) && chunk == t.chunks[p - 1]
    case Releasing(outcome) =>
      if outcome.Delivered? then
        && s.body.Some? && 0 < s.body.value <= |t.chunks|
        && DeliveredTo(s, s.body.value - 1) && outcome.chunk == t.chunks[s.body.value - 1]
      else s.body.None?
    case _ => s.body.Some? ==> DeliveredTo(s, s.body.value)
  }

  /** A reader that was called after the flag was set stays away from the transport. */
  predicate LateInv(r: ReaderState) {
    r.late ==>
      || r.at.Waiting? || r.at.Locked? || r.at.Clearing? || r.at == Dropped(false)
      || r.at == Releasing(Cancelled) || r.at == Done(Cancelled)
  }

  /** Exactly the holder of the lock is between acquiring and releasing it, and only waiting readers are in line. */
  ghost predicate MutexInv(s: State) {
    && Sound(s.mutex)
    && (s.mutex.lock.Held? ==> s.mutex.lock.id in s.readers)
    && (forall r :: r in s.readers ==> (HoldsLock(s.readers[r].at) <==> s.mutex.lock == Held(r)))
    && (forall r :: s.mutex.InLine(r) ==> r in s.readers && s.readers[r].at.Waiting?)
  }

  predicate BodyInv(t: Transport, s: State) {
    PrefixInv(t, s) && HeldInv(t, s) && FreeInv(s)
  }

  predicate PrefixInv(t: Transport, s: State) {
    s.delivered <= t.chunks
  }

  predicate HeldInv(t: Transport, s: State) {
    s.mutex.lock.Held? && s.mutex.lock.id in s.readers ==> HolderInv(t, s, s.readers[s.mutex.lock.id].at)
  }

  predicate FreeInv(s: State) {
    !s.mutex.lock.Held? && s.body.Some? ==> DeliveredTo(s, s.body.value)
  }

  ghost predicate FlagInv(s: State) {
    && (forall r :: r in s.readers ==> ReaderFlagInv(s.readers[r], s.cancelled))
    && (s.closers > 0 ==> s.cancelled)
  }

  predicate ReaderFlagInv(r: ReaderState, cancelled: bool) {
    LateInv(r) && (r.late || r.at.Clearing? ==> cancelled)
  }

  ghost predicate Inv(t: Transport, s: State) {
    MutexInv(s) && BodyInv(t, s) && FlagInv(s)
  }

  lemma NextKeepsInv(t: Transport, s: State, e: Event)
    requires Inv(t, s)
    ensures Inv(t, Next(t, s, e))
  {
    match e
    case Advance(r, ready) => if r in s.readers { AdvanceKeepsInv(t, s, r, ready); }
    case Drop(r) => if r in s.readers { DropKeepsInv(t, s, r); }
    case Call(r) => if r !in s.readers { CallKeepsInv(t, s, r); }
    case SetFlag => FlagKeepsInv(t, s);
    case TryClear => TryKeepsInv(t, s);
  }

  lemma CallKeepsInv(t: Transport, s: State, r: Reader)
    requires Inv(t, s) && r !in s.readers
    ensures Inv(t, Next(t, s, Call(r)))
  {
    hide Sound, Mutex.InLine;
  }

  lemma FlagKeepsInv(t: Transport, s: State)
    requires Inv(t, s)
    ensures Inv(t, Next(t, s, SetFlag))
  {
    hide Sound, Mutex.InLine;
  }

  lemma TryKeepsInv(t: Transport, s: State)
    requires Inv(t, s)
    ensures Inv(t, Next(t, s, TryClear))
  {
    hide Sound, Mutex.InLine;
  }

  // ---------- the lock and its line ----------

  /** The two halves of a step. */
  lemma AdvanceParts(t: Transport, s: State, r: Reader, ready: bool)
    requires r in s.readers
    ensures var s', shared := AdvanceReader(t, s, r, ready), Effect(s, r, s.readers[r].at);
            && s'.readers == s.readers[r := ReaderState(NextAt(t, s, r, s.readers[r].at, ready), s.readers[r].late)]
            && s' == shared.(readers := s'.readers)
  {
    hide NextAt;
  }

  /** One reader moved, and only its own standing with the mutex changed. */
  lemma OneReaderMoved(s: State, s': State, r: Reader, state: ReaderState)
    requires MutexInv(s) && r in s.readers && s'.readers == s.readers[r := state] && Sound(s'.mutex)
    requires HoldsLock(state.at) <==> s'.mutex.lock == Held(r)
    requires s'.mutex.InLine(r) ==> state.at.Waiting?
    requires forall x :: x != r ==> (s'.mutex.InLine(x) <==> s.mutex.InLine(x))
    requires s'.mutex.lock == s.mutex.lock || s'.mutex.lock == Held(r) || !s'.mutex.lock.Held?
    requires s.mutex.lock.Held? && s.mutex.lock.id != r ==> s'.mutex.lock == s.mutex.lock
    ensures MutexInv(s')
  {
    hide Mutex.InLine, Sound, HoldsLock;
  }

  lemma AdvanceKeepsMutex(t: Transport, s: State, r: Reader, ready: bool)
    requires MutexInv(s) && r in s.readers
    ensures MutexInv(AdvanceReader(t, s, r, ready))
  {
    var at, at' := s.readers[r].at, NextAt(t, s, r, s.readers[r].at, ready);
    var s' := AdvanceReader(t, s, r, ready);
    AdvanceParts(t, s, r, ready);
    assert HoldsLock(at) <==> s.mutex.lock == Held(r);
    assert s.mutex.InLine(r) ==> at.Waiting?;
    hide MutexInv, Mutex.Ask, Mutex.Release, Mutex.InLine, Sound, AdvanceReader;
    assert Sound(s.mutex) by { MutexIsSound(s); }
    if at.Waiting? {
      AskSpec(s.mutex, r);
    } else if at.Releasing? {
      ReleaseSpec(s.mutex);
    } else {
      assert HoldsLock(at') == HoldsLock(at);
    }
    OneReaderMoved(s, s', r, ReaderState(at', s.readers[r].late));
  }

  lemma MutexIsSound(s: State)
    requires MutexInv(s)
    ensures Sound(s.mutex)
  {
  }

  lemma DropKeepsMutex(s: State, r: Reader)
    requires MutexInv(s) && r in s.readers
    ensures MutexInv(DropReader(s, r))
  {
    var at, s' := s.readers[r].at, DropReader(s, r);
    assert HoldsLock(at) <==> s.mutex.lock == Held(r);
    assert s.mutex.InLine(r) ==> at.Waiting?;
    MutexIsSound(s);
    hide MutexInv, Mutex.GiveUp, Mutex.Release, Mutex.InLine, Sound;
    if at.Waiting? {
      GiveUpSpec(s.mutex, r);
      OneReaderMoved(s, s', r, s'.readers[r]);
    } else if at.Selecting? {
      ReleaseSpec(s.mutex);
      OneReaderMoved(s, s', r, s'.readers[r]);
    }
  }

  // ---------- the body and the flag ----------

  lemma AdvanceKeepsInv(t: Transport, s: State, r: Reader, ready: bool)
    requires Inv(t, s) && r in s.readers
    ensures Inv(t, AdvanceReader(t, s, r, ready))
  {
    hide BodyInv, FlagInv, AdvanceReader, HoldsLock;
    AdvanceKeepsMutex(t, s, r, ready);
    assert HoldsLock(s.readers[r].at) <==> s.mutex.lock == Held(r);
    AdvanceKeepsBody(t, s, r, ready);
    AdvanceKeepsFlag(t, s, r, ready);
  }

  lemma AdvanceKeepsBody(t: Transport, s: State, r: Reader, ready: bool)
    requires r in s.readers && BodyInv(t, s)
    requires HoldsLock(s.readers[r].at) <==> s.mutex.lock == Held(r)
    ensures BodyInv(t, AdvanceReader(t, s, r, ready))
  {
    var at := s.readers[r].at;
    if at.Got? || at.Restoring? || at.Releasing? {
      HolderFinishes(t, s, r, ready);
    } else if HoldsLock(at) {
      HolderProceeds(t, s, r, ready);
    } else {
      WaiterEnters(t, s, r, ready);
    }
  }

  lemma WaiterEnters(t: Transport, s: State, r: Reader, ready: bool)
    requires r in s.readers && BodyInv(t, s) && !HoldsLock(s.readers[r].at) && s.mutex.lock != Held(r)
    ensures BodyInv(t, AdvanceReader(t, s, r, ready))
  {
    var s' := AdvanceReader(t, s, r, ready);
    var at := s.readers[r].at;
    AdvanceFrame(t, s, r, ready);
    assert s'.body == s.body && s'.delivered == s.delivered;
    assert s'.mutex.lock == s.mutex.lock || (!s.mutex.lock.Held? && s'.mutex.lock == Held(r) && s'.readers[r].at == Locked);
    hide AdvanceReader, HoldsLock;
    HolderUntouched(t, s, s');
  }

  /** What a holder knows does not depend on who else moves. */
  lemma HolderUntouched(t: Transport, s: State, s': State)
    requires s'.body == s.body && s'.delivered == s.delivered
    ensures forall at :: HolderInv(t, s, at) ==> HolderInv(t, s', at)
  {
  }

  lemma HolderProceeds(t: Transport, s: State, r: Reader, ready: bool)
    requires r in s.readers && BodyInv(t, s) && s.mutex.lock == Held(r)
    requires HoldsLock(s.readers[r].at) && !s.readers[r].at.Got? && !s.readers[r].at.Restoring? && !s.readers[r].at.Releasing?
    ensures BodyInv(t, AdvanceReader(t, s, r, ready))
  {
    hide Mutex.Release;
    var s' := AdvanceReader(t, s, r, ready);
    assert s'.mutex.lock == Held(r) && s'.delivered == s.delivered;
    assert HolderInv(t, s', s'.readers[r].at);
  }

  lemma HolderFinishes(t: Transport, s: State, r: Reader, ready: bool)
    requires r in s.readers && BodyInv(t, s) && s.mutex.lock == Held(r)
    requires s.readers[r].at.Got? || s.readers[r].at.Restoring? || s.readers[r].at.Releasing?
    ensures BodyInv(t, AdvanceReader(t, s, r, ready))
  {
  }

  lemma AdvanceKeepsFlag(t: Transport, s: State, r: Reader, ready: bool)
    requires r in s.readers && FlagInv(s)
    ensures FlagInv(AdvanceReader(t, s, r, ready))
  {
    assert ReaderFlagInv(s.readers[r], s.cancelled);
    AdvanceFrame(t, s, r, ready);
    ReaderKeepsFlag(t, s, r, ready);
    hide AdvanceReader, ReaderFlagInv;
  }

  /** A step changes the place of one reader, and neither the flag nor the closers. */
  lemma AdvanceFrame(t: Transport, s: State, r: Reader, ready: bool)
    requires r in s.readers
    ensures var s' := AdvanceReader(t, s, r, ready);
            && s'.readers.Keys == s.readers.Keys && s'.cancelled == s.cancelled && s'.closers == s.closers
            && s'.readers[r].late == s.readers[r].late
            && forall x :: x in s.readers && x != r ==> s'.readers[x] == s.readers[x]
  {
    hide NextAt;
  }

  lemma DropFrame(s: State, r: Reader)
    requires r in s.readers
    ensures var s' := DropReader(s, r);
            && s'.readers.Keys == s.readers.Keys && s'.cancelled == s.cancelled && s'.closers == s.closers
            && forall x :: x in s.readers && x != r ==> s'.readers[x] == s.readers[x]
  {
  }

  lemma ReaderKeepsFlag(t: Transport, s: State, r: Reader, ready: bool)
    requires r in s.readers && ReaderFlagInv(s.readers[r], s.cancelled)
    ensures var s' := AdvanceReader(t, s, r, ready); r in s'.readers && ReaderFlagInv(s'.readers[r], s.cancelled)
  {
    AdvanceFrame(t, s, r, ready);
    assert AdvanceReader(t, s, r, ready).readers[r].at == NextAt(t, s, r, s.readers[r].at, ready) by { hide NextAt; }
    hide AdvanceReader;
  }

  lemma DropKeepsInv(t: Transport, s: State, r: Reader)
    requires Inv(t, s) && r in s.readers
    ensures Inv(t, DropReader(s, r))
  {
    hide BodyInv, FlagInv, DropReader, HoldsLock;
    DropKeepsMutex(s, r);
    assert HoldsLock(s.readers[r].at) <==> s.mutex.lock == Held(r);
    DropKeepsBody(t, s, r);
    DropKeepsFlag(s, r);
  }

  lemma DropKeepsBody(t: Transport, s: State, r: Reader)
    requires r in s.readers && BodyInv(t, s)
    requires HoldsLock(s.readers[r].at) <==> s.mutex.lock == Held(r)
    ensures BodyInv(t, DropReader(s, r))
  {
  }

  lemma DropKeepsFlag(s: State, r: Reader)
    requires r in s.readers && FlagInv(s)
    ensures FlagInv(DropReader(s, r))
  {
    assert ReaderFlagInv(s.readers[r], s.cancelled);
  }

  lemma {:induction false} RunKeepsInv(t: Transport, events: seq<Event>)
    ensures Inv(t, Run(t, events))
  {
    if events != [] {
      RunKeepsInv(t, events[..|events| - 1]);
      NextKeepsInv(t, Run(t, events[..|events| - 1]), events[|events| - 1]);
    }
  }

  /**
   Whatever the interleaving, the chunks handed out, in lock order, are a prefix of what the transport
   produced, at most one reader holds the lock, and a read started after close ends as cancelled.
   */
  lemma DeliveriesArePrefix(t: Transport, events: seq<Event>)
    ensures var s := Run(t, events);
            && s.delivered <= t.chunks
            && (forall r, r' :: r in s.readers && r' in s.readers && HoldsLock(s.readers[r].at) && HoldsLock(s.readers[r'].at) ==> r == r')
            && (forall r :: r in s.readers && s.readers[r].late && s.readers[r].at.Done? ==> s.readers[r].at == Done(Cancelled))
  {
    hide Run, HoldsLock;
    RunKeepsInv(t, events);
    forall r | r in Run(t, events).readers
      ensures ReaderFlagInv(Run(t, events).readers[r], Run(t, events).cancelled)
    {
    }
  }

  // ---------- the end of the stream ----------

  /** No one owns the stream any more. */
  ghost predicate Gone(s: State) {
    && s.body.None?
    && (s.mutex.lock.Held? && s.mutex.lock.id in s.readers ==> !OwnsStream(s.readers[s.mutex.lock.id].at))
  }

  predicate OwnsStream(at: Reading) {
    at.Selecting? || at.Polling? || at.Got? || at.Restoring?
  }

  /** The read ended the stream: by its end, an error, a cancellation, or by being dropped. */
  predicate EndsStream(at: Reading) {
    (at.Done? && !at.outcome.Delivered?) || at == Dropped(true)
  }

  ghost predicate EndInv(s: State) {
    (exists r :: r in s.readers && EndsStream(s.readers[r].at)) ==> Gone(s)
  }

  /** What the stream invariants say of the reader that takes the next step. */
  lemma StepperFacts(t: Transport, s: State, r: Reader)
    requires Inv(t, s) && r in s.readers
    ensures HoldsLock(s.readers[r].at) <==> s.mutex.lock == Held(r)
    ensures s.mutex.lock == Held(r) ==> HolderInv(t, s, s.readers[r].at)
  {
  }

  lemma GoneIsFinal(t: Transport, s: State, e: Event)
    requires Inv(t, s) && Gone(s)
    ensures Gone(Next(t, s, e)) && Next(t, s, e).delivered == s.delivered
  {
    if (e.Advance? || e.Drop?) && e.reader in s.readers {
      StepperFacts(t, s, e.reader);
      hide Inv;
      if e.Advance? {
        AdvanceStaysGone(t, s, e.reader, e.ready);
      }
    }
  }

  lemma AdvanceStaysGone(t: Transport, s: State, r: Reader, ready: bool)
    requires r in s.readers && Gone(s)
    requires HoldsLock(s.readers[r].at) <==> s.mutex.lock == Held(r)
    requires s.mutex.lock == Held(r) ==> HolderInv(t, s, s.readers[r].at)
    ensures Gone(AdvanceReader(t, s, r, ready)) && AdvanceReader(t, s, r, ready).delivered == s.delivered
  {
  }

  /** A step that makes a reader end the stream leaves no owner behind. */
  lemma EndingAdvance(t: Transport, s: State, r: Reader, ready: bool)
    requires r in s.readers && !EndsStream(s.readers[r].at)
    requires HoldsLock(s.readers[r].at) <==> s.mutex.lock == Held(r)
    requires s.mutex.lock == Held(r) ==> HolderInv(t, s, s.readers[r].at)
    requires AdvanceReader(t, s, r, ready).readers.Keys == s.readers.Keys
    requires EndsStream(AdvanceReader(t, s, r, ready).readers[r].at)
    ensures Gone(AdvanceReader(t, s, r, ready))
  {
    AdvanceParts(t, s, r, ready);
    hide AdvanceReader;
    assert s.readers[r].at.Releasing?;
  }

  lemma EndingDrop(t: Transport, s: State, r: Reader)
    requires r in s.readers && !EndsStream(s.readers[r].at)
    requires HoldsLock(s.readers[r].at) <==> s.mutex.lock == Held(r)
    requires s.mutex.lock == Held(r) ==> HolderInv(t, s, s.readers[r].at)
    requires r in DropReader(s, r).readers && EndsStream(DropReader(s, r).readers[r].at)
    ensures Gone(DropReader(s, r))
  {
    assert s.readers[r].at.Selecting?;
  }

  /** A step changes no reader but the one that takes it. */
  lemma OthersAreUntouched(t: Transport, s: State, e: Event, r: Reader)
    requires r in Next(t, s, e).readers
    ensures (r in s.readers && Next(t, s, e).readers[r] == s.readers[r])
         || (e.Call? && Next(t, s, e).readers[r].at.Waiting?)
         || ((e.Advance? || e.Drop?) && e.reader == r && r in s.readers)
  {
    hide AdvanceReader, DropReader;
    if e.Advance? && e.reader in s.readers {
      AdvanceFrame(t, s, e.reader, e.ready);
    } else if e.Drop? && e.reader in s.readers {
      DropFrame(s, e.reader);
    }
  }

  lemma NextKeepsEndInv(t: Transport, s: State, e: Event)
    requires Inv(t, s) && EndInv(s)
    ensures EndInv(Next(t, s, e))
  {
    var s' := Next(t, s, e);
    if r :| r in s'.readers && EndsStream(s'.readers[r].at) {
      OthersAreUntouched(t, s, e, r);
      hide Inv, Gone, AdvanceReader, DropReader;
      if r in s.readers && EndsStream(s.readers[r].at) {
        GoneIsFinal(t, s, e);
      } else {
        StepperFacts(t, s, r);
        if e.Advance? {
          AdvanceFrame(t, s, r, e.ready);
          EndingAdvance(t, s, r, e.ready);
        } else {
          EndingDrop(t, s, r);
        }
      }
    }
  }

  lemma {:induction false} RunKeepsEndInv(t: Transport, events: seq<Event>)
    ensures EndInv(Run(t, events))
  {
    if events != [] {
      var init := events[..|events| - 1];
      RunKeepsInv(t, init);
      RunKeepsEndInv(t, init);
      NextKeepsEndInv(t, Run(t, init), events[|events| - 1]);
    }
  }

  /**
   Once some read has ended the stream (end, error, cancellation, or a dropped pending read), no
   continuation of the schedule delivers another chunk.
   */
  lemma {:induction false} NoChunkAfterTheEnd(t: Transport, events: seq<Event>, more: seq<Event>, r: Reader)
    requires r in Run(t, events).readers && EndsStream(Run(t, events).readers[r].at)
    ensures Run(t, events + more).delivered == Run(t, events).delivered
    ensures Gone(Run(t, events + more))
  {
    if more == [] {
      assert events + more == events;
      RunKeepsEndInv(t, events);
    } else {
      var init := events + more[..|more| - 1];
      assert (events + more)[..|events + more| - 1] == init;
      NoChunkAfterTheEnd(t, events, more[..|more| - 1], r);
      RunKeepsInv(t, init);
      GoneIsFinal(t, Run(t, init), more[|more| - 1]);
    }
  }

  // ---------- what reads are told ----------

  /** The read stopped the stream without being cancelled: by its end, an error, or by being dropped. */
  predicate StopsStream(at: Reading) {
    at == Done(Ended) || at == Done(Failed) || at == Dropped(true)
  }

  ghost predicate Stopped(s: State) {
    exists r :: r in s.readers && StopsStream(s.readers[r].at)
  }

  predicate AllRead(t: Transport, s: State) {
    s.delivered == t.chunks
  }

  /** The holder is about to be told the truth about the end of the stream. */
  predicate HolderTold(t: Transport, s: State, at: Reading, stopped: bool) {
    match at
    case Locked => s.body.None? ==> s.cancelled || stopped
    case Clearing => s.cancelled
    case Taking => s.body.None? ==> stopped
    case Got(outcome, _) => EndTold(t, s, outcome, stopped)
    case Releasing(outcome) => EndTold(t, s, outcome, stopped)
    case _ => true
  }

  predicate EndTold(t: Transport, s: State, outcome: Outcome, stopped: bool) {
    match outcome
    case Delivered(_) => true
    case Ended => stopped || (AllRead(t, s) && !t.fails)
    case Failed => !stopped && AllRead(t, s) && t.fails
    case Cancelled => s.cancelled
  }

  /** What a read that is over was told. */
  predicate Told(t: Transport, s: State, at: Reading) {
    && (at == Done(Failed) ==> AllRead(t, s) && t.fails)
    && (at == Done(Cancelled) ==> s.cancelled)
  }

  ghost predicate ToldInv(t: Transport, s: State) {
    && (forall r :: r in s.readers ==> Told(t, s, s.readers[r].at))
    && (!s.mutex.lock.Held? && s.body.None? ==> s.cancelled || Stopped(s))
    && (s.mutex.lock.Held? && s.mutex.lock.id in s.readers ==> HolderTold(t, s, s.readers[s.mutex.lock.id].at, Stopped(s)))
  }

  /** What was said is not taken back: deliveries, the flag and reads that are over stay. */
  lemma NothingIsTakenBack(t: Transport, s: State, e: Event)
    requires Inv(t, s)
    ensures s.delivered <= Next(t, s, e).delivered && (AllRead(t, s) ==> AllRead(t, Next(t, s, e)))
    ensures s.cancelled ==> Next(t, s, e).cancelled
    ensures Stopped(s) ==> Stopped(Next(t, s, e))
  {
    NextKeepsInv(t, s, e);
    DeliveriesGrow(t, s, e);
    FlagStays(t, s, e);
    if r :| r in s.readers && StopsStream(s.readers[r].at) {
      ReadersStay(t, s, e, r);
      hide Next, Inv;
      assert r in Next(t, s, e).readers && StopsStream(Next(t, s, e).readers[r].at);
    }
  }

  lemma FlagStays(t: Transport, s: State, e: Event)
    ensures s.cancelled ==> Next(t, s, e).cancelled
  {
    hide NextAt, Produce;
  }

  /** A read that is over stays as it is. */
  lemma ReadersStay(t: Transport, s: State, e: Event, r: Reader)
    requires r in s.readers
    ensures r in Next(t, s, e).readers
    ensures s.readers[r].at.Done? || s.readers[r].at.Dropped? ==> Next(t, s, e).readers[r] == s.readers[r]
  {
    if e.Advance? && e.reader in s.readers {
      AdvanceFrame(t, s, e.reader, e.ready);
      AdvanceParts(t, s, e.reader, e.ready);
      hide AdvanceReader;
    } else if e.Drop? && e.reader in s.readers {
      DropFrame(s, e.reader);
    }
  }

  lemma DeliveriesGrow(t: Transport, s: State, e: Event)
    ensures s.delivered <= Next(t, s, e).delivered
  {
    if e.Advance? && e.reader in s.readers {
      AdvanceParts(t, s, e.reader, e.ready);
      hide AdvanceReader, NextAt;
    }
  }

  /** Whoever holds the lock after a step has seen no one else stop the stream in that step. */
  lemma StopsFreeTheLock(t: Transport, s: State, e: Event)
    requires Inv(t, s) && Next(t, s, e).mutex.lock.Held? && Stopped(Next(t, s, e))
    ensures Stopped(s)
  {
    var s' := Next(t, s, e);
    var r :| r in s'.readers && StopsStream(s'.readers[r].at);
    OthersAreUntouched(t, s, e, r);
    if !(r in s.readers && StopsStream(s.readers[r].at)) {
      StepperFacts(t, s, r);
      MutexIsSound(s);
      hide Inv, MutexInv, HolderInv, AdvanceReader, Mutex.Release, Mutex.InLine;
      if e.Advance? {
        AdvanceParts(t, s, r, e.ready);
      } else {
        DropEnds(s, r);
      }
      ReleaseSpec(s.mutex);
    }
  }

  lemma NoNewStop(t: Transport, s: State, e: Event)
    requires (e.Advance? || e.Drop?) ==> e.reader !in s.readers
    ensures Stopped(Next(t, s, e)) ==> Stopped(s)
  {
    var s' := Next(t, s, e);
    if r :| r in s'.readers && StopsStream(s'.readers[r].at) {
      OthersAreUntouched(t, s, e, r);
      hide Next;
    }
  }

  lemma DropEnds(s: State, r: Reader)
    requires r in s.readers && DropReader(s, r).readers[r].at == Dropped(true) && s.readers[r].at != Dropped(true)
    ensures s.readers[r].at.Selecting? && DropReader(s, r).mutex == s.mutex.Release()
  {
    hide Mutex.GiveUp, Mutex.Release;
  }

  /** A step of a reader that does not hold the lock. */
  lemma EntryIsTold(t: Transport, s: State, r: Reader, ready: bool)
    requires r in s.readers && ToldInv(t, s) && s.mutex.lock != Held(r) && !HoldsLock(s.readers[r].at)
    ensures var s' := AdvanceReader(t, s, r, ready);
            && r in s'.readers && Told(t, s', s'.readers[r].at)
            && (s'.mutex.lock == Held(r) ==> HolderTold(t, s', s'.readers[r].at, Stopped(s)))
            && s'.body == s.body && s'.delivered == s.delivered
  {
    assert Told(t, s, s.readers[r].at);
    AdvanceParts(t, s, r, ready);
    hide AdvanceReader, Stopped, Mutex.InLine;
  }

  /** A step of the holder. */
  lemma HolderIsTold(t: Transport, s: State, r: Reader, ready: bool)
    requires r in s.readers && PrefixInv(t, s) && HolderInv(t, s, s.readers[r].at) && HoldsLock(s.readers[r].at)
    requires HolderTold(t, s, s.readers[r].at, Stopped(s)) && (Stopped(s) ==> !OwnsStream(s.readers[r].at))
    ensures var s' := AdvanceReader(t, s, r, ready);
            && r in s'.readers && Told(t, s', s'.readers[r].at)
            && (HoldsLock(s'.readers[r].at) ==> HolderTold(t, s', s'.readers[r].at, Stopped(s)))
            && (!HoldsLock(s'.readers[r].at) && s'.body.None? ==> StopsStream(s'.readers[r].at) || s'.cancelled)
  {
    AdvanceParts(t, s, r, ready);
    hide AdvanceReader, Stopped, Mutex.Release;
  }

  /** A step changes the holder of the lock only to or from the reader that takes it. */
  lemma LockMoves(t: Transport, s: State, r: Reader, ready: bool)
    requires Inv(t, s) && r in s.readers
    ensures var s' := AdvanceReader(t, s, r, ready);
            && (s'.mutex.lock == Held(r) <==> HoldsLock(s'.readers[r].at))
            && (s'.mutex.lock.Held? && s'.mutex.lock != Held(r) ==> s'.mutex.lock == s.mutex.lock)
            && (!s'.mutex.lock.Held? ==> s.mutex.lock == Held(r) || !s.mutex.lock.Held?)
  {
    StepperFacts(t, s, r);
    AdvanceParts(t, s, r, ready);
    AdvanceKeepsMutex(t, s, r, ready);
    if s.mutex.lock == Held(r) {
      ReleaseSpec(s.mutex);
    } else {
      AskSpec(s.mutex, r);
    }
    hide AdvanceReader, NextAt, Mutex.Ask, Mutex.Release, Mutex.InLine, BodyInv, FlagInv;
  }

  /** One reader moved on and is told the truth; what the others were told still is. */
  lemma OneMoreTold(t: Transport, s: State, s': State, r: Reader)
    requires ToldInv(t, s) && r in s.readers && r in s'.readers && s'.readers.Keys == s.readers.Keys
    requires forall x :: x in s.readers && x != r ==> s'.readers[x] == s.readers[x]
    requires AllRead(t, s) ==> AllRead(t, s')
    requires s'.cancelled == s.cancelled && (Stopped(s) ==> Stopped(s'))
    requires s'.mutex.lock.Held? && Stopped(s') ==> Stopped(s)
    requires Told(t, s', s'.readers[r].at)
    requires s'.mutex.lock == Held(r) ==> HolderTold(t, s', s'.readers[r].at, Stopped(s))
    requires s'.mutex.lock.Held? && s'.mutex.lock != Held(r) ==>
               s'.mutex.lock == s.mutex.lock && s'.body == s.body && s'.delivered == s.delivered
    requires !s'.mutex.lock.Held? && s'.body.None? ==>
               (!s.mutex.lock.Held? && s.body.None?) || Stopped(s') || s'.cancelled
    ensures ToldInv(t, s')
  {
    hide Stopped;
  }

  lemma AdvanceKeepsTold(t: Transport, s: State, r: Reader, ready: bool)
    requires Inv(t, s) && ToldInv(t, s) && EndInv(s) && r in s.readers
    ensures ToldInv(t, AdvanceReader(t, s, r, ready))
  {
    var s', e := AdvanceReader(t, s, r, ready), Advance(r, ready);
    assert s' == Next(t, s, e);
    hide AdvanceReader, Next;
    StepperFacts(t, s, r);
    StopIsEnd(s);
    AdvanceFrame(t, s, r, ready);
    LockMoves(t, s, r, ready);
    NothingIsTakenBack(t, s, e);
    if s'.mutex.lock.Held? && Stopped(s') {
      StopsFreeTheLock(t, s, e);
    }
    if s.mutex.lock == Held(r) {
      HolderIsTold(t, s, r, ready);
    } else {
      EntryIsTold(t, s, r, ready);
    }
    hide Inv, HolderInv, HolderTold, Told, ToldInv, EndInv, Gone;
    OneMoreTold(t, s, s', r);
  }

  lemma DropKeepsTold(t: Transport, s: State, r: Reader)
    requires Inv(t, s) && ToldInv(t, s) && r in s.readers
    ensures ToldInv(t, DropReader(s, r))
  {
    var s', e := DropReader(s, r), Drop(r);
    assert s' == Next(t, s, e);
    StepperFacts(t, s, r);
    DropFrame(s, r);
    NothingIsTakenBack(t, s, e);
    if s'.mutex.lock.Held? && Stopped(s') {
      StopsFreeTheLock(t, s, e);
    }
    DropsLock(s, r);
    assert s'.readers[r].at == Dropped(true) ==> StopsStream(s'.readers[r].at);
    assert Told(t, s', s'.readers[r].at);
    hide Next, DropReader, Inv, HolderInv, HolderTold, Told, ToldInv;
    OneMoreTold(t, s, s', r);
  }

  lemma DropsLock(s: State, r: Reader)
    requires MutexInv(s) && r in s.readers
    ensures var s' := DropReader(s, r);
            && s'.body == s.body && s'.delivered == s.delivered
            && (s'.readers[r] == s.readers[r] || s'.readers[r].at.Dropped?)
            && (s'.readers[r] == s.readers[r] ==> s' == s)
            && (s'.readers[r].at == Dropped(false) && s' != s ==> s.mutex.lock != Held(r))
            && (s'.mutex.lock.Held? ==> s'.mutex.lock == s.mutex.lock)
            && (!s'.mutex.lock.Held? ==> !s.mutex.lock.Held? || s'.readers[r].at == Dropped(true))
            && (s'.mutex.lock == Held(r) ==> s' == s)
  {
    if s.readers[r].at.Waiting? {
      GiveUpSpec(s.mutex, r);
    } else if s.readers[r].at.Selecting? {
      ReleaseSpec(s.mutex);
    }
    hide Mutex.GiveUp, Mutex.Release, Mutex.InLine;
  }

  lemma StopIsEnd(s: State)
    requires EndInv(s)
    ensures Stopped(s) ==> Gone(s)
  {
    hide Gone;
    if r :| r in s.readers && StopsStream(s.readers[r].at) {
      assert EndsStream(s.readers[r].at);
    }
  }

  lemma NextKeepsTold(t: Transport, s: State, e: Event)
    requires Inv(t, s) && ToldInv(t, s) && EndInv(s)
    ensures ToldInv(t, Next(t, s, e))
  {
    if e.Advance? && e.reader in s.readers {
      AdvanceKeepsTold(t, s, e.reader, e.ready);
    } else if e.Drop? && e.reader in s.readers {
      DropKeepsTold(t, s, e.reader);
    } else {
      NothingIsTakenBack(t, s, e);
      NoNewStop(t, s, e);
      OtherEventsKeepTold(t, s, e);
    }
  }

  lemma OtherEventsKeepTold(t: Transport, s: State, e: Event)
    requires ToldInv(t, s) && (s.closers > 0 ==> s.cancelled)
    requires (e.Advance? || e.Drop?) ==> e.reader !in s.readers
    requires s.mutex.lock.Held? ==> s.mutex.lock.id in s.readers
    requires Stopped(s) <==> Stopped(Next(t, s, e))
    ensures ToldInv(t, Next(t, s, e))
  {
    hide Stopped, OutOfReach;
  }

  lemma {:induction false} RunKeepsTold(t: Transport, events: seq<Event>)
    ensures ToldInv(t, Run(t, events))
  {
    if events != [] {
      var init := events[..|events| - 1];
      RunKeepsInv(t, init);
      RunKeepsEndInv(t, init);
      RunKeepsTold(t, init);
      NextKeepsTold(t, Run(t, init), events[|events| - 1]);
    }
  }

  /** The read has come to the end of the stream, or to an error. */
  predicate HasEnd(s: State, r: Reader) {
    r in s.readers && (s.readers[r].at == Done(Ended) || s.readers[r].at == Done(Failed))
  }

  /** A read was dropped while it waited for the transport. */
  ghost predicate PendingReadWasDropped(s: State) {
    exists r :: r in s.readers && s.readers[r].at == Dropped(true)
  }

  /**
   The first read to end with neither a chunk nor a cancellation finds everything delivered, and it is
   told of an error exactly when the transport fails. Only after the drop of a pending read, which
   took the transport with it, is it told of an end in any case.
   */
  lemma FirstEndIsTrue(t: Transport, events: seq<Event>, e: Event, r: Reader)
    requires forall x :: !HasEnd(Run(t, events), x)
    requires HasEnd(Run(t, events + [e]), r)
    ensures var s' := Run(t, events + [e]);
            if PendingReadWasDropped(Run(t, events)) then s'.readers[r].at == Done(Ended)
            else s'.delivered == t.chunks && s'.readers[r].at == Done(if t.fails then Failed else Ended)
  {
    var s, s' := Run(t, events), Run(t, events + [e]);
    Extend(t, events, e);
    RunKeepsInv(t, events);
    RunKeepsTold(t, events);
    hide Run, Inv, MutexInv, HolderInv;
    OthersAreUntouched(t, s, e, r);
    assert !HasEnd(s, r);
    StepperFacts(t, s, r);
    hide HasEnd;
    StoppedBefore(s);
    if e.Advance? {
      EndingStep(t, s, r, e.ready);
    } else {
      DropIsNoEnd(s, r);
    }
  }

  lemma StoppedBefore(s: State)
    requires forall x :: !HasEnd(s, x)
    ensures Stopped(s) <==> PendingReadWasDropped(s)
  {
    if r :| r in s.readers && StopsStream(s.readers[r].at) {
      assert !HasEnd(s, r);
    }
  }

  /** The step that tells a read of the end releases the lock with that outcome. */
  lemma EndingStep(t: Transport, s: State, r: Reader, ready: bool)
    requires r in s.readers && !HasEnd(s, r) && HasEnd(AdvanceReader(t, s, r, ready), r)
    ensures s.readers[r].at == Releasing(AdvanceReader(t, s, r, ready).readers[r].at.outcome)
    ensures AdvanceReader(t, s, r, ready).delivered == s.delivered
  {
    AdvanceParts(t, s, r, ready);
    hide AdvanceReader;
  }

  lemma DropIsNoEnd(s: State, r: Reader)
    requires r in s.readers && !HasEnd(s, r)
    ensures !HasEnd(DropReader(s, r), r)
  {
  }

  /** Whenever a read is told of an error or a cancellation, there was one. */
  lemma ErrorsAreReal(t: Transport, events: seq<Event>, r: Reader)
    requires r in Run(t, events).readers
    ensures Run(t, events).readers[r].at == Done(Failed) ==> t.fails && Run(t, events).delivered == t.chunks
    ensures Run(t, events).readers[r].at == Done(Cancelled) ==> Run(t, events).cancelled
  {
    RunKeepsTold(t, events);
    hide Run;
    assert Told(t, Run(t, events), Run(t, events).readers[r].at);
  }

  // ---------- who got what ----------

  /** The receivers of the chunks are different reads, each over with its chunk, and no other read has one. */
  ghost predicate ReceiptInv(s: State) {
    && |s.receivers| == |s.delivered| && Distinct(s.receivers)
    && (forall i :: 0 <= i < |s.receivers| ==> s.receivers[i] in s.readers && s.readers[s.receivers[i]].at == Done(Delivered(s.delivered[i])))
    && (forall r :: r in s.readers && s.readers[r].at.Done? && s.readers[r].at.outcome.Delivered? ==> r in s.receivers)
  }

  lemma NextKeepsReceipts(t: Transport, s: State, e: Event)
    requires ReceiptInv(s)
    ensures ReceiptInv(Next(t, s, e))
  {
    if e.Advance? && e.reader in s.readers {
      AdvanceKeepsReceipts(t, s, e.reader, e.ready);
    }
  }

  lemma AdvanceKeepsReceipts(t: Transport, s: State, r: Reader, ready: bool)
    requires ReceiptInv(s) && r in s.readers
    ensures ReceiptInv(AdvanceReader(t, s, r, ready))
  {
    var s', at := AdvanceReader(t, s, r, ready), s.readers[r].at;
    AdvanceFrame(t, s, r, ready);
    assert !at.Done? ==> r !in s.receivers;
    if at.Done? {
      DoneStays(t, s, r, ready);
    } else if at.Releasing? && at.outcome.Delivered? {
      ChunkIsHandedOver(t, s, r, ready);
      hide AdvanceReader;
      OneMoreReceipt(s, s', r, at.outcome.chunk);
    } else {
      NoHandOver(t, s, r, ready);
      hide AdvanceReader;
      NoMoreReceipts(s, s', r);
    }
  }

  lemma NoMoreReceipts(s: State, s': State, r: Reader)
    requires ReceiptInv(s) && r in s.readers && r !in s.receivers && s'.readers.Keys == s.readers.Keys
    requires s'.delivered == s.delivered && s'.receivers == s.receivers
    requires !(s'.readers[r].at.Done? && s'.readers[r].at.outcome.Delivered?)
    requires forall x :: x in s.readers && x != r ==> s'.readers[x] == s.readers[x]
    ensures ReceiptInv(s')
  {
    assert forall i :: 0 <= i < |s.receivers| ==> s.receivers[i] != r;
  }

  lemma DoneStays(t: Transport, s: State, r: Reader, ready: bool)
    requires r in s.readers && s.readers[r].at.Done?
    ensures AdvanceReader(t, s, r, ready) == s
  {
    assert s.readers[r := s.readers[r]] == s.readers;
  }

  lemma ChunkIsHandedOver(t: Transport, s: State, r: Reader, ready: bool)
    requires r in s.readers && s.readers[r].at.Releasing? && s.readers[r].at.outcome.Delivered?
    ensures var s', c := AdvanceReader(t, s, r, ready), s.readers[r].at.outcome.chunk;
            s'.delivered == s.delivered + [c] && s'.receivers == s.receivers + [r] && s'.readers[r].at == Done(Delivered(c))
  {
  }

  lemma NoHandOver(t: Transport, s: State, r: Reader, ready: bool)
    requires r in s.readers && !s.readers[r].at.Done? && !(s.readers[r].at.Releasing? && s.readers[r].at.outcome.Delivered?)
    ensures var s' := AdvanceReader(t, s, r, ready);
            && s'.delivered == s.delivered && s'.receivers == s.receivers
            && !(s'.readers[r].at.Done? && s'.readers[r].at.outcome.Delivered?)
  {
    AdvanceParts(t, s, r, ready);
    hide AdvanceReader, Produce;
  }

  lemma OneMoreReceipt(s: State, s': State, r: Reader, c: Chunk)
    requires ReceiptInv(s) && r in s.readers && r !in s.receivers && s'.readers.Keys == s.readers.Keys
    requires s'.delivered == s.delivered + [c] && s'.receivers == s.receivers + [r] && s'.readers[r].at == Done(Delivered(c))
    requires forall x :: x in s.readers && x != r ==> s'.readers[x] == s.readers[x]
    ensures ReceiptInv(s')
  {
    forall x | x in s'.readers && s'.readers[x].at.Done? && s'.readers[x].at.outcome.Delivered?
      ensures x in s'.receivers
    {
    }
  }

  lemma {:induction false} RunKeepsReceipts(t: Transport, events: seq<Event>)
    ensures ReceiptInv(Run(t, events))
  {
    if events != [] {
      RunKeepsReceipts(t, events[..|events| - 1]);
      NextKeepsReceipts(t, Run(t, events[..|events| - 1]), events[|events| - 1]);
    }
  }

  /**
   A read is over with a chunk exactly when it has a place in the order of deliveries; the chunk is
   the transport's at that place, and no two reads share a place.
   */
  lemma EachReadGetsItsChunk(t: Transport, events: seq<Event>)
    ensures var s := Run(t, events);
            && |s.receivers| == |s.delivered| <= |t.chunks| && Distinct(s.receivers)
            && (forall i :: 0 <= i < |s.receivers| ==> s.receivers[i] in s.readers && s.readers[s.receivers[i]].at == Done(Delivered(t.chunks[i])))
            && (forall r :: r in s.readers && s.readers[r].at.Done? && s.readers[r].at.outcome.Delivered? ==> r in s.receivers)
  {
    RunKeepsInv(t, events);
    RunKeepsReceipts(t, events);
    hide Run, MutexInv, FlagInv;
  }

  /** The read has not passed its second flag test, or has not even been called. */
  predicate BeforeLastTest(s: State, r: Reader) {
    r in s.readers ==> !PastLastTest(s.readers[r].at) && !(s.readers[r].at.Done? && s.readers[r].at.outcome.Delivered?)
  }

  /** Once the flag is set, a read that has yet to test it gets no chunk, however the schedule goes on. */
  lemma {:induction false} NoChunkPastTheFlag(t: Transport, events: seq<Event>, more: seq<Event>, r: Reader)
    requires Run(t, events).cancelled && BeforeLastTest(Run(t, events), r)
    ensures Run(t, events + more).cancelled && BeforeLastTest(Run(t, events + more), r)
  {
    if more == [] {
      assert events + more == events;
    } else {
      var init := more[..|more| - 1];
      assert (events + more)[..|events + more| - 1] == events + init;
      NoChunkPastTheFlag(t, events, init, r);
      StaysBeforeLastTest(t, Run(t, events + init), more[|more| - 1], r);
    }
  }

  lemma StaysBeforeLastTest(t: Transport, s: State, e: Event, r: Reader)
    requires s.cancelled && BeforeLastTest(s, r)
    ensures Next(t, s, e).cancelled && BeforeLastTest(Next(t, s, e), r)
  {
    FlagStays(t, s, e);
    if r in Next(t, s, e).readers {
      OthersAreUntouched(t, s, e, r);
      if e.Advance? && e.reader in s.readers {
        AdvanceParts(t, s, e.reader, e.ready);
      }
      hide AdvanceReader;
    }
  }

  // ---------- a close ends the read that holds the lock ----------

  /** How many of its own steps a read with the lock in hand needs at most once the flag is set. */
  function StepsLeft(at: Reading): nat {
    match at
    case Locked => 3
    case Clearing => 2
    case Taking => 3
    case Selecting(_) => 2
    case Polling(_) => 3
    case Got(_, _) => 2
    case Restoring(_, _) => 2
    case Releasing(_) => 1
    case _ => 0
  }

  function StepsOf(events: seq<Event>, r: Reader): nat {
    if events == [] then 0
    else StepsOf(events[..|events| - 1], r) + if events[|events| - 1].Advance? && events[|events| - 1].reader == r then 1 else 0
  }

  /** A read past the lock, under the flag, and how near it has come in so many own steps. */
  predicate Nearer(s: State, s': State, r: Reader, steps: nat)
    requires r in s.readers
  {
    && s'.cancelled && r in s'.readers && !s'.readers[r].at.Waiting?
    && (StepsLeft(s'.readers[r].at) == 0 || StepsLeft(s'.readers[r].at) + steps <= StepsLeft(s.readers[r].at))
  }

  lemma CancelledReadMoves(t: Transport, s: State, e: Event, r: Reader)
    requires s.cancelled && r in s.readers && !s.readers[r].at.Waiting?
    ensures Nearer(s, Next(t, s, e), r, if e.Advance? && e.reader == r then 1 else 0)
  {
    FlagStays(t, s, e);
    if e.Advance? && e.reader in s.readers {
      AdvanceFrame(t, s, e.reader, e.ready);
      AdvanceParts(t, s, e.reader, e.ready);
      hide AdvanceReader, Produce;
    } else if e.Drop? && e.reader in s.readers {
      DropFrame(s, e.reader);
    }
  }

  lemma NearerAndNearer(s: State, s1: State, s2: State, r: Reader, m: nat, n: nat)
    requires r in s.readers && Nearer(s, s1, r, m) && Nearer(s1, s2, r, n)
    ensures Nearer(s, s2, r, m + n)
  {
    hide StepsLeft;
  }

  lemma {:induction false} EveryOwnStepCounts(t: Transport, events: seq<Event>, more: seq<Event>, r: Reader)
    requires Run(t, events).cancelled && r in Run(t, events).readers && !Run(t, events).readers[r].at.Waiting?
    ensures Nearer(Run(t, events), Run(t, events + more), r, StepsOf(more, r))
  {
    hide Next, StepsLeft;
    if more == [] {
      assert events + more == events;
    } else {
      var init, e := more[..|more| - 1], more[|more| - 1];
      assert events + more == (events + init) + [e];
      Extend(t, events + init, e);
      EveryOwnStepCounts(t, events, init, r);
      hide Run;
      CancelledReadMoves(t, Run(t, events + init), e, r);
      NearerAndNearer(Run(t, events), Run(t, events + init), Run(t, events + more), r,
        StepsOf(init, r), if e.Advance? && e.reader == r then 1 else 0);
    }
  }

  /**
   Once the flag is set, a read with the lock in hand is over after three steps of its own, whatever
   happens in between and even if the transport is never ready.
   */
  lemma CancelledReadReturns(t: Transport, events: seq<Event>, more: seq<Event>, r: Reader)
    requires Run(t, events).cancelled && r in Run(t, events).readers && !Run(t, events).readers[r].at.Waiting?
    requires StepsOf(more, r) >= 3
    ensures var s' := Run(t, events + more); r in s'.readers && (s'.readers[r].at.Done? || s'.readers[r].at.Dropped?)
  {
    EveryOwnStepCounts(t, events, more, r);
    hide Run, StepsOf;
  }

  // ---------- releasing the transport ----------

  /** What a holder of the lock says about a missed try. */
  predicate HolderReleaseInv(s: State, at: Reading) {
    && (s.missed ==> at.Restoring? || (at.Releasing? && s.body.Some?) || at.Locked? || at.Clearing?)
    && (s.cancelled && s.closers == 0 && PastLastTest(at) ==> s.missed)
  }

  /**
   When the flag is set, every closer has tried the lock and nobody holds it, the body is still there
   exactly if a try came to nothing: it fell between a reader's last flag test and its release, or met
   a reservation.
   */
  ghost predicate ReleaseInv(s: State) {
    && (s.missed ==> s.cancelled)
    && (s.cancelled && s.closers == 0 && !s.mutex.lock.Held? ==> (s.body.Some? <==> s.missed))
    && (!s.mutex.lock.Held? && s.missed ==> s.body.Some?)
    && (s.mutex.lock.Held? && s.mutex.lock.id in s.readers ==> HolderReleaseInv(s, s.readers[s.mutex.lock.id].at))
  }

  lemma NextKeepsReleaseInv(t: Transport, s: State, e: Event)
    requires Inv(t, s) && ReleaseInv(s)
    ensures ReleaseInv(Next(t, s, e))
  {
    match e
    case Advance(r, ready) =>
      if r in s.readers {
        StepperFacts(t, s, r);
        AdvanceKeepsReleaseInv(t, s, r, ready);
      }
    case Drop(r) =>
      if r in s.readers {
        StepperFacts(t, s, r);
        hide Inv;
      }
    case Call(r) =>
    case SetFlag =>
    case TryClear =>
  }

  lemma AdvanceKeepsReleaseInv(t: Transport, s: State, r: Reader, ready: bool)
    requires r in s.readers && ReleaseInv(s)
    requires HoldsLock(s.readers[r].at) <==> s.mutex.lock == Held(r)
    requires s.mutex.lock == Held(r) ==> HolderInv(t, s, s.readers[r].at)
    ensures ReleaseInv(AdvanceReader(t, s, r, ready))
  {
    hide DeliveredTo;
  }

  lemma {:induction false} RunKeepsReleaseInv(t: Transport, events: seq<Event>)
    ensures ReleaseInv(Run(t, events))
  {
    if events != [] {
      var init := events[..|events| - 1];
      RunKeepsInv(t, init);
      RunKeepsReleaseInv(t, init);
      NextKeepsReleaseInv(t, Run(t, init), events[|events| - 1]);
    }
  }

  /** A reader in the middle of a poll: it runs on unless another thread interferes. */
  predicate MidPoll(at: Reading) {
    HoldsLock(at) && !at.Selecting?
  }

  /** The event does not fall inside a future poll. */
  predicate KeepsPollWhole(s: State, e: Event) {
    s.mutex.lock.Held? && s.mutex.lock.id in s.readers && MidPoll(s.readers[s.mutex.lock.id].at) ==> e.Advance? && e.reader == s.mutex.lock.id
  }

  /** No event falls inside a future poll, as on a single-threaded executor. */
  predicate PollsAreAtomic(t: Transport, events: seq<Event>) {
    events == [] ||
    (PollsAreAtomic(t, events[..|events| - 1]) && KeepsPollWhole(Run(t, events[..|events| - 1]), events[|events| - 1]))
  }

  /** No reader is dropped between being given the lock and being polled. */
  predicate ReservationsAreUsed(t: Transport, events: seq<Event>) {
    events == [] ||
    (&& ReservationsAreUsed(t, events[..|events| - 1])
     && var s, e := Run(t, events[..|events| - 1]), events[|events| - 1];
        e.Drop? ==> s.mutex.lock != Reserved(e.reader))
  }

  /** With whole polls and used reservations, a missed try has a reader coming that will clear the body. */
  predicate InGoodHands(s: State) {
    s.missed ==>
      || s.mutex.lock.Reserved?
      || (s.mutex.lock.Held? && s.mutex.lock.id in s.readers && var at := s.readers[s.mutex.lock.id].at; at.Locked? || at.Clearing?)
  }

  lemma NextStaysInGoodHands(t: Transport, s: State, e: Event)
    requires Inv(t, s) && ReleaseInv(s) && InGoodHands(s)
    requires KeepsPollWhole(s, e) && (e.Drop? ==> s.mutex.lock != Reserved(e.reader))
    ensures InGoodHands(Next(t, s, e))
  {
    if (e.Advance? || e.Drop?) && e.reader in s.readers {
      StepperFacts(t, s, e.reader);
    }
    hide Inv, HolderInv;
  }

  lemma {:induction false} AtomicPollsStayInGoodHands(t: Transport, events: seq<Event>)
    requires PollsAreAtomic(t, events) && ReservationsAreUsed(t, events)
    ensures InGoodHands(Run(t, events))
  {
    if events != [] {
      var init := events[..|events| - 1];
      AtomicPollsStayInGoodHands(t, init);
      RunKeepsInv(t, init);
      RunKeepsReleaseInv(t, init);
      NextStaysInGoodHands(t, Run(t, init), events[|events| - 1]);
    }
  }

  /**
   Closing releases the transport exactly when no try came to nothing. None does when polls are atomic
   and no reader is dropped while the lock is reserved for it.
   */
  lemma ClosedMeansReleased(t: Transport, events: seq<Event>)
    requires var s := Run(t, events); s.cancelled && s.closers == 0 && s.mutex.lock.Free?
    ensures Run(t, events).body.None? <==> !Run(t, events).missed
    ensures PollsAreAtomic(t, events) && ReservationsAreUsed(t, events) ==> Run(t, events).body.None?
  {
    RunKeepsReleaseInv(t, events);
    if PollsAreAtomic(t, events) && ReservationsAreUsed(t, events) {
      AtomicPollsStayInGoodHands(t, events);
    }
  }

  // ---------- runs step by step ----------

  /** One more event: what it leads to, and what it means for the conditions above. */
  lemma Extend(t: Transport, events: seq<Event>, e: Event)
    ensures Run(t, events + [e]) == Next(t, Run(t, events), e)
    ensures PollsAreAtomic(t, events + [e]) <==> PollsAreAtomic(t, events) && KeepsPollWhole(Run(t, events), e)
    ensures ReservationsAreUsed(t, events + [e]) <==>
            ReservationsAreUsed(t, events) && (e.Drop? ==> Run(t, events).mutex.lock != Reserved(e.reader))
  {
    assert (events + [e])[..|events|] == events;
  }

  predicate IsAt(s: State, r: Reader, at: Reading) {
    r in s.readers && s.readers[r].at == at
  }

  /** Nothing but the place of one reader and the body differs. */
  predicate SameElse(s: State, s': State, r: Reader) {
    && s'.cancelled == s.cancelled && s'.closers == s.closers && s'.mutex == s.mutex
    && s'.missed == s.missed && s'.delivered == s.delivered && s'.readers.Keys == s.readers.Keys
    && forall x :: x in s.readers && x != r ==> s'.readers[x] == s.readers[x]
  }

  /** A step of the holder on its way to the transport or back. */
  lemma HolderStep(t: Transport, events: seq<Event>, r: Reader, at: Reading, ready: bool)
    requires IsAt(Run(t, events), r, at) && Run(t, events).mutex.lock == Held(r)
    requires at.Locked? || at.Taking? || at.Selecting? || at.Polling? || at.Got? || at.Restoring?
    ensures var s, s' := Run(t, events), Run(t, events + [Advance(r, ready)]);
            && IsAt(s', r, NextAt(t, s, r, at, ready)) && SameElse(s, s', r)
            && s'.body == if at.Taking? then None else if at.Restoring? then Some(at.position) else s.body
    ensures PollsAreAtomic(t, events) ==> PollsAreAtomic(t, events + [Advance(r, ready)])
    ensures ReservationsAreUsed(t, events) ==> ReservationsAreUsed(t, events + [Advance(r, ready)])
  {
    Extend(t, events, Advance(r, ready));
    hide Run, PollsAreAtomic, ReservationsAreUsed, NextAt;
  }

  // ---------- reads in turn ----------

  /** The reader takes so many steps, and the transport is ready whenever it is polled. */
  function WithSteps(events: seq<Event>, r: Reader, n: nat): seq<Event> {
    if n == 0 then events else WithSteps(events, r, n - 1) + [Advance(r, true)]
  }

  /** A read from its call to its end takes eight steps at most. */
  function WithRead(events: seq<Event>, r: Reader): seq<Event> {
    WithSteps(events + [Call(r)], r, 8)
  }

  /** One read after the other, each by itself. */
  function InTurn(n: nat): seq<Event> {
    if n == 0 then [] else WithRead(InTurn(n - 1), n - 1)
  }

  /** No one reads, and nothing is closed. */
  predicate Quiet(s: State) {
    s.mutex == UNLOCKED && !s.cancelled
  }

  /** The step of a read that is alone. */
  lemma AloneStep(t: Transport, events: seq<Event>, r: Reader, n: nat)
    ensures Run(t, WithSteps(events, r, n + 1)) == Next(t, Run(t, WithSteps(events, r, n)), Advance(r, true))
  {
    Extend(t, WithSteps(events, r, n), Advance(r, true));
    hide Run, Next;
  }

  /** A new read gets the lock. */
  lemma AloneEnters(t: Transport, events: seq<Event>, r: Reader)
    requires Quiet(Run(t, events)) && r !in Run(t, events).readers
    ensures var s, s' := Run(t, events), Run(t, WithSteps(events + [Call(r)], r, 1));
            s' == s.(mutex := Mutex(Held(r), []), readers := s.readers[r := ReaderState(Locked, false)])
  {
    Extend(t, events, Call(r));
    AloneStep(t, events + [Call(r)], r, 0);
    assert WithSteps(events + [Call(r)], r, 0) == events + [Call(r)];
    hide Run;
  }

  /** The read is at its place with the lock in hand. */
  function OnItsWay(s: State, r: Reader, at: Reading, body: Option<nat>): State {
    s.(mutex := Mutex(Held(r), []), readers := s.readers[r := ReaderState(at, false)], body := body)
  }

  /** One step of the read on its way. */
  lemma WayStep(t: Transport, events: seq<Event>, s: State, r: Reader, n: nat, at: Reading, body: Option<nat>)
    requires Quiet(s) && Run(t, WithSteps(events, r, n)) == OnItsWay(s, r, at, body)
    requires HoldsLock(at) && !at.Releasing? && !at.Clearing?
    ensures Run(t, WithSteps(events, r, n + 1)) ==
            OnItsWay(s, r, NextAt(t, OnItsWay(s, r, at, body), r, at, true),
                     if at.Taking? then None else if at.Restoring? then Some(at.position) else body)
  {
    AloneStep(t, events, r, n);
    hide Run, WithSteps, NextAt;
  }

  /** The read lets go of the lock; a read that is over takes no more steps. */
  lemma AloneLeaves(t: Transport, events: seq<Event>, s: State, r: Reader, n: nat, outcome: Outcome, body: Option<nat>)
    requires n < 8 && Quiet(s) && Run(t, WithSteps(events, r, n)) == OnItsWay(s, r, Releasing(outcome), body)
    ensures var s' := Run(t, WithSteps(events, r, 8));
            && Quiet(s') && s'.body == body && s'.readers == s.readers[r := ReaderState(Done(outcome), false)]
            && s'.delivered == if outcome.Delivered? then s.delivered + [outcome.chunk] else s.delivered
  {
    AloneStep(t, events, r, n);
    hide Run, WithSteps;
    StaysOver(t, events, r, n + 1, 8, outcome);
  }

  lemma {:induction false} StaysOver(t: Transport, events: seq<Event>, r: Reader, n: nat, end: nat, outcome: Outcome)
    requires n <= end && IsAt(Run(t, WithSteps(events, r, n)), r, Done(outcome))
    ensures Run(t, WithSteps(events, r, end)) == Run(t, WithSteps(events, r, n))
    decreases end - n
  {
    hide Run, WithSteps, AdvanceReader;
    if n < end {
      AloneStep(t, events, r, n);
      DoneStays(t, Run(t, WithSteps(events, r, n)), r, true);
      StaysOver(t, events, r, n + 1, end, outcome);
    }
  }

  lemma AloneFindsNothing(t: Transport, events: seq<Event>, r: Reader)
    requires Quiet(Run(t, events)) && r !in Run(t, events).readers && Run(t, events).body.None?
    ensures var s, s' := Run(t, events), Run(t, WithRead(events, r));
            && Quiet(s') && s'.body.None? && s'.readers == s.readers[r := ReaderState(Done(Ended), false)]
            && s'.delivered == s.delivered
  {
    hide Run, WithSteps, Next;
    var s, a := Run(t, events), events + [Call(r)];
    AloneEnters(t, events, r);
    WayStep(t, a, s, r, 1, Locked, None);
    WayStep(t, a, s, r, 2, Taking, None);
    AloneLeaves(t, a, s, r, 3, Ended, None);
  }

  lemma AlonePolls(t: Transport, events: seq<Event>, r: Reader)
    requires Quiet(Run(t, events)) && r !in Run(t, events).readers && Run(t, events).body.Some?
    ensures var s, p := Run(t, events), Run(t, events).body.value;
            Run(t, WithSteps(events + [Call(r)], r, 5)) == OnItsWay(s, r, Got(Produce(t, p), p + 1), None)
  {
    hide Run, WithSteps, Next, Produce;
    var s, a := Run(t, events), events + [Call(r)];
    var p := s.body.value;
    AloneEnters(t, events, r);
    WayStep(t, a, s, r, 1, Locked, Some(p));
    WayStep(t, a, s, r, 2, Taking, Some(p));
    WayStep(t, a, s, r, 3, Selecting(p), None);
    WayStep(t, a, s, r, 4, Polling(p), None);
  }

  lemma AloneReads(t: Transport, events: seq<Event>, r: Reader)
    requires Quiet(Run(t, events)) && r !in Run(t, events).readers && Run(t, events).body.Some?
    ensures var s, s' := Run(t, events), Run(t, WithRead(events, r));
            var p := s.body.value;
            && Quiet(s')
            && if p < |t.chunks| then
                 && s'.body == Some(p + 1) && s'.delivered == s.delivered + [t.chunks[p]]
                 && s'.readers == s.readers[r := ReaderState(Done(Delivered(t.chunks[p])), false)]
               else
                 && s'.body.None? && s'.delivered == s.delivered
                 && s'.readers == s.readers[r := ReaderState(Done(if t.fails then Failed else Ended), false)]
  {
    hide Run, WithSteps, Next;
    var s, a := Run(t, events), events + [Call(r)];
    var p, o := s.body.value, Produce(t, s.body.value);
    AlonePolls(t, events, r);
    WayStep(t, a, s, r, 5, Got(o, p + 1), None);
    if p < |t.chunks| {
      WayStep(t, a, s, r, 6, Restoring(t.chunks[p], p + 1), None);
      AloneLeaves(t, a, s, r, 7, o, Some(p + 1));
    } else {
      AloneLeaves(t, a, s, r, 6, o, None);
    }
  }

  /** What the reads are told in turn: chunk after chunk, once the error if there is one, then the end. */
  function Heard(t: Transport, k: nat): Outcome {
    if k < |t.chunks| then Delivered(t.chunks[k]) else if k == |t.chunks| && t.fails then Failed else Ended
  }

  /** The first `n` reads have been made, and told what the transport holds for them. */
  ghost predicate HeardInTurn(t: Transport, s: State, n: nat) {
    && Quiet(s)
    && s.delivered == (if n <= |t.chunks| then t.chunks[..n] else t.chunks)
    && s.body == (if n <= |t.chunks| then Some(n) else None)
    && (forall k: Reader :: k in s.readers <==> k < n)
    && (forall k :: k in s.readers ==> s.readers[k].at == Done(Heard(t, k)))
  }

  lemma NothingHeardYet(t: Transport)
    ensures HeardInTurn(t, Run(t, []), 0)
  {
    assert Run(t, []) == START;
    hide Run;
  }

  lemma OneMoreHeard(t: Transport, events: seq<Event>, n: nat)
    requires HeardInTurn(t, Run(t, events), n)
    ensures HeardInTurn(t, Run(t, WithRead(events, n)), n + 1)
  {
    hide Run, WithRead;
    if n <= |t.chunks| {
      AloneReads(t, events, n);
    } else {
      AloneFindsNothing(t, events, n);
    }
  }

  /** Reads in turn, without a close, hear the whole transport. */
  lemma {:induction false} ReadsInTurn(t: Transport, n: nat)
    ensures HeardInTurn(t, Run(t, InTurn(n)), n)
  {
    hide WithRead, Run, HeardInTurn;
    if n == 0 {
      NothingHeardYet(t);
    } else {
      ReadsInTurn(t, n - 1);
      OneMoreHeard(t, InTurn(n - 1), n - 1);
    }
  }

  // ---------- both conditions are needed ----------

  /** The first reader, alone, has the lock and waits for the transport. */
  const ONE_WAITS := [Call(0)] + [Advance(0, false)] + [Advance(0, false)] + [Advance(0, false)]

  lemma FirstReaderWaits(t: Transport)
    ensures var s := Run(t, ONE_WAITS);
            && IsAt(s, 0, Selecting(0)) && s.readers.Keys == {0} && s.mutex == Mutex(Held(0), [])
            && s.body.None? && !s.cancelled && s.closers == 0 && !s.missed
    ensures PollsAreAtomic(t, ONE_WAITS) && ReservationsAreUsed(t, ONE_WAITS)
  {
    var a := [Call(0)];
    FirstReaderEnters(t);
    hide Run, PollsAreAtomic, ReservationsAreUsed;
    HolderStep(t, a + [Advance(0, false)], 0, Locked, false);
    HolderStep(t, a + [Advance(0, false)] + [Advance(0, false)], 0, Taking, false);
  }

  lemma FirstReaderEnters(t: Transport)
    ensures var s := Run(t, [Call(0)] + [Advance(0, false)]);
            && IsAt(s, 0, Locked) && s.readers.Keys == {0} && s.mutex == Mutex(Held(0), [])
            && s.body == Some(0) && !s.cancelled && s.closers == 0 && !s.missed
    ensures PollsAreAtomic(t, [Call(0)] + [Advance(0, false)]) && ReservationsAreUsed(t, [Call(0)] + [Advance(0, false)])
  {
    assert [] + [Call(0)] == [Call(0)];
    Extend(t, [], Call(0));
    Extend(t, [Call(0)], Advance(0, false));
  }

  /** The chunk arrives and passes the second flag test. */
  function WithArrival(events: seq<Event>): seq<Event> {
    events + [Advance(0, true)] + [Advance(0, true)] + [Advance(0, true)]
  }

  lemma ChunkArrives(t: Transport, events: seq<Event>)
    requires var s := Run(t, events);
             IsAt(s, 0, Selecting(0)) && s.mutex.lock == Held(0) && !s.cancelled && |t.chunks| > 0
    ensures var s, s' := Run(t, events), Run(t, WithArrival(events));
            IsAt(s', 0, Restoring(t.chunks[0], 1)) && SameElse(s, s', 0)
    ensures PollsAreAtomic(t, events) ==> PollsAreAtomic(t, WithArrival(events))
    ensures ReservationsAreUsed(t, events) ==> ReservationsAreUsed(t, WithArrival(events))
  {
    hide Run, PollsAreAtomic, ReservationsAreUsed;
    var step := Advance(0, true);
    HolderStep(t, events, 0, Selecting(0), true);
    HolderStep(t, events + [step], 0, Polling(0), true);
    HolderStep(t, events + [step] + [step], 0, Got(Delivered(t.chunks[0]), 1), true);
  }

  /** The body is put back and the lock let go. */
  function WithReturn(events: seq<Event>): seq<Event> {
    events + [Advance(0, true)] + [Advance(0, true)]
  }

  lemma BodyReturns(t: Transport, events: seq<Event>, c: Chunk)
    requires var s := Run(t, events); IsAt(s, 0, Restoring(c, 1)) && s.mutex.lock == Held(0)
    ensures var s, s' := Run(t, events), Run(t, WithReturn(events));
            && s'.body == Some(1) && s'.cancelled == s.cancelled && s'.closers == s.closers && s'.missed == s.missed
            && s'.mutex == s.mutex.Release() && s'.readers.Keys == s.readers.Keys
            && forall x :: x in s.readers && x != 0 ==> s'.readers[x] == s.readers[x]
    ensures PollsAreAtomic(t, events) ==> PollsAreAtomic(t, WithReturn(events))
    ensures ReservationsAreUsed(t, events) ==> ReservationsAreUsed(t, WithReturn(events))
  {
    var step := Advance(0, true);
    HolderStep(t, events, 0, Restoring(c, 1), true);
    Extend(t, events + [step], step);
    hide Run, PollsAreAtomic, ReservationsAreUsed;
    AdvanceParts(t, Run(t, events + [step]), 0, true);
    hide AdvanceReader;
  }

  /** Close runs on another thread between the last flag test and the release of the guard. */
  function InsideTheWindow(): seq<Event> {
    WithReturn(WithArrival(ONE_WAITS) + [SetFlag] + [TryClear])
  }

  /** The window is real: the body is put back after close and stays until the next read. */
  lemma CloseInsideTheWindow(c: Chunk)
    ensures var t := Transport([c], false);
            var s := Run(t, InsideTheWindow());
            && ReservationsAreUsed(t, InsideTheWindow())
            && s.cancelled && s.closers == 0 && s.mutex.lock.Free? && s.body.Some?
  {
    hide Run, PollsAreAtomic, ReservationsAreUsed, WithArrival, WithReturn;
    var t := Transport([c], false);
    FirstReaderWaits(t);
    ChunkArrives(t, ONE_WAITS);
    var a := WithArrival(ONE_WAITS);
    Extend(t, a, SetFlag);
    Extend(t, a + [SetFlag], TryClear);
    BodyReturns(t, a + [SetFlag] + [TryClear], c);
  }

  /** A second reader queues up and the first one lets go of the lock. */
  const SECOND_IS_NEXT := WithReturn(WithArrival(ONE_WAITS + [Call(1)] + [Advance(1, false)]))

  lemma SecondReaderQueues(t: Transport)
    ensures var s := Run(t, ONE_WAITS + [Call(1)] + [Advance(1, false)]);
            && IsAt(s, 0, Selecting(0)) && IsAt(s, 1, Waiting) && s.mutex == Mutex(Held(0), [1])
            && !s.cancelled && s.closers == 0 && !s.missed
    ensures PollsAreAtomic(t, ONE_WAITS + [Call(1)] + [Advance(1, false)])
  {
    FirstReaderWaits(t);
    Extend(t, ONE_WAITS, Call(1));
    Extend(t, ONE_WAITS + [Call(1)], Advance(1, false));
    hide Run, PollsAreAtomic, ReservationsAreUsed;
  }

  /** Close finds the lock reserved for the second reader, which is dropped before it is polled again. */
  function DroppedWaiter(): seq<Event> {
    SECOND_IS_NEXT + [SetFlag] + [TryClear] + [Drop(1)]
  }

  /** Even with whole polls, a waiter dropped with the lock reserved for it leaves the body behind. */
  lemma DroppedWaiterKeepsBody(c: Chunk)
    ensures var t := Transport([c], false);
            var s := Run(t, DroppedWaiter());
            && PollsAreAtomic(t, DroppedWaiter())
            && s.cancelled && s.closers == 0 && s.mutex.lock.Free? && s.body.Some?
  {
    hide Run, PollsAreAtomic, ReservationsAreUsed, WithArrival, WithReturn;
    var t := Transport([c], false);
    SecondReaderQueues(t);
    ChunkArrives(t, ONE_WAITS + [Call(1)] + [Advance(1, false)]);
    BodyReturns(t, WithArrival(ONE_WAITS + [Call(1)] + [Advance(1, false)]), c);
    Extend(t, SECOND_IS_NEXT, SetFlag);
    Extend(t, SECOND_IS_NEXT + [SetFlag], TryClear);
    Extend(t, SECOND_IS_NEXT + [SetFlag] + [TryClear], Drop(1));
  }
}
