/**
 The WebSocket of crates/tlsurl-core/src/websocket.rs as interleaved steps of send, recv, close and
 abort calls over two locked slots and two flags that are only ever set.

 Every flag test, lock operation and slot access is its own step, so the schedules include all those
 in which a whole future poll is atomic. The socket's answers, timeouts and the choice of who runs next are inputs.
 */
module WebSocket {
  import opened Wrappers
  import opened FairMutex

  datatype Side = Tx | Rx

  datatype Kind = Send | Recv | Close | Abort

  datatype Message = Sent | Data | Ping | CloseFrame | EndOfStream

  datatype Code = CLOSED | CANCELLED | TIMEOUT | TRANSPORT | INVALID_REQUEST

  /** How a call, or one awaited stage of it, ends. `Abandoned` is a dropped future. */
  datatype Outcome = Good(message: Message) | Fail(code: Code) | Abandoned

  /** The awaited parts of the calls, each on one slot. */
  datatype Stage = SendMessage | RecvMessage | FlushReply(message: Message) | SendClose | AwaitClose {
    function Slot(): Side {
      if RecvMessage? || AwaitClose? then Rx else Tx
    }

    /** `operation` also watches the closing flag; `bounded` alone does not. */
    predicate WatchesClosing() {
      SendMessage? || RecvMessage?
    }
  }

  datatype Phase =
    | Start
    | Suspended(stage: Stage, held: bool)    // between polls, about to test the cancellation flag
    | Testing(stage: Stage, held: bool)      // about to test the closing flag
    | Polling(stage: Stage, held: bool)      // about to poll the lock or the socket
    | Dropping(stage: Stage, result: Outcome)  // guard going away, about to test the flag
    | Freeing(stage: Stage, result: Outcome)   // guard tested, about to release the lock
    | Returned(stage: Stage, result: Outcome)  // awaited stage over, no guard
    | Closing(result: Outcome)               // about to set the closing flag
    | Aborting(result: Outcome)              // about to set the cancellation flag
    | TryingTx(result: Outcome)
    | TryingRx(result: Outcome)
    | Done(result: Outcome)

  /**
   `trying` holds the calls whose abort has set the flag and not yet tried this slot. `missed` records
   that the last try found a socket half it could not drop: the lock was held by a guard that had
   already tested the flag, or reserved.
   */
  datatype Slot = Slot(mutex: Mutex, full: bool, missed: bool, trying: set<Id>)

  datatype Shared = Shared(cancelled: bool, closing: bool, tx: Slot, rx: Slot) {
    function At(side: Side): Slot {
      if side.Tx? then tx else rx
    }
  }

  /** `afterClosing` and `afterCancel` remember the flags at the time of the call. */
  datatype Op = Op(kind: Kind, phase: Phase, afterClosing: bool, afterCancel: bool)

  datatype State = State(shared: Shared, ops: map<Id, Op>)

  /** What the world answers: nothing yet, a timeout, or a result; and whether arguments were valid. */
  datatype Input = Pending | TimedOut | Ready(result: Outcome) | BadArguments

  datatype Event = Call(id: Id, kind: Kind) | Advance(id: Id, input: Input) | Drop(id: Id)

  const OPEN := Slot(UNLOCKED, true, false, {})
  const START := State(Shared(false, false, OPEN, OPEN), map[])

  // ---------- steps ----------

  function Begin(sh: Shared, kind: Kind, input: Input): Phase {
    match kind
    case Send =>
      if sh.closing then Done(Fail(CLOSED))
      else if input.BadArguments? then Done(Fail(INVALID_REQUEST))
      else Suspended(SendMessage, false)
    case Recv => if sh.closing then Done(Fail(CLOSED)) else Suspended(RecvMessage, false)
    case Close =>
      if input.BadArguments? then Done(Fail(INVALID_REQUEST))
      else if sh.closing || sh.cancelled then Done(Good(Sent))
      else Closing(Good(Sent))
    case Abort => Aborting(Good(Sent))
  }

  /** A stage that is over with its guard gone: what the call does next. */
  function Continue(stage: Stage, result: Outcome): Phase {
    if result.Abandoned? then Done(Abandoned)
    else match stage
      case SendMessage => if result.Fail? && result.code != CLOSED then Aborting(result) else Done(result)
      case RecvMessage =>
        if result.Fail? then (if result.code != CLOSED then Aborting(result) else Done(result))
        else if result.message.Ping? || result.message.CloseFrame? then Suspended(FlushReply(result.message), false)
        else if result.message.EndOfStream? then Closing(result)
        else Done(result)
      case FlushReply(message) =>
        if result.Fail? then Aborting(result)
        else if message.Ping? then Done(Good(message))
        else Closing(Good(message))
      case SendClose => if result.Fail? then Aborting(result) else Polling(AwaitClose, false)
      case AwaitClose => Aborting(if result.Good? then Good(Sent) else result)
  }

  /** The end of an awaited stage, by way of its guard if it has one. */
  function Finish(stage: Stage, held: bool, result: Outcome): Phase {
    if held then Dropping(stage, result) else Returned(stage, result)
  }

  /** The lock is polled first, then the socket, then the timer. */
  function PollPhase(me: Id, sh: Shared, stage: Stage, held: bool, input: Input): Phase {
    if !held && sh.At(stage.Slot()).mutex.Admits(me) then
      if sh.At(stage.Slot()).full then Polling(stage, true) else Dropping(stage, Fail(CLOSED))
    else if input.TimedOut? then Finish(stage, held, Fail(TIMEOUT))
    else if held && input.Ready? && !input.result.Abandoned? then
      if stage.AwaitClose? && input.result.Good? && !input.result.message.CloseFrame? && !input.result.message.EndOfStream? then
        Polling(stage, true)
      else Dropping(stage, input.result)
    else Suspended(stage, held)
  }

  function NextPhase(me: Id, sh: Shared, op: Op, input: Input): Phase {
    match op.phase
    case Start => Begin(sh, op.kind, input)
    case Suspended(stage, held) => if sh.cancelled then Finish(stage, held, Fail(CANCELLED)) else Testing(stage, held)
    case Testing(stage, held) =>
      if stage.WatchesClosing() && sh.closing then Finish(stage, held, Fail(CLOSED)) else Polling(stage, held)
    case Polling(stage, held) => PollPhase(me, sh, stage, held, input)
    case Dropping(stage, result) => Freeing(stage, result)
    case Freeing(stage, result) => Returned(stage, result)
    case Returned(stage, result) => Continue(stage, result)
    case Closing(result) => if op.kind.Close? then Suspended(SendClose, false) else Aborting(result)
    case Aborting(result) => TryingTx(result)
    case TryingTx(result) => TryingRx(result)
    case TryingRx(result) => Done(result)
    case Done(result) => Done(result)
  }

  /** The one slot a phase has locked, if any. */
  function Holding(p: Phase): Option<Side> {
    match p
    case Suspended(stage, held) => if held then Some(stage.Slot()) else None
    case Testing(stage, held) => if held then Some(stage.Slot()) else None
    case Polling(stage, held) => if held then Some(stage.Slot()) else None
    case Dropping(stage, _) => Some(stage.Slot())
    case Freeing(stage, _) => Some(stage.Slot())
    case _ => None
  }

  /** The phase is on its way to the lock of this slot. */
  predicate WaitsFor(p: Phase, side: Side) {
    match p
    case Suspended(stage, held) => !held && stage.Slot() == side
    case Testing(stage, held) => !held && stage.Slot() == side
    case Polling(stage, held) => !held && stage.Slot() == side
    case _ => false
  }

  /** `outOfReach` says that nobody is bound to test the flag before the lock is free again. */
  function Try(slot: Slot, me: Id, outOfReach: bool): Slot {
    if slot.mutex.lock.Free? then slot.(full := false, missed := false, trying := slot.trying - {me})
    else slot.(trying := slot.trying - {me}, missed := slot.missed || (outOfReach && slot.full))
  }

  /** The holder of the slot has tested the flag for the last time. */
  predicate IsFreeing(s: State, side: Side) {
    var lock := s.shared.At(side).mutex.lock;
    lock.Held? && lock.id in s.ops && s.ops[lock.id].phase.Freeing?
  }

  predicate OutOfReach(s: State, side: Side) {
    IsFreeing(s, side) || s.shared.At(side).mutex.lock.Reserved?
  }

  /** What a step does to the mutex of a slot: a wait that is over gives up its place in line. */
  function NextMutex(me: Id, sh: Shared, p: Phase, input: Input, side: Side): Mutex {
    var mutex := sh.At(side).mutex;
    if WaitsFor(p, side) then
      match p
      case Suspended(_, _) => if sh.cancelled then mutex.GiveUp(me) else mutex
      case Testing(stage, _) => if stage.WatchesClosing() && sh.closing then mutex.GiveUp(me) else mutex
      case _ => if mutex.Admits(me) || !input.TimedOut? then mutex.Ask(me) else mutex.GiveUp(me)
    else if p.Freeing? && p.stage.Slot() == side then mutex.Release()
    else mutex
  }

  /** What a step does to the contents of a slot and to those that must try it. */
  function NextSlot(me: Id, s: State, p: Phase, input: Input, side: Side): Slot {
    var slot := s.shared.At(side).(mutex := NextMutex(me, s.shared, p, input, side));
    if p.Dropping? && p.stage.Slot() == side && s.shared.cancelled then slot.(full := false, missed := false)
    else if p.Aborting? then slot.(trying := slot.trying + {me})
    else if (if side.Tx? then p.TryingTx? else p.TryingRx?) then Try(slot, me, OutOfReach(s, side))
    else slot
  }

  function NextShared(me: Id, s: State, p: Phase, input: Input): Shared {
    Shared(s.shared.cancelled || p.Aborting?, s.shared.closing || p.Closing?, NextSlot(me, s, p, input, Tx), NextSlot(me, s, p, input, Rx))
  }

  function DropPhase(p: Phase): Phase {
    match p
    case Start => Done(Abandoned)
    case Suspended(stage, held) => Finish(stage, held, Abandoned)
    case _ => p
  }

  /** A future dropped in line leaves it. */
  function DropMutex(me: Id, p: Phase, mutex: Mutex, side: Side): Mutex {
    if p.Suspended? && WaitsFor(p, side) then mutex.GiveUp(me) else mutex
  }

  function DropShared(me: Id, sh: Shared, p: Phase): Shared {
    sh.(tx := sh.tx.(mutex := DropMutex(me, p, sh.tx.mutex, Tx)), rx := sh.rx.(mutex := DropMutex(me, p, sh.rx.mutex, Rx)))
  }

  function Next(s: State, e: Event): State {
    match e
    case Call(id, kind) =>
      if id in s.ops then s else s.(ops := s.ops[id := Op(kind, Start, s.shared.closing, s.shared.cancelled)])
    case Advance(id, input) =>
      if id !in s.ops then s
      else
        var op := s.ops[id];
        State(NextShared(id, s, op.phase, input), s.ops[id := op.(phase := NextPhase(id, s.shared, op, input))])
    case Drop(id) =>
      // A future is dropped where it is suspended; abort itself is not a future.
      if id !in s.ops || s.ops[id].kind.Abort? then s
      else
        var op := s.ops[id];
        State(DropShared(id, s.shared, op.phase), s.ops[id := op.(phase := DropPhase(op.phase))])
  }

  function Run(events: seq<Event>): State {
    if events == [] then START else Next(Run(events[..|events| - 1]), events[|events| - 1])
  }

  // ---------- locks ----------

  /** Exactly the holder is inside the slot, and only calls on their way to it are in line. */
  ghost predicate MutexInv(s: State, side: Side) {
    var mutex := s.shared.At(side).mutex;
    && Sound(mutex)
    && (mutex.lock.Held? ==> mutex.lock.id in s.ops)
    && (forall o :: o in s.ops ==> (Holding(s.ops[o].phase) == Some(side) <==> mutex.lock == Held(o)))
    && (forall o :: mutex.InLine(o) ==> o in s.ops && WaitsFor(s.ops[o].phase, side))
  }

  /** How one call stands with a mutex. */
  predicate Stands(mutex: Mutex, id: Id, p: Phase, side: Side) {
    && (Holding(p) == Some(side) <==> mutex.lock == Held(id))
    && (mutex.InLine(id) ==> WaitsFor(p, side))
  }

  /** A change of the mutex by one call that leaves all others where they are. */
  ghost predicate OnlyMoves(mutex: Mutex, mutex': Mutex, id: Id) {
    && Sound(mutex')
    && (forall x :: x != id ==> (mutex'.InLine(x) <==> mutex.InLine(x)))
    && (mutex'.lock == mutex.lock || mutex'.lock == Held(id) || !mutex'.lock.Held?)
    && (mutex.lock.Held? && mutex.lock.id != id ==> mutex'.lock == mutex.lock)
  }

  lemma OneCallMoved(s: State, s': State, id: Id, op: Op, side: Side)
    requires MutexInv(s, side) && s'.ops == s.ops[id := op]
    requires OnlyMoves(s.shared.At(side).mutex, s'.shared.At(side).mutex, id)
    requires Stands(s'.shared.At(side).mutex, id, op.phase, side)
    ensures MutexInv(s', side)
  {
    hide Mutex.InLine, Sound, Holding, WaitsFor;
  }

  /** One step takes a mutex and the phase of the stepping call from agreement to agreement. */
  lemma StepMovesMutex(me: Id, sh: Shared, op: Op, input: Input, side: Side)
    requires Sound(sh.At(side).mutex) && Stands(sh.At(side).mutex, me, op.phase, side)
    ensures var mutex' := NextMutex(me, sh, op.phase, input, side);
            OnlyMoves(sh.At(side).mutex, mutex', me) && Stands(mutex', me, NextPhase(me, sh, op, input), side)
  {
    var mutex, p := sh.At(side).mutex, op.phase;
    if WaitsFor(p, side) {
      WaiterMovesMutex(me, sh, op, input, side);
    } else if p.Freeing? && p.stage.Slot() == side {
      hide Mutex.Release, Mutex.InLine, Sound;
      ReleaseSpec(mutex);
    } else {
      hide Mutex.InLine, Sound;
      OtherPhasesStay(me, sh, op, input, side);
    }
  }

  lemma WaiterMovesMutex(me: Id, sh: Shared, op: Op, input: Input, side: Side)
    requires Sound(sh.At(side).mutex) && Stands(sh.At(side).mutex, me, op.phase, side) && WaitsFor(op.phase, side)
    ensures var mutex' := NextMutex(me, sh, op.phase, input, side);
            OnlyMoves(sh.At(side).mutex, mutex', me) && Stands(mutex', me, NextPhase(me, sh, op, input), side)
  {
    hide Mutex.Ask, Mutex.GiveUp, Mutex.InLine, Sound;
    AskSpec(sh.At(side).mutex, me);
    GiveUpSpec(sh.At(side).mutex, me);
  }

  /** A phase that is neither on its way to the slot nor leaving it stays as it is with it, or starts on its way. */
  lemma OtherPhasesStay(me: Id, sh: Shared, op: Op, input: Input, side: Side)
    requires !WaitsFor(op.phase, side) && !(op.phase.Freeing? && op.phase.stage.Slot() == side)
    ensures Holding(NextPhase(me, sh, op, input)) == Some(side) <==> Holding(op.phase) == Some(side)
  {
    hide Mutex.Admits;
  }

  lemma NextKeepsMutex(s: State, e: Event, side: Side)
    requires MutexInv(s, side)
    ensures MutexInv(Next(s, e), side)
  {
    match e
    case Call(id, kind) => if id !in s.ops { CallKeepsMutex(s, id, kind, side); }
    case Advance(id, input) => if id in s.ops { AdvanceKeepsMutex(s, id, input, side); }
    case Drop(id) => if id in s.ops && !s.ops[id].kind.Abort? { DropKeepsMutex(s, id, side); }
  }

  lemma CallKeepsMutex(s: State, id: Id, kind: Kind, side: Side)
    requires MutexInv(s, side) && id !in s.ops
    ensures MutexInv(Next(s, Call(id, kind)), side)
  {
    hide Sound, Mutex.InLine, WaitsFor;
  }

  /** What the mutex invariant says of one call. */
  lemma CallStands(s: State, id: Id, side: Side)
    requires MutexInv(s, side) && id in s.ops
    ensures Sound(s.shared.At(side).mutex) && Stands(s.shared.At(side).mutex, id, s.ops[id].phase, side)
  {
    hide Sound, Mutex.InLine, WaitsFor, Holding;
  }

  lemma AdvanceKeepsMutex(s: State, id: Id, input: Input, side: Side)
    requires MutexInv(s, side) && id in s.ops
    ensures MutexInv(Next(s, Advance(id, input)), side)
  {
    hide MutexInv, NextMutex, NextPhase, OnlyMoves, Stands;
    CallStands(s, id, side);
    StepMovesMutex(id, s.shared, s.ops[id], input, side);
    var s' := Next(s, Advance(id, input));
    assert s'.shared.At(side).mutex == NextMutex(id, s.shared, s.ops[id].phase, input, side);
    OneCallMoved(s, s', id, s'.ops[id], side);
  }

  lemma DropKeepsMutex(s: State, id: Id, side: Side)
    requires MutexInv(s, side) && id in s.ops && !s.ops[id].kind.Abort?
    ensures MutexInv(Next(s, Drop(id)), side)
  {
    CallStands(s, id, side);
    hide MutexInv, Mutex.GiveUp, Mutex.InLine, Sound;
    var s', mutex := Next(s, Drop(id)), s.shared.At(side).mutex;
    if WaitsFor(s.ops[id].phase, side) {
      GiveUpSpec(mutex, id);
    }
    OneCallMoved(s, s', id, s'.ops[id], side);
  }

  lemma {:induction false} RunKeepsMutex(events: seq<Event>, side: Side)
    ensures MutexInv(Run(events), side)
  {
    if events != [] {
      RunKeepsMutex(events[..|events| - 1], side);
      NextKeepsMutex(Run(events[..|events| - 1]), events[|events| - 1], side);
    }
  }

  /**
   No call ever holds one lock while it holds the other or stands in line for it, so no two calls can
   wait for each other.
   */
  lemma NeverBothLocks(events: seq<Event>, id: Id)
    ensures var sh := Run(events).shared;
            && (sh.tx.mutex.lock == Held(id) ==> sh.rx.mutex.lock != Held(id) && !sh.rx.mutex.InLine(id))
            && (sh.rx.mutex.lock == Held(id) ==> !sh.tx.mutex.InLine(id))
  {
    RunKeepsMutex(events, Tx);
    RunKeepsMutex(events, Rx);
    if id in Run(events).ops {
      hide Run;
      CallStands(Run(events), id, Tx);
      CallStands(Run(events), id, Rx);
    }
  }

  /** The state after the first `n` events. */
  function After(s: State, events: seq<Event>, n: nat): State
    requires n <= |events|
    decreases n
  {
    if n == 0 then s else After(Next(s, events[0]), events[1..], n - 1)
  }

  /** How often a call takes a step. */
  function StepsOf(events: seq<Event>, id: Id): nat {
    if events == [] then 0 else StepsOf(events[1..], id) + if events[0].Advance? && events[0].id == id then 1 else 0
  }

  /** The timer of this call has fired: the socket gives it nothing more. */
  predicate OutOfTime(events: seq<Event>, id: Id) {
    forall i :: 0 <= i < |events| && events[i].Advance? && events[i].id == id ==> events[i].input.TimedOut?
  }

  function Distance(p: Phase): nat {
    if p.Suspended? then 4 else if p.Testing? then 3 else if p.Polling? then 2 else if p.Dropping? then 1 else 0
  }

  lemma HolderMovesOn(s: State, side: Side, id: Id)
    requires id in s.ops && Holding(s.ops[id].phase) == Some(side) && !s.ops[id].phase.Freeing?
    ensures var s1 := Next(s, Advance(id, TimedOut));
            && Holding(s1.ops[id].phase) == Some(side)
            && Distance(s1.ops[id].phase) < Distance(s.ops[id].phase)
  {
    hide NextShared;
  }

  /** A step of another call, or a drop, never takes a holder further from letting go. */
  lemma OthersDoNotHinder(s: State, e: Event, id: Id)
    requires id in s.ops && !(e.Advance? && e.id == id)
    ensures id in Next(s, e).ops && Distance(Next(s, e).ops[id].phase) <= Distance(s.ops[id].phase)
  {
    hide NextShared, NextPhase, DropShared;
  }

  /** One event: the holder still holds, and is no further from letting go; its own steps take it closer. */
  lemma HolderComesCloser(s: State, side: Side, id: Id, e: Event)
    requires MutexInv(s, side) && s.shared.At(side).mutex.lock == Held(id)
    requires e.Advance? && e.id == id ==> e.input.TimedOut?
    requires Next(s, e).shared.At(side).mutex.lock == Held(id)
    ensures id in s.ops && id in Next(s, e).ops
    ensures Distance(Next(s, e).ops[id].phase) + (if e.Advance? && e.id == id then 1 else 0) <= Distance(s.ops[id].phase)
  {
    CallStands(s, id, side);
    if e.Advance? && e.id == id {
      NextKeepsMutex(s, e, side);
      CallStands(Next(s, e), id, side);
      if !s.ops[id].phase.Freeing? {
        hide MutexInv, Next;
        HolderMovesOn(s, side, id);
      }
    } else {
      OthersDoNotHinder(s, e, id);
    }
  }

  /**
   A holder never waits for the other lock. Whatever the other calls do in between, once its timer has
   fired it lets go before it has taken more than five steps of its own, even if the socket stays silent.
   */
  lemma {:induction false} HolderLetsGo(s: State, side: Side, id: Id, events: seq<Event>) returns (n: nat)
    requires MutexInv(s, side) && s.shared.At(side).mutex.lock == Held(id)
    requires OutOfTime(events, id) && StepsOf(events, id) > Distance(s.ops[id].phase)
    ensures Distance(s.ops[id].phase) <= 4
    ensures n <= |events| && After(s, events, n).shared.At(side).mutex.lock != Held(id)
    decreases |events|
  {
    var s1, rest := Next(s, events[0]), events[1..];
    hide Next;
    if s1.shared.At(side).mutex.lock != Held(id) {
      n := 1;
      assert After(s, events, 1) == After(s1, rest, 0);
    } else {
      HolderComesCloser(s, side, id, events[0]);
      NextKeepsMutex(s, events[0], side);
      assert OutOfTime(rest, id);
      var m := HolderLetsGo(s1, side, id, rest);
      n := m + 1;
    }
  }

  // ---------- releasing the socket ----------

  /** Which calls still have to try a slot. */
  predicate MustTry(p: Phase, side: Side) {
    p.TryingTx? || (p.TryingRx? && side.Rx?)
  }

  ghost predicate TryInv(s: State, side: Side) {
    forall o :: o in s.shared.At(side).trying <==> o in s.ops && MustTry(s.ops[o].phase, side)
  }

  /** No guard of the slot will test the flag again before the lock is taken anew. */
  predicate Settled(s: State, side: Side) {
    !s.shared.At(side).mutex.lock.Held? || IsFreeing(s, side)
  }

  predicate SlotInv(s: State, side: Side) {
    var slot := s.shared.At(side);
    && (slot.missed || slot.trying != {} ==> s.shared.cancelled)
    && (Settled(s, side) && slot.missed ==> slot.full)
    && (Settled(s, side) && s.shared.cancelled && slot.trying == {} && slot.full ==> slot.missed)
  }

  /** A step changes only the stepping call's place among those that still have to try. */
  lemma TryAfterAdvance(s: State, id: Id, input: Input, side: Side)
    requires id in s.ops && (id in s.shared.At(side).trying <==> MustTry(s.ops[id].phase, side))
    ensures var s' := Next(s, Advance(id, input));
            && (id in s'.shared.At(side).trying <==> MustTry(s'.ops[id].phase, side))
            && forall o :: o != id ==> (o in s'.shared.At(side).trying <==> o in s.shared.At(side).trying)
  {
    hide OutOfReach, NextMutex;
  }

  lemma NextKeepsTry(s: State, e: Event, side: Side)
    requires TryInv(s, side)
    ensures TryInv(Next(s, e), side)
  {
    if e.Advance? && e.id in s.ops {
      TryAfterAdvance(s, e.id, e.input, side);
      hide NextShared, NextPhase, MustTry;
    }
  }

  /** Whether the slot is settled after a step, from the phase the step leads to. */
  lemma SettledAfter(s: State, id: Id, input: Input, side: Side)
    requires MutexInv(s, side) && id in s.ops
    ensures var s' := Next(s, Advance(id, input));
            var lock' := s'.shared.At(side).mutex.lock;
            && (lock'.Held? && lock'.id != id ==> lock' == s.shared.At(side).mutex.lock && (Settled(s', side) <==> Settled(s, side)))
            && (lock' == Held(id) ==> (Settled(s', side) <==> s'.ops[id].phase.Freeing?))
  {
    CallStands(s, id, side);
    StepMovesMutex(id, s.shared, s.ops[id], input, side);
    var s' := Next(s, Advance(id, input));
    assert s'.shared.At(side).mutex == NextMutex(id, s.shared, s.ops[id].phase, input, side);
    assert s'.ops.Keys == s.ops.Keys && forall o :: o in s.ops && o != id ==> s'.ops[o] == s.ops[o];
    hide Next, NextPhase, NextMutex, MutexInv, Stands, Sound, Mutex.InLine;
  }

  /** Only a guard that is tested right now is about to let go next. */
  lemma FreeingComesFromDropping(me: Id, sh: Shared, op: Op, input: Input)
    ensures NextPhase(me, sh, op, input).Freeing? <==> op.phase.Dropping?
    ensures op.phase.Dropping? ==> NextPhase(me, sh, op, input).stage == op.phase.stage
  {
    hide Mutex.Admits;
  }

  /** Whether the slot was settled before a step of the call, as far as that call decides it. */
  lemma SettledBefore(s: State, id: Id, side: Side)
    requires MutexInv(s, side) && id in s.ops
    ensures s.shared.At(side).mutex.lock == Held(id) ==>
              Holding(s.ops[id].phase) == Some(side) && (Settled(s, side) <==> s.ops[id].phase.Freeing?)
    ensures Holding(s.ops[id].phase) == Some(side) ==> s.shared.At(side).mutex.lock == Held(id)
  {
    CallStands(s, id, side);
    hide MutexInv, Sound, Mutex.InLine, Holding;
  }

  lemma AdvanceKeepsSlot(s: State, id: Id, input: Input, side: Side)
    requires MutexInv(s, side) && TryInv(s, side) && SlotInv(s, side) && id in s.ops
    ensures SlotInv(Next(s, Advance(id, input)), side)
  {
    var s', p := Next(s, Advance(id, input)), s.ops[id].phase;
    SettledBefore(s, id, side);
    SettledAfter(s, id, input, side);
    FreeingComesFromDropping(id, s.shared, s.ops[id], input);
    assert s'.shared.At(side) == NextSlot(id, s, p, input, side) && s'.ops[id].phase == NextPhase(id, s.shared, s.ops[id], input);
    assert s'.shared.cancelled == (s.shared.cancelled || p.Aborting?);
    assert id in s.shared.At(side).trying <==> MustTry(p, side);
    assert Settled(s', side) <== !s'.shared.At(side).mutex.lock.Held?;
    MutexUntouched(id, s.shared, p, input, side);
    SettledMeans(s, side);
    hide MutexInv, TryInv, Next, NextPhase, NextMutex, Settled, Sound, OutOfReach;
  }

  lemma SettledMeans(s: State, side: Side)
    ensures OutOfReach(s, side) <==> Settled(s, side) && !s.shared.At(side).mutex.lock.Free?
    ensures !s.shared.At(side).mutex.lock.Held? ==> Settled(s, side)
  {
  }

  /** Calls that are not at the slot do not touch its mutex. */
  lemma MutexUntouched(me: Id, sh: Shared, p: Phase, input: Input, side: Side)
    ensures !WaitsFor(p, side) && !(p.Freeing? && p.stage.Slot() == side) ==> NextMutex(me, sh, p, input, side) == sh.At(side).mutex
    ensures WaitsFor(p, side) ==> Holding(p).None? && !p.Dropping? && !p.Aborting? && !p.TryingTx? && !p.TryingRx?
  {
  }

  lemma NextKeepsSlot(s: State, e: Event, side: Side)
    requires MutexInv(s, side) && TryInv(s, side) && SlotInv(s, side)
    ensures SlotInv(Next(s, e), side)
  {
    match e
    case Call(id, kind) =>
    case Advance(id, input) => if id in s.ops { AdvanceKeepsSlot(s, id, input, side); }
    case Drop(id) => if id in s.ops && !s.ops[id].kind.Abort? { DropKeepsSlot(s, id, side); }
  }

  lemma DropKeepsSlot(s: State, id: Id, side: Side)
    requires MutexInv(s, side) && SlotInv(s, side) && id in s.ops && !s.ops[id].kind.Abort?
    ensures SlotInv(Next(s, Drop(id)), side)
  {
    SettledBefore(s, id, side);
    CallStands(s, id, side);
    hide MutexInv, Mutex.GiveUp, Mutex.InLine, Sound;
    if WaitsFor(s.ops[id].phase, side) {
      GiveUpSpec(s.shared.At(side).mutex, id);
    }
  }

  lemma {:induction false} RunKeepsSlot(events: seq<Event>, side: Side)
    ensures MutexInv(Run(events), side) && TryInv(Run(events), side) && SlotInv(Run(events), side)
  {
    if events != [] {
      var s, e := Run(events[..|events| - 1]), events[|events| - 1];
      RunKeepsSlot(events[..|events| - 1], side);
      NextKeepsMutex(s, e, side);
      NextKeepsTry(s, e, side);
      NextKeepsSlot(s, e, side);
    }
  }

  // ---------- whole polls ----------

  /** Between two polls a call is suspended, not yet started or over. */
  predicate MidPoll(p: Phase) {
    !p.Start? && !p.Suspended? && !p.Done?
  }

  /** The event does not fall inside the poll of another call. */
  ghost predicate KeepsPollsWhole(s: State, e: Event) {
    forall o :: o in s.ops && MidPoll(s.ops[o].phase) ==> e.Advance? && e.id == o
  }

  /** No event falls inside another call's poll, as on a single-threaded executor. */
  ghost predicate PollsAreAtomic(events: seq<Event>) {
    events == [] ||
    (PollsAreAtomic(events[..|events| - 1]) && KeepsPollsWhole(Run(events[..|events| - 1]), events[|events| - 1]))
  }

  /** The event does not drop a call that has just been given a lock. */
  predicate UsesReservation(s: State, e: Event) {
    e.Drop? ==> s.shared.tx.mutex.lock != Reserved(e.id) && s.shared.rx.mutex.lock != Reserved(e.id)
  }

  /** No call is dropped between being given a lock and being polled. */
  predicate ReservationsAreUsed(events: seq<Event>) {
    events == [] ||
    (ReservationsAreUsed(events[..|events| - 1]) && UsesReservation(Run(events[..|events| - 1]), events[|events| - 1]))
  }

  /** With whole polls the flags a call has tested do not change before it goes on. */
  ghost predicate TestedInv(s: State) {
    forall o :: o in s.ops && s.ops[o].phase.Testing? ==> !s.shared.cancelled
  }

  /** All calls but the stepping one are between two polls. */
  lemma OthersAreBetweenPolls(s: State, e: Event)
    requires KeepsPollsWhole(s, e)
    ensures forall o :: o in s.ops && !(e.Advance? && e.id == o) ==> !MidPoll(s.ops[o].phase)
  {
  }

  lemma NextKeepsTested(s: State, e: Event)
    requires TestedInv(s) && KeepsPollsWhole(s, e)
    ensures TestedInv(Next(s, e))
  {
    OthersAreBetweenPolls(s, e);
    hide NextSlot, NextMutex, Mutex.Admits, KeepsPollsWhole;
  }

  /** The call is about to try the slot in this same poll. */
  predicate OwesTry(p: Phase, side: Side) {
    (p.Returned? && Continue(p.stage, p.result).Aborting?) || p.Aborting? || MustTry(p, side)
  }

  ghost predicate SomeoneOwesTry(s: State, side: Side) {
    exists o :: o in s.ops && OwesTry(s.ops[o].phase, side)
  }

  /**
   With whole polls and used reservations, whenever a try was missed somebody will still drop the
   socket half: a call that the lock is reserved for, a guard before its test, or another abort.
   */
  ghost predicate InGoodHands(s: State, side: Side) {
    s.shared.At(side).missed ==>
      || s.shared.At(side).mutex.lock.Reserved?
      || (s.shared.At(side).mutex.lock.Held? && !IsFreeing(s, side))
      || SomeoneOwesTry(s, side)
  }

  /** A call that the lock is reserved for leaves the line only to take the lock or to abort. */
  lemma ReservedCallTakesOrAborts(me: Id, sh: Shared, op: Op, input: Input, side: Side)
    requires sh.At(side).mutex.lock == Reserved(me) && WaitsFor(op.phase, side)
    requires sh.cancelled && !op.phase.Testing?
    ensures var p' := NextPhase(me, sh, op, input);
            || (Holding(p') == Some(side) && !p'.Freeing?)
            || (p'.Returned? && OwesTry(p', side))
  {
  }

  /** The owed try is made, or is still owed one step later. */
  lemma OwedTryIsMade(s: State, id: Id, input: Input, side: Side)
    requires MutexInv(s, side) && id in s.ops && OwesTry(s.ops[id].phase, side)
    requires forall o :: o in s.ops && o != id ==> !MidPoll(s.ops[o].phase)
    ensures InGoodHands(Next(s, Advance(id, input)), side)
  {
    var s', p := Next(s, Advance(id, input)), s.ops[id].phase;
    var lock := s.shared.At(side).mutex.lock;
    SettledBefore(s, id, side);
    MutexUntouched(id, s.shared, p, input, side);
    assert s'.shared.At(side) == NextSlot(id, s, p, input, side) && s'.ops[id].phase == NextPhase(id, s.shared, s.ops[id], input);
    assert lock.Held? ==> lock.id in s.ops && lock.id != id;
    assert OwesTry(s'.ops[id].phase, side) ==> SomeoneOwesTry(s', side);
    hide MutexInv, NextMutex, Sound, SomeoneOwesTry, Settled;
  }

  /** A call that has the lock reserved for it takes it, or leaves the line to abort. */
  lemma ReservedCallMoves(s: State, id: Id, input: Input, side: Side)
    requires MutexInv(s, side) && TestedInv(s) && id in s.ops && s.shared.cancelled
    requires s.shared.At(side).mutex.lock == Reserved(id)
    ensures InGoodHands(Next(s, Advance(id, input)), side)
  {
    var s' := Next(s, Advance(id, input));
    CallStands(s, id, side);
    assert s.shared.At(side).mutex.InLine(id);
    AdvanceKeepsMutex(s, id, input, side);
    CallStands(s', id, side);
    assert s'.ops[id].phase == NextPhase(id, s.shared, s.ops[id], input);
    hide MutexInv, Next, NextPhase, Sound;
    ReservedCallTakesOrAborts(id, s.shared, s.ops[id], input, side);
  }

  /** A guard before its test, or a reservation for another call, is still there after the step. */
  lemma LockStays(s: State, id: Id, input: Input, side: Side)
    requires MutexInv(s, side) && id in s.ops && s.shared.cancelled
    requires var lock := s.shared.At(side).mutex.lock;
             (lock.Reserved? && lock != Reserved(id)) || (lock.Held? && !IsFreeing(s, side))
    requires Next(s, Advance(id, input)).shared.At(side).missed
    ensures InGoodHands(Next(s, Advance(id, input)), side)
  {
    var s', p := Next(s, Advance(id, input)), s.ops[id].phase;
    var lock := s.shared.At(side).mutex.lock;
    CallStands(s, id, side);
    SettledBefore(s, id, side);
    FreeingComesFromDropping(id, s.shared, s.ops[id], input);
    assert s'.shared.At(side) == NextSlot(id, s, p, input, side) && s'.ops[id].phase == NextPhase(id, s.shared, s.ops[id], input);
    LockIsKept(id, s.shared, p, input, side);
    hide MutexInv, NextMutex, NextPhase, Sound, Mutex.InLine, SomeoneOwesTry;
  }

  lemma LockIsKept(me: Id, sh: Shared, p: Phase, input: Input, side: Side)
    requires Stands(sh.At(side).mutex, me, p, side) && !sh.At(side).mutex.Admits(me)
    requires sh.At(side).mutex.lock == Held(me) ==> !p.Freeing?
    ensures NextMutex(me, sh, p, input, side).lock == sh.At(side).mutex.lock
  {
  }

  lemma AdvanceStaysInGoodHands(s: State, id: Id, input: Input, side: Side)
    requires MutexInv(s, side) && SlotInv(s, side) && TestedInv(s) && InGoodHands(s, side)
    requires id in s.ops && KeepsPollsWhole(s, Advance(id, input))
    ensures InGoodHands(Next(s, Advance(id, input)), side)
  {
    var s', p := Next(s, Advance(id, input)), s.ops[id].phase;
    OthersAreBetweenPolls(s, Advance(id, input));
    if OwesTry(p, side) {
      OwedTryIsMade(s, id, input, side);
    } else if s'.shared.At(side).missed {
      assert s'.shared.At(side) == NextSlot(id, s, p, input, side);
      assert !SomeoneOwesTry(s, side) by {
        hide KeepsPollsWhole, MutexInv;
      }
      hide MutexInv, TestedInv, SomeoneOwesTry, OwesTry, Next, NextMutex, KeepsPollsWhole;
      if s.shared.At(side).mutex.lock == Reserved(id) {
        ReservedCallMoves(s, id, input, side);
      } else {
        LockStays(s, id, input, side);
      }
    }
  }

  lemma NextStaysInGoodHands(s: State, e: Event, side: Side)
    requires MutexInv(s, side) && SlotInv(s, side) && TestedInv(s) && InGoodHands(s, side)
    requires KeepsPollsWhole(s, e) && UsesReservation(s, e)
    ensures InGoodHands(Next(s, e), side)
  {
    match e
    case Advance(id, input) => if id in s.ops { AdvanceStaysInGoodHands(s, id, input, side); }
    case Call(id, kind) => if id !in s.ops { CallStaysInGoodHands(s, id, kind, side); }
    case Drop(id) => if id in s.ops && !s.ops[id].kind.Abort? { DropStaysInGoodHands(s, id, side); }
  }

  lemma CallStaysInGoodHands(s: State, id: Id, kind: Kind, side: Side)
    requires MutexInv(s, side) && InGoodHands(s, side) && id !in s.ops
    ensures InGoodHands(Next(s, Call(id, kind)), side)
  {
    var s' := Next(s, Call(id, kind));
    hide Sound, Mutex.InLine, OwesTry;
    if o :| o in s.ops && OwesTry(s.ops[o].phase, side) {
      assert s'.ops[o] == s.ops[o];
    }
  }

  lemma DropStaysInGoodHands(s: State, id: Id, side: Side)
    requires MutexInv(s, side) && InGoodHands(s, side) && id in s.ops && !s.ops[id].kind.Abort?
    requires KeepsPollsWhole(s, Drop(id)) && UsesReservation(s, Drop(id))
    ensures InGoodHands(Next(s, Drop(id)), side)
  {
    var s', mutex := Next(s, Drop(id)), s.shared.At(side).mutex;
    OthersAreBetweenPolls(s, Drop(id));
    assert !SomeoneOwesTry(s, side);
    CallStands(s, id, side);
    SettledBefore(s, id, side);
    assert s'.shared.At(side) == s.shared.At(side).(mutex := DropMutex(id, s.ops[id].phase, mutex, side));
    if mutex.lock != Held(id) {
      GiveUpSpec(mutex, id);
    }
    hide MutexInv, Sound, Mutex.InLine, Mutex.GiveUp, SomeoneOwesTry;
  }

  lemma {:induction false} AtomicPollsStayInGoodHands(events: seq<Event>, side: Side)
    requires PollsAreAtomic(events) && ReservationsAreUsed(events)
    ensures InGoodHands(Run(events), side) && TestedInv(Run(events))
  {
    if events != [] {
      var s, e := Run(events[..|events| - 1]), events[|events| - 1];
      AtomicPollsStayInGoodHands(events[..|events| - 1], side);
      RunKeepsSlot(events[..|events| - 1], side);
      hide Next, MutexInv, SlotInv, TryInv, TestedInv, InGoodHands, KeepsPollsWhole;
      NextKeepsTested(s, e);
      NextStaysInGoodHands(s, e, side);
    }
  }

  /**
   Once the cancellation flag is set, every abort has tried the slot and no guard is live, the socket
   half is dropped exactly if no try came to nothing. None does when polls are atomic and no call is
   dropped while a lock is reserved for it.
   */
  lemma CancelledMeansReleased(events: seq<Event>, side: Side)
    requires var sh := Run(events).shared; sh.cancelled && sh.At(side).trying == {} && sh.At(side).mutex.lock.Free?
    ensures !Run(events).shared.At(side).full <==> !Run(events).shared.At(side).missed
    ensures PollsAreAtomic(events) && ReservationsAreUsed(events)
              && (forall o :: o in Run(events).ops ==> !MidPoll(Run(events).ops[o].phase)) ==>
              !Run(events).shared.At(side).full
  {
    RunKeepsSlot(events, side);
    if PollsAreAtomic(events) && ReservationsAreUsed(events) {
      AtomicPollsStayInGoodHands(events, side);
    }
    hide Run, MutexInv, TryInv, PollsAreAtomic, ReservationsAreUsed, TestedInv;
  }

  // ---------- flags and results ----------

  lemma FlagsOnlyGrow(s: State, e: Event)
    ensures s.shared.closing ==> Next(s, e).shared.closing
    ensures s.shared.cancelled ==> Next(s, e).shared.cancelled
  {
  }

  /** A send or recv called after the closing flag was set touches nothing. */
  predicate AfterClosing(op: Op) {
    op.afterClosing && (op.kind.Send? || op.kind.Recv?) ==>
      op.phase.Start? || op.phase == Done(Fail(CLOSED)) || op.phase == Done(Abandoned)
  }

  predicate Refused(result: Outcome) {
    result == Fail(CANCELLED) || result == Abandoned
  }

  /** A send or recv called after the cancellation flag was set never reaches the socket. */
  predicate AfterCancel(op: Op, closing: bool) {
    op.afterCancel && (op.kind.Send? || op.kind.Recv?) ==>
      match op.phase
      case Start => true
      case Suspended(stage, held) => !held && stage.WatchesClosing()
      case Returned(stage, result) => stage.WatchesClosing() && Refused(result)
      case Aborting(result) => Refused(result)
      case TryingTx(result) => Refused(result)
      case TryingRx(result) => Refused(result)
      case Done(result) => Refused(result) || result == Fail(INVALID_REQUEST) || (result == Fail(CLOSED) && closing)
      case _ => false
  }

  /** A close that got past its checks has set the closing flag, or found the socket cancelled. */
  predicate CloseInv(op: Op, sh: Shared) {
    op.kind.Close? ==>
      match op.phase
      case Start => true
      case Closing(_) => true
      case Aborting(_) => sh.closing
      case TryingTx(_) => sh.closing && sh.cancelled
      case TryingRx(_) => sh.closing && sh.cancelled
      case Done(result) => result == Abandoned || result == Fail(INVALID_REQUEST) || sh.cancelled || (sh.closing && result == Good(Sent))
      case _ => sh.closing
  }

  predicate IsClose(result: Outcome) {
    result.Good? && (result.message.CloseFrame? || result.message.EndOfStream?)
  }

  /** A recv that reports the end of the connection has set both flags. */
  predicate RecvInv(op: Op, sh: Shared) {
    op.kind.Recv? ==>
      match op.phase
      case Aborting(result) => IsClose(result) ==> sh.closing
      case TryingTx(result) => sh.cancelled && (IsClose(result) ==> sh.closing)
      case TryingRx(result) => sh.cancelled && (IsClose(result) ==> sh.closing)
      case Done(result) => IsClose(result) ==> sh.closing && sh.cancelled
      case _ => true
  }

  /** Each kind of call has its own stages. */
  predicate OwnStage(op: Op) {
    match op.phase
    case Suspended(stage, _) => StageOf(op.kind, stage)
    case Testing(stage, _) => StageOf(op.kind, stage)
    case Polling(stage, _) => StageOf(op.kind, stage)
    case Dropping(stage, _) => StageOf(op.kind, stage)
    case Freeing(stage, _) => StageOf(op.kind, stage)
    case Returned(stage, _) => StageOf(op.kind, stage)
    case Closing(_) => op.kind.Close? || op.kind.Recv?
    case _ => true
  }

  predicate StageOf(kind: Kind, stage: Stage) {
    match stage
    case SendMessage => kind.Send?
    case RecvMessage => kind.Recv?
    case FlushReply(_) => kind.Recv?
    case SendClose => kind.Close?
    case AwaitClose => kind.Close?
  }

  predicate OpInv(op: Op, sh: Shared) {
    && OwnStage(op)
    && (op.afterClosing ==> sh.closing) && (op.afterCancel ==> sh.cancelled)
    && AfterClosing(op) && AfterCancel(op, sh.closing) && CloseInv(op, sh) && RecvInv(op, sh)
  }

  ghost predicate ResultInv(s: State) {
    forall o :: o in s.ops ==> OpInv(s.ops[o], s.shared)
  }

  /** What a step does to the flags. */
  predicate FlagsAfter(p: Phase, sh: Shared, sh': Shared) {
    sh'.cancelled == (sh.cancelled || p.Aborting?) && sh'.closing == (sh.closing || p.Closing?)
  }

  lemma StepKeepsStage(me: Id, sh: Shared, op: Op, input: Input)
    requires OwnStage(op)
    ensures OwnStage(op.(phase := NextPhase(me, sh, op, input)))
  {
    hide Mutex.Admits;
  }

  lemma StepKeepsAfterClosing(me: Id, sh: Shared, op: Op, input: Input)
    requires AfterClosing(op) && (op.afterClosing ==> sh.closing)
    ensures AfterClosing(op.(phase := NextPhase(me, sh, op, input)))
  {
    hide PollPhase, Continue;
  }

  lemma StepKeepsAfterCancel(me: Id, sh: Shared, op: Op, input: Input, sh': Shared)
    requires AfterCancel(op, sh.closing) && (op.afterCancel ==> sh.cancelled) && FlagsAfter(op.phase, sh, sh')
    ensures AfterCancel(op.(phase := NextPhase(me, sh, op, input)), sh'.closing)
  {
    hide PollPhase;
  }

  lemma StepKeepsClose(me: Id, sh: Shared, op: Op, input: Input, sh': Shared)
    requires OwnStage(op) && CloseInv(op, sh) && FlagsAfter(op.phase, sh, sh')
    ensures CloseInv(op.(phase := NextPhase(me, sh, op, input)), sh')
  {
    hide Mutex.Admits;
  }

  lemma StepKeepsRecv(me: Id, sh: Shared, op: Op, input: Input, sh': Shared)
    requires OwnStage(op) && RecvInv(op, sh) && FlagsAfter(op.phase, sh, sh')
    ensures RecvInv(op.(phase := NextPhase(me, sh, op, input)), sh')
  {
    hide Mutex.Admits;
  }

  lemma StepKeepsOpInv(s: State, id: Id, input: Input)
    requires id in s.ops && OpInv(s.ops[id], s.shared)
    ensures var s' := Next(s, Advance(id, input)); OpInv(s'.ops[id], s'.shared)
  {
    var op, s' := s.ops[id], Next(s, Advance(id, input));
    assert s'.ops[id] == op.(phase := NextPhase(id, s.shared, op, input)) && FlagsAfter(op.phase, s.shared, s'.shared) by {
      hide NextPhase, NextSlot;
    }
    hide Next, NextPhase, OwnStage, AfterClosing, AfterCancel, CloseInv, RecvInv;
    StepKeepsStage(id, s.shared, op, input);
    StepKeepsAfterClosing(id, s.shared, op, input);
    StepKeepsAfterCancel(id, s.shared, op, input, s'.shared);
    StepKeepsClose(id, s.shared, op, input, s'.shared);
    StepKeepsRecv(id, s.shared, op, input, s'.shared);
  }

  lemma NextKeepsResultInv(s: State, e: Event)
    requires ResultInv(s)
    ensures ResultInv(Next(s, e))
  {
    var s' := Next(s, e);
    FlagsOnlyGrow(s, e);
    forall o | o in s'.ops
      ensures OpInv(s'.ops[o], s'.shared)
    {
      if o in s.ops {
        assert OpInv(s.ops[o], s.shared);
        if e.Advance? && e.id == o { StepKeepsOpInv(s, o, e.input); }
      }
    }
  }

  lemma {:induction false} RunKeepsResultInv(events: seq<Event>)
    ensures ResultInv(Run(events))
  {
    if events != [] {
      RunKeepsResultInv(events[..|events| - 1]);
      NextKeepsResultInv(Run(events[..|events| - 1]), events[|events| - 1]);
    }
  }

  /** Calls made later remember the flags that were set before. */
  lemma {:induction false} LaterCallsRemember(events: seq<Event>, more: seq<Event>)
    ensures var s, s' := Run(events), Run(events + more);
            && (s.shared.closing ==> s'.shared.closing) && (s.shared.cancelled ==> s'.shared.cancelled)
            && forall o :: o in s'.ops && o !in s.ops ==>
                 && (s.shared.closing ==> s'.ops[o].afterClosing)
                 && (s.shared.cancelled ==> s'.ops[o].afterCancel)
  {
    if more == [] {
      assert events + more == events;
    } else {
      var init := events + more[..|more| - 1];
      assert (events + more)[..|events + more| - 1] == init;
      LaterCallsRemember(events, more[..|more| - 1]);
      FlagsOnlyGrow(Run(init), more[|more| - 1]);
    }
  }

  /** The connection is over: a close got past its checks and returned, or a recv reported the end. */
  predicate Finished(op: Op) {
    && op.phase.Done?
    && (|| (op.kind.Close? && op.phase.result != Abandoned && op.phase.result != Fail(INVALID_REQUEST))
        || (op.kind.Recv? && IsClose(op.phase.result)))
  }

  /**
   After the connection is over no later send or recv succeeds. If the closing flag was set by then,
   each fails with CLOSED; a close that found the socket already cancelled returns without setting it,
   and then later calls fail with CANCELLED (or as invalid) unless another call sets the flag.
   */
  lemma LaterCallsFail(events: seq<Event>, more: seq<Event>, over: Id, id: Id)
    requires over in Run(events).ops && Finished(Run(events).ops[over])
    requires id in Run(events + more).ops && id !in Run(events).ops
    requires Run(events + more).ops[id].kind.Send? || Run(events + more).ops[id].kind.Recv?
    requires Run(events + more).ops[id].phase.Done? && Run(events + more).ops[id].phase.result != Abandoned
    ensures var result := Run(events + more).ops[id].phase.result;
            && (result == Fail(CLOSED) || result == Fail(CANCELLED) || result == Fail(INVALID_REQUEST))
            && (Run(events).shared.closing ==> result == Fail(CLOSED))
            && (!Run(events + more).shared.closing ==> result != Fail(CLOSED))
  {
    RunKeepsResultInv(events);
    RunKeepsResultInv(events + more);
    LaterCallsRemember(events, more);
    assert OpInv(Run(events).ops[over], Run(events).shared);
    assert OpInv(Run(events + more).ops[id], Run(events + more).shared);
  }

  /** A received Close always sets the closing flag, and so does a close on a socket that is not cancelled. */
  lemma FinishedSetsClosing(events: seq<Event>, over: Id)
    requires over in Run(events).ops && Finished(Run(events).ops[over])
    ensures Run(events).shared.closing || Run(events).shared.cancelled
    ensures Run(events).ops[over].kind.Recv? ==> Run(events).shared.closing && Run(events).shared.cancelled
  {
    RunKeepsResultInv(events);
    assert OpInv(Run(events).ops[over], Run(events).shared);
  }

  /** A send or recv that was called later and came to an end of its own. */
  ghost predicate LaterCall(events: seq<Event>, more: seq<Event>, id: Id) {
    var s := Run(events + more);
    id in s.ops && id !in Run(events).ops && (s.ops[id].kind.Send? || s.ops[id].kind.Recv?)
    && s.ops[id].phase.Done? && s.ops[id].phase.result != Abandoned
  }

  // ---------- particular schedules ----------

  predicate IsAt(s: State, id: Id, kind: Kind, p: Phase) {
    id in s.ops && s.ops[id].kind == kind && s.ops[id].phase == p
  }

  ghost predicate OthersRest(s: State, id: Id) {
    forall o :: o in s.ops && o != id ==> !MidPoll(s.ops[o].phase)
  }

  /** One more event, and what it means for the conditions on schedules. */
  lemma Extend(events: seq<Event>, e: Event)
    ensures Run(events + [e]) == Next(Run(events), e)
    ensures PollsAreAtomic(events + [e]) <==> PollsAreAtomic(events) && KeepsPollsWhole(Run(events), e)
    ensures ReservationsAreUsed(events + [e]) <==> ReservationsAreUsed(events) && UsesReservation(Run(events), e)
  {
    assert (events + [e])[..|events|] == events;
  }

  /** From `a` to `b` only this call has moved, and it may have done so in whole polls. */
  ghost predicate Reaches(a: seq<Event>, b: seq<Event>, id: Id) {
    var s, s' := Run(a), Run(b);
    && s'.ops.Keys == s.ops.Keys && (forall o :: o in s.ops && o != id ==> s'.ops[o] == s.ops[o])
    && (PollsAreAtomic(a) && OthersRest(s, id) ==> PollsAreAtomic(b))
    && (ReservationsAreUsed(a) ==> ReservationsAreUsed(b))
  }

  lemma ReachesFurther(a: seq<Event>, b: seq<Event>, c: seq<Event>, id: Id)
    requires Reaches(a, b, id) && Reaches(b, c, id)
    ensures Reaches(a, c, id)
  {
    hide Run, PollsAreAtomic, ReservationsAreUsed;
  }

  /** A turn of one call: its phase and the shared state. */
  lemma Turn(events: seq<Event>, id: Id, input: Input)
    requires id in Run(events).ops
    ensures var s, s' := Run(events), Run(events + [Advance(id, input)]);
            && id in s'.ops && s'.ops[id] == s.ops[id].(phase := NextPhase(id, s.shared, s.ops[id], input))
            && s'.shared == NextShared(id, s, s.ops[id].phase, input)
    ensures Reaches(events, events + [Advance(id, input)], id)
  {
    Extend(events, Advance(id, input));
    hide Run, PollsAreAtomic, ReservationsAreUsed, NextPhase, NextShared;
  }

  function Steps(events: seq<Event>, id: Id, n: nat): seq<Event> {
    if n == 0 then events else Steps(events, id, n - 1) + [Advance(id, Pending)]
  }

  lemma StepsFurther(events: seq<Event>, id: Id, n: nat)
    ensures Steps(events, id, n + 1) == Steps(events, id, n) + [Advance(id, Pending)]
  {
  }

  lemma {:induction false} StepsReach(events: seq<Event>, id: Id, n: nat)
    requires id in Run(events).ops
    ensures Reaches(events, Steps(events, id, n), id) && id in Run(Steps(events, id, n)).ops
  {
    if n == 0 {
      hide Run, PollsAreAtomic, ReservationsAreUsed;
    } else {
      hide Reaches, Run, NextPhase, NextShared, Steps;
      StepsReach(events, id, n - 1);
      StepsFurther(events, id, n - 1);
      Turn(Steps(events, id, n - 1), id, Pending);
      ReachesFurther(events, Steps(events, id, n - 1), Steps(events, id, n), id);
    }
  }

  /** A new call adds itself and changes nothing else. */
  ghost predicate Opens(a: seq<Event>, b: seq<Event>, id: Id) {
    var s, s' := Run(a), Run(b);
    && s'.ops.Keys == s.ops.Keys + {id} && (forall o :: o in s.ops ==> s'.ops[o] == s.ops[o])
    && (PollsAreAtomic(a) && OthersRest(s, id) ==> PollsAreAtomic(b))
    && (ReservationsAreUsed(a) ==> ReservationsAreUsed(b))
  }

  lemma CallTurn(events: seq<Event>, id: Id, kind: Kind)
    requires id !in Run(events).ops
    ensures Run(events + [Call(id, kind)]).shared == Run(events).shared && IsAt(Run(events + [Call(id, kind)]), id, kind, Start)
    ensures Opens(events, events + [Call(id, kind)], id)
  {
    Extend(events, Call(id, kind));
    hide Run, PollsAreAtomic, ReservationsAreUsed;
  }

  lemma OpensAndReaches(a: seq<Event>, b: seq<Event>, c: seq<Event>, id: Id)
    requires id !in Run(a).ops && Opens(a, b, id) && Reaches(b, c, id)
    ensures Opens(a, c, id)
  {
    hide Run, PollsAreAtomic, ReservationsAreUsed;
  }

  /** A call and some steps of it. */
  lemma CallSteps(events: seq<Event>, id: Id, kind: Kind, n: nat)
    requires id !in Run(events).ops
    ensures Opens(events, Steps(events + [Call(id, kind)], id, n), id)
  {
    hide Run, Reaches, Opens;
    CallTurn(events, id, kind);
    StepsReach(events + [Call(id, kind)], id, n);
    OpensAndReaches(events, events + [Call(id, kind)], Steps(events + [Call(id, kind)], id, n), id);
  }

  /** A step from this phase changes nothing but the phase. */
  predicate Quiet(id: Id, sh: Shared, p: Phase) {
    && !p.Aborting? && !p.Closing? && !p.TryingTx? && !p.TryingRx? && !(p.Dropping? && sh.cancelled)
    && NextMutex(id, sh, p, Pending, Tx) == sh.tx.mutex && NextMutex(id, sh, p, Pending, Rx) == sh.rx.mutex
  }

  /** One phase of a call leads quietly to another. */
  predicate LeadsTo(id: Id, sh: Shared, kind: Kind, p: Phase, p': Phase) {
    Quiet(id, sh, p) && NextPhase(id, sh, Op(kind, p, false, false), Pending) == p'
  }

  lemma QuietTurn(events: seq<Event>, id: Id, kind: Kind, p: Phase, p': Phase)
    requires IsAt(Run(events), id, kind, p) && LeadsTo(id, Run(events).shared, kind, p, p')
    ensures var s' := Run(events + [Advance(id, Pending)]); IsAt(s', id, kind, p') && s'.shared == Run(events).shared
  {
    Turn(events, id, Pending);
    var s := Run(events);
    assert NextPhase(id, s.shared, s.ops[id], Pending) == p';
    hide Run, Reaches, OutOfReach, NextPhase, NextMutex;
  }

  lemma {:induction false} QuietWalk(events: seq<Event>, id: Id, kind: Kind, path: seq<Phase>)
    requires path != [] && IsAt(Run(events), id, kind, path[0])
    requires forall i :: 0 <= i < |path| - 1 ==> LeadsTo(id, Run(events).shared, kind, path[i], path[i + 1])
    ensures var s' := Run(Steps(events, id, |path| - 1));
            IsAt(s', id, kind, path[|path| - 1]) && s'.shared == Run(events).shared
  {
    var n := |path| - 1;
    if n > 0 {
      hide Run, LeadsTo;
      var init := path[..n];
      assert forall i :: 0 <= i < n ==> init[i] == path[i];
      QuietWalk(events, id, kind, init);
      StepsFurther(events, id, n - 1);
      hide Steps;
      QuietTurn(Steps(events, id, n - 1), id, kind, path[n - 1], path[n]);
    }
  }

  /** A recv on an open socket goes straight to the lock. */
  lemma RecvReachesLock(events: seq<Event>, id: Id)
    requires id !in Run(events).ops && !Run(events).shared.closing && !Run(events).shared.cancelled
    ensures var s' := Run(Steps(events + [Call(id, Recv)], id, 3));
            IsAt(s', id, Recv, Polling(RecvMessage, false)) && s'.shared == Run(events).shared
  {
    CallTurn(events, id, Recv);
    OnTheWayToLock(id, Run(events).shared);
    hide Run, Opens, LeadsTo;
    var path := [Start, Suspended(RecvMessage, false), Testing(RecvMessage, false), Polling(RecvMessage, false)];
    QuietWalk(events + [Call(id, Recv)], id, Recv, path);
  }

  lemma OnTheWayToLock(id: Id, sh: Shared)
    requires !sh.closing && !sh.cancelled
    ensures LeadsTo(id, sh, Recv, Start, Suspended(RecvMessage, false))
    ensures LeadsTo(id, sh, Recv, Suspended(RecvMessage, false), Testing(RecvMessage, false))
    ensures LeadsTo(id, sh, Recv, Testing(RecvMessage, false), Polling(RecvMessage, false))
  {
  }

  /** One poll of the lock: the call takes it or stands in line. */
  lemma RecvAsks(events: seq<Event>, id: Id)
    requires IsAt(Run(events), id, Recv, Polling(RecvMessage, false)) && Run(events).shared.rx.full
    ensures var s, s' := Run(events), Run(events + [Advance(id, Pending)]);
            && s'.shared == s.shared.(rx := s.shared.rx.(mutex := s.shared.rx.mutex.Ask(id)))
            && IsAt(s', id, Recv, if s.shared.rx.mutex.Admits(id) then Polling(RecvMessage, true) else Suspended(RecvMessage, false))
  {
    Turn(events, id, Pending);
    hide Run, Reaches, Mutex.Admits, Mutex.Ask, OutOfReach;
  }

  /** The first call, a recv, has the lock and is about to poll the socket. */
  const RECEIVING := Steps([] + [Call(0, Recv)], 0, 4)

  const RX_TAKEN := Shared(false, false, OPEN, OPEN.(mutex := Mutex(Held(0), [])))

  lemma FirstRecvHasLock()
    ensures Run(RECEIVING).shared == RX_TAKEN && Run(RECEIVING).ops.Keys == {0}
    ensures IsAt(Run(RECEIVING), 0, Recv, Polling(RecvMessage, true))
    ensures PollsAreAtomic(RECEIVING) && ReservationsAreUsed(RECEIVING)
  {
    assert Run([]) == START && PollsAreAtomic([]) && ReservationsAreUsed([]);
    assert OthersRest(Run([]), 0);
    hide Run, PollsAreAtomic, ReservationsAreUsed;
    RecvReachesLock([], 0);
    CallSteps([], 0, Recv, 4);
    RecvAsks(Steps([] + [Call(0, Recv)], 0, 3), 0);
  }

  /** Data arrives and the guard is tested. */
  function WithData(events: seq<Event>): seq<Event> {
    events + [Advance(0, Ready(Good(Data)))] + [Advance(0, Pending)]
  }

  lemma DataArrives(events: seq<Event>)
    requires IsAt(Run(events), 0, Recv, Polling(RecvMessage, true)) && !Run(events).shared.cancelled
    ensures var s' := Run(WithData(events)); IsAt(s', 0, Recv, Freeing(RecvMessage, Good(Data))) && s'.shared == Run(events).shared
    ensures Reaches(events, WithData(events), 0)
  {
    var a := events + [Advance(0, Ready(Good(Data)))];
    Turn(events, 0, Ready(Good(Data)));
    hide Run, Reaches, OutOfReach;
    assert Run(a).ops[0].phase == Dropping(RecvMessage, Good(Data)) && Run(a).shared == Run(events).shared;
    Turn(a, 0, Pending);
    ReachesFurther(events, a, WithData(events), 0);
  }

  /** The guard lets go of the lock. */
  lemma RecvLetsGo(events: seq<Event>)
    requires IsAt(Run(events), 0, Recv, Freeing(RecvMessage, Good(Data)))
    ensures var s, s' := Run(events), Run(events + [Advance(0, Pending)]);
            && IsAt(s', 0, Recv, Returned(RecvMessage, Good(Data)))
            && s'.shared == s.shared.(rx := s.shared.rx.(mutex := s.shared.rx.mutex.Release()))
    ensures Reaches(events, events + [Advance(0, Pending)], 0)
  {
    Turn(events, 0, Pending);
    hide Run, Reaches, OutOfReach, Mutex.Release;
  }

  // ---------- aborts ----------

  /** An abort runs to its end in four steps: it sets one flag, not the other, and tries both slots. */
  lemma AbortRuns(events: seq<Event>, id: Id)
    requires id !in Run(events).ops
    ensures var s, s' := Run(events), Run(Steps(events + [Call(id, Abort)], id, 4));
            && s'.shared == Shared(true, s.shared.closing, Try(s.shared.tx, id, OutOfReach(s, Tx)), Try(s.shared.rx, id, OutOfReach(s, Rx)))
            && IsAt(s', id, Abort, Done(Good(Sent)))
    ensures Opens(events, Steps(events + [Call(id, Abort)], id, 4), id)
  {
    var s, a := Run(events), events + [Call(id, Abort)];
    NewcomerOwesNothing(events, id);
    CallSteps(events, id, Abort, 2);
    CallSteps(events, id, Abort, 3);
    CallSteps(events, id, Abort, 4);
    SameReach(events, Steps(a, id, 2), id);
    SameReach(events, Steps(a, id, 3), id);
    AbortSetsFlag(events, id);
    StepsFurther(a, id, 2);
    StepsFurther(a, id, 3);
    hide Run, Opens, OutOfReach, Steps, Try;
    AbortTriesTx(Steps(a, id, 2), id);
    AbortTriesRx(Steps(a, id, 3), id);
    TryForgets(s.shared.tx, id, OutOfReach(s, Tx));
    TryForgets(s.shared.rx, id, OutOfReach(s, Rx));
  }

  lemma TryForgets(slot: Slot, id: Id, outOfReach: bool)
    requires id !in slot.trying
    ensures Try(slot.(trying := slot.trying + {id}), id, outOfReach) == Try(slot, id, outOfReach)
    ensures Try(slot, id, outOfReach).mutex == slot.mutex
  {
    assert slot.trying + {id} - {id} == slot.trying == slot.trying - {id};
  }

  lemma NewcomerOwesNothing(events: seq<Event>, id: Id)
    requires id !in Run(events).ops
    ensures id !in Run(events).shared.tx.trying && id !in Run(events).shared.rx.trying
  {
    RunKeepsSlot(events, Tx);
    RunKeepsSlot(events, Rx);
    hide Run, MutexInv, SlotInv;
  }

  lemma AbortSetsFlag(events: seq<Event>, id: Id)
    requires id !in Run(events).ops
    ensures var s, s' := Run(events), Run(Steps(events + [Call(id, Abort)], id, 2));
            && s'.shared == Shared(true, s.shared.closing, s.shared.tx.(trying := s.shared.tx.trying + {id}), s.shared.rx.(trying := s.shared.rx.trying + {id}))
            && IsAt(s', id, Abort, TryingTx(Good(Sent)))
  {
    var a := events + [Call(id, Abort)];
    CallTurn(events, id, Abort);
    assert LeadsTo(id, Run(events).shared, Abort, Start, Aborting(Good(Sent)));
    assert Steps(a, id, 0) == a;
    StepsFurther(a, id, 0);
    StepsFurther(a, id, 1);
    hide Run, Opens, Reaches, OutOfReach, LeadsTo, Steps;
    QuietTurn(a, id, Abort, Start, Aborting(Good(Sent)));
    Turn(Steps(a, id, 1), id, Pending);
  }

  lemma AbortTriesTx(events: seq<Event>, id: Id)
    requires IsAt(Run(events), id, Abort, TryingTx(Good(Sent)))
    ensures var s, s' := Run(events), Run(events + [Advance(id, Pending)]);
            IsAt(s', id, Abort, TryingRx(Good(Sent))) && s'.shared == s.shared.(tx := Try(s.shared.tx, id, OutOfReach(s, Tx)))
  {
    Turn(events, id, Pending);
    hide Run, Reaches, OutOfReach, Try;
  }

  lemma AbortTriesRx(events: seq<Event>, id: Id)
    requires IsAt(Run(events), id, Abort, TryingRx(Good(Sent)))
    ensures var s, s' := Run(events), Run(events + [Advance(id, Pending)]);
            IsAt(s', id, Abort, Done(Good(Sent))) && s'.shared == s.shared.(rx := Try(s.shared.rx, id, OutOfReach(s, Rx)))
  {
    Turn(events, id, Pending);
    hide Run, Reaches, OutOfReach, Try;
  }

  /** Whether a socket half is out of reach does not depend on a newcomer. */
  lemma SameReach(a: seq<Event>, b: seq<Event>, id: Id)
    requires id !in Run(a).ops && Opens(a, b, id)
    ensures Run(b).shared.tx.mutex.lock == Run(a).shared.tx.mutex.lock ==> OutOfReach(Run(b), Tx) == OutOfReach(Run(a), Tx)
    ensures Run(b).shared.rx.mutex.lock == Run(a).shared.rx.mutex.lock ==> OutOfReach(Run(b), Rx) == OutOfReach(Run(a), Rx)
  {
    RunKeepsMutex(a, Tx);
    RunKeepsMutex(a, Rx);
    hide Run, PollsAreAtomic, ReservationsAreUsed, Sound, Mutex.InLine, Holding, WaitsFor;
  }

  /** Another thread aborts between the test of a guard and its release. */
  const INSIDE_THE_WINDOW := Steps(WithData(RECEIVING) + [Call(1, Abort)], 1, 4) + [Advance(0, Pending)]

  /** The window is real: the guard lets go of a socket half that nobody drops any more. */
  lemma AbortInsideTheWindow()
    ensures var sh := Run(INSIDE_THE_WINDOW).shared;
            && ReservationsAreUsed(INSIDE_THE_WINDOW)
            && sh.cancelled && sh.rx.trying == {} && sh.rx.mutex.lock.Free? && sh.rx.full
  {
    hide Run, ReservationsAreUsed, PollsAreAtomic, Steps, WithData;
    FirstRecvHasLock();
    DataArrives(RECEIVING);
    AbortRuns(WithData(RECEIVING), 1);
    RecvLetsGo(Steps(WithData(RECEIVING) + [Call(1, Abort)], 1, 4));
  }

  // ---------- a call dropped with the lock reserved for it ----------

  /** The first recv waits for data with the lock in hand. */
  const WAITING := Steps(RECEIVING, 0, 1)

  lemma FirstRecvWaits()
    ensures Run(WAITING).shared == RX_TAKEN && Run(WAITING).ops.Keys == {0}
    ensures IsAt(Run(WAITING), 0, Recv, Suspended(RecvMessage, true)) && PollsAreAtomic(WAITING)
  {
    FirstRecvHasLock();
    assert LeadsTo(0, RX_TAKEN, Recv, Polling(RecvMessage, true), Suspended(RecvMessage, true));
    hide Run, ReservationsAreUsed, PollsAreAtomic, LeadsTo;
    QuietTurn(RECEIVING, 0, Recv, Polling(RecvMessage, true), Suspended(RecvMessage, true));
    StepsReach(RECEIVING, 0, 1);
  }

  /** A second recv stands in line behind it. */
  const IN_LINE := Steps(WAITING + [Call(1, Recv)], 1, 4)

  lemma SecondRecvInLine()
    ensures Run(IN_LINE).shared == RX_TAKEN.(rx := OPEN.(mutex := Mutex(Held(0), [1]))) && Run(IN_LINE).ops.Keys == {0, 1}
    ensures IsAt(Run(IN_LINE), 0, Recv, Suspended(RecvMessage, true)) && IsAt(Run(IN_LINE), 1, Recv, Suspended(RecvMessage, false))
    ensures PollsAreAtomic(IN_LINE)
  {
    FirstRecvWaits();
    hide Run, ReservationsAreUsed, PollsAreAtomic, LeadsTo;
    RecvReachesLock(WAITING, 1);
    CallSteps(WAITING, 1, Recv, 4);
    RecvAsks(Steps(WAITING + [Call(1, Recv)], 1, 3), 1);
  }

  /** Data arrives for the first recv. */
  const ARRIVED := WithData(Steps(IN_LINE, 0, 2))

  lemma FirstRecvHasData()
    ensures Run(ARRIVED).shared == Run(IN_LINE).shared && IsAt(Run(ARRIVED), 0, Recv, Freeing(RecvMessage, Good(Data)))
    ensures Reaches(IN_LINE, ARRIVED, 0)
  {
    SecondRecvInLine();
    var sh := Run(IN_LINE).shared;
    assert LeadsTo(0, sh, Recv, Suspended(RecvMessage, true), Testing(RecvMessage, true));
    assert LeadsTo(0, sh, Recv, Testing(RecvMessage, true), Polling(RecvMessage, true));
    hide Run, Reaches, LeadsTo, Steps;
    QuietWalk(IN_LINE, 0, Recv, [Suspended(RecvMessage, true), Testing(RecvMessage, true), Polling(RecvMessage, true)]);
    StepsReach(IN_LINE, 0, 2);
    DataArrives(Steps(IN_LINE, 0, 2));
    ReachesFurther(IN_LINE, Steps(IN_LINE, 0, 2), ARRIVED, 0);
  }

  /** The first recv lets go and returns, and the lock is reserved for the second. */
  const NEXT_IN_LINE := Steps(ARRIVED, 0, 2)

  const RX_RESERVED := RX_TAKEN.(rx := OPEN.(mutex := Mutex(Reserved(1), [])))

  /** The holder lets go and returns; the lock goes to the one in line. */
  lemma LetsGoAndReturns(events: seq<Event>)
    requires IsAt(Run(events), 0, Recv, Freeing(RecvMessage, Good(Data)))
    requires Run(events).shared == RX_TAKEN.(rx := OPEN.(mutex := Mutex(Held(0), [1])))
    ensures Run(Steps(events, 0, 2)).shared == RX_RESERVED && IsAt(Run(Steps(events, 0, 2)), 0, Recv, Done(Good(Data)))
  {
    assert Mutex(Held(0), [1]).Release() == Mutex(Reserved(1), []);
    assert LeadsTo(0, RX_RESERVED, Recv, Returned(RecvMessage, Good(Data)), Done(Good(Data)));
    var a := events + [Advance(0, Pending)];
    assert Steps(events, 0, 2) == a + [Advance(0, Pending)] by {
      assert Steps(events, 0, 0) == events && Steps(events, 0, 1) == a;
    }
    hide Run, LeadsTo, Reaches, Steps, Mutex.Release;
    RecvLetsGo(events);
    QuietTurn(a, 0, Recv, Returned(RecvMessage, Good(Data)), Done(Good(Data)));
  }

  lemma SecondRecvIsNext()
    ensures Run(NEXT_IN_LINE).shared == RX_RESERVED && Run(NEXT_IN_LINE).ops.Keys == {0, 1}
    ensures IsAt(Run(NEXT_IN_LINE), 0, Recv, Done(Good(Data))) && IsAt(Run(NEXT_IN_LINE), 1, Recv, Suspended(RecvMessage, false))
    ensures PollsAreAtomic(NEXT_IN_LINE)
  {
    hide Run, ReservationsAreUsed, PollsAreAtomic, Steps, WithData;
    SecondRecvInLine();
    FirstRecvHasData();
    LetsGoAndReturns(ARRIVED);
    StepsReach(ARRIVED, 0, 2);
    ReachesFurther(IN_LINE, ARRIVED, NEXT_IN_LINE, 0);
    assert OthersRest(Run(IN_LINE), 0);
    assert Run(NEXT_IN_LINE).ops[1] == Run(IN_LINE).ops[1];
  }

  /** An abort finds the lock reserved. */
  const ABORTED := Steps(NEXT_IN_LINE + [Call(2, Abort)], 2, 4)

  lemma AbortFindsReservation()
    ensures var s := Run(ABORTED);
            && s.shared.cancelled && s.shared.rx == Slot(Mutex(Reserved(1), []), true, true, {}) && s.ops.Keys == {0, 1, 2}
            && s.ops[0].phase.Done? && IsAt(s, 1, Recv, Suspended(RecvMessage, false)) && s.ops[2].phase.Done?
    ensures PollsAreAtomic(ABORTED)
  {
    SecondRecvIsNext();
    hide Run, ReservationsAreUsed, PollsAreAtomic, Steps;
    AbortRuns(NEXT_IN_LINE, 2);
  }

  /** Then the call that the lock is reserved for is dropped. */
  const DROPPED_WAITER := ABORTED + [Drop(1)] + [Advance(1, Pending)]

  /** Even with whole polls, a call dropped with the lock reserved for it leaves its socket half behind. */
  lemma DroppedWaiterKeepsSocket()
    ensures var s := Run(DROPPED_WAITER);
            && PollsAreAtomic(DROPPED_WAITER) && (forall o :: o in s.ops ==> s.ops[o].phase.Done?)
            && s.shared.cancelled && s.shared.rx.trying == {} && s.shared.rx.mutex.lock.Free? && s.shared.rx.full
  {
    hide Run, ReservationsAreUsed, PollsAreAtomic;
    WaiterIsDropped();
    Turn(ABORTED + [Drop(1)], 1, Pending);
  }

  lemma WaiterIsDropped()
    ensures var s := Run(ABORTED + [Drop(1)]);
            && s.shared.cancelled && s.shared.rx == Slot(Mutex(Free, []), true, true, {}) && s.ops.Keys == {0, 1, 2}
            && s.ops[0].phase.Done? && IsAt(s, 1, Recv, Returned(RecvMessage, Abandoned)) && s.ops[2].phase.Done?
    ensures PollsAreAtomic(ABORTED + [Drop(1)])
  {
    AbortFindsReservation();
    Extend(ABORTED, Drop(1));
    hide Run, ReservationsAreUsed, PollsAreAtomic;
  }

  // ---------- close on an aborted socket ----------

  /** On a cancelled socket close returns at once, without an error and without setting the flag. */
  lemma CancelledCloseReturns(events: seq<Event>, id: Id)
    requires Run(events).shared.cancelled && id !in Run(events).ops
    ensures var s := Run(Steps(events + [Call(id, Close)], id, 1));
            s.ops.Keys == Run(events).ops.Keys + {id} && IsAt(s, id, Close, Done(Good(Sent))) && s.shared == Run(events).shared
  {
    var a := events + [Call(id, Close)];
    assert Steps(a, id, 0) == a;
    StepsFurther(a, id, 0);
    hide Run, Steps, PollsAreAtomic, ReservationsAreUsed;
    CallTurn(events, id, Close);
    CallSteps(events, id, Close, 1);
    hide Opens;
    assert LeadsTo(id, Run(events).shared, Close, Start, Done(Good(Sent)));
    hide LeadsTo;
    QuietTurn(a, id, Close, Start, Done(Good(Sent)));
  }

  /** What a send on a cancelled socket goes through. */
  function SendPhase(n: nat): Phase {
    match n
    case 0 => Start
    case 1 => Suspended(SendMessage, false)
    case 2 => Returned(SendMessage, Fail(CANCELLED))
    case 3 => Aborting(Fail(CANCELLED))
    case 4 => TryingTx(Fail(CANCELLED))
    case 5 => TryingRx(Fail(CANCELLED))
    case _ => Done(Fail(CANCELLED))
  }

  predicate SendAt(s: State, id: Id, n: nat) {
    IsAt(s, id, Send, SendPhase(n)) && s.shared.cancelled && !s.shared.closing
  }

  lemma SendTurn(events: seq<Event>, id: Id, n: nat)
    requires n < 6 && SendAt(Run(events), id, n)
    ensures SendAt(Run(events + [Advance(id, Pending)]), id, n + 1)
  {
    Turn(events, id, Pending);
    hide Run, NextSlot, Reaches;
  }

  lemma {:induction false} SendWalk(events: seq<Event>, id: Id, n: nat)
    requires n <= 6 && SendAt(Run(events), id, 0)
    ensures SendAt(Run(Steps(events, id, n)), id, n)
  {
    if n > 0 {
      hide Run, SendAt;
      SendWalk(events, id, n - 1);
      SendTurn(Steps(events, id, n - 1), id, n - 1);
    }
  }

  /** On a cancelled socket that is not closing, a send ends with CANCELLED. */
  lemma CancelledSendFails(events: seq<Event>, id: Id)
    requires Run(events).shared.cancelled && !Run(events).shared.closing && id !in Run(events).ops
    ensures IsAt(Run(Steps(events + [Call(id, Send)], id, 6)), id, Send, Done(Fail(CANCELLED)))
  {
    hide Run, Opens, Steps;
    CallTurn(events, id, Send);
    SendWalk(events + [Call(id, Send)], id, 6);
  }

  /**
   The other half of `LaterCallsFail` is real: after an abort, close returns without an error and the
   send that follows it fails with CANCELLED, not with CLOSED.
   */
  lemma CloseAfterAbortIsNotClosed()
    ensures var events := Steps(Steps([] + [Call(0, Abort)], 0, 4) + [Call(1, Close)], 1, 1);
            var later := Steps(events + [Call(2, Send)], 2, 6);
            && 1 in Run(events).ops && Finished(Run(events).ops[1])
            && 2 in Run(later).ops && Run(later).ops[2].phase == Done(Fail(CANCELLED))
  {
    hide Run, Steps;
    FirstAbort();
    CloseThenSend(Steps([] + [Call(0, Abort)], 0, 4));
  }

  lemma CloseThenSend(events: seq<Event>)
    requires var s := Run(events); s.shared.cancelled && !s.shared.closing && s.ops.Keys == {0}
    ensures var closed := Steps(events + [Call(1, Close)], 1, 1);
            && IsAt(Run(closed), 1, Close, Done(Good(Sent)))
            && IsAt(Run(Steps(closed + [Call(2, Send)], 2, 6)), 2, Send, Done(Fail(CANCELLED)))
  {
    hide Run, Steps;
    CancelledCloseReturns(events, 1);
    CancelledSendFails(Steps(events + [Call(1, Close)], 1, 1), 2);
  }

  lemma FirstAbort()
    ensures var s := Run(Steps([] + [Call(0, Abort)], 0, 4)); s.shared.cancelled && !s.shared.closing && s.ops.Keys == {0}
  {
    assert Run([]) == START;
    hide Run, Steps, PollsAreAtomic, ReservationsAreUsed, Try;
    AbortRuns([], 0);
  }

  // ---------- when later calls fail with CLOSED ----------

  lemma {:induction false} StepsAppend(a: seq<Event>, b: seq<Event>, id: Id, n: nat)
    ensures Steps(a + b, id, n) == a + Steps(b, id, n)
  {
    if n > 0 {
      StepsAppend(a, b, id, n - 1);
    }
  }

  /** A call that has not been made yet. */
  lemma {:induction false} NewCall(ids: set<Id>) returns (id: Id)
    ensures forall x :: x in ids ==> x < id
  {
    if ids == {} {
      id := 0;
    } else {
      var x :| x in ids;
      var y := NewCall(ids - {x});
      id := if x < y then y else x + 1;
      assert ids == (ids - {x}) + {x};
    }
  }

  /** Without the closing flag there is a later send that fails with CANCELLED. */
  lemma SomeSendIsCancelled(events: seq<Event>) returns (more: seq<Event>, id: Id)
    requires Run(events).shared.cancelled && !Run(events).shared.closing
    ensures LaterCall(events, more, id) && Run(events + more).ops[id].phase.result == Fail(CANCELLED)
  {
    hide Run;
    id := NewCall(Run(events).ops.Keys);
    more := Steps([Call(id, Send)], id, 6);
    StepsAppend(events, [Call(id, Send)], id, 6);
    hide Steps;
    CancelledSendFails(events, id);
  }

  /**
   When the connection is over, all later sends and recvs fail with CLOSED exactly if the closing flag
   has been set by then. A recv that reports the end always sets it; a close does unless it finds the
   socket cancelled.
   */
  lemma LaterCallsAreClosedIff(events: seq<Event>, over: Id)
    requires over in Run(events).ops && Finished(Run(events).ops[over])
    ensures Run(events).shared.closing <==>
            forall more, id :: LaterCall(events, more, id) ==> Run(events + more).ops[id].phase.result == Fail(CLOSED)
    ensures !Run(events).shared.closing ==> Run(events).ops[over].kind.Close? && Run(events).shared.cancelled
  {
    hide Run;
    FinishedSetsClosing(events, over);
    if Run(events).shared.closing {
      forall more, id | LaterCall(events, more, id)
        ensures Run(events + more).ops[id].phase.result == Fail(CLOSED)
      {
        LaterCallsFail(events, more, over, id);
      }
    } else {
      var more, id := SomeSendIsCancelled(events);
    }
  }
}
