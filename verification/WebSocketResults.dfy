/**
 What the calls on a WebSocket report, over all schedules: every result is accounted for by what the
 socket answered, the timer, a dropped future or the flags, and the flags by what the calls met.
 */
module WebSocketResults {
  import opened Wrappers
  import opened FairMutex
  import opened WebSocket

  // ---------- what a call has met ----------

  /** What a call found when it began. */
  datatype Beginning = Beginning(closing: bool, cancelled: bool, badArguments: bool)

  /** What the socket said to a call that held the lock of its slot in this stage. */
  datatype Answer = Answer(stage: Stage, result: Outcome)

  datatype Past = Past(begun: Option<Beginning>, answers: set<Answer>, timedOut: bool, dropped: bool)

  const NOTHING := Past(None, {}, false, false)

  function Learn(past: Past, sh: Shared, p: Phase, input: Input): Past {
    if p.Start? then past.(begun := Some(Beginning(sh.closing, sh.cancelled, input.BadArguments?)))
    else if p.Polling? && input.TimedOut? then past.(timedOut := true)
    else if p.Polling? && p.held && input.Ready? && !input.result.Abandoned? then
      past.(answers := past.answers + {Answer(p.stage, input.result)})
    else past
  }

  /** All that one call has met in a schedule. */
  function PastOf(events: seq<Event>, id: Id): Past {
    if events == [] then NOTHING
    else
      var past, s, e := PastOf(events[..|events| - 1], id), Run(events[..|events| - 1]), events[|events| - 1];
      if id !in s.ops || e.Call? || e.id != id then past
      else if e.Drop? then past.(dropped := past.dropped || !s.ops[id].kind.Abort?)
      else Learn(past, s.shared, s.ops[id].phase, e.input)
  }

  // ---------- how a call may end ----------

  /** A close waits on while other messages come in. */
  predicate Skipped(stage: Stage, result: Outcome) {
    stage.AwaitClose? && result.Good? && !result.message.CloseFrame? && !result.message.EndOfStream?
  }

  /** The failures that do not come from the socket. */
  predicate OwnFailure(past: Past, sh: Shared, stage: Stage, code: Code) {
    || (code.CANCELLED? && sh.cancelled)
    || (code.CLOSED? && (sh.cancelled || (sh.closing && (stage.SendMessage? || stage.RecvMessage?))))
    || (code.TIMEOUT? && past.timedOut)
  }

  ghost predicate StageIsOpen(past: Past, stage: Stage) {
    forall r :: Answer(stage, r) in past.answers ==> Skipped(stage, r)
  }

  /** The stage has this result: the socket's only answer, or if it gave none, a drop or another failure. */
  ghost predicate StageEnds(past: Past, sh: Shared, stage: Stage, result: Outcome) {
    && (forall r :: Answer(stage, r) in past.answers ==> r == result || Skipped(stage, r))
    && match result
       case Good(_) => Answer(stage, result) in past.answers && !Skipped(stage, result)
       case Fail(code) => Answer(stage, result) in past.answers || OwnFailure(past, sh, stage, code)
       case Abandoned => past.dropped
  }

  ghost predicate StageSucceeds(past: Past, sh: Shared, stage: Stage) {
    exists m :: StageEnds(past, sh, stage, Good(m))
  }

  predicate DroppedAtOnce(past: Past, result: Outcome) {
    past.dropped && result == Abandoned
  }

  ghost predicate SendEnds(past: Past, sh: Shared, result: Outcome) {
    if past.begun.None? then DroppedAtOnce(past, result)
    else if past.begun.value.closing then result == Fail(CLOSED)
    else if past.begun.value.badArguments then result == Fail(INVALID_REQUEST)
    else StageEnds(past, sh, SendMessage, result)
  }

  /** Messages the other side expects an automatic reply to. */
  predicate NeedsReply(m: Message) {
    m.Ping? || m.CloseFrame?
  }

  ghost predicate RecvEnds(past: Past, sh: Shared, result: Outcome) {
    if past.begun.None? then DroppedAtOnce(past, result)
    else if past.begun.value.closing then result == Fail(CLOSED)
    else
      || (StageEnds(past, sh, RecvMessage, result) && !(result.Good? && NeedsReply(result.message)))
      || Replied(past, sh, Ping, result)
      || Replied(past, sh, CloseFrame, result)
  }

  /** The message came, and the call ends as the flush of the reply does. */
  ghost predicate Replied(past: Past, sh: Shared, m: Message, result: Outcome) {
    && StageEnds(past, sh, RecvMessage, Good(m))
    && if result.Good? then result == Good(m) && StageSucceeds(past, sh, FlushReply(m))
       else StageEnds(past, sh, FlushReply(m), result)
  }

  ghost predicate CloseEnds(past: Past, sh: Shared, result: Outcome) {
    if past.begun.None? then DroppedAtOnce(past, result)
    else if past.begun.value.badArguments then result == Fail(INVALID_REQUEST)
    else if past.begun.value.closing || past.begun.value.cancelled then result == Good(Sent)
    else if result.Good? then
      result == Good(Sent) && StageSucceeds(past, sh, SendClose) && StageSucceeds(past, sh, AwaitClose)
    else
      || StageEnds(past, sh, SendClose, result)
      || (StageSucceeds(past, sh, SendClose) && StageEnds(past, sh, AwaitClose, result))
  }

  ghost predicate Ends(kind: Kind, past: Past, sh: Shared, result: Outcome) {
    match kind
    case Send => SendEnds(past, sh, result)
    case Recv => RecvEnds(past, sh, result)
    case Close => CloseEnds(past, sh, result)
    case Abort => result == Good(Sent)
  }

  /** A close that found the socket open. */
  const FRESH := Some(Beginning(false, false, false))

  ghost predicate GotMessage(past: Past) {
    exists m :: Answer(RecvMessage, Good(m)) in past.answers
  }

  /** The calls that abort the socket before they return. */
  ghost predicate MustAbort(kind: Kind, past: Past, result: Outcome) {
    match kind
    case Send => past.begun.Some? && !past.begun.value.badArguments && result.Fail? && result.code != CLOSED
    case Recv => IsClose(result) || (result.Fail? && (result.code != CLOSED || GotMessage(past)))
    case Close => past.begun == FRESH && result != Abandoned
    case Abort => true
  }

  /** The calls that announce the end of the connection to later ones. */
  predicate MustClose(kind: Kind, past: Past, result: Outcome) {
    (kind.Close? && past.begun == FRESH) || (kind.Recv? && IsClose(result))
  }

  // ---------- the account of a call on its way ----------

  ghost predicate Reached(kind: Kind, past: Past, sh: Shared, stage: Stage) {
    past.begun.Some? &&
    match stage
    case SendMessage => kind.Send? && !past.begun.value.closing && !past.begun.value.badArguments
    case RecvMessage => kind.Recv? && !past.begun.value.closing && forall m :: StageIsOpen(past, FlushReply(m))
    case FlushReply(m) => kind.Recv? && !past.begun.value.closing && NeedsReply(m) && StageEnds(past, sh, RecvMessage, Good(m))
    case SendClose => kind.Close? && past.begun == FRESH && sh.closing && StageIsOpen(past, AwaitClose)
    case AwaitClose => kind.Close? && past.begun == FRESH && sh.closing && StageSucceeds(past, sh, SendClose)
  }

  ghost predicate OnTheWay(kind: Kind, past: Past, sh: Shared, stage: Stage) {
    Reached(kind, past, sh, stage) && StageIsOpen(past, stage)
  }

  ghost predicate StageOver(kind: Kind, past: Past, sh: Shared, stage: Stage, result: Outcome) {
    Reached(kind, past, sh, stage) && StageEnds(past, sh, stage, result)
  }

  ghost predicate Leaving(kind: Kind, past: Past, sh: Shared, result: Outcome) {
    && Ends(kind, past, sh, result) && MustAbort(kind, past, result)
    && (MustClose(kind, past, result) ==> sh.closing)
  }

  ghost predicate Account(op: Op, past: Past, sh: Shared) {
    match op.phase
    case Start => past.begun.None? && past.answers == {}
    case Suspended(stage, _) => OnTheWay(op.kind, past, sh, stage)
    case Testing(stage, _) => OnTheWay(op.kind, past, sh, stage)
    case Polling(stage, _) => OnTheWay(op.kind, past, sh, stage)
    case Dropping(stage, result) => StageOver(op.kind, past, sh, stage, result)
    case Freeing(stage, result) => StageOver(op.kind, past, sh, stage, result)
    case Returned(stage, result) => StageOver(op.kind, past, sh, stage, result)
    case Closing(result) =>
      if op.kind.Close? then result == Good(Sent) && past.begun == FRESH && past.answers == {}
      else op.kind.Recv? && IsClose(result) && RecvEnds(past, sh, result)
    case Aborting(result) => Leaving(op.kind, past, sh, result)
    case TryingTx(result) => Leaving(op.kind, past, sh, result) && sh.cancelled
    case TryingRx(result) => Leaving(op.kind, past, sh, result) && sh.cancelled
    case Done(result) =>
      && Ends(op.kind, past, sh, result)
      && (MustAbort(op.kind, past, result) ==> sh.cancelled)
      && (MustClose(op.kind, past, result) ==> sh.closing)
  }

  predicate FlagsGrow(sh: Shared, sh': Shared) {
    (sh.closing ==> sh'.closing) && (sh.cancelled ==> sh'.cancelled)
  }

  /** A slot is only ever emptied under the flag. */
  predicate EmptyIsCancelled(sh: Shared) {
    !sh.tx.full || !sh.rx.full ==> sh.cancelled
  }

  lemma StageEndsStays(past: Past, sh: Shared, sh': Shared)
    requires FlagsGrow(sh, sh')
    ensures forall stage, r :: StageEnds(past, sh, stage, r) ==> StageEnds(past, sh', stage, r)
    ensures forall stage :: StageSucceeds(past, sh, stage) ==> StageSucceeds(past, sh', stage)
  {
    forall stage, r | StageEnds(past, sh, stage, r)
      ensures StageEnds(past, sh', stage, r)
    {
    }
    hide StageEnds;
  }

  /** An account stays true while others set flags. */
  lemma AccountStays(op: Op, past: Past, sh: Shared, sh': Shared)
    requires Account(op, past, sh) && FlagsGrow(sh, sh')
    ensures Account(op, past, sh')
  {
    StageEndsStays(past, sh, sh');
    hide StageEnds, StageSucceeds, StageIsOpen, GotMessage;
  }

  lemma BeginsWell(sh: Shared, op: Op, input: Input, past: Past)
    requires op.phase.Start? && Account(op, past, sh)
    ensures Account(op.(phase := Begin(sh, op.kind, input)), Learn(past, sh, Start, input), sh)
  {
    hide StageSucceeds;
  }

  lemma StaysOnTheWay(me: Id, sh: Shared, op: Op, input: Input, past: Past)
    requires op.phase.Suspended? || op.phase.Testing?
    requires Account(op, past, sh)
    ensures Account(op.(phase := NextPhase(me, sh, op, input)), past, sh)
  {
    hide StageSucceeds, Ends, MustAbort, MustClose, Reached;
  }

  lemma TimesOut(kind: Kind, past: Past, sh: Shared, stage: Stage)
    requires OnTheWay(kind, past, sh, stage)
    ensures var past' := past.(timedOut := true);
            OnTheWay(kind, past', sh, stage) && StageOver(kind, past', sh, stage, Fail(TIMEOUT))
  {
    var past' := past.(timedOut := true);
    assert forall x :: StageIsOpen(past, x) ==> StageIsOpen(past', x);
    forall x, r | StageEnds(past, sh, x, r)
      ensures StageEnds(past', sh, x, r)
    {
    }
    SucceedsToo(past, past', sh);
    assert StageEnds(past', sh, stage, Fail(TIMEOUT));
    hide StageEnds, StageIsOpen, StageSucceeds;
  }

  lemma SucceedsToo(past: Past, past': Past, sh: Shared)
    requires forall x, r :: StageEnds(past, sh, x, r) ==> StageEnds(past', sh, x, r)
    ensures forall x :: StageSucceeds(past, sh, x) ==> StageSucceeds(past', sh, x)
  {
    hide StageEnds;
  }

  lemma IsAnswered(kind: Kind, past: Past, sh: Shared, stage: Stage, result: Outcome)
    requires OnTheWay(kind, past, sh, stage) && !result.Abandoned?
    ensures var past' := past.(answers := past.answers + {Answer(stage, result)});
            Reached(kind, past', sh, stage)
            && if Skipped(stage, result) then StageIsOpen(past', stage) else StageEnds(past', sh, stage, result)
  {
    var past' := past.(answers := past.answers + {Answer(stage, result)});
    forall x, r | StageEnds(past, sh, x, r) && x != stage
      ensures StageEnds(past', sh, x, r)
    {
    }
    if stage.AwaitClose? && (exists m :: StageEnds(past, sh, SendClose, Good(m))) {
      var m :| StageEnds(past, sh, SendClose, Good(m));
      assert StageEnds(past', sh, SendClose, Good(m));
    }
  }

  lemma PollsWell(me: Id, sh: Shared, op: Op, input: Input, past: Past)
    requires op.phase.Polling? && Account(op, past, sh) && EmptyIsCancelled(sh)
    ensures Account(op.(phase := PollPhase(me, sh, op.phase.stage, op.phase.held, input)), Learn(past, sh, op.phase, input), sh)
  {
    var stage := op.phase.stage;
    if input.TimedOut? {
      TimesOut(op.kind, past, sh, stage);
    } else if op.phase.held && input.Ready? && !input.result.Abandoned? {
      IsAnswered(op.kind, past, sh, stage, input.result);
    }
    hide Reached;
  }

  lemma ReturnsWell(op: Op, past: Past, sh: Shared)
    requires op.phase.Returned? && Account(op, past, sh)
    ensures Account(op.(phase := Continue(op.phase.stage, op.phase.result)), past, sh)
  {
  }

  /** One step of the call keeps its account. */
  lemma StepKeepsAccount(me: Id, sh: Shared, op: Op, input: Input, past: Past, sh': Shared)
    requires Account(op, past, sh) && EmptyIsCancelled(sh) && FlagsAfter(op.phase, sh, sh')
    ensures Account(op.(phase := NextPhase(me, sh, op, input)), Learn(past, sh, op.phase, input), sh')
  {
    var op' := op.(phase := NextPhase(me, sh, op, input));
    hide EmptyIsCancelled;
    if op.phase.Closing? || op.phase.Aborting? {
      SetsFlag(me, sh, op, input, past, sh');
    } else {
      assert Account(op', Learn(past, sh, op.phase, input), sh) by {
        if op.phase.Start? { BeginsWell(sh, op, input, past); }
        else if op.phase.Suspended? || op.phase.Testing? { StaysOnTheWay(me, sh, op, input, past); }
        else if op.phase.Polling? { PollsWell(me, sh, op, input, past); }
        else if op.phase.Returned? { ReturnsWell(op, past, sh); }
        else { MovesOn(me, sh, op, input, past); }
      }
      hide Account, NextPhase, Learn;
      AccountStays(op', Learn(past, sh, op.phase, input), sh, sh');
    }
  }

  lemma SetsFlag(me: Id, sh: Shared, op: Op, input: Input, past: Past, sh': Shared)
    requires Account(op, past, sh) && FlagsAfter(op.phase, sh, sh') && (op.phase.Closing? || op.phase.Aborting?)
    ensures Account(op.(phase := NextPhase(me, sh, op, input)), past, sh')
  {
    AccountStays(op, past, sh, sh');
    hide StageSucceeds, StageEnds, PollPhase, Continue, Begin;
  }

  lemma MovesOn(me: Id, sh: Shared, op: Op, input: Input, past: Past)
    requires Account(op, past, sh)
    requires op.phase.Dropping? || op.phase.Freeing? || op.phase.TryingTx? || op.phase.TryingRx? || op.phase.Done?
    ensures Account(op.(phase := NextPhase(me, sh, op, input)), past, sh)
  {
    hide StageOver, Ends, MustAbort, MustClose;
  }

  lemma DropKeepsStages(past: Past, sh: Shared)
    ensures var past' := past.(dropped := true);
            && (forall stage, r :: StageEnds(past, sh, stage, r) ==> StageEnds(past', sh, stage, r))
            && (forall stage :: StageSucceeds(past, sh, stage) ==> StageSucceeds(past', sh, stage))
            && (forall stage :: StageIsOpen(past, stage) ==> StageIsOpen(past', stage) && StageEnds(past', sh, stage, Abandoned))
  {
    var past' := past.(dropped := true);
    forall stage, r | StageEnds(past, sh, stage, r)
      ensures StageEnds(past', sh, stage, r)
    {
    }
    SucceedsToo(past, past', sh);
  }

  /** The drop of a future where it is suspended. */
  lemma DropKeepsAccount(op: Op, past: Past, sh: Shared)
    requires Account(op, past, sh) && !op.kind.Abort?
    ensures Account(op.(phase := DropPhase(op.phase)), past.(dropped := true), sh)
  {
    DropKeepsStages(past, sh);
    hide StageEnds, StageIsOpen, StageSucceeds;
  }

  // ---------- every run ----------

  ghost predicate AccountInv(events: seq<Event>) {
    var s := Run(events);
    && EmptyIsCancelled(s.shared)
    && forall id :: if id in s.ops then Account(s.ops[id], PastOf(events, id), s.shared) else PastOf(events, id) == NOTHING
  }

  /** What an event means for one call. */
  lemma PastAfter(events: seq<Event>, e: Event, id: Id)
    ensures Run(events + [e]) == Next(Run(events), e)
    ensures var s, past := Run(events), PastOf(events, id);
            PastOf(events + [e], id) ==
            if id !in s.ops || e.Call? || e.id != id then past
            else if e.Drop? then past.(dropped := past.dropped || !s.ops[id].kind.Abort?)
            else Learn(past, s.shared, s.ops[id].phase, e.input)
  {
    assert (events + [e])[..|events|] == events;
  }

  lemma AdvanceMeans(s: State, id: Id, input: Input)
    requires id in s.ops
    ensures var s', op := Next(s, Advance(id, input)), s.ops[id];
            && s'.ops == s.ops[id := op.(phase := NextPhase(id, s.shared, op, input))]
            && FlagsAfter(op.phase, s.shared, s'.shared)
  {
    hide NextPhase, NextSlot;
  }

  lemma DropMeans(s: State, id: Id)
    requires id in s.ops && !s.ops[id].kind.Abort?
    ensures var s', op := Next(s, Drop(id)), s.ops[id];
            && s'.ops == s.ops[id := op.(phase := DropPhase(op.phase))]
            && s'.shared.closing == s.shared.closing && s'.shared.cancelled == s.shared.cancelled
  {
    hide DropPhase, DropMutex;
  }

  lemma OneAccount(events: seq<Event>, e: Event, id: Id)
    requires AccountInv(events)
    ensures var s' := Run(events + [e]);
            if id in s'.ops then Account(s'.ops[id], PastOf(events + [e], id), s'.shared) else PastOf(events + [e], id) == NOTHING
  {
    var s, past := Run(events), PastOf(events, id);
    PastAfter(events, e, id);
    FlagsOnlyGrow(s, e);
    hide Run, PastOf, Account, Next, Learn, NextPhase, DropPhase, EmptyIsCancelled;
    assert id in s.ops ==> Account(s.ops[id], past, s.shared);
    if id in s.ops && e.Advance? && e.id == id {
      AdvanceMeans(s, id, e.input);
      StepKeepsAccount(id, s.shared, s.ops[id], e.input, past, Next(s, e).shared);
    } else if id in s.ops && e.Drop? && e.id == id && !s.ops[id].kind.Abort? {
      DropMeans(s, id);
      DropKeepsAccount(s.ops[id], past, s.shared);
      AccountStays(Next(s, e).ops[id], past.(dropped := true), s.shared, Next(s, e).shared);
    } else {
      BystanderKeepsAccount(s, e, id, past);
    }
  }

  /** The event is not a step of this call, or it is the call. */
  lemma BystanderKeepsAccount(s: State, e: Event, id: Id, past: Past)
    requires id in s.ops ==> Account(s.ops[id], past, s.shared)
    requires id !in s.ops ==> past == NOTHING
    requires id in s.ops ==> e.Call? || e.id != id || (e.Drop? && s.ops[id].kind.Abort?)
    ensures id in Next(s, e).ops ==> Account(Next(s, e).ops[id], past, Next(s, e).shared)
    ensures id !in Next(s, e).ops ==> id !in s.ops
  {
    var s' := Next(s, e);
    FlagsOnlyGrow(s, e);
    assert id in s.ops ==> id in s'.ops && s'.ops[id] == s.ops[id] by { hide NextShared, NextPhase, DropShared, DropPhase, Account; }
    if id in s.ops {
      hide Account, Next;
      AccountStays(s.ops[id], past, s.shared, s'.shared);
    } else {
      hide NextShared, NextPhase, DropShared, DropPhase;
    }
  }

  lemma EmptyAfter(s: State, e: Event)
    requires EmptyIsCancelled(s.shared)
    requires forall id :: id in s.ops && (s.ops[id].phase.TryingTx? || s.ops[id].phase.TryingRx?) ==> s.shared.cancelled
    ensures EmptyIsCancelled(Next(s, e).shared)
  {
    hide NextPhase, NextMutex, DropMutex, OutOfReach;
  }

  lemma {:induction false} RunKeepsAccounts(events: seq<Event>)
    ensures AccountInv(events)
  {
    if events != [] {
      var init, e := events[..|events| - 1], events[|events| - 1];
      assert events == init + [e];
      RunKeepsAccounts(init);
      forall id
        ensures var s' := Run(events);
                if id in s'.ops then Account(s'.ops[id], PastOf(events, id), s'.shared) else PastOf(events, id) == NOTHING
      {
        OneAccount(init, e, id);
      }
      hide Next, PastOf;
      assert forall id :: id in Run(init).ops ==> Account(Run(init).ops[id], PastOf(init, id), Run(init).shared);
      EmptyAfter(Run(init), e);
    }
  }

  /**
   Whatever the schedule, a call that is over reports what the socket answered to it, or else a failure
   of its own with its reason: a flag, the timer, invalid arguments, or the drop of its future.
   */
  lemma ResultsAreEarned(events: seq<Event>, id: Id)
    requires id in Run(events).ops && Run(events).ops[id].phase.Done?
    ensures var s := Run(events); Ends(s.ops[id].kind, PastOf(events, id), s.shared, s.ops[id].phase.result)
  {
    RunKeepsAccounts(events);
    hide Run, PastOf, Ends;
    assert Account(Run(events).ops[id], PastOf(events, id), Run(events).shared);
  }

  // ---------- what the flags mean ----------

  /** The call has set the cancellation flag: it had a reason to abort. */
  ghost predicate HasAborted(op: Op, past: Past) {
    (op.phase.TryingTx? || op.phase.TryingRx? || op.phase.Done?) && MustAbort(op.kind, past, op.phase.result)
  }

  /** The call has set the closing flag: a close on an open socket, or a recv that met the end of the connection. */
  predicate HasClosed(op: Op, past: Past) {
    || (op.kind.Close? && past.begun == FRESH && !op.phase.Closing?)
    || (op.kind.Recv? && (op.phase.Aborting? || op.phase.TryingTx? || op.phase.TryingRx? || op.phase.Done?) && IsClose(op.phase.result))
  }

  ghost predicate SomeoneAborted(events: seq<Event>) {
    exists id :: id in Run(events).ops && HasAborted(Run(events).ops[id], PastOf(events, id))
  }

  ghost predicate SomeoneClosed(events: seq<Event>) {
    exists id :: id in Run(events).ops && HasClosed(Run(events).ops[id], PastOf(events, id))
  }

  /** A step neither takes back an abort or a close, nor sets a flag without one. */
  lemma StepKeepsCause(me: Id, sh: Shared, op: Op, input: Input, past: Past, sh': Shared)
    requires Account(op, past, sh) && FlagsAfter(op.phase, sh, sh')
    ensures var op', past' := op.(phase := NextPhase(me, sh, op, input)), Learn(past, sh, op.phase, input);
            && (HasAborted(op, past) || op.phase.Aborting? ==> HasAborted(op', past'))
            && (HasClosed(op, past) || op.phase.Closing? ==> HasClosed(op', past'))
  {
    hide StageEnds, StageSucceeds, StageIsOpen, GotMessage, Ends, Mutex.Admits;
  }

  lemma DropKeepsCause(op: Op, past: Past)
    ensures var op', past' := op.(phase := DropPhase(op.phase)), past.(dropped := true);
            (HasAborted(op, past) ==> HasAborted(op', past')) && (HasClosed(op, past) ==> HasClosed(op', past'))
  {
    assert GotMessage(past) ==> GotMessage(past.(dropped := true));
    hide GotMessage;
  }

  lemma CallKeepsCauses(events: seq<Event>, e: Event, id: Id)
    requires AccountInv(events) && id in Run(events).ops
    ensures var op, past, op', past' := Run(events).ops[id], PastOf(events, id), Run(events + [e]).ops[id], PastOf(events + [e], id);
            && id in Run(events + [e]).ops
            && (HasAborted(op, past) ==> HasAborted(op', past')) && (HasClosed(op, past) ==> HasClosed(op', past'))
            && (e.Advance? && e.id == id && op.phase.Aborting? ==> HasAborted(op', past'))
            && (e.Advance? && e.id == id && op.phase.Closing? ==> HasClosed(op', past'))
  {
    var s, past := Run(events), PastOf(events, id);
    PastAfter(events, e, id);
    assert Account(s.ops[id], past, s.shared);
    hide Run, PastOf, Account, Learn, NextPhase, NextShared, DropPhase, DropShared, EmptyIsCancelled, HasAborted, HasClosed;
    if e.Advance? && e.id == id {
      AdvanceMeans(s, id, e.input);
      StepKeepsCause(id, s.shared, s.ops[id], e.input, past, Next(s, e).shared);
    } else if e.Drop? && e.id == id && !s.ops[id].kind.Abort? {
      DropMeans(s, id);
      DropKeepsCause(s.ops[id], past);
    }
  }

  /** A flag that an event sets is set by the step of a call that is about to. */
  lemma FlagsComeFromSteps(s: State, e: Event)
    ensures Next(s, e).shared.cancelled && !s.shared.cancelled ==> e.Advance? && e.id in s.ops && s.ops[e.id].phase.Aborting?
    ensures Next(s, e).shared.closing && !s.shared.closing ==> e.Advance? && e.id in s.ops && s.ops[e.id].phase.Closing?
  {
    hide NextPhase, NextSlot, DropPhase, DropMutex;
  }

  /** Over every schedule, each flag is set exactly when some call had its reason to set it and did. */
  lemma {:induction false} FlagsHaveCauses(events: seq<Event>)
    ensures Run(events).shared.cancelled <==> SomeoneAborted(events)
    ensures Run(events).shared.closing <==> SomeoneClosed(events)
  {
    RunKeepsAccounts(events);
    CausesSetFlags(events);
    FlagsMeanCauses(events);
  }

  lemma CausesSetFlags(events: seq<Event>)
    requires AccountInv(events)
    ensures SomeoneAborted(events) ==> Run(events).shared.cancelled
    ensures SomeoneClosed(events) ==> Run(events).shared.closing
  {
    hide Run, PastOf, Ends, StageEnds, StageSucceeds, StageIsOpen, GotMessage, EmptyIsCancelled;
    if id :| id in Run(events).ops && HasAborted(Run(events).ops[id], PastOf(events, id)) {
      assert Account(Run(events).ops[id], PastOf(events, id), Run(events).shared);
    }
    if id :| id in Run(events).ops && HasClosed(Run(events).ops[id], PastOf(events, id)) {
      assert Account(Run(events).ops[id], PastOf(events, id), Run(events).shared);
    }
  }

  lemma {:induction false} FlagsMeanCauses(events: seq<Event>)
    ensures Run(events).shared.cancelled ==> SomeoneAborted(events)
    ensures Run(events).shared.closing ==> SomeoneClosed(events)
  {
    if events != [] {
      var init, e := events[..|events| - 1], events[|events| - 1];
      assert events == init + [e];
      RunKeepsAccounts(init);
      FlagsMeanCauses(init);
      hide AccountInv, PastOf, HasAborted, HasClosed, Next;
      FlagsComeFromSteps(Run(init), e);
      if Run(events).shared.cancelled {
        var id :| id in Run(init).ops && (HasAborted(Run(init).ops[id], PastOf(init, id)) || (e.Advance? && e.id == id && Run(init).ops[id].phase.Aborting?));
        CallKeepsCauses(init, e, id);
      }
      if Run(events).shared.closing {
        var id :| id in Run(init).ops && (HasClosed(Run(init).ops[id], PastOf(init, id)) || (e.Advance? && e.id == id && Run(init).ops[id].phase.Closing?));
        CallKeepsCauses(init, e, id);
      }
    }
  }
}
