/** The audit log's queue: many Log calls, one consumer, callers of Close. Each step
    is what one goroutine does without another being able to come between. */
module AuditQueue {
  import opened ByteStrings

  type Id = nat

  /** full: whether the buffer was full when the entry was dropped. */
  datatype Outcome = Enqueued | Dropped(full: bool) | Stopped | Panicked

  /** Entering: before the stopped check. Unstamped: past it, the clock not yet read. Ready:
      about to select. Blocked: asleep in select. */
  datatype Phase = Entering | Unstamped | Ready(timerFired: bool) | Blocked | Finished(outcome: Outcome)

  /** stamp: the clock's reading when the entry was given its time. */
  datatype Call = Call(critical: bool, stamp: nat, phase: Phase)

  datatype Consumer = Receiving | Holding(entry: Id) | Writing(entry: Id) | Exited

  /** A Close call: before its lock, flag set, stop stored, channel closed, returned.
      first is false for the calls that found the logger closed already. */
  datatype Closing = Begun | Flagged | StopStored | ChannelClosed | Returned(first: bool)

  datatype State = State(
    capacity: nat,
    clock: nat,
    calls: map<Id, Call>,
    buffer: seq<Id>,
    senders: seq<Id>,          // goroutines blocked on the channel, oldest first
    channelClosed: bool,
    stopped: bool,
    closedFlag: bool,
    dropped: nat,
    consumer: Consumer,
    closers: map<Id, Closing>,
    enqueued: seq<Id>,         // every entry the channel accepted, in order
    written: seq<Id>           // every entry the consumer wrote, in order
  )

  datatype Step =
    | Tick
    | Arrive(id: Id, critical: bool)
    | CheckStopped(id: Id)
    | Stamp(id: Id)
    | Send(id: Id)
    | DropFull(id: Id)
    | Block(id: Id)
    | FireTimer(id: Id)
    | DropLate(id: Id)
    | Panic(id: Id)
    | Receive
    | Lock
    | Write
    | Exit
    | BeginClose(id: Id)
    | TakeFlag(id: Id)
    | StoreStop(id: Id)
    | CloseChannel(id: Id)
    | ReturnClose(id: Id)

  function Initial(capacity: nat): State {
    State(capacity, 0, map[], [], [], false, false, false, 0, Receiving, map[], [], [])
  }

  function WithPhase(calls: map<Id, Call>, id: Id, phase: Phase): map<Id, Call> {
    if id in calls then calls[id := calls[id].(phase := phase)] else calls
  }

  function Stamped(calls: map<Id, Call>, id: Id, now: nat): map<Id, Call> {
    if id in calls then calls[id := calls[id].(stamp := now, phase := Ready(false))] else calls
  }

  function Finish(s: State, id: Id, outcome: Outcome): State {
    s.(calls := WithPhase(s.calls, id, Finished(outcome)))
  }

  function InPhase(s: State, id: Id): (p: Phase) {
    if id in s.calls then s.calls[id].phase else Finished(Stopped)
  }

  predicate IsCritical(s: State, id: Id) { id in s.calls && s.calls[id].critical }

  predicate IsFull(s: State) { |s.buffer| == s.capacity }

  function Without(ids: seq<Id>, id: Id): seq<Id> {
    if ids == [] then [] else if ids[0] == id then ids[1..] else [ids[0]] + Without(ids[1..], id)
  }

  /** Closing the channel wakes the blocked senders, whose sends panic. */
  function WakeAll(calls: map<Id, Call>, ids: seq<Id>): map<Id, Call> {
    map id | id in calls :: if id in ids then calls[id].(phase := Finished(Panicked)) else calls[id]
  }

  /** When the step can be taken. */
  predicate Enabled(s: State, step: Step) {
    match step
    case Tick => true
    case Arrive(id, _) => id !in s.calls
    case CheckStopped(id) => InPhase(s, id) == Entering
    case Stamp(id) => InPhase(s, id) == Unstamped
    // select polls the channel: room, or for a call that must not wait, none
    case Send(id) => InPhase(s, id).Ready? && !s.channelClosed && |s.buffer| < s.capacity
    case DropFull(id) => InPhase(s, id).Ready? && !IsCritical(s, id) && !s.channelClosed && IsFull(s)
    case Block(id) =>
      InPhase(s, id) == Ready(false) && IsCritical(s, id) && !s.channelClosed && IsFull(s)
    case FireTimer(id) => InPhase(s, id) == Ready(false) && IsCritical(s, id)
    // the timer's case: chosen among ready cases, or what wakes a blocked call
    case DropLate(id) => IsCritical(s, id) && (InPhase(s, id) == Ready(true) || InPhase(s, id) == Blocked)
    case Panic(id) => InPhase(s, id).Ready? && s.channelClosed
    case Receive => s.consumer == Receiving && s.buffer != []
    case Lock => s.consumer.Holding?
    case Write => s.consumer.Writing?
    case Exit => s.consumer == Receiving && s.buffer == [] && s.channelClosed
    case BeginClose(id) => id !in s.closers
    // Close and the consumer's write share one mutex
    case TakeFlag(id) => id in s.closers && s.closers[id] == Begun && !s.consumer.Writing?
    case StoreStop(id) => id in s.closers && s.closers[id] == Flagged
    case CloseChannel(id) => id in s.closers && s.closers[id] == StopStored
    case ReturnClose(id) => id in s.closers && s.closers[id] == ChannelClosed && s.consumer == Exited
  }

  function Next(s: State, step: Step): State
    requires Enabled(s, step)
  {
    match step
    case Tick => s.(clock := s.clock + 1)
    case Arrive(id, critical) => s.(calls := s.calls[id := Call(critical, 0, Entering)])
    case CheckStopped(id) =>
      if s.stopped then Finish(s, id, Stopped)
      else s.(calls := WithPhase(s.calls, id, Unstamped))
    case Stamp(id) => s.(calls := Stamped(s.calls, id, s.clock))
    case Send(id) =>
      Finish(s, id, Enqueued).(buffer := s.buffer + [id], enqueued := s.enqueued + [id])
    case DropFull(id) => Finish(s, id, Dropped(true)).(dropped := s.dropped + 1)
    case Block(id) =>
      s.(calls := WithPhase(s.calls, id, Blocked), senders := s.senders + [id])
    case FireTimer(id) => s.(calls := WithPhase(s.calls, id, Ready(true)))
    case DropLate(id) =>
      Finish(s, id, Dropped(IsFull(s))).(dropped := s.dropped + 1, senders := Without(s.senders, id))
    case Panic(id) => Finish(s, id, Panicked)
    case Receive =>
      // the slot a receive frees goes to the oldest blocked sender at once
      if s.senders == [] then s.(consumer := Holding(s.buffer[0]), buffer := s.buffer[1..])
      else
        Finish(s, s.senders[0], Enqueued).(
          consumer := Holding(s.buffer[0]), buffer := s.buffer[1..] + [s.senders[0]],
          senders := s.senders[1..], enqueued := s.enqueued + [s.senders[0]])
    case Lock => s.(consumer := Writing(s.consumer.entry))
    case Write => s.(consumer := Receiving, written := s.written + [s.consumer.entry])
    case Exit => s.(consumer := Exited)
    case BeginClose(id) => s.(closers := s.closers[id := Begun])
    case TakeFlag(id) =>
      if s.closedFlag then s.(closers := s.closers[id := Returned(false)])
      else s.(closedFlag := true, closers := s.closers[id := Flagged])
    case StoreStop(id) => s.(stopped := true, closers := s.closers[id := StopStored])
    case CloseChannel(id) =>
      s.(channelClosed := true, calls := WakeAll(s.calls, s.senders), senders := [],
         closers := s.closers[id := ChannelClosed])
    case ReturnClose(id) => s.(closers := s.closers[id := Returned(true)])
  }

  // --------------------------------------------------------------- the invariant

  function InHand(c: Consumer): seq<Id> {
    if c.Holding? || c.Writing? then [c.entry] else []
  }

  ghost predicate Distinct(ids: seq<Id>) {
    forall i, j :: 0 <= i < j < |ids| ==> ids[i] != ids[j]
  }

  function DroppedCalls(s: State): set<Id> {
    set id | id in s.calls && s.calls[id].phase.Finished? && s.calls[id].phase.outcome.Dropped?
  }

  /** What was accepted is written, in the consumer's hand, or waiting: in that order. */
  ghost predicate InOrder(s: State) {
    s.enqueued == s.written + InHand(s.consumer) + s.buffer
  }

  /** Only one Close gets past its lock. */
  ghost predicate OneCloser(s: State) {
    && (forall c :: c in s.closers && s.closers[c] !in {Begun, Returned(false)} ==> s.closedFlag)
    && (forall c, d :: c in s.closers && d in s.closers && c != d && s.closers[c] !in {Begun, Returned(false)} ==>
          s.closers[d] in {Begun, Returned(false)})
  }

  ghost predicate CloseProgress(s: State) {
    && (s.stopped ==> s.closedFlag)
    && (s.channelClosed ==> s.stopped)
    && (s.consumer == Exited ==> s.channelClosed && s.buffer == [])
    && (forall c :: c in s.closers ==> match s.closers[c]
          case Begun => true
          case Flagged => !s.stopped
          case StopStored => s.stopped && !s.channelClosed
          case ChannelClosed => s.channelClosed
          case Returned(first) => first ==> s.consumer == Exited && s.channelClosed)
  }

  /** The accepted entries are those of the calls that finished by sending. */
  ghost predicate SendsTracked(s: State) {
    && Distinct(s.enqueued)
    && forall id :: id in s.enqueued <==> id in s.calls && s.calls[id].phase == Finished(Enqueued)
  }

  ghost predicate SleepersTracked(s: State) {
    && Distinct(s.senders)
    && (forall id :: id in s.senders <==> id in s.calls && s.calls[id].phase == Blocked)
    && (forall id :: id in s.calls && s.calls[id].phase == Blocked ==> s.calls[id].critical)
  }

  /** Nobody sleeps on a channel with room, or on a closed one. */
  ghost predicate SendersWaitRightly(s: State) {
    && |s.buffer| <= s.capacity
    && (s.senders != [] ==> IsFull(s) && !s.channelClosed)
  }

  /** The counter counts the drops, and only a critical call is dropped while there is room. */
  ghost predicate DropsCounted(s: State) {
    && |DroppedCalls(s)| == s.dropped
    && forall id :: id in s.calls && s.calls[id].phase == Finished(Dropped(false)) ==> s.calls[id].critical
  }

  ghost predicate Inv(s: State) {
    && s.capacity > 0
    && InOrder(s) && OneCloser(s) && CloseProgress(s)
    && SendsTracked(s) && SleepersTracked(s) && SendersWaitRightly(s) && DropsCounted(s)
  }

  lemma {:induction false} WithoutRemoves(ids: seq<Id>, id: Id)
    requires Distinct(ids)
    ensures Distinct(Without(ids, id))
    ensures forall x :: x in Without(ids, id) <==> x in ids && x != id
  {
    if ids != [] && ids[0] != id {
      WithoutRemoves(ids[1..], id);
      assert ids == [ids[0]] + ids[1..];
      assert ids[0] !in ids[1..];
      assert ids[0] !in Without(ids[1..], id);
    }
  }

  lemma {:induction false} StepKeepsOrder(s: State, step: Step)
    requires Inv(s) && Enabled(s, step)
    ensures InOrder(Next(s, step)) && SendersWaitRightly(Next(s, step))
  {
    StepKeepsSequence(s, step);
    if step.DropLate? {
      WithoutRemoves(s.senders, step.id);
    }
  }

  lemma {:induction false} StepKeepsSequence(s: State, step: Step)
    requires Inv(s) && Enabled(s, step)
    ensures InOrder(Next(s, step))
  {
  }

  lemma {:induction false} StepKeepsOneCloser(s: State, step: Step)
    requires Inv(s) && Enabled(s, step)
    ensures OneCloser(Next(s, step))
  {
  }

  lemma {:induction false} StepKeepsCloseProgress(s: State, step: Step)
    requires Inv(s) && Enabled(s, step)
    ensures CloseProgress(Next(s, step))
  {
    if IsCloserStep(step) {
      CloserKeepsProgress(s, step);
    } else {
      OthersKeepProgress(s, step);
    }
  }

  predicate IsCloserStep(step: Step) {
    step.BeginClose? || step.TakeFlag? || step.StoreStop? || step.CloseChannel? || step.ReturnClose?
  }

  lemma {:induction false} CloserKeepsProgress(s: State, step: Step)
    requires Inv(s) && Enabled(s, step) && IsCloserStep(step)
    ensures CloseProgress(Next(s, step))
  {
    if step.TakeFlag? || step.StoreStop? {
      StopKeepsProgress(s, step);
    }
  }

  lemma {:induction false} StopKeepsProgress(s: State, step: Step)
    requires Inv(s) && Enabled(s, step) && (step.TakeFlag? || step.StoreStop?)
    ensures CloseProgress(Next(s, step))
  {
  }

  lemma {:induction false} OthersKeepProgress(s: State, step: Step)
    requires CloseProgress(s) && Enabled(s, step) && !IsCloserStep(step)
    ensures CloseProgress(Next(s, step))
  {
  }

  lemma {:induction false} StepKeepsSends(s: State, step: Step)
    requires Inv(s) && Enabled(s, step)
    ensures SendsTracked(Next(s, step))
  {
    if step.Receive? {
      ReceiveKeepsSends(s);
    } else if step.Send? {
      SendKeepsSends(s, step);
    } else {
      OtherStepKeepsSends(s, step);
    }
  }

  lemma {:induction false} SendKeepsSends(s: State, step: Step)
    requires Inv(s) && Enabled(s, step) && step.Send?
    ensures SendsTracked(Next(s, step))
  {
  }

  lemma {:induction false} ReceiveKeepsSends(s: State)
    requires Inv(s) && Enabled(s, Receive)
    ensures SendsTracked(Next(s, Receive))
  {
  }

  lemma {:induction false} OtherStepKeepsSends(s: State, step: Step)
    requires Inv(s) && Enabled(s, step) && !step.Receive? && !step.Send?
    ensures SendsTracked(Next(s, step))
  {
  }

  lemma {:induction false} StepKeepsSleepers(s: State, step: Step)
    requires Inv(s) && Enabled(s, step)
    ensures SleepersTracked(Next(s, step))
  {
    if step.DropLate? {
      WithoutRemoves(s.senders, step.id);
    } else if step.CloseChannel? || step.Block? || step.Receive? {
      WakingKeepsSleepers(s, step);
    } else {
      OthersKeepSleepers(s, step);
    }
  }

  lemma {:induction false} OthersKeepSleepers(s: State, step: Step)
    requires SleepersTracked(s) && Enabled(s, step)
    requires !step.DropLate? && !step.CloseChannel? && !step.Block? && !step.Receive?
    ensures SleepersTracked(Next(s, step))
  {
  }

  lemma {:induction false} WakingKeepsSleepers(s: State, step: Step)
    requires Inv(s) && Enabled(s, step) && (step.CloseChannel? || step.Block? || step.Receive?)
    ensures SleepersTracked(Next(s, step))
  {
    if step.Receive? {
      ReceiveKeepsSleepers(s);
    } else if step.Block? {
      BlockKeepsSleepers(s, step.id);
    }
  }

  lemma {:induction false} ReceiveKeepsSleepers(s: State)
    requires Inv(s) && Enabled(s, Receive)
    ensures SleepersTracked(Next(s, Receive))
  {
  }

  lemma {:induction false} BlockKeepsSleepers(s: State, id: Id)
    requires Inv(s) && Enabled(s, Block(id))
    ensures SleepersTracked(Next(s, Block(id)))
  {
  }

  lemma {:induction false} StepCountsDrops(s: State, step: Step)
    requires Inv(s) && Enabled(s, step)
    ensures DropsCounted(Next(s, step))
  {
    if step.DropLate? || step.DropFull? {
      CountOneDrop(s, step);
    } else {
      CountNoDrop(s, step);
    }
  }

  lemma {:induction false} CountOneDrop(s: State, step: Step)
    requires Inv(s) && Enabled(s, step) && (step.DropLate? || step.DropFull?)
    ensures DropsCounted(Next(s, step))
  {
    assert step.id !in DroppedCalls(s);
    assert DroppedCalls(Next(s, step)) == DroppedCalls(s) + {step.id};
  }

  lemma {:induction false} CountNoDrop(s: State, step: Step)
    requires Inv(s) && Enabled(s, step) && !step.DropLate? && !step.DropFull?
    ensures DropsCounted(Next(s, step))
  {
    var t := Next(s, step);
    forall id
      ensures id in DroppedCalls(t) <==> id in DroppedCalls(s)
    {
      if id in s.calls && s.calls[id].phase.Finished? {
        FinishedStays(s, step, id);
      } else {
        NotDroppedYet(s, step, id);
      }
    }
    assert DroppedCalls(t) == DroppedCalls(s);
    assert forall id :: id in t.calls && t.calls[id].phase == Finished(Dropped(false)) ==> id in DroppedCalls(t);
    forall id | id in t.calls && t.calls[id].phase == Finished(Dropped(false)) ensures t.calls[id].critical {
      assert id in DroppedCalls(s);
      FinishedStays(s, step, id);
    }
  }

  lemma {:induction false} FinishedStays(s: State, step: Step, id: Id)
    requires Inv(s) && Enabled(s, step) && id in s.calls && s.calls[id].phase.Finished?
    ensures id in Next(s, step).calls && Next(s, step).calls[id] == s.calls[id]
  {
    if !step.Receive? && !step.CloseChannel? {
      OwnStepKeepsFinished(s, step, id);
    }
  }

  lemma {:induction false} OwnStepKeepsFinished(s: State, step: Step, id: Id)
    requires Enabled(s, step) && !step.Receive? && !step.CloseChannel?
    requires id in s.calls && s.calls[id].phase.Finished?
    ensures id in Next(s, step).calls && Next(s, step).calls[id] == s.calls[id]
  {
  }

  lemma {:induction false} NotDroppedYet(s: State, step: Step, id: Id)
    requires Inv(s) && Enabled(s, step) && !step.DropLate? && !step.DropFull?
    requires id !in s.calls || !s.calls[id].phase.Finished?
    ensures id !in DroppedCalls(Next(s, step))
  {
  }

  lemma {:induction false} StepKeepsInv(s: State, step: Step)
    requires Inv(s) && Enabled(s, step)
    ensures Inv(Next(s, step))
  {
    StepKeepsOrder(s, step);
    StepKeepsOneCloser(s, step);
    StepKeepsCloseProgress(s, step);
    StepKeepsSends(s, step);
    StepKeepsSleepers(s, step);
    StepCountsDrops(s, step);
  }

  // ------------------------------------------------------------------ whole runs

  ghost predicate Possible(s: State, steps: seq<Step>)
    decreases |steps|
  {
    steps == [] || (Enabled(s, steps[0]) && Possible(Next(s, steps[0]), steps[1..]))
  }

  ghost function After(s: State, steps: seq<Step>): State
    requires Possible(s, steps)
    decreases |steps|
  {
    if steps == [] then s else After(Next(s, steps[0]), steps[1..])
  }

  lemma {:induction false} RunKeepsInv(s: State, steps: seq<Step>)
    requires Inv(s) && Possible(s, steps)
    ensures Inv(After(s, steps))
    decreases |steps|
  {
    if steps != [] {
      StepKeepsInv(s, steps[0]);
      RunKeepsInv(Next(s, steps[0]), steps[1..]);
    }
  }

  function CallsWith(s: State, outcome: Outcome): set<Id> {
    set id | id in s.calls && s.calls[id].phase == Finished(outcome)
  }

  function FinishedCalls(s: State): set<Id> {
    set id | id in s.calls && s.calls[id].phase.Finished?
  }

  lemma {:induction false} DistinctCount(ids: seq<Id>, members: set<Id>)
    requires Distinct(ids) && forall id :: id in ids <==> id in members
    ensures |ids| == |members|
  {
    if ids == [] {
      assert members == {};
    } else {
      assert ids == [ids[0]] + ids[1..];
      assert ids[0] !in ids[1..];
      DistinctCount(ids[1..], members - {ids[0]});
    }
  }

  lemma {:induction false} DisjointCount(a: set<Id>, b: set<Id>)
    requires a !! b
    ensures |a + b| == |a| + |b|
  {
  }

  lemma {:induction false} Accounting(s: State)
    requires Inv(s)
    ensures |FinishedCalls(s)| ==
              |s.enqueued| + s.dropped + |CallsWith(s, Stopped)| + |CallsWith(s, Panicked)|
  {
    var sent, dropped := CallsWith(s, Enqueued), DroppedCalls(s);
    var refused, caught := CallsWith(s, Stopped), CallsWith(s, Panicked);
    DistinctCount(s.enqueued, sent);
    DisjointCount(sent, dropped);
    DisjointCount(sent + dropped, refused);
    DisjointCount(sent + dropped + refused, caught);
    EveryOutcome(s);
  }

  lemma {:induction false} EveryOutcome(s: State)
    ensures FinishedCalls(s) ==
            CallsWith(s, Enqueued) + DroppedCalls(s) + CallsWith(s, Stopped) + CallsWith(s, Panicked)
  {
    forall id | id in FinishedCalls(s)
      ensures id in CallsWith(s, Enqueued) + DroppedCalls(s) + CallsWith(s, Stopped) + CallsWith(s, Panicked)
    {
      match s.calls[id].phase.outcome
      case Enqueued =>
      case Dropped(_) =>
      case Stopped =>
      case Panicked =>
    }
  }

  /** In every interleaving: what is written is a prefix of what was accepted, and every
      finished call is accounted for once: accepted, dropped and counted, refused after
      the stop, or caught by the closing channel. */
  lemma {:induction false} QueueSafety(capacity: nat, steps: seq<Step>)
    requires capacity > 0 && Possible(Initial(capacity), steps)
    ensures var s := After(Initial(capacity), steps);
            && s.written <= s.enqueued
            && |FinishedCalls(s)| ==
                 |s.enqueued| + s.dropped + |CallsWith(s, Stopped)| + |CallsWith(s, Panicked)|
            && (forall id :: id in s.calls && s.calls[id].phase == Finished(Panicked) ==> id !in s.enqueued)
  {
    InitialInv(capacity);
    RunKeepsInv(Initial(capacity), steps);
    var s := After(Initial(capacity), steps);
    Accounting(s);
    assert s.enqueued[..|s.written|] == s.written;
  }

  lemma {:induction false} InitialInv(capacity: nat)
    requires capacity > 0
    ensures Inv(Initial(capacity))
  {
    assert DroppedCalls(Initial(capacity)) == {};
  }

  /** Some Close came through: the channel is drained. */
  ghost predicate FirstCloseReturned(s: State) {
    exists c :: c in s.closers && s.closers[c] == Returned(true)
  }

  lemma {:induction false} ClosedStaysClosed(s: State, steps: seq<Step>)
    requires Inv(s) && Possible(s, steps) && s.channelClosed
    ensures After(s, steps).channelClosed && After(s, steps).enqueued == s.enqueued
    decreases |steps|
  {
    if steps != [] {
      StepKeepsInv(s, steps[0]);
      ClosedStaysClosed(Next(s, steps[0]), steps[1..]);
    }
  }

  /** When the first Close returns, everything accepted is written, and no later step
      of any call changes either. */
  lemma {:induction false} CloseDrains(capacity: nat, steps: seq<Step>, later: seq<Step>)
    requires capacity > 0 && Possible(Initial(capacity), steps)
    requires FirstCloseReturned(After(Initial(capacity), steps))
    requires Possible(After(Initial(capacity), steps), later)
    ensures var s := After(Initial(capacity), steps);
            s.written == s.enqueued && After(s, later).written == After(s, later).enqueued == s.written
  {
    InitialInv(capacity);
    RunKeepsInv(Initial(capacity), steps);
    var s := After(Initial(capacity), steps);
    RunKeepsInv(s, later);
    ClosedStaysClosed(s, later);
    ExitedStaysExited(s, later);
  }

  lemma {:induction false} ExitedStaysExited(s: State, steps: seq<Step>)
    requires Inv(s) && Possible(s, steps) && s.consumer == Exited
    ensures After(s, steps).consumer == Exited
    decreases |steps|
  {
    if steps != [] {
      StepKeepsInv(s, steps[0]);
      ExitedStaysExited(Next(s, steps[0]), steps[1..]);
    }
  }

  /** What the consumer still has to do on a closed channel. */
  function Work(s: State): nat {
    3 * |s.buffer| + match s.consumer
                     case Receiving => 1
                     case Holding(_) => 3
                     case Writing(_) => 2
                     case Exited => 0
  }

  function ConsumerStep(s: State): Step {
    match s.consumer
    case Receiving => if s.buffer == [] then Exit else Receive
    case Holding(_) => Lock
    case _ => Write
  }

  /** Close cannot hang: once the channel is closed the consumer always has a step that
      reduces its work, and nobody else's step adds to it. */
  lemma {:induction false} CloseTerminates(s: State)
    requires Inv(s) && s.channelClosed && s.consumer != Exited
    ensures Enabled(s, ConsumerStep(s)) && Work(Next(s, ConsumerStep(s))) < Work(s)
    ensures forall step :: Enabled(s, step) ==> Work(Next(s, step)) <= Work(s)
  {
    ConsumerWorks(s);
    forall step | Enabled(s, step) ensures Work(Next(s, step)) <= Work(s) {
      NoMoreWork(s, step);
    }
  }

  lemma {:induction false} ConsumerWorks(s: State)
    requires Inv(s) && s.channelClosed && s.consumer != Exited
    ensures Enabled(s, ConsumerStep(s)) && Work(Next(s, ConsumerStep(s))) < Work(s)
  {
  }

  lemma {:induction false} NoMoreWork(s: State, step: Step)
    requires Inv(s) && s.channelClosed && Enabled(s, step)
    ensures Work(Next(s, step)) <= Work(s)
  {
  }

  // ----------------------------------------------------- what the counter counts

  /** A drop is a full buffer, or a critical call whose timer had fired before its
      select first looked. */
  lemma {:induction false} DropsMeanFullOrLate(s: State, step: Step)
    requires Inv(s) && Enabled(s, step)
    ensures Next(s, step).dropped != s.dropped ==>
              Next(s, step).dropped == s.dropped + 1
              && (IsFull(s) || (step.DropLate? && InPhase(s, step.id) == Ready(true)))
    ensures step.DropLate? && InPhase(s, step.id) == Blocked ==> IsFull(s)
  {
  }

  lemma {:induction false} RunGrows(s: State, a: seq<Step>, step: Step)
    requires Possible(s, a) && Enabled(After(s, a), step)
    ensures Possible(s, a + [step]) && After(s, a + [step]) == Next(After(s, a), step)
    decreases |a|
  {
    if a == [] {
      assert Possible(Next(s, step), [step][1..]);
    } else {
      RunGrows(Next(s, a[0]), a[1..], step);
      assert (a + [step])[1..] == a[1..] + [step];
    }
  }

  // ------------------------------------------------------------ how a call ends

  /** Log does not wait: an uncritical call about to look at the queue has exactly one step,
      which ends it. It is sent into an open queue with room, dropped for an open queue that
      is full, and caught when the channel is closed. */
  lemma {:induction false} UncriticalEndsAtOnce(s: State, step: Step, id: Id)
    requires Inv(s) && id in s.calls && s.calls[id].phase == Ready(false) && !s.calls[id].critical
    requires Enabled(s, step)
    ensures step.Send? || step.DropFull? || step.Block? || step.FireTimer? || step.DropLate? || step.Panic? ==>
              step.id == id ==>
                step == (if s.channelClosed then Panic(id)
                         else if |s.buffer| < s.capacity then Send(id)
                         else DropFull(id))
    ensures Enabled(s, if s.channelClosed then Panic(id)
                       else if |s.buffer| < s.capacity then Send(id)
                       else DropFull(id))
  {
  }

  /** A critical call about to look is sent, caught or put to sleep in the same cases, unless
      its timer fires first; then it may be dropped instead. */
  lemma {:induction false} CriticalWaits(s: State, id: Id, fired: bool)
    requires Inv(s) && id in s.calls && s.calls[id].phase == Ready(fired) && s.calls[id].critical
    ensures Enabled(s, Panic(id)) <==> s.channelClosed
    ensures Enabled(s, Send(id)) <==> !s.channelClosed && |s.buffer| < s.capacity
    ensures Enabled(s, Block(id)) <==> !s.channelClosed && |s.buffer| >= s.capacity && !fired
    ensures Enabled(s, FireTimer(id)) <==> !fired
    ensures Enabled(s, DropLate(id)) <==> fired
    ensures !Enabled(s, DropFull(id))
  {
  }

  /** What these steps make of the call. */
  lemma {:induction false} CallEnds(s: State, step: Step)
    requires Enabled(s, step) && (step.Send? || step.DropFull? || step.DropLate? || step.Panic?)
    ensures step.id in Next(s, step).calls
    ensures Next(s, step).calls[step.id].phase ==
            match step
            case Send(_) => Finished(Enqueued)
            case DropFull(_) => Finished(Dropped(true))
            case DropLate(_) => Finished(Dropped(|s.buffer| == s.capacity))
            case _ => Finished(Panicked)
    ensures step.Send? ==> Next(s, step).buffer == s.buffer + [step.id]
    ensures step.DropFull? || step.DropLate? ==> Next(s, step).dropped == s.dropped + 1
  {
  }

  predicate IsDropped(s: State, id: Id) {
    id in s.calls && s.calls[id].phase.Finished? && s.calls[id].phase.outcome.Dropped?
  }

  lemma {:induction false} DroppedInOneStep(s: State, step: Step, id: Id)
    requires Inv(s) && Enabled(s, step) && !IsDropped(s, id) && IsDropped(Next(s, step), id)
    ensures id in s.calls && step == if s.calls[id].critical then DropLate(id) else DropFull(id)
  {
    if !step.DropLate? && !step.DropFull? {
      if id in s.calls && s.calls[id].phase.Finished? {
        FinishedStays(s, step, id);
      } else {
        NotDroppedYet(s, step, id);
      }
    }
  }

  lemma {:induction false} CriticalityStays(s: State, step: Step, id: Id)
    requires Inv(s) && Enabled(s, step) && id in s.calls
    ensures id in Next(s, step).calls && Next(s, step).calls[id].critical == s.calls[id].critical
  {
    if !step.Receive? && !step.CloseChannel? {
      OwnStepKeepsCriticality(s, step, id);
    }
  }

  lemma {:induction false} OwnStepKeepsCriticality(s: State, step: Step, id: Id)
    requires Enabled(s, step) && id in s.calls && !step.Receive? && !step.CloseChannel?
    ensures id in Next(s, step).calls && Next(s, step).calls[id].critical == s.calls[id].critical
  {
  }

  lemma {:induction false} CriticalityStaysOverRun(s: State, steps: seq<Step>, id: Id)
    requires Inv(s) && Possible(s, steps) && id in s.calls
    ensures id in After(s, steps).calls && After(s, steps).calls[id].critical == s.calls[id].critical
    decreases |steps|
  {
    if steps != [] {
      CriticalityStays(s, steps[0], id);
      StepKeepsInv(s, steps[0]);
      CriticalityStaysOverRun(Next(s, steps[0]), steps[1..], id);
    }
  }

  /** Over any run a critical call that ends dropped was dropped by its timer, never by the
      default branch, and an uncritical one by the default branch. */
  lemma {:induction false} DroppedByItsOwnBranch(s: State, steps: seq<Step>, id: Id) returns (i: nat)
    requires Inv(s) && Possible(s, steps) && !IsDropped(s, id) && IsDropped(After(s, steps), id)
    ensures i < |steps| && steps[i] == if After(s, steps).calls[id].critical then DropLate(id) else DropFull(id)
    decreases |steps|
  {
    var t := Next(s, steps[0]);
    StepKeepsInv(s, steps[0]);
    if IsDropped(t, id) {
      i := 0;
      DroppedInOneStep(s, steps[0], id);
      CriticalityStays(s, steps[0], id);
      CriticalityStaysOverRun(t, steps[1..], id);
    } else {
      i := DroppedByItsOwnBranch(t, steps[1..], id);
      i := i + 1;
    }
  }

  /** Calls are refused only after the stop, and caught only after the channel was closed. */
  ghost predicate RefusedRightly(s: State) {
    forall id :: id in s.calls ==>
      && (s.calls[id].phase == Finished(Stopped) ==> s.stopped)
      && (s.calls[id].phase == Finished(Panicked) ==> s.channelClosed)
  }

  lemma {:induction false} RefusalsNeedTheStop(s: State, steps: seq<Step>)
    requires Inv(s) && RefusedRightly(s) && Possible(s, steps)
    ensures RefusedRightly(After(s, steps))
    decreases |steps|
  {
    if steps != [] {
      StepKeepsInv(s, steps[0]);
      OneStepRefusesRightly(s, steps[0]);
      RefusalsNeedTheStop(Next(s, steps[0]), steps[1..]);
    }
  }

  lemma {:induction false} OneStepRefusesRightly(s: State, step: Step)
    requires Inv(s) && RefusedRightly(s) && Enabled(s, step)
    ensures RefusedRightly(Next(s, step))
  {
    var t := Next(s, step);
    forall id | id in t.calls
      ensures t.calls[id].phase == Finished(Stopped) ==> t.stopped
      ensures t.calls[id].phase == Finished(Panicked) ==> t.channelClosed
    {
      if id in s.calls && s.calls[id].phase.Finished? {
        FinishedStays(s, step, id);
        FlagsStay(s, step);
      } else {
        FreshRefusal(s, step, id);
      }
    }
  }

  lemma {:induction false} FlagsStay(s: State, step: Step)
    requires Enabled(s, step)
    ensures s.stopped ==> Next(s, step).stopped
    ensures s.channelClosed ==> Next(s, step).channelClosed
  {
  }

  lemma {:induction false} FreshRefusal(s: State, step: Step, id: Id)
    requires Inv(s) && Enabled(s, step) && id in Next(s, step).calls
    requires id !in s.calls || !s.calls[id].phase.Finished?
    ensures var t := Next(s, step);
            && (t.calls[id].phase == Finished(Stopped) ==> t.stopped)
            && (t.calls[id].phase == Finished(Panicked) ==> t.channelClosed)
  {
    if !step.Receive? && !step.CloseChannel? {
      FreshOwnRefusal(s, step, id);
    }
  }

  lemma {:induction false} FreshOwnRefusal(s: State, step: Step, id: Id)
    requires Enabled(s, step) && !step.Receive? && !step.CloseChannel? && id in Next(s, step).calls
    requires id !in s.calls || !s.calls[id].phase.Finished?
    ensures var t := Next(s, step);
            && (t.calls[id].phase == Finished(Stopped) ==> t.stopped)
            && (t.calls[id].phase == Finished(Panicked) ==> t.channelClosed)
  {
  }

  /** Once the logger is stopped no call that has yet to check gets past the check. */
  lemma {:induction false} StoppedCallsAreRefused(s: State, steps: seq<Step>, id: Id)
    requires Inv(s) && s.stopped && Possible(s, steps) && InPhase(s, id) in {Entering, Finished(Stopped)}
    ensures InPhase(After(s, steps), id) in {Entering, Finished(Stopped)}
    decreases |steps|
  {
    if steps != [] {
      StepKeepsInv(s, steps[0]);
      StoppedCallStays(s, steps[0], id);
      StoppedCallsAreRefused(Next(s, steps[0]), steps[1..], id);
    }
  }

  lemma {:induction false} StoppedCallStays(s: State, step: Step, id: Id)
    requires Inv(s) && s.stopped && Enabled(s, step) && InPhase(s, id) in {Entering, Finished(Stopped)}
    ensures Next(s, step).stopped && InPhase(Next(s, step), id) in {Entering, Finished(Stopped)}
  {
    FlagsStay(s, step);
    if id in s.calls && s.calls[id].phase.Finished? {
      FinishedStays(s, step, id);
    } else {
      EnteringIsRefused(s, step, id);
    }
  }

  lemma {:induction false} EnteringIsRefused(s: State, step: Step, id: Id)
    requires Inv(s) && s.stopped && Enabled(s, step) && (id !in s.calls || s.calls[id].phase == Entering)
    ensures InPhase(Next(s, step), id) == Entering || InPhase(Next(s, step), id) == Finished(Stopped)
  {
  }

  /** The flag is set only by a Close call that went on to close. */
  ghost predicate FlagHasTaker(s: State) {
    s.closedFlag ==> exists c :: c in s.closers && s.closers[c] != Begun && s.closers[c] != Returned(false)
  }

  /** So over any run of a new logger nothing is refused, and no Close returns without having
      closed, until some Close call has taken the flag. */
  lemma {:induction false} OnlyCloseStops(capacity: nat, steps: seq<Step>)
    requires capacity > 0 && Possible(Initial(capacity), steps)
    ensures FlagHasTaker(After(Initial(capacity), steps))
    ensures RefusedRightly(After(Initial(capacity), steps))
  {
    InitialInv(capacity);
    FlagKeepsTaker(Initial(capacity), steps);
    RefusalsNeedTheStop(Initial(capacity), steps);
  }

  lemma {:induction false} FlagKeepsTaker(s: State, steps: seq<Step>)
    requires Inv(s) && FlagHasTaker(s) && Possible(s, steps)
    ensures FlagHasTaker(After(s, steps))
    decreases |steps|
  {
    if steps != [] {
      StepKeepsInv(s, steps[0]);
      StepKeepsTaker(s, steps[0]);
      FlagKeepsTaker(Next(s, steps[0]), steps[1..]);
    }
  }

  lemma {:induction false} StepKeepsTaker(s: State, step: Step)
    requires Inv(s) && FlagHasTaker(s) && Enabled(s, step)
    ensures FlagHasTaker(Next(s, step))
  {
    var t := Next(s, step);
    if s.closedFlag {
      var c :| c in s.closers && s.closers[c] != Begun && s.closers[c] != Returned(false);
      assert c in t.closers && t.closers[c] != Begun && t.closers[c] != Returned(false);
    } else if step.TakeFlag? {
      assert step.id in t.closers && t.closers[step.id] == Flagged;
    }
  }

  /** Closing the channel catches every blocked call, and no close comes between the lock and
      the end of a write. */
  lemma {:induction false} CloseCatchesSleepers(s: State, closer: Id, id: Id)
    requires Inv(s)
    ensures Enabled(s, CloseChannel(closer)) && InPhase(s, id) == Blocked ==>
              InPhase(Next(s, CloseChannel(closer)), id) == Finished(Panicked)
    ensures s.consumer.Writing? ==> !Enabled(s, TakeFlag(closer))
  {
  }

  /** No call has seen its timer fire before it looked at the queue, nor been dropped for
      that. */
  ghost predicate NoneLate(s: State) {
    forall id :: id in s.calls ==> s.calls[id].phase !in {Ready(true), Finished(Dropped(false))}
  }

  /** While no timer fires early, every drop is for a full queue, critical or not: in the
      whole run nothing is dropped with room left. */
  lemma {:induction false} OnlyEarlyTimersDropWithRoom(s: State, steps: seq<Step>)
    requires Inv(s) && NoneLate(s) && Possible(s, steps)
    requires forall i :: 0 <= i < |steps| ==> !steps[i].FireTimer?
    ensures NoneLate(After(s, steps))
    decreases |steps|
  {
    if steps != [] {
      StepKeepsInv(s, steps[0]);
      StepKeepsNoneLate(s, steps[0]);
      OnlyEarlyTimersDropWithRoom(Next(s, steps[0]), steps[1..]);
    }
  }

  lemma {:induction false} StepKeepsNoneLate(s: State, step: Step)
    requires Inv(s) && NoneLate(s) && Enabled(s, step) && !step.FireTimer?
    ensures NoneLate(Next(s, step))
  {
    DropsMeanFullOrLate(s, step);
  }

  predicate IsReady(s: State, id: Id) {
    InPhase(s, id).Ready?
  }

  function StampOf(s: State, id: Id): nat {
    if id in s.calls then s.calls[id].stamp else 0
  }

  predicate HasStamp(s: State, id: Id) {
    id in s.calls && s.calls[id].phase != Entering && s.calls[id].phase != Unstamped
  }

  /** What the consumer's steps leave as it was. */
  ghost predicate Drained(s: State, t: State) {
    && Inv(t) && !t.channelClosed && t.capacity == s.capacity
    && (forall id :: IsReady(s, id) ==> IsReady(t, id) && t.calls[id] == s.calls[id])
    && (forall id :: HasStamp(s, id) ==> HasStamp(t, id) && StampOf(t, id) == StampOf(s, id))
  }

  predicate CanDrain(s: State, step: Step) {
    !s.channelClosed && step == ConsumerStep(s) && !(s.consumer == Receiving && s.buffer == [])
  }

  lemma {:induction false} DrainStep(s: State, step: Step)
    requires Inv(s) && CanDrain(s, step)
    ensures Enabled(s, step)
    ensures var t := Next(s, step);
            && t.enqueued + t.senders == s.enqueued + s.senders
            && Work(t) + 3 * |t.senders| < Work(s) + 3 * |s.senders|
  {
    if step.Receive? && s.senders != [] {
      assert s.senders == [s.senders[0]] + s.senders[1..];
    }
  }

  lemma {:induction false} ReadyStays(s: State, step: Step, id: Id)
    requires Inv(s) && CanDrain(s, step) && Enabled(s, step) && IsReady(s, id)
    ensures IsReady(Next(s, step), id) && Next(s, step).calls[id] == s.calls[id]
  {
    if step.Receive? && s.senders != [] {
      assert s.senders[0] in s.senders;
    }
  }

  lemma {:induction false} DrainStepKeeps(s: State, step: Step)
    requires Inv(s) && CanDrain(s, step) && Enabled(s, step)
    ensures Drained(s, Next(s, step))
  {
    StepKeepsInv(s, step);
    forall id | IsReady(s, id) ensures IsReady(Next(s, step), id) && Next(s, step).calls[id] == s.calls[id] {
      ReadyStays(s, step, id);
    }
    forall id | HasStamp(s, id) ensures HasStamp(Next(s, step), id) && StampOf(Next(s, step), id) == StampOf(s, id) {
      StampsStay(s, step, id);
    }
    QueueStaysOpen(s, step);
  }

  lemma {:induction false} QueueStaysOpen(s: State, step: Step)
    requires CanDrain(s, step) && Enabled(s, step)
    ensures !Next(s, step).channelClosed && Next(s, step).capacity == s.capacity
  {
  }

  /** The consumer can always empty an open queue: it takes in the blocked calls in their
      order, and calls that are ready stay so. */
  lemma {:induction false} Drain(s: State) returns (steps: seq<Step>)
    requires Inv(s) && !s.channelClosed
    ensures Possible(s, steps) && Drained(s, After(s, steps))
    ensures var t := After(s, steps);
            t.buffer == [] && t.senders == [] && t.consumer == Receiving && t.enqueued == s.enqueued + s.senders
    decreases Work(s) + 3 * |s.senders|
  {
    if s.consumer == Receiving && s.buffer == [] {
      steps := [];
    } else {
      var step := ConsumerStep(s);
      DrainStep(s, step);
      DrainStepKeeps(s, step);
      var rest := Drain(Next(s, step));
      steps := [step] + rest;
      assert steps[0] == step && steps[1..] == rest;
    }
  }

  /** The second case can always happen: from every state with an open queue and a critical
      call ready, some continuation drops that call from an empty queue. */
  lemma {:induction false} EarlyTimerDropsWithRoom(s: State, id: Id) returns (steps: seq<Step>)
    requires Inv(s) && !s.channelClosed && InPhase(s, id) == Ready(false) && IsCritical(s, id)
    ensures Possible(s, steps)
    ensures var t := After(s, steps); t.buffer == [] && InPhase(t, id) == Finished(Dropped(false))
  {
    steps := Drain(s);
    assert IsReady(s, id);
    RunGrows(s, steps, FireTimer(id));
    steps := steps + [FireTimer(id)];
    RunGrows(s, steps, DropLate(id));
    steps := steps + [DropLate(id)];
  }

  /** A whole run: an empty queue, and a critical entry is dropped. */
  lemma {:induction false} LateDropWithRoom()
    ensures exists steps :: Possible(Initial(1), steps)
              && After(Initial(1), steps).dropped == 1 && After(Initial(1), steps).buffer == []
  {
    var s := Initial(1);
    var a: seq<Step> := [];
    RunGrows(s, a, Arrive(0, true));
    a := a + [Arrive(0, true)];
    RunGrows(s, a, CheckStopped(0));
    a := a + [CheckStopped(0)];
    RunGrows(s, a, Stamp(0));
    a := a + [Stamp(0)];
    RunGrows(s, a, FireTimer(0));
    a := a + [FireTimer(0)];
    RunGrows(s, a, DropLate(0));
    a := a + [DropLate(0)];
  }

  lemma {:induction false} StampTwoCalls() returns (a: seq<Step>)
    ensures Possible(Initial(2), a)
    ensures After(Initial(2), a) == Initial(2).(clock := 1,
      calls := map[0 := Call(false, 0, Ready(false)), 1 := Call(false, 0, Unstamped)])
  {
    var s := Initial(2);
    a := [];
    RunGrows(s, a, Arrive(0, false));
    a := a + [Arrive(0, false)];
    RunGrows(s, a, CheckStopped(0));
    a := a + [CheckStopped(0)];
    RunGrows(s, a, Stamp(0));
    a := a + [Stamp(0)];
    RunGrows(s, a, Arrive(1, false));
    a := a + [Arrive(1, false)];
    RunGrows(s, a, CheckStopped(1));
    a := a + [CheckStopped(1)];
    RunGrows(s, a, Tick);
    a := a + [Tick];
  }

  lemma {:induction false} StampSecondCall() returns (a: seq<Step>)
    ensures Possible(Initial(2), a)
    ensures After(Initial(2), a) == Initial(2).(clock := 1,
      calls := map[0 := Call(false, 0, Ready(false)), 1 := Call(false, 1, Ready(false))])
  {
    a := StampTwoCalls();
    RunGrows(Initial(2), a, Stamp(1));
    a := a + [Stamp(1)];
  }

  /** Entries are stamped before they are sent, so the file need not be in time order. */
  lemma {:induction false} StampsMayRunBackwards()
    ensures exists steps :: Possible(Initial(2), steps) && OutOfOrder(After(Initial(2), steps))
  {
    var s := Initial(2);
    var a := StampSecondCall();
    RunGrows(s, a, Send(1));
    a := a + [Send(1)];
    RunGrows(s, a, Send(0));
    a := a + [Send(0)];
    var t := After(s, a);
    assert t.enqueued == [1, 0] && t.calls[1].stamp == 1 && t.calls[0].stamp == 0;
    assert t.enqueued[1 - 1] == 1 && t.enqueued[1] == 0;
  }

  /** Some accepted entry carries a later stamp than its successor. */
  ghost predicate OutOfOrder(s: State) {
    exists i :: 0 < i < |s.enqueued| && s.enqueued[i - 1] in s.calls && s.enqueued[i] in s.calls
      && s.calls[s.enqueued[i - 1]].stamp > s.calls[s.enqueued[i]].stamp
  }

  // --------------------------------------------------- when stamps are in order

  /** The call has its stamp, and is still on its way to the queue. */
  predicate Pending(s: State, id: Id) {
    IsReady(s, id) || InPhase(s, id) == Blocked
  }

  /** b stands before a among the blocked calls. */
  ghost predicate Ahead(s: State, b: Id, a: Id) {
    exists i, j :: 0 <= i < j < |s.senders| && s.senders[i] == b && s.senders[j] == a
  }

  /** b, with the later stamp, can come into the queue before a: only a blocked call cannot
      be overtaken by the ready ones and by those blocked behind it. */
  ghost predicate Overtakable(s: State, a: Id, b: Id) {
    && Pending(s, a) && Pending(s, b) && StampOf(s, a) < StampOf(s, b)
    && (IsReady(s, a) || (InPhase(s, b) == Blocked && Ahead(s, b, a)))
  }

  /** While the queue is open, nobody can be overtaken. One call at a time is a special
      case. */
  ghost predicate InTurn(s: State) {
    !s.channelClosed ==> forall a, b :: !Overtakable(s, a, b)
  }

  /** So it is at every state of a run. */
  ghost predicate NeverOvertaking(s: State, steps: seq<Step>)
    requires Possible(s, steps)
    decreases |steps|
  {
    InTurn(s) && (steps == [] || NeverOvertaking(Next(s, steps[0]), steps[1..]))
  }

  /** The stamps of the accepted entries, in order of acceptance. */
  function AcceptedStamps(s: State): (stamps: seq<nat>)
    ensures |stamps| == |s.enqueued|
  {
    seq(|s.enqueued|, i requires 0 <= i < |s.enqueued| => StampOf(s, s.enqueued[i]))
  }

  predicate Sorted(stamps: seq<nat>) {
    forall i, j :: 0 <= i < j < |stamps| ==> stamps[i] <= stamps[j]
  }

  predicate AtMost(stamps: seq<nat>, bound: nat) {
    forall i :: 0 <= i < |stamps| ==> stamps[i] <= bound
  }

  /** What is accepted is in stamp order, what is pending is not earlier, and nothing is
      from the future. */
  ghost predicate InStampOrder(s: State) {
    && Sorted(AcceptedStamps(s))
    && AtMost(AcceptedStamps(s), s.clock)
    && (forall p :: Pending(s, p) ==> AtMost(AcceptedStamps(s), StampOf(s, p)) && StampOf(s, p) <= s.clock)
  }

  /** Stamps are given once. */
  lemma {:induction false} StampsStay(s: State, step: Step, id: Id)
    requires Inv(s) && Enabled(s, step) && HasStamp(s, id)
    ensures HasStamp(Next(s, step), id) && StampOf(Next(s, step), id) == StampOf(s, id)
  {
    if !step.Receive? && !step.CloseChannel? {
      OwnStepKeepsStamp(s, step, id);
    }
  }

  lemma {:induction false} OwnStepKeepsStamp(s: State, step: Step, id: Id)
    requires Enabled(s, step) && HasStamp(s, id) && !step.Receive? && !step.CloseChannel?
    ensures HasStamp(Next(s, step), id) && StampOf(Next(s, step), id) == StampOf(s, id)
  {
  }

  lemma {:induction false} StampIsNow(s: State, step: Step, id: Id)
    requires Inv(s) && Enabled(s, step) && Pending(Next(s, step), id) && !Pending(s, id)
    ensures StampOf(Next(s, step), id) == s.clock
  {
    if !step.Receive? && !step.CloseChannel? {
      OwnStampIsNow(s, step, id);
    }
  }

  lemma {:induction false} OwnStampIsNow(s: State, step: Step, id: Id)
    requires Enabled(s, step) && Pending(Next(s, step), id) && !Pending(s, id)
    requires !step.Receive? && !step.CloseChannel?
    ensures StampOf(Next(s, step), id) == s.clock
  {
  }

  /** A step accepts at most one entry: a call that was pending, and that none of the others
      still pending could have been overtaken by. */
  lemma {:induction false} AcceptedArePending(s: State, step: Step) returns (id: Option<Id>)
    requires Inv(s) && Enabled(s, step) && InTurn(s)
    ensures Next(s, step).enqueued == s.enqueued + if id.Some? then [id.value] else []
    ensures id.Some? ==> Pending(s, id.value)
    ensures id.Some? ==> forall p :: Pending(s, p) && p != id.value ==> StampOf(s, id.value) <= StampOf(s, p)
  {
    id := None;
    if step.Send? {
      id := Some(step.id);
      SendIsInTurn(s, step.id);
    } else if step.Receive? && s.senders != [] {
      assert s.senders[0] in s.senders;
      id := Some(s.senders[0]);
      OldestIsInTurn(s);
    }
  }

  lemma {:induction false} SendIsInTurn(s: State, id: Id)
    requires Inv(s) && Enabled(s, Send(id)) && InTurn(s)
    ensures forall p :: Pending(s, p) ==> StampOf(s, id) <= StampOf(s, p)
  {
    forall p | Pending(s, p) ensures StampOf(s, id) <= StampOf(s, p) {
      assert InPhase(s, p) == Blocked ==> p in s.senders;
      assert !Overtakable(s, p, id);
    }
  }

  lemma {:induction false} OldestIsInTurn(s: State)
    requires Inv(s) && s.senders != [] && InTurn(s)
    ensures forall p :: Pending(s, p) && p != s.senders[0] ==> StampOf(s, s.senders[0]) <= StampOf(s, p)
  {
    var id := s.senders[0];
    assert id in s.senders;
    forall p | Pending(s, p) && p != id ensures StampOf(s, id) <= StampOf(s, p) {
      if InPhase(s, p) == Blocked {
        assert p in s.senders;
        var j :| 0 <= j < |s.senders| && s.senders[j] == p;
        assert Ahead(s, id, p);
      }
      assert !Overtakable(s, p, id);
    }
  }

  lemma {:induction false} AcceptedHaveStamps(s: State, id: Id)
    requires Inv(s) && id in s.enqueued
    ensures HasStamp(s, id)
  {
  }

  lemma {:induction false} StampsAppend(s: State, t: State, id: Option<Id>)
    requires t.enqueued == s.enqueued + if id.Some? then [id.value] else []
    requires forall i :: 0 <= i < |s.enqueued| ==> StampOf(t, s.enqueued[i]) == StampOf(s, s.enqueued[i])
    requires id.Some? ==> StampOf(t, id.value) == StampOf(s, id.value)
    ensures AcceptedStamps(t) == AcceptedStamps(s) + if id.Some? then [StampOf(s, id.value)] else []
  {
    forall i | 0 <= i < |s.enqueued| ensures AcceptedStamps(t)[i] == AcceptedStamps(s)[i] {
      assert t.enqueued[i] == s.enqueued[i];
    }
  }

  lemma {:induction false} StampsGrow(s: State, step: Step, id: Option<Id>)
    requires Inv(s) && Enabled(s, step) && (id.Some? ==> Pending(s, id.value))
    requires Next(s, step).enqueued == s.enqueued + if id.Some? then [id.value] else []
    ensures AcceptedStamps(Next(s, step)) == AcceptedStamps(s) + if id.Some? then [StampOf(s, id.value)] else []
  {
    var t := Next(s, step);
    forall i | 0 <= i < |s.enqueued| ensures StampOf(t, s.enqueued[i]) == StampOf(s, s.enqueued[i]) {
      AcceptedHaveStamps(s, s.enqueued[i]);
      StampsStay(s, step, s.enqueued[i]);
    }
    if id.Some? {
      StampsStay(s, step, id.value);
    }
    StampsAppend(s, t, id);
  }

  lemma {:induction false} StampOrderCarries(s: State, t: State, id: Option<Id>)
    requires InStampOrder(s) && s.clock <= t.clock && (id.Some? ==> Pending(s, id.value) && !Pending(t, id.value))
    requires id.Some? ==> forall p :: Pending(s, p) && p != id.value ==> StampOf(s, id.value) <= StampOf(s, p)
    requires AcceptedStamps(t) == AcceptedStamps(s) + if id.Some? then [StampOf(s, id.value)] else []
    requires forall p :: Pending(t, p) ==> StampOf(t, p) == if Pending(s, p) then StampOf(s, p) else s.clock
    ensures InStampOrder(t)
  {
  }

  lemma {:induction false} AcceptedAreDone(s: State, id: Id)
    requires Inv(s) && id in s.enqueued
    ensures !Pending(s, id)
  {
  }

  lemma {:induction false} StepKeepsStampOrder(s: State, step: Step)
    requires Inv(s) && Enabled(s, step) && InTurn(s) && InStampOrder(s)
    ensures InStampOrder(Next(s, step))
  {
    var t := Next(s, step);
    var id := AcceptedArePending(s, step);
    StampsGrow(s, step, id);
    ClockRuns(s, step);
    forall p | Pending(t, p) ensures StampOf(t, p) == if Pending(s, p) then StampOf(s, p) else s.clock {
      if Pending(s, p) {
        StampsStay(s, step, p);
      } else {
        StampIsNow(s, step, p);
      }
    }
    if id.Some? {
      AcceptedIsDone(s, step, id.value);
    }
    StampOrderCarries(s, t, id);
  }

  lemma {:induction false} AcceptedIsDone(s: State, step: Step, id: Id)
    requires Inv(s) && Enabled(s, step) && Next(s, step).enqueued == s.enqueued + [id]
    ensures !Pending(Next(s, step), id)
  {
    var t := Next(s, step);
    StepKeepsInv(s, step);
    assert t.enqueued[|s.enqueued|] == id;
    AcceptedAreDone(t, id);
  }

  lemma {:induction false} ClockRuns(s: State, step: Step)
    requires Enabled(s, step)
    ensures s.clock <= Next(s, step).clock
  {
  }

  lemma {:induction false} RunKeepsStampOrder(s: State, steps: seq<Step>)
    requires Inv(s) && InStampOrder(s) && Possible(s, steps) && NeverOvertaking(s, steps)
    ensures InStampOrder(After(s, steps))
    decreases |steps|
  {
    if steps != [] {
      StepKeepsStampOrder(s, steps[0]);
      StepKeepsInv(s, steps[0]);
      RunKeepsStampOrder(Next(s, steps[0]), steps[1..]);
    }
  }

  /** Entries reach the file in the order of their times in every run in which, while the
      queue is open, nobody can be overtaken, as when Log calls do not overlap. */
  lemma {:induction false} NoOvertakingKeepsTimeOrder(capacity: nat, steps: seq<Step>)
    requires capacity > 0 && Possible(Initial(capacity), steps) && NeverOvertaking(Initial(capacity), steps)
    ensures !OutOfOrder(After(Initial(capacity), steps))
  {
    InitialInv(capacity);
    RunKeepsStampOrder(Initial(capacity), steps);
    OrderedIsNotOutOfOrder(After(Initial(capacity), steps));
  }

  lemma {:induction false} OrderedIsNotOutOfOrder(s: State)
    requires InStampOrder(s)
    ensures !OutOfOrder(s)
  {
    forall i | 0 < i < |s.enqueued| ensures StampOf(s, s.enqueued[i - 1]) <= StampOf(s, s.enqueued[i]) {
      assert AcceptedStamps(s)[i - 1] <= AcceptedStamps(s)[i];
    }
  }

  /** Any two accepted entries out of order mean two neighbours out of order. */
  lemma {:induction false} SomeNeighboursDiffer(s: State, i: nat, j: nat)
    requires Inv(s) && i < j < |s.enqueued| && StampOf(s, s.enqueued[i]) > StampOf(s, s.enqueued[j])
    ensures OutOfOrder(s)
    decreases j
  {
    assert s.enqueued[j - 1] in s.enqueued && s.enqueued[j] in s.enqueued;
    if StampOf(s, s.enqueued[j - 1]) <= StampOf(s, s.enqueued[j]) {
      SomeNeighboursDiffer(s, i, j - 1);
    }
  }

  /** From any state with an open queue in which someone can be overtaken, some continuation
      ends out of order. */
  lemma {:induction false} OvertakingBreaksTimeOrder(s: State, a: Id, b: Id) returns (steps: seq<Step>)
    requires Inv(s) && !s.channelClosed && Overtakable(s, a, b)
    ensures Possible(s, steps) && OutOfOrder(After(s, steps))
  {
    if IsReady(s, a) && IsReady(s, b) {
      steps := OvertakeReady(s, a, b);
    } else if IsReady(s, a) {
      steps := OvertakeFromBehind(s, a, b);
    } else {
      steps := OvertakeBlocked(s, a, b);
    }
  }

  lemma {:induction false} OvertakeReady(s: State, a: Id, b: Id) returns (steps: seq<Step>)
    requires Inv(s) && !s.channelClosed && IsReady(s, a) && IsReady(s, b) && StampOf(s, a) < StampOf(s, b)
    ensures Possible(s, steps) && OutOfOrder(After(s, steps))
  {
    var before := Drain(s);
    var between := SendAndReceive(s, before, b, a);
    steps := SendLast(s, between, a, |After(s, between).enqueued| - 1);
  }

  lemma {:induction false} OvertakeFromBehind(s: State, a: Id, b: Id) returns (steps: seq<Step>)
    requires Inv(s) && !s.channelClosed && IsReady(s, a) && InPhase(s, b) == Blocked && StampOf(s, a) < StampOf(s, b)
    ensures Possible(s, steps) && OutOfOrder(After(s, steps))
  {
    var before := Drain(s);
    assert b in s.senders;
    var i :| 0 <= i < |s.senders| && s.senders[i] == b;
    ComesInOrder(s, After(s, before), i);
    steps := SendLast(s, before, a, |s.enqueued| + i);
  }

  lemma {:induction false} OvertakeBlocked(s: State, a: Id, b: Id) returns (steps: seq<Step>)
    requires Inv(s) && !s.channelClosed && Ahead(s, b, a) && StampOf(s, a) < StampOf(s, b)
    ensures Possible(s, steps) && OutOfOrder(After(s, steps))
  {
    steps := Drain(s);
    var i, j :| 0 <= i < j < |s.senders| && s.senders[i] == b && s.senders[j] == a;
    BlockedComeInverted(s, After(s, steps), i, j);
  }

  lemma {:induction false} BlockedComeInverted(s: State, t: State, i: nat, j: nat)
    requires Inv(s) && Drained(s, t) && t.enqueued == s.enqueued + s.senders
    requires i < j < |s.senders| && StampOf(s, s.senders[j]) < StampOf(s, s.senders[i])
    ensures OutOfOrder(t)
  {
    ComesInOrder(s, t, i);
    ComesInOrder(s, t, j);
    SomeNeighboursDiffer(t, |s.enqueued| + i, |s.enqueued| + j);
  }

  /** A drained queue has the blocked calls where they stood. */
  lemma {:induction false} ComesInOrder(s: State, t: State, i: nat)
    requires Inv(s) && Drained(s, t) && t.enqueued == s.enqueued + s.senders && i < |s.senders|
    ensures t.enqueued[|s.enqueued| + i] == s.senders[i] && StampOf(t, s.senders[i]) == StampOf(s, s.senders[i])
  {
    assert s.senders[i] in s.senders;
    assert HasStamp(s, s.senders[i]);
  }

  /** After a later stamp was accepted, an earlier one is sent. */
  lemma {:induction false} SendLast(s: State, before: seq<Step>, a: Id, i: nat) returns (steps: seq<Step>)
    requires Possible(s, before)
    requires var t := After(s, before);
             && Inv(t) && !t.channelClosed && t.buffer == [] && IsReady(t, a)
             && i < |t.enqueued| && StampOf(t, a) < StampOf(t, t.enqueued[i])
    ensures Possible(s, steps) && OutOfOrder(After(s, steps))
  {
    var t := After(s, before);
    RunGrows(s, before, Send(a));
    steps := before + [Send(a)];
    StepKeepsInv(t, Send(a));
    assert t.enqueued[i] in t.enqueued;
    StampsStay(t, Send(a), a);
    StampsStay(t, Send(a), t.enqueued[i]);
    SomeNeighboursDiffer(After(s, steps), i, |t.enqueued|);
  }

  lemma {:induction false} SendAndReceive(s: State, before: seq<Step>, b: Id, a: Id) returns (steps: seq<Step>)
    requires Possible(s, before) && a != b
    requires var t := After(s, before);
             && Inv(t) && !t.channelClosed && t.buffer == [] && t.senders == [] && t.consumer == Receiving
             && IsReady(t, a) && IsReady(t, b)
    ensures Possible(s, steps)
    ensures var t, u := After(s, before), After(s, steps);
            && Inv(u) && !u.channelClosed && u.buffer == [] && u.enqueued == t.enqueued + [b]
            && IsReady(u, a) && StampOf(u, a) == StampOf(t, a) && StampOf(u, b) == StampOf(t, b)
  {
    var t := After(s, before);
    RunGrows(s, before, Send(b));
    StepKeepsInv(t, Send(b));
    RunGrows(s, before + [Send(b)], Receive);
    StepKeepsInv(Next(t, Send(b)), Receive);
    steps := before + [Send(b)] + [Receive];
  }
}
