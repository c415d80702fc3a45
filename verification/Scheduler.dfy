/**
 All lanes together: emission, the shared round-robin worker with its ready queue, the
 dedicated workers, and graceful close followed by abort.

 One step is one lock scope, or one action between two lock scopes. `emit_arc` holds the set lock
 for its whole loop, so there is one emitter position and a close cannot begin inside an emission.
 */
module Scheduler {
  import opened Events
  import opened LaneState
  import opened LaneHistory

  /**
   The shared worker: asleep in `next`, holding a popped lane, inside a lane, gone after the queue closed, or dead: a panic
   in its own panic handling ended the thread.
   */
  datatype SharedWorker = Asleep | Popped(lane: nat) | Serving(lane: nat) | Exited | Dead

  /** `Pushing`: the lane was set to `Scheduled`, but is not in the ready queue yet. */
  datatype Emitter = Quiet | Offering(event: Event, lane: nat) | Pushing(event: Event, lane: nat)

  datatype Closer =
    | Started
    | BeginningClose(lane: nat)
    | SubmittingIdle(lane: nat)
    | Waiting
    | Aborting(lane: nat)
    | SubmittingAborted(lane: nat)
    | Detaching
    | SetClosed

  /** `clock` counts started callbacks of shared lanes; `entered[l]` is the clock when `l` last entered `ready`. */
  datatype System = System(
    lanes: seq<Lane>,
    ready: seq<nat>,
    queueClosed: bool,
    worker: SharedWorker,
    emitter: Emitter,
    closer: Closer,
    emitted: seq<Event>,
    clock: nat,
    entered: seq<nat>)

  datatype Step =
    | EmitBegin(event: Event)
    | EmitLane
    | EmitPush
    | EmitEnd
    | WorkerPop
    | WorkerExit
    | WorkerEnter
    | LaneStep(lane: nat, outcome: Outcome)
    | WorkerRequeue
    | DedicatedWake(lane: nat)
    | CloseBegin
    | CloseLane
    | SubmitClosed
    | Drain
    | Timeout
    | DropSet
    | AbortLane
    | Detach

  predicate Initial(s: System) {
    && (forall l | 0 <= l < |s.lanes| :: FreshLane(s.lanes[l]))
    && |s.entered| == |s.lanes|
    && s == System(s.lanes, [], false, Asleep, Quiet, Started, [], 0, s.entered)
  }

  /** The lane's own worker may act on it now. */
  predicate WorkerAt(s: System, l: nat)
    requires l < |s.lanes|
  {
    !s.lanes[l].pc.Off? && (s.lanes[l].shared ==> s.worker == Serving(l))
  }

  predicate Enabled(s: System, step: Step) {
    match step
    case EmitBegin(_) => s.closer.Started? && s.emitter.Quiet?
    case EmitLane => s.emitter.Offering? && s.emitter.lane < |s.lanes|
    case EmitPush => s.emitter.Pushing? && s.emitter.lane < |s.lanes| == |s.entered|
    case EmitEnd => s.emitter.Offering? && s.emitter.lane == |s.lanes|
    case WorkerPop => s.worker.Asleep? && s.ready != []
    case WorkerExit => s.worker.Asleep? && s.ready == [] && s.queueClosed
    case WorkerEnter => s.worker.Popped? && s.worker.lane < |s.lanes|
    case LaneStep(l, o) => l < |s.lanes| && WorkerAt(s, l) && (s.lanes[l].pc.Requeueing? ==> o.Escapes?)
    case WorkerRequeue => s.worker.Serving? && s.worker.lane < |s.lanes| == |s.entered| && s.lanes[s.worker.lane].pc.Requeueing?
    case DedicatedWake(l) => l < |s.lanes| && !s.lanes[l].shared && s.lanes[l].pc.Off? && s.lanes[l].st.phase == Scheduled
    case CloseBegin => s.closer.Started? && s.emitter.Quiet?
    case CloseLane => s.closer.BeginningClose? && s.closer.lane < |s.lanes|
    case SubmitClosed => (s.closer.SubmittingIdle? || s.closer.SubmittingAborted?) && s.closer.lane < |s.lanes|
    case Drain => s.closer.Waiting? && forall l | 0 <= l < |s.lanes| :: s.lanes[l].custody.signalled
    case Timeout => s.closer.Waiting?
    case DropSet => s.closer.Started? && s.emitter.Quiet?
    case AbortLane => s.closer.Aborting? && s.closer.lane < |s.lanes|
    case Detach => s.closer.Detaching?
  }

  function Push(s: System, l: nat): System
    requires l < |s.entered|
  {
    if s.queueClosed then s else s.(ready := s.ready + [l], entered := s.entered[l := s.clock])
  }

  /** The ready queue object behind its own lock. */
  class SharedQueue {
    var ready: seq<nat>
    var closed: bool

    constructor ()
      ensures ready == [] && !closed
    {
      ready, closed := [], false;
    }

    method Schedule(lane: nat)
      modifies this
      ensures closed == old(closed)
      ensures ready == if closed then old(ready) else old(ready) + [lane]
    {
      if closed {
        return;
      }
      ready := ready + [lane];
    }

    /** The part of `next` after its wait: there is a lane, or the queue is closed. */
    method Next() returns (found: bool, lane: nat)
      requires ready != [] || closed
      modifies this
      ensures closed == old(closed) && found == (old(ready) != [])
      ensures found ==> lane == old(ready)[0] && ready == old(ready)[1..]
      ensures !found ==> ready == []
    {
      found, lane := |ready| > 0, 0;
      if found {
        lane, ready := ready[0], ready[1..];
      }
    }

    method Close() returns (abandoned: seq<nat>)
      modifies this
      ensures closed && ready == [] && abandoned == old(ready)
    {
      closed := true;
      abandoned, ready := ready, [];
    }
  }

  /** The next position of a closer that walks over the lanes, skipping an exhausted loop. */
  function BeginningAt(s: System, l: nat): Closer {
    if l < |s.lanes| then BeginningClose(l) else SubmittingIdleAt(s, 0)
  }

  function SubmittingIdleAt(s: System, l: nat): Closer {
    if l < |s.lanes| then SubmittingIdle(l) else Waiting
  }

  function AbortingAt(s: System, l: nat): Closer {
    if l < |s.lanes| then Aborting(l) else SubmittingAbortedAt(s, 0)
  }

  function SubmittingAbortedAt(s: System, l: nat): Closer {
    if l < |s.lanes| then SubmittingAborted(l) else Detaching
  }

  /** A shared callback starts. */
  predicate StartsShared(before: Lane, after: Lane) {
    before.shared && before.log.starts < after.log.starts
  }

  /** A lane's worker makes a step; a shared worker that left its lane goes back to the ready queue, unless it `dies`. */
  function MoveLane(s: System, l: nat, after: Lane, dies: bool): System
    requires l < |s.lanes|
  {
    s.(lanes := s.lanes[l := after],
       worker := if after.shared && after.pc.Off? then (if dies then Dead else Asleep) else s.worker,
       clock := s.clock + One(StartsShared(s.lanes[l], after)))
  }

  function Apply(s: System, step: Step): System
    requires Enabled(s, step)
  {
    match step
    case EmitBegin(e) => s.(emitter := Offering(e, 0), emitted := s.emitted + [e])
    case EmitLane =>
      var e, l := s.emitter.event, s.emitter.lane;
      var lane := s.lanes[l];
      s.(lanes := s.lanes[l := EnqueueMove(lane, e)],
         emitter := if EnqueueResultOf(lane.st, lane.capacity, lane.shared, e) == ScheduleShared
                    then Pushing(e, l) else Offering(e, l + 1))
    case EmitPush => Push(s, s.emitter.lane).(emitter := Offering(s.emitter.event, s.emitter.lane + 1))
    case EmitEnd => s.(emitter := Quiet)
    case WorkerPop => s.(worker := Popped(s.ready[0]), ready := s.ready[1..])
    case WorkerExit => s.(worker := Exited)
    case WorkerEnter =>
      var l := s.worker.lane;
      if s.lanes[l].st.phase != Scheduled || s.lanes[l].st.abort then s.(worker := Asleep)
      else s.(lanes := s.lanes[l := AcquireMove(s.lanes[l])], worker := Serving(l))
    case LaneStep(l, o) => MoveLane(s, l, WorkerMove(s.lanes[l], o), EndsThread(s.lanes[l].pc, o))
    case WorkerRequeue =>
      var l := s.worker.lane;
      Push(s, l).(lanes := s.lanes[l := RequeuedMove(s.lanes[l])], worker := Asleep)
    case DedicatedWake(l) => s.(lanes := s.lanes[l := AcquireMove(s.lanes[l])])
    case CloseBegin => s.(closer := BeginningAt(s, 0))
    case CloseLane =>
      var l := s.closer.lane;
      s.(lanes := s.lanes[l := BeginCloseMove(s.lanes[l])], closer := BeginningAt(s, l + 1))
    case SubmitClosed =>
      var l := s.closer.lane;
      s.(lanes := s.lanes[l := CloserSubmitMove(s.lanes[l])],
         closer := if s.closer.SubmittingIdle? then SubmittingIdleAt(s, l + 1) else SubmittingAbortedAt(s, l + 1))
    case Drain => s.(closer := Detaching)
    case Timeout => s.(closer := AbortingAt(s, 0))
    case DropSet => s.(closer := AbortingAt(s, 0))
    case AbortLane =>
      var l := s.closer.lane;
      s.(lanes := s.lanes[l := AbortMove(s.lanes[l])], closer := AbortingAt(s, l + 1))
    case Detach => s.(closer := SetClosed, queueClosed := true, ready := [])
  }

  // ------------------------------------------------------------ runs

  /** `steps` can be taken one after the other from `s`. */
  predicate Run(s: System, steps: seq<Step>)
    decreases |steps|
  {
    steps == [] || (Enabled(s, steps[0]) && Run(Apply(s, steps[0]), steps[1..]))
  }

  function After(s: System, steps: seq<Step>): System
    requires Run(s, steps)
    decreases |steps|
  {
    if steps == [] then s else After(Apply(s, steps[0]), steps[1..])
  }

  // ------------------------------------------------------------ invariant

  /** The places where a shared lane's turn can wait: the ready queue, the emitter, the worker before and after service. */
  function Tokens(s: System, l: nat): nat
    requires l < |s.lanes|
  {
    One(l in s.ready)
    + One(s.emitter.Pushing? && s.emitter.lane == l)
    + One(s.worker == Popped(l))
    + One(s.lanes[l].pc.Requeueing?)
  }

  /** A panic escaped while the worker was putting the lane back; the same worker is about to fail it. */
  predicate FailsNext(lane: Lane) {
    lane.pc == Unwinding(false)
  }

  predicate TokenInv(s: System, l: nat)
    requires l < |s.lanes|
  {
    var lane := s.lanes[l];
    && (lane.st.phase == Idle || lane.st.phase == Running ==> Tokens(s, l) == 0)
    && (lane.shared && lane.st.phase == Scheduled ==> Tokens(s, l) + One(FailsNext(lane)) == 1)
    && (lane.st.phase == Finished ==> Tokens(s, l) <= One(lane.st.abort))
    && (!lane.shared || !(lane.pc.Off? || lane.pc.Requeueing?) ==> Tokens(s, l) == 0)
    && (lane.shared ==> (lane.pc.Off? <==> s.worker != Serving(l)))
  }

  predicate Distinct(xs: seq<nat>) {
    forall i, j | 0 <= i < j < |xs| :: xs[i] != xs[j]
  }

  predicate QueueInv(s: System) {
    && |s.entered| == |s.lanes|
    && Distinct(s.ready)
    && (forall i | 0 <= i < |s.ready| :: s.ready[i] < |s.lanes|)
    && (s.worker.Popped? || s.worker.Serving? ==> s.worker.lane < |s.lanes| && s.lanes[s.worker.lane].shared)
    && (s.emitter.Offering? ==> s.emitter.lane <= |s.lanes|)
    && (s.emitter.Pushing? ==> s.emitter.lane < |s.lanes|)
  }

  /** Closing starts only after the set left `Started`, so no emission meets a closing lane. */
  predicate CloserLaneInv(s: System, l: nat)
    requires l < |s.lanes|
  {
    var lane, c := s.lanes[l], s.closer;
    && (c.Started? ==> !lane.st.closing)
    && (c.BeginningClose? ==> (l < c.lane <==> lane.st.closing))
    && (c.SubmittingIdle? || c.Waiting? ==> lane.st.closing)
    && (c.Aborting? ==> (l < c.lane <==> lane.st.abort))
    && (c.SubmittingAborted? ==> lane.st.abort)
    && (c.Started? || c.BeginningClose? || c.SubmittingIdle? || c.Waiting? ==> !lane.st.abort)
    && (c.Detaching? || c.SetClosed? ==> lane.st.closing && (lane.st.phase == Running || lane.st.phase == Finished))
    && (c.Detaching? || c.SetClosed? ==> lane.st.abort || lane.st.phase == Finished)
    && (lane.custody.inCloser ==> match c
          case BeginningClose(i) => l < i
          case SubmittingIdle(i) => i <= l
          case Aborting(i) => l < i
          case SubmittingAborted(i) => i <= l
          case _ => false)
  }

  predicate CloserInv(s: System) {
    && (!s.closer.Started? ==> s.emitter.Quiet?)
    && (s.queueClosed <==> s.closer.SetClosed?)
    && (s.queueClosed ==> s.ready == [])
    && (s.worker.Exited? ==> s.queueClosed)
    && (s.closer.BeginningClose? || s.closer.SubmittingIdle? || s.closer.Aborting? || s.closer.SubmittingAborted? ==>
          s.closer.lane < |s.lanes|)
  }

  /** What lane `l` was offered, seen from the emitter: all that was emitted, or all but the event on its way. */
  predicate Offered(emitter: Emitter, emitted: seq<Event>, l: nat, offered: seq<Event>) {
    match emitter
    case Quiet => offered == emitted
    case Offering(e, i) =>
      emitted != [] && emitted[|emitted| - 1] == e && offered == if l < i then emitted else emitted[..|emitted| - 1]
    case Pushing(e, i) =>
      emitted != [] && emitted[|emitted| - 1] == e && offered == if l <= i then emitted else emitted[..|emitted| - 1]
  }

  /** Every lane is offered every emitted event, in order; inside an emission the rest of the lanes lag by one. */
  predicate OfferInv(s: System, l: nat)
    requires l < |s.lanes|
  {
    Offered(s.emitter, s.emitted, l, OfferedEvents(s.lanes[l].log.offered))
  }

  ghost predicate LanesInv(s: System) {
    forall l: nat | l < |s.lanes| :: LaneInv(s.lanes[l])
  }

  predicate TokensInv(s: System) {
    forall l: nat | l < |s.lanes| :: TokenInv(s, l)
  }

  predicate CloserLanesInv(s: System) {
    forall l: nat | l < |s.lanes| :: CloserLaneInv(s, l)
  }

  predicate OffersInv(s: System) {
    forall l: nat | l < |s.lanes| :: OfferInv(s, l)
  }

  ghost predicate Inv(s: System) {
    QueueInv(s) && CloserInv(s) && LanesInv(s) && TokensInv(s) && CloserLanesInv(s) && OffersInv(s)
  }

  lemma InitialInv(s: System)
    requires Initial(s)
    ensures Inv(s)
  {
    forall l: nat | l < |s.lanes| ensures LaneInv(s.lanes[l]) {
      FreshLaneInv(s.lanes[l]);
    }
  }

  /** The lane a step acts on. */
  function Target(s: System, step: Step): (l: nat)
    requires Enabled(s, step)
  {
    match step
    case EmitLane => s.emitter.lane
    case EmitPush => s.emitter.lane
    case WorkerPop => s.ready[0]
    case WorkerEnter => s.worker.lane
    case LaneStep(l, _) => l
    case WorkerRequeue => s.worker.lane
    case DedicatedWake(l) => l
    case CloseLane => s.closer.lane
    case SubmitClosed => s.closer.lane
    case AbortLane => s.closer.lane
    case _ => |s.lanes|
  }

  /** The part of the invariant that says where one lane stands. */
  predicate Placed(s: System, l: nat) {
    && QueueInv(s) && CloserInv(s)
    && l < |s.lanes|
    && PhaseInv(s.lanes[l]) && OwnershipInv(s.lanes[l]) && CloseInv(s.lanes[l])
    && TokenInv(s, l) && CloserLaneInv(s, l)
  }

  lemma {:induction false} KeepsTarget(s: System, step: Step, t: nat)
    requires Enabled(s, step) && t == Target(s, step) && Placed(s, t) && LaneInv(s.lanes[t])
    ensures t < |Apply(s, step).lanes| && LaneInv(Apply(s, step).lanes[t])
  {
    var lane := s.lanes[t];
    match step
    case EmitLane => EnqueueKeeps(lane, s.emitter.event);
    case WorkerEnter => if lane.st.phase == Scheduled { AcquireKeeps(lane); }
    case LaneStep(_, o) => WorkerKeeps(lane, o);
    case WorkerRequeue => RequeuedKeeps(lane);
    case DedicatedWake(_) => AcquireKeeps(lane);
    case CloseLane => BeginCloseKeeps(lane);
    case SubmitClosed => CloserSubmitKeeps(lane);
    case AbortLane => AbortKeeps(lane);
    case _ =>
  }

  /** A step changes no lane but its target. */
  lemma {:induction false} OthersUnchanged(s: System, step: Step, l: nat)
    requires Enabled(s, step) && l < |s.lanes| && l != Target(s, step)
    ensures l < |Apply(s, step).lanes| && Apply(s, step).lanes[l] == s.lanes[l]
  {
  }

  /** What a step of the closer makes of its lane. */
  function CloserMove(step: Step, lane: Lane): Lane {
    match step
    case CloseLane => BeginCloseMove(lane)
    case SubmitClosed => CloserSubmitMove(lane)
    case AbortLane => AbortMove(lane)
    case _ => lane
  }

  lemma {:induction false} CloserStepLane(s: System, step: Step, l: nat)
    requires Enabled(s, step) && CloserStep(step) && l < |s.lanes|
    ensures l < |Apply(s, step).lanes|
    ensures Apply(s, step).lanes[l] == if l == Target(s, step) then CloserMove(step, s.lanes[l]) else s.lanes[l]
  {
  }

  /** What the emitter, or a worker on its way into or out of its lane, makes of the lane. */
  function OuterMove(s: System, step: Step, lane: Lane): Lane
    requires Enabled(s, step)
  {
    match step
    case EmitLane => EnqueueMove(lane, s.emitter.event)
    case WorkerEnter => if lane.st.phase != Scheduled || lane.st.abort then lane else AcquireMove(lane)
    case WorkerRequeue => RequeuedMove(lane)
    case DedicatedWake(_) => AcquireMove(lane)
    case _ => lane
  }

  lemma {:induction false} OuterStepLane(s: System, step: Step, l: nat)
    requires Enabled(s, step) && !CloserStep(step) && !step.LaneStep? && l < |s.lanes|
    ensures l < |Apply(s, step).lanes|
    ensures Apply(s, step).lanes[l] == if l == Target(s, step) then OuterMove(s, step, s.lanes[l]) else s.lanes[l]
  {
  }

  lemma {:induction false} KeepsLanes(s: System, step: Step)
    requires Inv(s) && Enabled(s, step)
    ensures LanesInv(Apply(s, step))
  {
    LaneCountStays(s, step);
    forall l: nat | l < |s.lanes| ensures LaneInv(Apply(s, step).lanes[l]) {
      Places(s, l);
      assert LaneInv(s.lanes[l]);
      if l == Target(s, step) {
        KeepsTarget(s, step, l);
      } else {
        OthersUnchanged(s, step, l);
      }
    }
  }

  /** What a worker's step can do to its lane, as far as scheduling is concerned. */
  predicate Effect(lane: Lane, after: Lane) {
    && after.shared == lane.shared && after.log.offered == lane.log.offered && after.custody.inCloser == lane.custody.inCloser
    && after.st.closing == lane.st.closing && after.st.abort == lane.st.abort
    && (after.st.phase == Idle ==> after.pc.Off? && !lane.st.closing)
    && (after.st.phase == Scheduled ==>
          && (after.pc.Requeueing? || after.pc == Unwinding(false))
          && (after.st.abort ==> lane.st.phase == Scheduled))
    && (after.st.phase == Running ==> lane.st.phase == Running && !after.pc.Off?)
    && (lane.st.phase == Finished ==> after.st.phase == Finished)
    && (lane.pc.Requeueing? ==> !after.pc.Requeueing? && !after.pc.Off?)
    && (after.pc.Requeueing? ==> after.shared && after.st.phase == Scheduled)
  }

  lemma {:induction false} TakeEffect(lane: Lane)
    requires PhaseInv(lane) && CloseInv(lane) && lane.pc.AtNext?
    ensures Effect(lane, TakeMove(lane, lane.pc.ran))
  {
  }

  lemma {:induction false} SettleEffect(lane: Lane)
    requires PhaseInv(lane) && CloseInv(lane) && (lane.pc.Rechecking? || lane.pc.Boundary?)
    ensures Effect(lane, WorkerMove(lane, Normal))
  {
  }

  lemma {:induction false} UnwindEffect(lane: Lane)
    requires PhaseInv(lane) && CloseInv(lane) && lane.pc.Unwinding?
    ensures Effect(lane, UnwindMove(lane, lane.pc.holds))
  {
  }

  lemma {:induction false} WorkerEffect(lane: Lane, o: Outcome)
    requires PhaseInv(lane) && CloseInv(lane) && !lane.pc.Off? && (lane.pc.Requeueing? ==> o.Escapes?)
    ensures Effect(lane, WorkerMove(lane, o))
  {
    match lane.pc
    case Off =>
    case AtNext(_) => TakeEffect(lane);
    case Decided(_, _) =>
    case Calling(_, _) =>
    case Rechecking(_) => SettleEffect(lane);
    case Boundary => SettleEffect(lane);
    case Finishing(_) =>
    case Submitting =>
    case Requeueing =>
    case Unwinding(_) => UnwindEffect(lane);
    case Failing(_) =>
    case Publishing =>
  }

  lemma {:induction false} WorkerKeepsKind(lane: Lane, o: Outcome)
    ensures WorkerMove(lane, o).shared == lane.shared
  {
    match lane.pc
    case Off =>
    case AtNext(_) =>
    case Decided(_, _) =>
    case Calling(_, _) =>
    case Rechecking(_) =>
    case Boundary =>
    case Finishing(_) =>
    case Submitting =>
    case Requeueing =>
    case Unwinding(_) =>
    case Failing(_) =>
    case Publishing =>
  }

  lemma {:induction false} KeepsTokenEmitter(s: System, step: Step, l: nat)
    requires Placed(s, l) && Enabled(s, step)
    requires step.EmitBegin? || step.EmitLane? || step.EmitPush? || step.EmitEnd?
    ensures TokenInv(Apply(s, step), l)
  {
  }

  lemma {:induction false} KeepsTokenQueue(s: System, step: Step, l: nat)
    requires Placed(s, l) && Enabled(s, step) && (step.WorkerPop? || step.WorkerExit? || step.WorkerRequeue?)
    ensures TokenInv(Apply(s, step), l)
  {
  }

  lemma {:induction false} KeepsTokenEnter(s: System, l: nat)
    requires Placed(s, l) && Enabled(s, WorkerEnter)
    ensures TokenInv(Apply(s, WorkerEnter), l)
  {
  }

  lemma {:induction false} KeepsTokenWake(s: System, t: nat, l: nat)
    requires Placed(s, l) && Enabled(s, DedicatedWake(t))
    ensures TokenInv(Apply(s, DedicatedWake(t)), l)
  {
  }

  lemma {:induction false} MoveKeepsToken(s: System, t: nat, after: Lane, dies: bool, l: nat)
    requires Placed(s, l) && t < |s.lanes| && WorkerAt(s, t)
    requires t == l ==> Effect(s.lanes[t], after)
    requires after.shared == s.lanes[t].shared
    ensures TokenInv(MoveLane(s, t, after, dies), l)
  {
  }

  lemma {:induction false} KeepsTokenLane(s: System, t: nat, o: Outcome, l: nat)
    requires Placed(s, l) && Enabled(s, LaneStep(t, o))
    ensures TokenInv(MoveLane(s, t, WorkerMove(s.lanes[t], o), EndsThread(s.lanes[t].pc, o)), l)
  {
    if t == l {
      WorkerEffect(s.lanes[l], o);
    }
    WorkerKeepsKind(s.lanes[t], o);
    MoveKeepsToken(s, t, WorkerMove(s.lanes[t], o), EndsThread(s.lanes[t].pc, o), l);
  }

  lemma {:induction false} MoveKeepsCloserLane(s: System, t: nat, after: Lane, dies: bool, l: nat)
    requires Placed(s, l) && t < |s.lanes| && WorkerAt(s, t)
    requires t == l ==> Effect(s.lanes[t], after)
    ensures CloserLaneInv(MoveLane(s, t, after, dies), l)
  {
  }

  predicate CloserStep(step: Step) {
    step.CloseBegin? || step.CloseLane? || step.SubmitClosed? || step.Drain? || step.Timeout? || step.DropSet?
    || step.AbortLane? || step.Detach?
  }

  lemma {:induction false} KeepsTokenCloserLane(s: System, step: Step, l: nat)
    requires Placed(s, l) && Enabled(s, step) && (step.CloseLane? || step.SubmitClosed?)
    ensures TokenInv(Apply(s, step), l)
  {
  }

  lemma {:induction false} KeepsTokenAbort(s: System, l: nat)
    requires Placed(s, l) && Enabled(s, AbortLane)
    ensures TokenInv(Apply(s, AbortLane), l)
  {
  }

  lemma {:induction false} KeepsTokenCloser(s: System, step: Step, l: nat)
    requires Placed(s, l) && Enabled(s, step) && CloserStep(step)
    ensures TokenInv(Apply(s, step), l)
  {
    if step.CloseLane? || step.SubmitClosed? {
      KeepsTokenCloserLane(s, step, l);
    } else if step.AbortLane? {
      KeepsTokenAbort(s, l);
    }
  }

  lemma {:induction false} KeepsToken(s: System, step: Step, l: nat)
    requires Placed(s, l) && Enabled(s, step)
    ensures TokenInv(Apply(s, step), l)
  {
    if CloserStep(step) {
      KeepsTokenCloser(s, step, l);
    } else if step.LaneStep? {
      KeepsTokenLane(s, step.lane, step.outcome, l);
    } else if step.EmitBegin? || step.EmitLane? || step.EmitPush? || step.EmitEnd? {
      KeepsTokenEmitter(s, step, l);
    } else if step.WorkerEnter? {
      KeepsTokenEnter(s, l);
    } else if step.DedicatedWake? {
      KeepsTokenWake(s, step.lane, l);
    } else {
      KeepsTokenQueue(s, step, l);
    }
  }

  lemma {:induction false} PushKeepsQueue(s: System, step: Step)
    requires QueueInv(s) && Enabled(s, step) && (step.EmitPush? || step.WorkerRequeue?) && Placed(s, Target(s, step))
    ensures QueueInv(Apply(s, step))
  {
  }

  lemma {:induction false} MoveKeepsQueue(s: System, t: nat, after: Lane, dies: bool)
    requires QueueInv(s) && t < |s.lanes| && after.shared == s.lanes[t].shared
    ensures QueueInv(MoveLane(s, t, after, dies))
  {
  }

  lemma {:induction false} LaneKeepsQueue(s: System, t: nat, o: Outcome)
    requires QueueInv(s) && Enabled(s, LaneStep(t, o))
    ensures QueueInv(Apply(s, LaneStep(t, o)))
  {
    WorkerKeepsKind(s.lanes[t], o);
    MoveKeepsQueue(s, t, WorkerMove(s.lanes[t], o), EndsThread(s.lanes[t].pc, o));
  }

  lemma {:induction false} OuterKeepsQueue(s: System, step: Step)
    requires QueueInv(s) && Enabled(s, step)
    requires step.EmitBegin? || step.EmitLane? || step.EmitEnd? || step.WorkerExit? || step.DedicatedWake?
    ensures QueueInv(Apply(s, step))
  {
  }

  lemma {:induction false} TurnKeepsQueue(s: System, step: Step)
    requires QueueInv(s) && Enabled(s, step) && (step.WorkerPop? || step.WorkerEnter?) && Placed(s, Target(s, step))
    ensures QueueInv(Apply(s, step))
  {
  }

  lemma {:induction false} KeepsQueue(s: System, step: Step)
    requires QueueInv(s) && CloserInv(s) && Enabled(s, step)
    requires Target(s, step) < |s.lanes| ==> Placed(s, Target(s, step))
    ensures QueueInv(Apply(s, step))
  {
    if CloserStep(step) {
      CloserKeepsQueue(s, step);
    } else if step.LaneStep? {
      LaneKeepsQueue(s, step.lane, step.outcome);
    } else if step.EmitPush? || step.WorkerRequeue? {
      PushKeepsQueue(s, step);
    } else if step.WorkerPop? || step.WorkerEnter? {
      TurnKeepsQueue(s, step);
    } else {
      OuterKeepsQueue(s, step);
    }
  }

  lemma {:induction false} CloserKeepsQueue(s: System, step: Step)
    requires QueueInv(s) && Enabled(s, step) && CloserStep(step)
    ensures QueueInv(Apply(s, step))
  {
  }

  lemma {:induction false} KeepsCloser(s: System, step: Step)
    requires QueueInv(s) && CloserInv(s) && Enabled(s, step)
    ensures CloserInv(Apply(s, step))
  {
  }

  lemma {:induction false} CloserKeepsCloserLane(s: System, step: Step, l: nat)
    requires Placed(s, l) && Enabled(s, step) && CloserStep(step)
    ensures CloserLaneInv(Apply(s, step), l)
  {
  }

  lemma {:induction false} KeepsCloserLane(s: System, step: Step, l: nat)
    requires Placed(s, l) && Enabled(s, step) && !step.LaneStep?
    ensures CloserLaneInv(Apply(s, step), l)
  {
    if CloserStep(step) {
      CloserKeepsCloserLane(s, step, l);
    } else {
      OuterKeepsCloserLane(s, step, l);
    }
  }

  lemma {:induction false} OuterKeepsCloserLane(s: System, step: Step, l: nat)
    requires Placed(s, l) && Enabled(s, step) && !step.LaneStep? && !CloserStep(step)
    ensures CloserLaneInv(Apply(s, step), l)
  {
    OuterStepLane(s, step, l);
    assert Apply(s, step).closer == s.closer;
  }

  lemma {:induction false} OfferReachesLane(lane: Lane, e: Event)
    ensures OfferedEvents(EnqueueMove(lane, e).log.offered) == OfferedEvents(lane.log.offered) + [e]
  {
    var o := OfferOf(lane.st, lane.capacity, e);
    assert (lane.log.offered + [o])[..|lane.log.offered|] == lane.log.offered;
  }

  /** The event on its way reaches lane `i` and no other. */
  lemma {:induction false} OfferAdvances(e: Event, i: nat, emitted: seq<Event>, l: nat, offered: seq<Event>)
    requires Offered(Offering(e, i), emitted, l, offered)
    ensures var now := if l == i then offered + [e] else offered;
            Offered(Pushing(e, i), emitted, l, now) && Offered(Offering(e, i + 1), emitted, l, now)
  {
    assert emitted == emitted[..|emitted| - 1] + [e];
  }

  lemma {:induction false} EmitKeepsOffer(s: System, l: nat)
    requires Enabled(s, EmitLane) && l < |s.lanes| && OfferInv(s, l)
    ensures OfferInv(Apply(s, EmitLane), l)
  {
    var e, i := s.emitter.event, s.emitter.lane;
    OfferAdvances(e, i, s.emitted, l, OfferedEvents(s.lanes[l].log.offered));
    OuterStepLane(s, EmitLane, l);
    if i == l {
      OfferReachesLane(s.lanes[l], e);
    }
    assert Apply(s, EmitLane).emitter == Pushing(e, i) || Apply(s, EmitLane).emitter == Offering(e, i + 1);
  }

  lemma {:induction false} OffersUnchanged(s: System, step: Step, l: nat)
    requires l < |s.lanes| && Enabled(s, step) && !step.LaneStep? && !step.EmitLane?
    ensures l < |Apply(s, step).lanes| && Apply(s, step).lanes[l].log.offered == s.lanes[l].log.offered
  {
  }

  lemma {:induction false} EmitterUnchanged(s: System, step: Step)
    requires Enabled(s, step) && !step.EmitBegin? && !step.EmitLane? && !step.EmitPush? && !step.EmitEnd?
    ensures Apply(s, step).emitter == s.emitter && Apply(s, step).emitted == s.emitted
  {
  }

  lemma {:induction false} KeepsOffer(s: System, step: Step, l: nat)
    requires l < |s.lanes| && Enabled(s, step) && OfferInv(s, l) && !step.LaneStep? && !step.EmitLane?
    ensures l < |Apply(s, step).lanes| && OfferInv(Apply(s, step), l)
  {
    OffersUnchanged(s, step, l);
    match step
    case EmitBegin(e) => assert (s.emitted + [e])[..|s.emitted|] == s.emitted;
    case EmitPush =>
    case EmitEnd =>
    case _ => EmitterUnchanged(s, step);
  }

  lemma {:induction false} LaneCountStays(s: System, step: Step)
    requires Enabled(s, step)
    ensures |Apply(s, step).lanes| == |s.lanes|
  {
  }

  lemma {:induction false} Places(s: System, l: nat)
    requires Inv(s) && l < |s.lanes|
    ensures Placed(s, l) && OfferInv(s, l)
  {
    assert LaneInv(s.lanes[l]) && TokenInv(s, l) && CloserLaneInv(s, l) && OfferInv(s, l);
  }

  lemma {:induction false} KeepsLane(s: System, step: Step, l: nat)
    requires Placed(s, l) && OfferInv(s, l) && Enabled(s, step)
    ensures TokenInv(Apply(s, step), l) && CloserLaneInv(Apply(s, step), l) && OfferInv(Apply(s, step), l)
  {
    KeepsToken(s, step, l);
    if step.LaneStep? {
      var t, after := step.lane, WorkerMove(s.lanes[step.lane], step.outcome);
      if t == l {
        WorkerEffect(s.lanes[l], step.outcome);
      }
      MoveKeepsCloserLane(s, t, after, EndsThread(s.lanes[t].pc, step.outcome), l);
    } else {
      KeepsCloserLane(s, step, l);
      if step.EmitLane? {
        EmitKeepsOffer(s, l);
      } else {
        KeepsOffer(s, step, l);
      }
    }
  }

  /** Every step keeps the invariant. */
  lemma {:induction false} Keeps(s: System, step: Step)
    requires Inv(s) && Enabled(s, step)
    ensures Inv(Apply(s, step))
  {
    KeepsLanes(s, step);
    if Target(s, step) < |s.lanes| {
      Places(s, Target(s, step));
    }
    KeepsQueue(s, step);
    KeepsCloser(s, step);
    var s' := Apply(s, step);
    forall l: nat | l < |s'.lanes| ensures TokenInv(s', l) && CloserLaneInv(s', l) && OfferInv(s', l) {
      Places(s, l);
      KeepsLane(s, step, l);
    }
  }

  lemma {:induction false} RunKeeps(s: System, steps: seq<Step>)
    requires Inv(s) && Run(s, steps)
    ensures Inv(After(s, steps))
    decreases |steps|
  {
    if steps != [] {
      Keeps(s, steps[0]);
      RunKeeps(Apply(s, steps[0]), steps[1..]);
    }
  }

  lemma {:induction false} RunKeepsLaneCount(s: System, steps: seq<Step>)
    requires Run(s, steps)
    ensures |After(s, steps).lanes| == |s.lanes|
    decreases |steps|
  {
    if steps != [] {
      LaneCountStays(s, steps[0]);
      RunKeepsLaneCount(Apply(s, steps[0]), steps[1..]);
    }
  }
}
