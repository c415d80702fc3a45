/**
 One lane over whole runs: what each emission does to it, why it ends, and what its worker delivers while everybody else
 goes on.
 */
module LaneRuns {
  import opened Prelude
  import opened Events
  import opened LaneState
  import opened LaneHistory
  import opened Scheduler
  import opened SchedulerTheorems

  // ------------------------------------------------------------ one emission

  /** What one enqueue attempt of `e` makes of a lane that can hold `capacity` events. */
  predicate EnqueueOutcome(before: State, after: State, capacity: nat, e: Event) {
    var room := |before.queue| < capacity;
    && before.dropped <= U64_MAX
    && (before.phase != Finished && room ==>
          && after.queue == before.queue + [e] && after.dropped == before.dropped
          && after.phase == (if before.phase == Idle then Scheduled else before.phase))
    && (before.phase != Finished && !room ==>
          && after.queue == before.queue && after.phase == before.phase
          && after.dropped == if e.kind.Lifecycle? && before.dropped < U64_MAX then before.dropped + 1 else before.dropped)
    && (before.phase == Finished ==> after.queue == [] && after.dropped == 0 && after.phase == Finished)
  }

  lemma {:induction false} EnqueueHasOutcome(lane: Lane, e: Event)
    requires LaneInv(lane) && !lane.st.abort
    ensures EnqueueOutcome(lane.st, EnqueueMove(lane, e).st, lane.capacity, e)
  {
  }

  /**
   An event that reaches a lane is queued if the lane is not finished and has room, counted if it is ordinary and the queue is
   full, and otherwise without effect on the queue; an idle lane that takes an event gets its turn.
   */
  lemma {:induction false} EmissionOutcome(s: System)
    requires Reachable(s) && Enabled(s, EmitLane)
    ensures var l, e, s' := s.emitter.lane, s.emitter.event, Apply(s, EmitLane);
            && EnqueueOutcome(s.lanes[l].st, s'.lanes[l].st, s.lanes[l].capacity, e)
            && s'.emitter == if s.lanes[l].st.phase == Idle && s.lanes[l].shared then Pushing(e, l) else Offering(e, l + 1)
  {
    ReachableInv(s);
    var lane := s.lanes[s.emitter.lane];
    Places(s, s.emitter.lane);
    assert LaneInv(lane);
    EnqueueHasOutcome(lane, s.emitter.event);
    IdleHasRoom(lane);
  }

  lemma {:induction false} IdleHasRoom(lane: Lane)
    requires PhaseInv(lane) && CloseInv(lane)
    ensures lane.st.phase == Idle ==> |lane.st.queue| < lane.capacity
  {
  }

  /** The step makes lane `l` report itself closed. */
  predicate ReportsClosed(s: System, step: Step, l: nat)
    requires Enabled(s, step)
  {
    && step.EmitLane? && s.emitter.lane == l
    && EnqueueResultOf(s.lanes[l].st, s.lanes[l].capacity, s.lanes[l].shared, s.emitter.event).Closed?
  }

  function ClosedReports(s: System, steps: seq<Step>, l: nat): nat
    requires Run(s, steps)
    decreases |steps|
  {
    if steps == [] then 0 else One(ReportsClosed(s, steps[0], l)) + ClosedReports(Apply(s, steps[0]), steps[1..], l)
  }

  /** An ordinary event came after the lane had finished. */
  predicate OrdinaryTooLate(offered: seq<Offer>) {
    exists i :: 0 <= i < |offered| && offered[i].TooLate? && offered[i].event.kind.Lifecycle?
  }

  /** What the lane remembers about reporting itself closed is what its offers say. */
  predicate ReportsRemembered(lane: Lane) {
    lane.st.closedReported <==> OrdinaryTooLate(lane.log.offered)
  }

  lemma {:induction false} EnqueueReports(lane: Lane, e: Event)
    requires ReportsRemembered(lane)
    ensures var after := EnqueueMove(lane, e);
            && ReportsRemembered(after)
            && One(after.st.closedReported) ==
               One(lane.st.closedReported) + One(EnqueueResultOf(lane.st, lane.capacity, lane.shared, e).Closed?)
  {
    TooLateAppended(lane.log.offered, OfferOf(lane.st, lane.capacity, e));
  }

  /** Same memory of reports, same offers. */
  predicate SameReports(lane: Lane, after: Lane) {
    after.st.closedReported == lane.st.closedReported && after.log.offered == lane.log.offered
  }

  lemma {:induction false} CloserKeepsReports(step: Step, lane: Lane)
    ensures SameReports(lane, CloserMove(step, lane))
  {
    match step
    case CloseLane =>
    case SubmitClosed =>
    case AbortLane =>
    case _ =>
  }

  lemma {:induction false} OuterKeepsReports(s: System, step: Step, lane: Lane)
    requires Enabled(s, step) && !step.EmitLane?
    ensures SameReports(lane, OuterMove(s, step, lane))
  {
  }

  lemma {:induction false} OtherKeepsReports(s: System, step: Step, l: nat)
    requires l < |s.lanes| && Enabled(s, step) && !step.LaneStep? && !step.EmitLane?
    ensures l < |Apply(s, step).lanes| && SameReports(s.lanes[l], Apply(s, step).lanes[l])
  {
    if CloserStep(step) {
      CloserStepLane(s, step, l);
      CloserKeepsReports(step, s.lanes[l]);
    } else {
      OuterStepLane(s, step, l);
      OuterKeepsReports(s, step, s.lanes[l]);
    }
  }

  lemma {:induction false} EmitReports(s: System, l: nat)
    requires l < |s.lanes| && Enabled(s, EmitLane) && ReportsRemembered(s.lanes[l])
    ensures l < |Apply(s, EmitLane).lanes| && ReportsRemembered(Apply(s, EmitLane).lanes[l])
    ensures One(Apply(s, EmitLane).lanes[l].st.closedReported) ==
            One(s.lanes[l].st.closedReported) + One(ReportsClosed(s, EmitLane, l))
  {
    EnqueueReports(s.lanes[l], s.emitter.event);
  }

  lemma {:induction false} ReportsClosedStep(s: System, step: Step, l: nat)
    requires l < |s.lanes| && Enabled(s, step) && ReportsRemembered(s.lanes[l])
    ensures l < |Apply(s, step).lanes| && ReportsRemembered(Apply(s, step).lanes[l])
    ensures One(Apply(s, step).lanes[l].st.closedReported) ==
            One(s.lanes[l].st.closedReported) + One(ReportsClosed(s, step, l))
  {
    match step
    case EmitLane => EmitReports(s, l);
    case LaneStep(t, o) => WorkerKeepsReports(s.lanes[t], o);
    case _ => OtherKeepsReports(s, step, l);
  }

  lemma {:induction false} TooLateAppended(offered: seq<Offer>, o: Offer)
    ensures OrdinaryTooLate(offered + [o]) <==>
            OrdinaryTooLate(offered) || (o.TooLate? && o.event.kind.Lifecycle?)
  {
    if i :| 0 <= i < |offered| && offered[i].TooLate? && offered[i].event.kind.Lifecycle? {
      assert (offered + [o])[i] == offered[i];
    }
    assert (offered + [o])[|offered|] == o;
  }

  lemma {:induction false} WorkerKeepsReports(lane: Lane, o: Outcome)
    ensures WorkerMove(lane, o).st.closedReported == lane.st.closedReported
    ensures WorkerMove(lane, o).log.offered == lane.log.offered
  {
    match lane.pc
    case Off =>
    case AtNext(_) =>
    case Decided(_, _) =>
    case Calling(_, _) =>
    case Rechecking(_) =>
    case Boundary =>
    case Finishing(_) =>
    case Submitting =>
    case Requeueing =>
    case Unwinding(_) =>
    case Failing(_) =>
    case Publishing =>
  }

  lemma {:induction false} ReportsClosedRun(s: System, steps: seq<Step>, l: nat)
    requires l < |s.lanes| && Run(s, steps) && ReportsRemembered(s.lanes[l])
    ensures l < |After(s, steps).lanes| && ReportsRemembered(After(s, steps).lanes[l])
    ensures One(After(s, steps).lanes[l].st.closedReported) ==
            One(s.lanes[l].st.closedReported) + ClosedReports(s, steps, l)
    decreases |steps|
  {
    if steps != [] {
      ReportsClosedStep(s, steps[0], l);
      ReportsClosedRun(Apply(s, steps[0]), steps[1..], l);
    }
  }

  /** Over any run a lane reports itself closed at most once, and it did if and only if an ordinary event came after its end. */
  lemma {:induction false} ReportsClosedOnce(init: System, steps: seq<Step>, l: nat)
    requires Initial(init) && Run(init, steps) && l < |init.lanes|
    ensures l < |After(init, steps).lanes| && ClosedReports(init, steps, l) <= 1
    ensures ClosedReports(init, steps, l) == 1 <==> OrdinaryTooLate(After(init, steps).lanes[l].log.offered)
  {
    assert FreshLane(init.lanes[l]);
    ReportsClosedRun(init, steps, l);
  }

  // ------------------------------------------------------------ why a lane ends

  /** What can go wrong in a lane's worker before the lane is final. */
  datatype Mishap = PoisonedCallback | EscapedCallback | EscapedRequeue

  predicate HappensAt(s: System, step: Step, l: nat, m: Mishap) {
    && l < |s.lanes|
    && match m
       case PoisonedCallback => step == LaneStep(l, PayloadPoisoned) && s.lanes[l].pc.Calling?
       case EscapedCallback =>
         step == LaneStep(l, Escapes) && (s.lanes[l].pc.Calling? || (s.lanes[l].pc.Decided? && s.lanes[l].pc.call.Report?))
       case EscapedRequeue =>
         step == LaneStep(l, Escapes) && s.lanes[l].pc.Requeueing? && s.lanes[l].st.phase == Scheduled
  }

  predicate Happens(s: System, steps: seq<Step>, l: nat, m: Mishap)
    requires Run(s, steps)
    decreases |steps|
  {
    steps != [] && (HappensAt(s, steps[0], l, m) || Happens(Apply(s, steps[0]), steps[1..], l, m))
  }

  /** The lane ended by a poisoned callback, or its worker is about to end it so. */
  predicate Poisoning(lane: Lane) {
    lane.pc == Finishing(ViaPoison) || lane.log.exit.ViaPoison?
  }

  /** The lane ended by an escaped panic, or the panic is still on its way out. */
  predicate Unwound(lane: Lane) {
    (lane.pc.Unwinding? && lane.st.phase != Finished) || lane.log.exit.ViaUnwind?
  }

  /** How a lane got on, given whether a poisoned callback and whether an escaped panic happened to it meanwhile. */
  predicate Mishaps(lane: Lane, after: Lane, poisoned: bool, escaped: bool) {
    && (Poisoning(after) <==> Poisoning(lane) || poisoned)
    && (Unwound(after) ==> Unwound(lane) || escaped)
    && (Unwound(lane) || escaped ==> Unwound(after) || after.log.exit.ViaAbort?)
    && (lane.log.exit.ViaAbort? ==> after.log.exit.ViaAbort?)
  }

  predicate EscapesAt(s: System, step: Step, l: nat) {
    HappensAt(s, step, l, EscapedCallback) || HappensAt(s, step, l, EscapedRequeue)
  }

  predicate EscapesFrom(lane: Lane) {
    lane.pc.Calling? || (lane.pc.Decided? && lane.pc.call.Report?) || (lane.pc.Requeueing? && lane.st.phase == Scheduled)
  }

  /** A lane has an exit exactly once it is finished. */
  predicate EndInv(lane: Lane) {
    PhaseInv(lane) && (lane.log.exit.Live? <==> lane.st.phase != Finished)
  }

  predicate CanEnd(s: System, l: nat) {
    l < |s.lanes| && EndInv(s.lanes[l]) && (s.worker == Popped(l) ==> s.lanes[l].pc.Off?)
  }

  lemma {:induction false} CallMishaps(lane: Lane, o: Outcome)
    requires EndInv(lane) && (lane.pc.Decided? || lane.pc.Calling? || lane.pc.Requeueing?)
    requires lane.pc.Requeueing? ==> o.Escapes?
    ensures Mishaps(lane, WorkerMove(lane, o), o.PayloadPoisoned? && lane.pc.Calling?, o.Escapes? && EscapesFrom(lane))
  {
  }

  lemma {:induction false} EndMishaps(lane: Lane, o: Outcome)
    requires EndInv(lane) && !lane.pc.Decided? && !lane.pc.Calling? && !lane.pc.Requeueing?
    ensures Mishaps(lane, WorkerMove(lane, o), false, false)
  {
  }

  lemma {:induction false} AbortMishaps(lane: Lane)
    requires EndInv(lane)
    ensures Mishaps(lane, AbortMove(lane), false, false) && Mishaps(lane, BeginCloseMove(lane), false, false)
  {
  }

  lemma {:induction false} CloserMishaps(step: Step, lane: Lane)
    requires EndInv(lane)
    ensures Mishaps(lane, CloserMove(step, lane), false, false)
  {
    AbortMishaps(lane);
  }

  lemma {:induction false} OuterMishaps(s: System, step: Step, l: nat)
    requires CanEnd(s, l) && Enabled(s, step) && l == Target(s, step)
    ensures Mishaps(s.lanes[l], OuterMove(s, step, s.lanes[l]), false, false)
  {
  }

  lemma {:induction false} NoMishapElsewhere(s: System, step: Step, l: nat)
    requires CanEnd(s, l) && Enabled(s, step) && !step.LaneStep?
    ensures l < |Apply(s, step).lanes| && Mishaps(s.lanes[l], Apply(s, step).lanes[l], false, false)
  {
    if CloserStep(step) {
      CloserStepLane(s, step, l);
      CloserMishaps(step, s.lanes[l]);
    } else {
      OuterStepLane(s, step, l);
      if l == Target(s, step) {
        OuterMishaps(s, step, l);
      }
    }
  }

  lemma {:induction false} WorkerMishaps(lane: Lane, o: Outcome)
    requires EndInv(lane) && (lane.pc.Requeueing? ==> o.Escapes?)
    ensures Mishaps(lane, WorkerMove(lane, o), o.PayloadPoisoned? && lane.pc.Calling?, o.Escapes? && EscapesFrom(lane))
  {
    if lane.pc.Decided? || lane.pc.Calling? || lane.pc.Requeueing? {
      CallMishaps(lane, o);
    } else {
      EndMishaps(lane, o);
    }
  }

  lemma {:induction false} MishapsOfLaneStep(s: System, t: nat, o: Outcome, l: nat)
    requires CanEnd(s, l) && Enabled(s, LaneStep(t, o))
    ensures var step := LaneStep(t, o);
            && l < |Apply(s, step).lanes|
            && Mishaps(s.lanes[l], Apply(s, step).lanes[l], HappensAt(s, step, l, PoisonedCallback), EscapesAt(s, step, l))
  {
    if t == l {
      WorkerMishaps(s.lanes[l], o);
    }
  }

  lemma {:induction false} MishapsOfStep(s: System, step: Step, l: nat)
    requires CanEnd(s, l) && Enabled(s, step)
    ensures l < |Apply(s, step).lanes|
    ensures Mishaps(s.lanes[l], Apply(s, step).lanes[l], HappensAt(s, step, l, PoisonedCallback), EscapesAt(s, step, l))
  {
    match step
    case LaneStep(t, o) => MishapsOfLaneStep(s, t, o, l);
    case _ => NoMishapElsewhere(s, step, l);
  }

  lemma {:induction false} MishapsOfRun(s: System, steps: seq<Step>, l: nat)
    requires Inv(s) && l < |s.lanes| && Run(s, steps)
    ensures Inv(After(s, steps)) && l < |After(s, steps).lanes|
    ensures Mishaps(s.lanes[l], After(s, steps).lanes[l], Happens(s, steps, l, PoisonedCallback),
                    Happens(s, steps, l, EscapedCallback) || Happens(s, steps, l, EscapedRequeue))
    decreases |steps|
  {
    if steps != [] {
      Keeps(s, steps[0]);
      Places(s, l);
      assert LaneInv(s.lanes[l]);
      MishapsOfStep(s, steps[0], l);
      MishapsOfRun(Apply(s, steps[0]), steps[1..], l);
    }
  }

  /**
   Why a lane ended. By poison if and only if one of its callbacks left a poisoned payload behind; by unwinding if and only
   if a panic escaped its callback, or escaped while it was put back and no abort came first; otherwise it was closing.
   */
  lemma {:induction false} EndHasItsCause(init: System, steps: seq<Step>, l: nat)
    requires Initial(init) && Run(init, steps) && l < |init.lanes|
    ensures l < |After(init, steps).lanes|
    ensures var lane := After(init, steps).lanes[l];
            lane.st.phase == Finished ==>
              && (lane.log.exit.ViaPoison? <==> Happens(init, steps, l, PoisonedCallback))
              && (lane.log.exit.ViaUnwind? <==>
                    && (Happens(init, steps, l, EscapedCallback) || Happens(init, steps, l, EscapedRequeue))
                    && !lane.log.exit.ViaAbort?)
              && (!lane.log.exit.ViaPoison? && !lane.log.exit.ViaUnwind? ==> lane.st.closing)
  {
    InitialInv(init);
    assert FreshLane(init.lanes[l]);
    MishapsOfRun(init, steps, l);
    assert LaneInv(After(init, steps).lanes[l]);
  }

  /** Whatever lane a panic escaped from, its handler leaves it final and comes to publish its diagnostic, if it does not panic. */
  lemma {:induction false} HandlerPublishes(lane: Lane)
    requires LaneInv(lane) && lane.pc.Unwinding?
    ensures var unwound := if lane.pc.holds then WorkerMove(lane, Normal) else lane;
            var failed := WorkerMove(unwound, Normal);
            var end := if failed.pc.Failing? then WorkerMove(failed, Normal) else failed;
            && unwound.pc == Unwinding(false)
            && (failed.pc.Failing? <==> lane.st.phase != Finished)
            && end.pc.Publishing? && end.st.phase == Finished && Drained(end.st) && end.custody.signalled
  {
    UnwindKeeps(lane);
    var unwound := if lane.pc.holds then WorkerMove(lane, Normal) else lane;
    UnwindKeeps(unwound);
    var failed := WorkerMove(unwound, Normal);
    if failed.pc.Failing? {
      FailingKeeps(failed, Normal);
    }
  }

  /** Every step of lane `l`'s worker in the run goes normally. */
  predicate NormalRun(steps: seq<Step>, l: nat) {
    forall i | 0 <= i < |steps| && steps[i].LaneStep? && steps[i].lane == l :: steps[i].outcome.Normal?
  }

  lemma {:induction false} NothingHappens(s: System, steps: seq<Step>, l: nat, m: Mishap)
    requires Run(s, steps) && NormalRun(steps, l)
    ensures !Happens(s, steps, l, m)
    decreases |steps|
  {
    if steps != [] {
      assert !HappensAt(s, steps[0], l, m);
      NothingHappens(Apply(s, steps[0]), steps[1..], l, m);
    }
  }

  /** A lane whose callbacks go normally never ends before it is closed, and throws nothing away. */
  lemma {:induction false} NormalLaneLives(init: System, steps: seq<Step>, l: nat)
    requires Initial(init) && Run(init, steps) && l < |init.lanes| && NormalRun(steps, l)
    ensures l < |After(init, steps).lanes|
    ensures var lane := After(init, steps).lanes[l];
            !lane.st.closing ==>
              && lane.st.phase != Finished && lane.log.discarded == []
              && AcceptedEvents(lane.log.offered) == DeliveredEvents(lane.log.taken) + lane.st.queue
  {
    EndHasItsCause(init, steps, l);
    NothingHappens(init, steps, l, PoisonedCallback);
    NothingHappens(init, steps, l, EscapedCallback);
    NothingHappens(init, steps, l, EscapedRequeue);
    InitialInv(init);
    RunKeeps(init, steps);
    assert LaneInv(After(init, steps).lanes[l]);
  }

  // ------------------------------------------------------------ what a worker delivers

  /** The oldest queued event, or the report of all pending losses. */
  function FrontCall(lane: Lane): Call
    requires !Drained(lane.st)
  {
    if lane.st.queue != [] then Deliver(lane.st.queue[0]) else Report(lane.st.dropped, |lane.log.offered|)
  }

  predicate OwnStep(step: Step, l: nat) {
    step.LaneStep? && step.lane == l
  }

  /** The step does not abort lane `l`, and if its worker moves it goes normally and looks only when there is work. */
  predicate BusyAt(s: System, step: Step, l: nat)
    requires l < |s.lanes|
  {
    && !(step.AbortLane? && s.closer.Aborting? && s.closer.lane == l)
    && (OwnStep(step, l) ==> step.outcome.Normal? && (s.lanes[l].pc.AtNext? ==> !Drained(s.lanes[l].st)))
  }

  /** In this run lane `l` is not aborted, its callbacks go normally, and there is work whenever its worker looks for some. */
  predicate Busy(s: System, steps: seq<Step>, l: nat)
    requires Run(s, steps)
    decreases |steps|
  {
    steps != [] ==> l < |s.lanes| && BusyAt(s, steps[0], l) && Busy(Apply(s, steps[0]), steps[1..], l)
  }

  function FrontAt(s: System, step: Step, l: nat): seq<Call>
    requires l < |s.lanes| && BusyAt(s, step, l)
  {
    if OwnStep(step, l) && s.lanes[l].pc.AtNext? then [FrontCall(s.lanes[l])] else []
  }

  /** What is in front of lane `l` each time its worker looks. */
  function Fronts(s: System, steps: seq<Step>, l: nat): seq<Call>
    requires Run(s, steps) && Busy(s, steps, l)
    decreases |steps|
  {
    if steps == [] then [] else FrontAt(s, steps[0], l) + Fronts(Apply(s, steps[0]), steps[1..], l)
  }

  /** Steps of lane `l`'s worker inside its lane. */
  function WorkerSteps(steps: seq<Step>, l: nat): nat {
    if steps == [] then 0 else One(OwnStep(steps[0], l)) + WorkerSteps(steps[1..], l)
  }

  lemma {:induction false} TakesNothing(lane: Lane, o: Outcome)
    requires !lane.pc.AtNext?
    ensures WorkerMove(lane, o).st.abort == lane.st.abort && WorkerMove(lane, o).log.taken == lane.log.taken
  {
    match lane.pc
    case Off =>
    case AtNext(_) =>
    case Decided(_, _) =>
    case Calling(_, _) =>
    case Rechecking(_) =>
    case Boundary =>
    case Finishing(_) =>
    case Submitting =>
    case Requeueing =>
    case Unwinding(_) =>
    case Failing(_) =>
    case Publishing =>
  }

  lemma {:induction false} TakesFront(lane: Lane)
    requires lane.pc.AtNext? && !lane.st.abort && !Drained(lane.st)
    ensures var after := TakeMove(lane, lane.pc.ran);
            !after.st.abort && after.log.taken == lane.log.taken + [FrontCall(lane)]
  {
  }

  lemma {:induction false} TakesAtOwn(s: System, l: nat)
    requires l < |s.lanes| && BusyAt(s, LaneStep(l, Normal), l) && !s.lanes[l].st.abort
    ensures var after := WorkerMove(s.lanes[l], Normal);
            !after.st.abort && after.log.taken == s.lanes[l].log.taken + FrontAt(s, LaneStep(l, Normal), l)
  {
    if s.lanes[l].pc.AtNext? {
      TakesFront(s.lanes[l]);
    } else {
      TakesNothing(s.lanes[l], Normal);
      NothingAdded(s.lanes[l].log.taken);
    }
  }

  /** Not aborted, and nothing was taken. */
  predicate Untouched(lane: Lane, after: Lane) {
    !after.st.abort && after.log.taken == lane.log.taken
  }

  lemma {:induction false} CloserTakesNothing(step: Step, lane: Lane)
    requires !lane.st.abort && !step.AbortLane?
    ensures Untouched(lane, CloserMove(step, lane))
  {
  }

  lemma {:induction false} OuterTakesNothing(s: System, step: Step, lane: Lane)
    requires Enabled(s, step) && !lane.st.abort
    ensures Untouched(lane, OuterMove(s, step, lane))
  {
  }

  lemma {:induction false} TakesAtOther(s: System, step: Step, l: nat)
    requires Enabled(s, step) && l < |s.lanes| && BusyAt(s, step, l) && !s.lanes[l].st.abort && !step.LaneStep?
    ensures l < |Apply(s, step).lanes| && Untouched(s.lanes[l], Apply(s, step).lanes[l])
  {
    if CloserStep(step) {
      CloserStepLane(s, step, l);
      if l == Target(s, step) {
        CloserTakesNothing(step, s.lanes[l]);
      }
    } else {
      OuterStepLane(s, step, l);
      OuterTakesNothing(s, step, s.lanes[l]);
    }
  }

  lemma {:induction false} TakesAt(s: System, step: Step, l: nat)
    requires Enabled(s, step) && l < |s.lanes| && BusyAt(s, step, l) && !s.lanes[l].st.abort
    ensures l < |Apply(s, step).lanes| && !Apply(s, step).lanes[l].st.abort
    ensures Apply(s, step).lanes[l].log.taken == s.lanes[l].log.taken + FrontAt(s, step, l)
  {
    if OwnStep(step, l) {
      TakesAtOwn(s, l);
    } else {
      NothingAdded(s.lanes[l].log.taken);
      if !step.LaneStep? {
        TakesAtOther(s, step, l);
      }
    }
  }

  lemma Associative(a: seq<Call>, b: seq<Call>, c: seq<Call>)
    ensures a + b + c == a + (b + c)
  {
  }

  lemma NothingAdded(a: seq<Call>)
    ensures a + [] == a
  {
  }

  /** What a worker takes is what was in front of its lane, in that order. */
  lemma {:induction false} TakesFronts(s: System, steps: seq<Step>, l: nat)
    requires l < |s.lanes| && !s.lanes[l].st.abort && Run(s, steps) && Busy(s, steps, l)
    ensures l < |After(s, steps).lanes|
    ensures After(s, steps).lanes[l].log.taken == s.lanes[l].log.taken + Fronts(s, steps, l)
    decreases |steps|
  {
    if steps == [] {
      NothingAdded(s.lanes[l].log.taken);
    } else {
      TakesAt(s, steps[0], l);
      TakesFronts(Apply(s, steps[0]), steps[1..], l);
      Associative(s.lanes[l].log.taken, FrontAt(s, steps[0], l), Fronts(Apply(s, steps[0]), steps[1..], l));
    }
  }

  /** Since the lane was as `entered`, its worker took `taken` calls and started `started` callbacks. */
  predicate Progress(entered: Lane, lane: Lane, taken: nat, started: nat) {
    && |lane.log.taken| == |entered.log.taken| + taken
    && lane.log.starts == entered.log.starts + started
    && lane.shared == entered.shared && !lane.st.abort
  }

  /**
   Where the worker stands `n` steps after it entered the lane: three steps make one callback, and `ran` of them are over.
   A shared worker reaches the quantum boundary after 64.
   */
  predicate Serves(entered: Lane, lane: Lane, n: nat) {
    match lane.pc
    case AtNext(ran) =>
      n == 3 * ran && Progress(entered, lane, ran, ran) && (lane.shared ==> ran < SHARED_CALLBACK_QUANTUM)
    case Decided(ran, _) =>
      n == 3 * ran + 1 && Progress(entered, lane, ran + 1, ran) && (lane.shared ==> ran < SHARED_CALLBACK_QUANTUM)
    case Calling(ran, _) =>
      n == 3 * ran + 2 && Progress(entered, lane, ran + 1, ran + 1) && (lane.shared ==> ran < SHARED_CALLBACK_QUANTUM)
    case Boundary =>
      && n == 3 * SHARED_CALLBACK_QUANTUM && lane.shared
      && Progress(entered, lane, SHARED_CALLBACK_QUANTUM, SHARED_CALLBACK_QUANTUM)
    case _ => false
  }

  lemma {:induction false} ServeOwnStep(entered: Lane, lane: Lane, n: nat)
    requires Serves(entered, lane, n) && (lane.shared ==> n < 3 * SHARED_CALLBACK_QUANTUM)
    requires lane.pc.AtNext? ==> !Drained(lane.st)
    ensures Serves(entered, WorkerMove(lane, Normal), n + 1)
  {
  }

  /** The worker of lane `l` is in the lane, and no other turn of the lane is under way. */
  predicate AtWork(s: System, l: nat) {
    && l < |s.lanes|
    && if s.lanes[l].shared then s.worker == Serving(l)
       else s.worker != Popped(l) && l !in s.ready && !(s.emitter.Pushing? && s.emitter.lane == l)
  }

  predicate InService(s: System, l: nat, entered: Lane, n: nat) {
    AtWork(s, l) && Serves(entered, s.lanes[l], n)
  }

  lemma {:induction false} CloserStepServes(s: System, step: Step, l: nat, entered: Lane, n: nat)
    requires Enabled(s, step) && InService(s, l, entered, n) && BusyAt(s, step, l) && CloserStep(step)
    ensures InService(Apply(s, step), l, entered, n)
  {
    CloserStepLane(s, step, l);
    if l == Target(s, step) {
      CloserMoveServes(step, s.lanes[l], entered, n);
    }
    CloserLeavesTurns(s, step);
  }

  lemma {:induction false} CloserMoveServes(step: Step, lane: Lane, entered: Lane, n: nat)
    requires Serves(entered, lane, n) && !step.AbortLane?
    ensures Serves(entered, CloserMove(step, lane), n) && CloserMove(step, lane).shared == lane.shared
  {
  }

  lemma {:induction false} CloserLeavesTurns(s: System, step: Step)
    requires Enabled(s, step) && CloserStep(step)
    ensures Apply(s, step).worker == s.worker && Apply(s, step).emitter == s.emitter
    ensures Apply(s, step).ready == s.ready || Apply(s, step).ready == []
  {
  }

  lemma {:induction false} EmitterServes(s: System, step: Step, l: nat, entered: Lane, n: nat)
    requires Enabled(s, step) && InService(s, l, entered, n)
    requires step.EmitBegin? || step.EmitLane? || step.EmitPush? || step.EmitEnd?
    ensures InService(Apply(s, step), l, entered, n)
  {
  }

  lemma {:induction false} TurnServes(s: System, step: Step, l: nat, entered: Lane, n: nat)
    requires Enabled(s, step) && InService(s, l, entered, n)
    requires step.WorkerPop? || step.WorkerExit? || step.WorkerEnter? || step.WorkerRequeue? || step.DedicatedWake?
    ensures InService(Apply(s, step), l, entered, n)
  {
  }

  lemma {:induction false} OtherLaneServes(s: System, t: nat, o: Outcome, l: nat, entered: Lane, n: nat)
    requires Enabled(s, LaneStep(t, o)) && InService(s, l, entered, n) && t != l
    ensures InService(Apply(s, LaneStep(t, o)), l, entered, n)
  {
    WorkerKeepsKind(s.lanes[t], o);
  }

  lemma {:induction false} OwnStepServes(s: System, l: nat, entered: Lane, n: nat)
    requires Enabled(s, LaneStep(l, Normal)) && InService(s, l, entered, n) && BusyAt(s, LaneStep(l, Normal), l)
    requires s.lanes[l].shared ==> n < 3 * SHARED_CALLBACK_QUANTUM
    ensures InService(Apply(s, LaneStep(l, Normal)), l, entered, n + 1)
  {
    ServeOwnStep(entered, s.lanes[l], n);
  }

  lemma {:induction false} StepServes(s: System, step: Step, l: nat, entered: Lane, n: nat)
    requires Enabled(s, step) && InService(s, l, entered, n) && BusyAt(s, step, l)
    requires entered.shared ==> n + One(OwnStep(step, l)) <= 3 * SHARED_CALLBACK_QUANTUM
    ensures InService(Apply(s, step), l, entered, n + One(OwnStep(step, l)))
  {
    if OwnStep(step, l) {
      OwnStepServes(s, l, entered, n);
    } else if step.LaneStep? {
      OtherLaneServes(s, step.lane, step.outcome, l, entered, n);
    } else if CloserStep(step) {
      CloserStepServes(s, step, l, entered, n);
    } else if step.EmitBegin? || step.EmitLane? || step.EmitPush? || step.EmitEnd? {
      EmitterServes(s, step, l, entered, n);
    } else {
      TurnServes(s, step, l, entered, n);
    }
  }

  lemma {:induction false} RunServes(s: System, steps: seq<Step>, l: nat, entered: Lane, n: nat)
    requires InService(s, l, entered, n) && Run(s, steps) && Busy(s, steps, l)
    requires entered.shared ==> n + WorkerSteps(steps, l) <= 3 * SHARED_CALLBACK_QUANTUM
    ensures InService(After(s, steps), l, entered, n + WorkerSteps(steps, l))
    decreases |steps|
  {
    if steps != [] {
      StepServes(s, steps[0], l, entered, n);
      RunServes(Apply(s, steps[0]), steps[1..], l, entered, n + One(OwnStep(steps[0], l)));
    }
  }

  /** The worker enters lane `l` by this step. */
  predicate Enters(s: System, step: Step, l: nat)
    requires l < |s.lanes|
  {
    && Enabled(s, step) && s.lanes[l].st.phase == Scheduled && !s.lanes[l].st.abort
    && (step == DedicatedWake(l) || (step.WorkerEnter? && s.worker.lane == l))
  }

  lemma {:induction false} EntryServes(s: System, entry: Step, l: nat)
    requires Placed(s, l) && Enters(s, entry, l)
    ensures InService(Apply(s, entry), l, s.lanes[l], 0) && Apply(s, entry).lanes[l].log.taken == s.lanes[l].log.taken
  {
  }

  /**
   Service under interference. After a worker enters a lane it takes whatever is in front of the lane each time it looks, and
   every third step ends one callback, as long as there is work, nobody aborts the lane and the callbacks go normally: for 64
   callbacks in a shared lane and without limit in a dedicated one.
   */
  lemma {:induction false} WorkerServesItsLane(s: System, entry: Step, steps: seq<Step>, l: nat)
    requires Reachable(s) && l < |s.lanes| && Enters(s, entry, l) && Run(Apply(s, entry), steps)
    requires Busy(Apply(s, entry), steps, l)
    requires s.lanes[l].shared ==> WorkerSteps(steps, l) <= 3 * SHARED_CALLBACK_QUANTUM
    ensures var end, n := After(Apply(s, entry), steps), WorkerSteps(steps, l);
            && l < |end.lanes| && Serves(s.lanes[l], end.lanes[l], n)
            && end.lanes[l].log.taken == s.lanes[l].log.taken + Fronts(Apply(s, entry), steps, l)
  {
    ReachableInv(s);
    Places(s, l);
    EntryServes(s, entry, l);
    RunServes(Apply(s, entry), steps, l, s.lanes[l], 0);
    TakesFronts(Apply(s, entry), steps, l);
  }

  // ------------------------------------------------------------ undisturbed service

  /** The call that delivers one backlog item, in a lane that was offered `offers` events. */
  function CallOf(next: Next, offers: nat): Call
    requires next.NextEvent? || next.NextOverflow?
  {
    if next.NextEvent? then Deliver(next.event) else Report(next.dropped, offers)
  }

  /** The lane after its worker took, started and finished one callback. */
  function ServedOnce(lane: Lane): Lane {
    WorkerMove(WorkerMove(WorkerMove(lane, Normal), Normal), Normal)
  }

  function Served(lane: Lane, n: nat): Lane
    decreases n
  {
    if n == 0 then lane else Served(ServedOnce(lane), n - 1)
  }

  /** `n` callbacks gave the lane's callback the first `n` items of its backlog. */
  predicate GotFirst(lane: Lane, after: Lane, n: nat)
    requires n <= |Backlog(lane.st)|
  {
    && Backlog(after.st) == Backlog(lane.st)[n..]
    && after.log.offered == lane.log.offered
    && |after.log.taken| == |lane.log.taken| + n && lane.log.taken <= after.log.taken
    && forall k | 0 <= k < n ::
         var next := Backlog(lane.st)[k];
         && (next.NextEvent? || next.NextOverflow?)
         && after.log.taken[|lane.log.taken| + k] == CallOf(next, |lane.log.offered|)
  }

  lemma {:induction false} TakesItem(lane: Lane)
    requires lane.pc.AtNext? && !lane.st.abort && Backlog(lane.st) != []
    ensures var after := WorkerMove(lane, Normal);
            && GotFirst(lane, after, 1)
            && after.pc.Decided? && after.pc.ran == lane.pc.ran && after.shared == lane.shared && !after.st.abort
  {
    TakesBacklogInOrder(lane.st);
  }

  lemma {:induction false} RunsItem(lane: Lane)
    requires lane.pc.Decided?
    ensures var after := WorkerMove(WorkerMove(lane, Normal), Normal);
            && after.st == lane.st && after.shared == lane.shared
            && after.log.taken == lane.log.taken && after.log.offered == lane.log.offered
            && after.pc == PcAfterReturn(lane.shared, lane.pc.ran, Normal)
  {
  }

  lemma {:induction false} ServesFirst(lane: Lane)
    requires lane.pc.AtNext? && !lane.st.abort && Backlog(lane.st) != []
    ensures var after := ServedOnce(lane);
            && GotFirst(lane, after, 1)
            && after.pc == PcAfterReturn(lane.shared, lane.pc.ran, Normal)
            && after.shared == lane.shared && !after.st.abort
  {
    TakesItem(lane);
    RunsItem(WorkerMove(lane, Normal));
  }

  lemma {:induction false} GotThenGot(lane: Lane, between: Lane, after: Lane, n: nat)
    requires 1 <= |Backlog(lane.st)| && GotFirst(lane, between, 1)
    requires n + 1 <= |Backlog(lane.st)| && GotFirst(between, after, n)
    ensures GotFirst(lane, after, n + 1)
  {
    forall k | 0 <= k < n + 1
      ensures var next := Backlog(lane.st)[k];
              && (next.NextEvent? || next.NextOverflow?)
              && after.log.taken[|lane.log.taken| + k] == CallOf(next, |lane.log.offered|)
    {
      if k == 0 {
        assert after.log.taken[|lane.log.taken|] == between.log.taken[|lane.log.taken|];
      } else {
        assert Backlog(lane.st)[k] == Backlog(between.st)[k - 1];
      }
    }
  }

  lemma {:induction false} NothingMore(lane: Lane)
    ensures Served(lane, 0) == lane && GotFirst(lane, lane, 0)
  {
  }

  /**
   The interleaved worker, left alone, does what the quantum method promises: callbacks get the lane's backlog from the front,
   64 items in a shared lane before the quantum boundary, and any number in a dedicated one.
   */
  lemma {:induction false} UndisturbedWorkerServesBacklog(lane: Lane, n: nat)
    requires lane.pc.AtNext? && !lane.st.abort && n <= |Backlog(lane.st)|
    requires lane.shared ==> lane.pc.ran + n <= SHARED_CALLBACK_QUANTUM && lane.pc.ran < SHARED_CALLBACK_QUANTUM
    ensures GotFirst(lane, Served(lane, n), n)
    ensures Served(lane, n).pc ==
            if lane.shared && lane.pc.ran + n == SHARED_CALLBACK_QUANTUM then Boundary else AtNext(lane.pc.ran + n)
    decreases n
  {
    if n > 0 {
      ServesFirst(lane);
      var between := ServedOnce(lane);
      if between.pc.AtNext? {
        UndisturbedWorkerServesBacklog(between, n - 1);
      } else {
        NothingMore(between);
        assert n == 1;
      }
      GotThenGot(lane, between, Served(lane, n), n - 1);
    }
  }
}
