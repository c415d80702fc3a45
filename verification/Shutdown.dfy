/**
 Shutdown: what still runs after abort, how a closing set comes to rest, that the closer itself always gets through, and
 what becomes of the shared lanes once a panic in the panic handler has ended their only worker.
 */
module Shutdown {
  import opened LaneState
  import opened LaneHistory
  import opened Scheduler
  import opened SchedulerTheorems
  import opened Quiescence

  // ------------------------------------------------------------ after abort

  /** Callbacks of the lane that have started, or were taken and may still start. */
  function StartedOrTaken(lane: Lane): nat {
    lane.log.starts + One(lane.pc.Decided?)
  }

  lemma {:induction false} WorkerStartsOnlyTaken(lane: Lane, o: Outcome)
    requires lane.st.abort
    ensures WorkerMove(lane, o).st.abort && StartedOrTaken(WorkerMove(lane, o)) <= StartedOrTaken(lane)
  {
    match lane.pc
    case Off =>
    case AtNext(_) =>
    case Decided(_, _) =>
    case Calling(_, _) =>
    case Rechecking(_) =>
    case Boundary =>
    case Finishing(_) =>
    case Submitting =>
    case Requeueing =>
    case Unwinding(_) =>
    case Failing(_) =>
    case Publishing =>
  }

  lemma {:induction false} StepAfterAbort(s: System, step: Step, l: nat)
    requires Placed(s, l) && s.lanes[l].st.abort && Enabled(s, step)
    ensures var after := Apply(s, step);
            |after.lanes| == |s.lanes| && after.lanes[l].st.abort
            && StartedOrTaken(after.lanes[l]) <= StartedOrTaken(s.lanes[l])
  {
    if step.LaneStep? && step.lane == l {
      WorkerStartsOnlyTaken(s.lanes[step.lane], step.outcome);
    }
  }

  /** After abort, however the run continues, at most the one callback already taken still starts. */
  lemma {:induction false} AtMostOneLateCallback(s: System, steps: seq<Step>, l: nat)
    requires Reachable(s) && l < |s.lanes| && s.lanes[l].st.abort && Run(s, steps)
    ensures l < |After(s, steps).lanes|
    ensures After(s, steps).lanes[l].log.starts <= s.lanes[l].log.starts + One(s.lanes[l].pc.Decided?)
  {
    ReachableInv(s);
    LateCallbacks(s, steps, l);
  }

  lemma {:induction false} LateCallbacks(s: System, steps: seq<Step>, l: nat)
    requires Inv(s) && l < |s.lanes| && s.lanes[l].st.abort && Run(s, steps)
    ensures l < |After(s, steps).lanes|
    ensures StartedOrTaken(After(s, steps).lanes[l]) <= StartedOrTaken(s.lanes[l])
    decreases |steps|
  {
    if steps != [] {
      Keeps(s, steps[0]);
      Places(s, l);
      StepAfterAbort(s, steps[0], l);
      LateCallbacks(Apply(s, steps[0]), steps[1..], l);
    }
  }

  // ------------------------------------------------------------ a closing set

  predicate AllClosing(s: System) {
    forall l | 0 <= l < |s.lanes| :: s.lanes[l].st.closing
  }

  lemma {:induction false} ClosingStays(s: System, step: Step, l: nat)
    requires Placed(s, l) && s.lanes[l].st.closing && Enabled(s, step)
    ensures |Apply(s, step).lanes| == |s.lanes| && Apply(s, step).lanes[l].st.closing
  {
    if step.LaneStep? && step.lane == l {
      WorkerEffect(s.lanes[l], step.outcome);
    }
  }

  /** A closing set stays closing and nobody emits to it. */
  lemma {:induction false} ClosingPersists(s: System, steps: seq<Step>)
    requires Inv(s) && AllClosing(s) && !s.closer.Started? && Run(s, steps)
    ensures AllClosing(After(s, steps)) && Silent(steps)
    decreases |steps|
  {
    if steps != [] {
      var s' := Apply(s, steps[0]);
      Keeps(s, steps[0]);
      LaneCountStays(s, steps[0]);
      forall l: nat | l < |s'.lanes| ensures s'.lanes[l].st.closing {
        Places(s, l);
        ClosingStays(s, steps[0], l);
      }
      ClosingPersists(s', steps[1..]);
      assert steps == [steps[0]] + steps[1..];
    }
  }

  /**
   Shutdown progress. Once every lane is closing, a run contains at most `Measure` worker steps, and when no worker step is
   left a lane is finished if and only if it has no turn in the queue of a dead shared worker. A closed set has no such queue.
   */
  lemma {:induction false} ClosingFinishes(s: System, steps: seq<Step>, l: nat)
    requires Reachable(s) && AllClosing(s) && l < |s.lanes| && Run(s, steps)
    ensures CountWorkerSteps(steps) <= Measure(s)
    ensures |After(s, steps).lanes| == |s.lanes|
    ensures Stuck(After(s, steps)) ==>
              var end := After(s, steps);
              && (end.lanes[l].st.phase == Finished <==> !Stranded(end, l))
              && (end.closer.SetClosed? ==> end.lanes[l].st.phase == Finished)
  {
    ReachableInv(s);
    Places(s, l);
    ClosingPersists(s, steps);
    QuietSetSettles(s, steps, l);
    RunKeeps(s, steps);
    Places(After(s, steps), l);
  }

  // ------------------------------------------------------------ the closer

  /** Steps the closer still has to take at most. */
  function CloserRank(s: System): int {
    var n := |s.lanes|;
    match s.closer
    case Started => 4 * n + 4
    case BeginningClose(i) => 4 * n + 3 - i
    case SubmittingIdle(i) => 3 * n + 3 - i
    case Waiting => 2 * n + 3
    case Aborting(i) => 2 * n + 2 - i
    case SubmittingAborted(i) => n + 2 - i
    case Detaching => 1
    case SetClosed => 0
  }

  lemma {:induction false} CloserStepRank(s: System, step: Step)
    requires CloserInv(s) && Enabled(s, step)
    ensures 0 <= CloserRank(Apply(s, step)) <= CloserRank(s)
    ensures CloserStep(step) ==> CloserRank(Apply(s, step)) < CloserRank(s)
  {
    LaneCountStays(s, step);
    if !CloserStep(step) {
      CloserWaits(s, step);
    }
  }

  lemma {:induction false} CloserWaits(s: System, step: Step)
    requires Enabled(s, step) && !CloserStep(step)
    ensures Apply(s, step).closer == s.closer
  {
  }

  function CountCloserSteps(steps: seq<Step>): nat {
    if steps == [] then 0 else One(CloserStep(steps[0])) + CountCloserSteps(steps[1..])
  }

  /** Until the set is closed the closer can move, unless an emission holds the set lock. */
  lemma {:induction false} CloserCanMove(s: System) returns (step: Step)
    requires CloserInv(s) && s.emitter.Quiet? && !s.closer.SetClosed?
    ensures CloserStep(step) && Enabled(s, step)
  {
    match s.closer
    case Started => step := CloseBegin;
    case BeginningClose(_) => step := CloseLane;
    case SubmittingIdle(_) => step := SubmitClosed;
    case Waiting => step := Timeout;
    case Aborting(_) => step := AbortLane;
    case SubmittingAborted(_) => step := SubmitClosed;
    case Detaching => step := Detach;
  }

  ghost predicate NoCloserStep(s: System) {
    forall step: Step :: CloserStep(step) ==> !Enabled(s, step)
  }

  lemma {:induction false} CloserDone(s: System)
    requires CloserInv(s) && s.emitter.Quiet?
    ensures NoCloserStep(s) <==> s.closer.SetClosed?
  {
    if !s.closer.SetClosed? {
      var step := CloserCanMove(s);
    }
  }

  /**
   The closer gets through whatever workers and callbacks do: its steps are bounded over any run, and a run outside an
   emission in which it has none left has closed the set.
   */
  lemma {:induction false} CloserGetsThrough(s: System, steps: seq<Step>)
    requires Reachable(s) && Run(s, steps)
    ensures CountCloserSteps(steps) <= 4 * |s.lanes| + 4
    ensures After(s, steps).emitter.Quiet? ==>
              (NoCloserStep(After(s, steps)) <==> After(s, steps).closer.SetClosed?)
  {
    ReachableInv(s);
    CloserRun(s, steps);
    RunKeeps(s, steps);
    if After(s, steps).emitter.Quiet? {
      CloserDone(After(s, steps));
    }
  }

  lemma {:induction false} CloserRun(s: System, steps: seq<Step>)
    requires Inv(s) && Run(s, steps)
    ensures 0 <= CountCloserSteps(steps) + CloserRank(After(s, steps)) <= CloserRank(s) <= 4 * |s.lanes| + 4
    ensures CloserRank(After(s, steps)) >= 0
    decreases |steps|
  {
    if steps != [] {
      Keeps(s, steps[0]);
      CloserStepRank(s, steps[0]);
      LaneCountStays(s, steps[0]);
      CloserRun(Apply(s, steps[0]), steps[1..]);
    }
  }

  lemma {:induction false} SignalledWhenFinished(s: System, l: nat)
    requires Inv(s) && Stuck(s) && l < |s.lanes|
    ensures s.lanes[l].custody.signalled <==> s.lanes[l].st.phase == Finished
  {
    Places(s, l);
    assert WorkerStep(LaneStep(l, Escapes)) && !Enabled(s, LaneStep(l, Escapes));
  }

  /**
   A graceful close gets by without its timeout: once the workers of a closing set are at rest, the closer sees every lane
   completed if and only if none has a turn in the queue of a dead worker.
   */
  lemma {:induction false} DrainSucceedsExactly(s: System)
    requires Reachable(s) && s.closer.Waiting? && Stuck(s)
    ensures Enabled(s, Drain) <==> forall l: nat | l < |s.lanes| :: !Stranded(s, l)
  {
    ReachableInv(s);
    forall l: nat | l < |s.lanes| ensures s.lanes[l].custody.signalled <==> !Stranded(s, l) {
      Places(s, l);
      SignalledWhenFinished(s, l);
      SettledUnlessStranded(s, l);
    }
  }

  /** Neither the timeout nor the drop of the set occurs in the run. */
  predicate Patient(steps: seq<Step>) {
    forall i | 0 <= i < |steps| :: !steps[i].Timeout? && !steps[i].DropSet?
  }

  /** The closer is not on the way to abort, and no lane was aborted or cut short. */
  predicate NotAborting(s: System) {
    && !s.closer.Aborting? && !s.closer.SubmittingAborted?
    && forall l: nat | l < |s.lanes| :: !s.lanes[l].st.abort && !s.lanes[l].log.cut
  }

  /** The lane is as much aborted and cut short as before. */
  predicate SameAbort(lane: Lane, after: Lane) {
    after.st.abort == lane.st.abort && after.log.cut == lane.log.cut
  }

  lemma {:induction false} LoopNeverAborts(lane: Lane)
    requires lane.pc.AtNext? || lane.pc.Rechecking? || lane.pc.Boundary?
    ensures SameAbort(lane, WorkerMove(lane, Normal))
    ensures forall o: Outcome :: WorkerMove(lane, o) == WorkerMove(lane, Normal)
  {
  }

  lemma {:induction false} WorkerNeverAborts(lane: Lane, o: Outcome)
    ensures SameAbort(lane, WorkerMove(lane, o))
  {
    match lane.pc
    case Off =>
    case AtNext(_) => LoopNeverAborts(lane);
    case Decided(_, _) =>
    case Calling(_, _) =>
    case Rechecking(_) => LoopNeverAborts(lane);
    case Boundary => LoopNeverAborts(lane);
    case Finishing(_) =>
    case Submitting =>
    case Requeueing =>
    case Unwinding(_) =>
    case Failing(_) =>
    case Publishing =>
  }

  lemma {:induction false} CloserNeverAborts(step: Step, lane: Lane)
    requires !step.AbortLane?
    ensures SameAbort(lane, CloserMove(step, lane))
  {
  }

  lemma {:induction false} OuterNeverAborts(s: System, step: Step, lane: Lane)
    requires Enabled(s, step)
    ensures SameAbort(lane, OuterMove(s, step, lane))
  {
  }

  lemma {:induction false} PatientStepKeepsLane(s: System, step: Step, l: nat)
    requires Enabled(s, step) && l < |s.lanes| && !step.AbortLane?
    ensures l < |Apply(s, step).lanes| && SameAbort(s.lanes[l], Apply(s, step).lanes[l])
  {
    if step.LaneStep? {
      WorkerNeverAborts(s.lanes[step.lane], step.outcome);
    } else if CloserStep(step) {
      CloserStepLane(s, step, l);
      CloserNeverAborts(step, s.lanes[l]);
    } else {
      OuterStepLane(s, step, l);
      OuterNeverAborts(s, step, s.lanes[l]);
    }
  }

  lemma {:induction false} PatientStep(s: System, step: Step)
    requires NotAborting(s) && Enabled(s, step) && !step.Timeout? && !step.DropSet?
    ensures NotAborting(Apply(s, step))
  {
    LaneCountStays(s, step);
    forall l: nat | l < |s.lanes| ensures !Apply(s, step).lanes[l].st.abort && !Apply(s, step).lanes[l].log.cut {
      PatientStepKeepsLane(s, step, l);
    }
    if CloserStep(step) {
      PatientCloser(s, step);
    } else {
      CloserWaits(s, step);
    }
  }

  lemma {:induction false} PatientCloser(s: System, step: Step)
    requires Enabled(s, step) && CloserStep(step) && !s.closer.Aborting? && !s.closer.SubmittingAborted?
    requires !step.Timeout? && !step.DropSet?
    ensures !Apply(s, step).closer.Aborting? && !Apply(s, step).closer.SubmittingAborted?
  {
  }

  /** Nothing is aborted without a reason: a run without the timeout and without dropping the set cuts no lane short. */
  lemma {:induction false} AbortNeedsTimeout(s: System, steps: seq<Step>)
    requires NotAborting(s) && Run(s, steps) && Patient(steps)
    ensures NotAborting(After(s, steps))
    decreases |steps|
  {
    if steps != [] {
      assert !steps[0].Timeout? && !steps[0].DropSet?;
      PatientStep(s, steps[0]);
      AbortNeedsTimeout(Apply(s, steps[0]), steps[1..]);
    }
  }

  // ------------------------------------------------------------ a dead shared worker

  /** A panic leaves the panic handler of the shared worker somewhere in `steps`. */
  predicate HandlerPanics(s: System, steps: seq<Step>)
    requires Run(s, steps)
    decreases |steps|
  {
    steps != [] && (HandlerPanicsAt(s, steps[0]) || HandlerPanics(Apply(s, steps[0]), steps[1..]))
  }

  predicate HandlerPanicsAt(s: System, step: Step)
    requires Enabled(s, step)
  {
    step.LaneStep? && s.lanes[step.lane].shared && EndsThread(s.lanes[step.lane].pc, step.outcome)
  }

  lemma {:induction false} DiesAt(s: System, step: Step)
    requires Enabled(s, step)
    ensures Apply(s, step).worker.Dead? <==> s.worker.Dead? || HandlerPanicsAt(s, step)
  {
    if step.LaneStep? {
      WorkerKeepsKind(s.lanes[step.lane], step.outcome);
    }
  }

  /** The shared worker dies if and only if a panic leaves its handler; every other escaping panic it survives. */
  lemma {:induction false} WorkerDiesExactly(s: System, steps: seq<Step>)
    requires Run(s, steps)
    ensures After(s, steps).worker.Dead? <==> s.worker.Dead? || HandlerPanics(s, steps)
    decreases |steps|
  {
    if steps != [] {
      DiesAt(s, steps[0]);
      WorkerDiesExactly(Apply(s, steps[0]), steps[1..]);
    }
  }

  lemma {:induction false} StepAfterDeath(s: System, step: Step, l: nat)
    requires Placed(s, l) && ServerGone(s, l) && Enabled(s, step)
    ensures var s' := Apply(s, step);
            && |s'.lanes| == |s.lanes| && ServerGone(s', l)
            && s'.lanes[l].log.taken == s.lanes[l].log.taken && s'.lanes[l].log.starts == s.lanes[l].log.starts
            && (s.lanes[l].st.phase == Scheduled || s.lanes[l].st.abort ==> s'.lanes[l].st.phase == Scheduled || s'.lanes[l].st.abort)
  {
    if step.LaneStep? {
      WorkerKeepsKind(s.lanes[step.lane], step.outcome);
    }
  }

  lemma {:induction false} RunAfterDeath(s: System, steps: seq<Step>, l: nat)
    requires Inv(s) && l < |s.lanes| && ServerGone(s, l) && Run(s, steps)
    ensures var end := After(s, steps);
            && Inv(end) && |end.lanes| == |s.lanes| && ServerGone(end, l)
            && end.lanes[l].log.taken == s.lanes[l].log.taken && end.lanes[l].log.starts == s.lanes[l].log.starts
            && (s.lanes[l].st.phase == Scheduled || s.lanes[l].st.abort ==>
                  end.lanes[l].st.phase == Scheduled || end.lanes[l].st.abort)
    decreases |steps|
  {
    if steps != [] {
      Keeps(s, steps[0]);
      Places(s, l);
      StepAfterDeath(s, steps[0], l);
      RunAfterDeath(Apply(s, steps[0]), steps[1..], l);
    }
  }

  /**
   Nothing revives the shared worker. After its death no callback of a shared lane is taken or started, however the run
   goes on; a lane that was scheduled stays scheduled, and is finished if and only if it is aborted.
   */
  lemma {:induction false} DeadWorkerStrands(s: System, steps: seq<Step>, l: nat)
    requires Reachable(s) && s.worker.Dead? && l < |s.lanes| && s.lanes[l].shared && Run(s, steps)
    ensures var end := After(s, steps);
            && |end.lanes| == |s.lanes| && end.worker.Dead?
            && end.lanes[l].log.taken == s.lanes[l].log.taken && end.lanes[l].log.starts == s.lanes[l].log.starts
            && (s.lanes[l].st.phase == Scheduled ==>
                  && (end.lanes[l].st.phase == Finished <==> end.lanes[l].st.abort)
                  && (end.lanes[l].st.phase != Finished ==> end.lanes[l].st.phase == Scheduled))
  {
    ReachableInv(s);
    RunAfterDeath(s, steps, l);
    Places(After(s, steps), l);
  }

  /** Close still finishes every shared lane of a dead worker: signalled, empty, its subscriber handed to cleanup. */
  lemma {:induction false} CloseFinishesStranded(s: System, l: nat)
    requires Reachable(s) && s.worker.Dead? && s.closer.SetClosed? && l < |s.lanes| && s.lanes[l].shared
    ensures var lane := s.lanes[l];
            lane.st.phase == Finished && Drained(lane.st) && lane.custody.signalled && lane.custody.cleanup == 1
  {
    ReachableInv(s);
    Places(s, l);
  }
}
