/**
 Progress of a set nobody emits to: a natural-number measure that every worker step lowers and no other step raises,
 and what the lanes look like when no worker step is left.
 */
module Quiescence {
  import opened LaneState
  import opened LaneHistory
  import opened Scheduler
  import opened SchedulerTheorems

  // ------------------------------------------------------------ the measure

  /** One queued event or one pending overflow report outweighs any way a worker can go through the lane once. */
  const ITEM_WEIGHT: nat := 16

  function Items(st: State): nat {
    |st.queue| + One(st.dropped != 0)
  }

  /** How far the worker is from leaving the lane, apart from the lane's items. */
  function PcRank(pc: Pc, st: State): nat {
    match pc
    case Off => if st.phase == Scheduled then 13 else 0
    case AtNext(_) => 12
    case Decided(_, _) => 19
    case Calling(_, _) => 18
    case Rechecking(_) => if Drained(st) then 7 else 17
    case Boundary => 17
    case Finishing(_) => 6
    case Submitting => 5
    case Requeueing => 16
    case Unwinding(holds) => 3 + One(holds)
    case Failing(_) => 2
    case Publishing => 1
  }

  function LaneWork(lane: Lane): nat {
    ITEM_WEIGHT * Items(lane.st) + PcRank(lane.pc, lane.st)
  }

  /** A turn in the ready queue costs a pop and an entry. */
  function TurnRank(s: System, l: nat): nat {
    2 * One(l in s.ready) + One(s.worker == Popped(l))
  }

  function Work(s: System, l: nat): nat
    requires l < |s.lanes|
  {
    LaneWork(s.lanes[l]) + TurnRank(s, l)
  }

  function Works(s: System): seq<nat> {
    seq(|s.lanes|, l requires 0 <= l < |s.lanes| => Work(s, l))
  }

  function Sum(xs: seq<nat>): nat {
    if xs == [] then 0 else xs[0] + Sum(xs[1..])
  }

  /** Remaining work of the whole set. */
  function Measure(s: System): nat {
    Sum(Works(s))
  }

  lemma {:induction false} SumMonotone(xs: seq<nat>, ys: seq<nat>)
    requires |xs| == |ys| && forall i | 0 <= i < |xs| :: xs[i] <= ys[i]
    ensures Sum(xs) <= Sum(ys)
    ensures (exists i :: 0 <= i < |xs| && xs[i] < ys[i]) ==> Sum(xs) < Sum(ys)
  {
    if xs != [] {
      SumMonotone(xs[1..], ys[1..]);
      if i :| 0 <= i < |xs| && xs[i] < ys[i] {
        if i > 0 {
          assert xs[1..][i - 1] < ys[1..][i - 1];
        }
      }
    }
  }

  lemma {:induction false} MeasureMonotone(s: System, s': System, worked: nat)
    requires |s'.lanes| == |s.lanes| && forall l: nat | l < |s.lanes| :: Work(s', l) <= Work(s, l)
    ensures Measure(s') <= Measure(s)
    ensures worked < |s.lanes| && Work(s', worked) < Work(s, worked) ==> Measure(s') < Measure(s)
  {
    if worked < |s.lanes| && Work(s', worked) < Work(s, worked) {
      assert Works(s')[worked] < Works(s)[worked];
    }
    SumMonotone(Works(s'), Works(s));
  }

  // ------------------------------------------------------------ one step

  predicate WorkerStep(step: Step) {
    step.WorkerPop? || step.WorkerEnter? || step.LaneStep? || step.WorkerRequeue? || step.DedicatedWake?
  }

  lemma {:induction false} SettleLowers(lane: Lane)
    requires PhaseInv(lane) && (lane.pc.Rechecking? || lane.pc.Boundary?)
    ensures LaneWork(WorkerMove(lane, Normal)) < LaneWork(lane)
  {
  }

  lemma {:induction false} TakeItemLowers(lane: Lane)
    requires lane.pc.AtNext? && (NextOf(lane.st).NextEvent? || NextOf(lane.st).NextOverflow?)
    ensures LaneWork(TakeMove(lane, lane.pc.ran)) < LaneWork(lane)
  {
    assert Items(AfterNext(lane.st)) < Items(lane.st);
  }

  lemma {:induction false} TakeLowers(lane: Lane)
    requires lane.pc.AtNext?
    ensures LaneWork(TakeMove(lane, lane.pc.ran)) < LaneWork(lane)
  {
    if NextOf(lane.st).NextEvent? || NextOf(lane.st).NextOverflow? {
      TakeItemLowers(lane);
    }
  }

  lemma {:induction false} UnwindLowers(lane: Lane)
    requires lane.pc.Unwinding?
    ensures LaneWork(UnwindMove(lane, lane.pc.holds)) < LaneWork(lane)
  {
  }

  lemma {:induction false} LeaveLowers(lane: Lane, o: Outcome)
    requires PhaseInv(lane) && (lane.pc.Finishing? || lane.pc.Submitting? || lane.pc.Failing? || lane.pc.Publishing?)
    ensures LaneWork(WorkerMove(lane, o)) < LaneWork(lane)
  {
  }

  lemma {:induction false} WorkerLowers(lane: Lane, o: Outcome)
    requires PhaseInv(lane) && !lane.pc.Off? && (lane.pc.Requeueing? ==> o.Escapes?)
    ensures LaneWork(WorkerMove(lane, o)) < LaneWork(lane)
  {
    match lane.pc
    case Off =>
    case AtNext(_) => TakeLowers(lane);
    case Decided(_, _) =>
    case Calling(_, _) =>
    case Rechecking(_) => SettleLowers(lane);
    case Boundary => SettleLowers(lane);
    case Finishing(_) => LeaveLowers(lane, o);
    case Submitting => LeaveLowers(lane, o);
    case Requeueing =>
    case Unwinding(_) => UnwindLowers(lane);
    case Failing(_) => LeaveLowers(lane, o);
    case Publishing => LeaveLowers(lane, o);
  }

  lemma {:induction false} LaneStepWork(s: System, t: nat, o: Outcome, l: nat)
    requires Placed(s, l) && Enabled(s, LaneStep(t, o))
    ensures |Apply(s, LaneStep(t, o)).lanes| == |s.lanes|
    ensures Work(Apply(s, LaneStep(t, o)), l) <= Work(s, l)
    ensures l == t ==> Work(Apply(s, LaneStep(t, o)), l) < Work(s, l)
  {
    WorkerKeepsKind(s.lanes[t], o);
    if t == l {
      WorkerLowers(s.lanes[l], o);
    }
  }

  lemma {:induction false} RequeueWork(s: System, l: nat)
    requires Placed(s, l) && Enabled(s, WorkerRequeue)
    ensures |Apply(s, WorkerRequeue).lanes| == |s.lanes|
    ensures Work(Apply(s, WorkerRequeue), l) <= Work(s, l)
    ensures l == s.worker.lane ==> Work(Apply(s, WorkerRequeue), l) < Work(s, l)
  {
  }

  /** A worker step lowers the work of the lane it acts on and leaves every other lane alone. */
  lemma {:induction false} WorkerStepWork(s: System, step: Step, l: nat)
    requires Placed(s, l) && Enabled(s, step) && WorkerStep(step)
    ensures |Apply(s, step).lanes| == |s.lanes|
    ensures Work(Apply(s, step), l) <= Work(s, l)
    ensures l == Target(s, step) ==> Work(Apply(s, step), l) < Work(s, l)
  {
    if step.LaneStep? {
      LaneStepWork(s, step.lane, step.outcome, l);
    } else if step.WorkerRequeue? {
      RequeueWork(s, l);
    }
  }

  /** The closer's steps never add work. */
  lemma {:induction false} CloserStepWork(s: System, step: Step, l: nat)
    requires Placed(s, l) && Enabled(s, step) && CloserStep(step)
    ensures |Apply(s, step).lanes| == |s.lanes|
    ensures Work(Apply(s, step), l) <= Work(s, l)
  {
  }

  lemma {:induction false} QuietStepWork(s: System, step: Step, l: nat)
    requires Placed(s, l) && s.emitter.Quiet? && Enabled(s, step) && !step.EmitBegin?
    ensures |Apply(s, step).lanes| == |s.lanes|
    ensures Work(Apply(s, step), l) <= Work(s, l)
    ensures WorkerStep(step) && l == Target(s, step) ==> Work(Apply(s, step), l) < Work(s, l)
  {
    if WorkerStep(step) {
      WorkerStepWork(s, step, l);
    } else if CloserStep(step) {
      CloserStepWork(s, step, l);
    }
  }

  lemma {:induction false} WorkedIsALane(s: System, step: Step)
    requires QueueInv(s) && Enabled(s, step) && WorkerStep(step)
    ensures Target(s, step) < |s.lanes|
  {
  }

  /** While nobody emits, every worker step strictly lowers the measure and no step of closer or worker raises it. */
  lemma {:induction false} QuietStep(s: System, step: Step)
    requires Inv(s) && s.emitter.Quiet? && Enabled(s, step) && !step.EmitBegin?
    ensures Apply(s, step).emitter.Quiet?
    ensures Measure(Apply(s, step)) <= Measure(s)
    ensures WorkerStep(step) ==> Measure(Apply(s, step)) < Measure(s)
  {
    var s' := Apply(s, step);
    LaneCountStays(s, step);
    EmitterUnchanged(s, step);
    forall l: nat | l < |s.lanes| ensures Work(s', l) <= Work(s, l) {
      Places(s, l);
      QuietStepWork(s, step, l);
    }
    var worked := Target(s, step);
    if WorkerStep(step) {
      WorkedIsALane(s, step);
      Places(s, worked);
      QuietStepWork(s, step, worked);
    }
    MeasureMonotone(s, s', worked);
  }

  // ------------------------------------------------------------ whole runs

  /** Nobody emits in `steps`. */
  predicate Silent(steps: seq<Step>) {
    forall i | 0 <= i < |steps| :: !steps[i].EmitBegin?
  }

  function CountWorkerSteps(steps: seq<Step>): nat {
    if steps == [] then 0 else One(WorkerStep(steps[0])) + CountWorkerSteps(steps[1..])
  }

  /** The workers take at most `Measure` more steps, in any interleaving with each other and the closer. */
  lemma {:induction false} QuietRun(s: System, steps: seq<Step>)
    requires Inv(s) && s.emitter.Quiet? && Run(s, steps) && Silent(steps)
    ensures Inv(After(s, steps)) && After(s, steps).emitter.Quiet?
    ensures CountWorkerSteps(steps) + Measure(After(s, steps)) <= Measure(s)
    decreases |steps|
  {
    if steps != [] {
      Keeps(s, steps[0]);
      QuietStep(s, steps[0]);
      QuietRun(Apply(s, steps[0]), steps[1..]);
    }
  }

  // ------------------------------------------------------------ who can move

  /** The lane waits for nobody: it has no turn and is in no callback. */
  predicate Settled(lane: Lane) {
    lane.st.phase == Idle || lane.st.phase == Finished
  }

  /** A step of the worker that serves lane `l`: the shared worker, or the lane's own thread. */
  predicate StepFor(s: System, step: Step, l: nat)
    requires l < |s.lanes|
  {
    match step
    case WorkerPop => s.lanes[l].shared
    case WorkerEnter => s.lanes[l].shared
    case WorkerRequeue => s.lanes[l].shared
    case LaneStep(m, _) => m < |s.lanes| && if s.lanes[l].shared then s.lanes[m].shared else m == l
    case DedicatedWake(m) => m == l
    case _ => false
  }

  /** The shared worker is gone. */
  predicate ServerGone(s: System, l: nat)
    requires l < |s.lanes|
  {
    s.worker.Dead? && s.lanes[l].shared
  }

  lemma {:induction false} MoveFor(s: System, l: nat, o: Outcome) returns (step: Step)
    requires Inv(s) && s.emitter.Quiet? && l < |s.lanes| && !Settled(s.lanes[l]) && !ServerGone(s, l)
    ensures StepFor(s, step, l) && Enabled(s, step)
    ensures step.LaneStep? ==> step.outcome == o
  {
    Places(s, l);
    if !s.lanes[l].shared {
      step := if s.lanes[l].pc.Off? then DedicatedWake(l) else LaneStep(l, o);
    } else {
      match s.worker
      case Asleep => step := WorkerPop;
      case Popped(w) => step := WorkerEnter;
      case Serving(w) =>
        Places(s, w);
        step := if s.lanes[w].pc.Requeueing? then WorkerRequeue else LaneStep(w, o);
      case Exited => assert false;
      case Dead => assert false;
    }
  }

  /**
   A lane with something to do and nobody emitting: its worker can move, whatever the callbacks do, if and only if a panic
   in the panic handler has not ended the shared worker the lane depends on.
   */
  lemma {:induction false} UnsettledCanMove(s: System, l: nat)
    requires Reachable(s) && s.emitter.Quiet? && l < |s.lanes| && !Settled(s.lanes[l])
    ensures (exists step: Step :: StepFor(s, step, l) && Enabled(s, step)) <==> !ServerGone(s, l)
  {
    ReachableInv(s);
    if !ServerGone(s, l) {
      var step := MoveFor(s, l, Normal);
    }
  }

  /** A turn that no worker will ever take. */
  predicate Stranded(s: System, l: nat) {
    s.worker.Dead? && l in s.ready && !(l < |s.lanes| && s.lanes[l].st.abort)
  }

  ghost predicate Stuck(s: System) {
    forall step: Step :: WorkerStep(step) ==> !Enabled(s, step)
  }

  lemma {:induction false} SettledUnlessStranded(s: System, l: nat)
    requires Inv(s) && s.emitter.Quiet? && Stuck(s) && l < |s.lanes|
    ensures Settled(s.lanes[l]) <==> !Stranded(s, l)
  {
    Places(s, l);
    if !Settled(s.lanes[l]) && !ServerGone(s, l) {
      var step := MoveFor(s, l, Normal);
      assert WorkerStep(step);
    }
  }

  /**
   Quiescence. While nobody emits, the workers take at most `Measure` steps. When none is left, a lane is idle or finished if
   and only if it has no turn in the queue of a dead shared worker, and then every accepted event was delivered or discarded.
   */
  lemma {:induction false} QuietSetSettles(s: System, steps: seq<Step>, l: nat)
    requires Reachable(s) && s.emitter.Quiet? && Run(s, steps) && Silent(steps) && l < |s.lanes|
    ensures CountWorkerSteps(steps) <= Measure(s)
    ensures |After(s, steps).lanes| == |s.lanes|
    ensures Stuck(After(s, steps)) ==>
              var end := After(s, steps);
              var lane := end.lanes[l];
              && (Settled(lane) <==> !Stranded(end, l))
              && (Settled(lane) ==>
                    && lane.st.queue == [] && lane.st.dropped == 0
                    && AcceptedEvents(lane.log.offered) == DeliveredEvents(lane.log.taken) + lane.log.discarded)
              && (lane.st.phase == Idle ==>
                    && AcceptedEvents(lane.log.offered) == DeliveredEvents(lane.log.taken)
                    && ReportedUpTo(lane.log.taken) <= |lane.log.offered|
                    && Losses(lane.log.offered[ReportedUpTo(lane.log.taken)..]) == 0)
  {
    ReachableInv(s);
    QuietRun(s, steps);
    RunKeepsLaneCount(s, steps);
    var end := After(s, steps);
    if Stuck(end) {
      SettledUnlessStranded(end, l);
      if Settled(end.lanes[l]) {
        SettledIsAccounted(end, l);
      }
    }
  }

  lemma {:induction false} SettledIsAccounted(s: System, l: nat)
    requires Inv(s) && l < |s.lanes| && Settled(s.lanes[l])
    ensures var lane := s.lanes[l];
            && lane.st.queue == [] && lane.st.dropped == 0
            && AcceptedEvents(lane.log.offered) == DeliveredEvents(lane.log.taken) + lane.log.discarded
            && (lane.st.phase == Idle ==>
                  && AcceptedEvents(lane.log.offered) == DeliveredEvents(lane.log.taken)
                  && ReportedUpTo(lane.log.taken) <= |lane.log.offered|
                  && Losses(lane.log.offered[ReportedUpTo(lane.log.taken)..]) == 0)
  {
    assert LaneInv(s.lanes[l]);
  }
}
