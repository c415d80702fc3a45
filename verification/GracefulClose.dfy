/** What a graceful close loses, read off the state in which `begin_close` meets the lane. */
module GracefulClose {
  import opened Events
  import opened LaneState
  import opened LaneHistory
  import opened Scheduler
  import opened SchedulerTheorems

  /** The worker decided to idle and can only finish the lane now that it is closing. */
  predicate Leaving(pc: Pc) {
    pc.Rechecking? || (pc.Finishing? && pc.via.ViaRecheck?)
  }

  /** The losses that no report covers, as the lane's counter holds them. */
  function Unreported(log: Log): nat
    requires ReportedUpTo(log.taken) <= |log.offered|
  {
    Saturate(Losses(log.offered[ReportedUpTo(log.taken)..]))
  }

  /** A closing lane that, unless it is aborted or panics, will throw away exactly `lost` and leave `count` losses unreported. */
  predicate WillLose(lane: Lane, lost: seq<Event>, count: nat) {
    && lane.st.closing
    && ReportedUpTo(lane.log.taken) <= |lane.log.offered|
    && (lane.log.cut
        || if Leaving(lane.pc) then lane.st.queue == lost && lane.st.dropped == count
           else if lane.log.exit.ViaRecheck? then lane.log.discarded == lost && Unreported(lane.log) == count
           else lane.log.exit.ViaPoison? || lane.log.exit.ViaUnwind? || (lost == [] && count == 0))
  }

  lemma {:induction false} CloseDecides(lane: Lane)
    requires LaneInv(lane) && !lane.st.closing
    ensures WillLose(BeginCloseMove(lane), if lane.pc.Rechecking? then lane.st.queue else [],
                     if lane.pc.Rechecking? then lane.st.dropped else 0)
  {
  }

  lemma {:induction false} FinishWillLose(lane: Lane, lost: seq<Event>, count: nat)
    requires LaneInv(lane) && WillLose(lane, lost, count) && lane.pc.Finishing?
    ensures WillLose(FinishMove(lane, lane.pc.via), lost, count)
  {
  }

  lemma {:induction false} TakeWillLose(lane: Lane, lost: seq<Event>, count: nat)
    requires LaneInv(lane) && WillLose(lane, lost, count) && lane.pc.AtNext?
    ensures WillLose(TakeMove(lane, lane.pc.ran), lost, count)
  {
    TakeKeeps(lane);
  }

  lemma {:induction false} SettleWillLose(lane: Lane, lost: seq<Event>, count: nat)
    requires LaneInv(lane) && WillLose(lane, lost, count) && (lane.pc.Rechecking? || lane.pc.Boundary?)
    ensures WillLose(WorkerMove(lane, Normal), lost, count)
  {
  }

  lemma {:induction false} UnwindWillLose(lane: Lane, lost: seq<Event>, count: nat)
    requires LaneInv(lane) && WillLose(lane, lost, count) && lane.pc.Unwinding?
    ensures WillLose(UnwindMove(lane, lane.pc.holds), lost, count)
  {
  }

  lemma {:induction false} CallWillLose(lane: Lane, o: Outcome, lost: seq<Event>, count: nat)
    requires LaneInv(lane) && WillLose(lane, lost, count) && (lane.pc.Decided? || lane.pc.Calling?)
    ensures WillLose(WorkerMove(lane, o), lost, count)
  {
  }

  lemma {:induction false} LeaveWillLose(lane: Lane, o: Outcome, lost: seq<Event>, count: nat)
    requires LaneInv(lane) && WillLose(lane, lost, count)
    requires lane.pc.Submitting? || lane.pc.Requeueing? || lane.pc.Failing? || lane.pc.Publishing?
    ensures WillLose(WorkerMove(lane, o), lost, count)
  {
  }

  lemma {:induction false} WorkerWillLose(lane: Lane, o: Outcome, lost: seq<Event>, count: nat)
    requires LaneInv(lane) && WillLose(lane, lost, count)
    ensures WillLose(WorkerMove(lane, o), lost, count)
  {
    match lane.pc
    case Off =>
    case AtNext(_) => TakeWillLose(lane, lost, count);
    case Decided(_, _) => CallWillLose(lane, o, lost, count);
    case Calling(_, _) => CallWillLose(lane, o, lost, count);
    case Rechecking(_) => SettleWillLose(lane, lost, count);
    case Boundary => SettleWillLose(lane, lost, count);
    case Finishing(_) => FinishWillLose(lane, lost, count);
    case Submitting => LeaveWillLose(lane, o, lost, count);
    case Requeueing => LeaveWillLose(lane, o, lost, count);
    case Unwinding(_) => UnwindWillLose(lane, lost, count);
    case Failing(_) => LeaveWillLose(lane, o, lost, count);
    case Publishing => LeaveWillLose(lane, o, lost, count);
  }

  lemma {:induction false} AbortWillLose(lane: Lane, lost: seq<Event>, count: nat)
    requires LaneInv(lane) && WillLose(lane, lost, count)
    ensures WillLose(AbortMove(lane), lost, count)
  {
  }

  lemma {:induction false} StepWillLose(s: System, step: Step, l: nat, lost: seq<Event>, count: nat)
    requires Placed(s, l) && LaneInv(s.lanes[l]) && WillLose(s.lanes[l], lost, count) && Enabled(s, step)
    ensures |Apply(s, step).lanes| == |s.lanes| && WillLose(Apply(s, step).lanes[l], lost, count)
  {
    LaneCountStays(s, step);
    match step
    case LaneStep(t, o) => if t == l { WorkerWillLose(s.lanes[l], o, lost, count); }
    case AbortLane => AbortWillLose(s.lanes[l], lost, count);
    case _ =>
  }

  lemma {:induction false} RunWillLose(s: System, steps: seq<Step>, l: nat, lost: seq<Event>, count: nat)
    requires Inv(s) && l < |s.lanes| && WillLose(s.lanes[l], lost, count) && Run(s, steps)
    ensures Inv(After(s, steps)) && l < |After(s, steps).lanes| && WillLose(After(s, steps).lanes[l], lost, count)
    decreases |steps|
  {
    if steps != [] {
      Keeps(s, steps[0]);
      Places(s, l);
      StepWillLose(s, steps[0], l, lost, count);
      RunWillLose(Apply(s, steps[0]), steps[1..], l, lost, count);
    }
  }

  lemma {:induction false} LosesAsDecided(lane: Lane, lost: seq<Event>, count: nat)
    requires LaneInv(lane) && WillLose(lane, lost, count) && Graceful(lane)
    ensures lane.log.discarded == lost && Unreported(lane.log) == count
  {
  }

  /**
   When `begin_close` meets a lane, the lane's state decides what a graceful close will lose, whatever happens next: nothing,
   unless the worker stands between its decision to idle and the recheck; then exactly the queue and the counted losses.
   */
  lemma {:induction false} CloseLosesExactly(s: System, steps: seq<Step>, l: nat)
    requires Reachable(s) && Enabled(s, CloseLane) && l == s.closer.lane && Run(Apply(s, CloseLane), steps)
    ensures var end := After(Apply(s, CloseLane), steps);
            var meets := s.lanes[l];
            && |end.lanes| == |s.lanes|
            && (Graceful(end.lanes[l]) ==>
                  var log := end.lanes[l].log;
                  && ReportedUpTo(log.taken) <= |log.offered|
                  && log.discarded == (if meets.pc.Rechecking? then meets.st.queue else [])
                  && Unreported(log) == (if meets.pc.Rechecking? then meets.st.dropped else 0)
                  && (log.discarded != [] <==> meets.pc.Rechecking? && meets.st.queue != []))
  {
    ReachableInv(s);
    Places(s, l);
    var meets := s.lanes[l];
    assert LaneInv(meets);
    var lost := if meets.pc.Rechecking? then meets.st.queue else [];
    var count := if meets.pc.Rechecking? then meets.st.dropped else 0;
    CloseDecides(meets);
    var s' := Apply(s, CloseLane);
    Keeps(s, CloseLane);
    RunWillLose(s', steps, l, lost, count);
    RunKeepsLaneCount(s', steps);
    var end := After(s', steps);
    assert LaneInv(end.lanes[l]);
    if Graceful(end.lanes[l]) {
      LosesAsDecided(end.lanes[l], lost, count);
    }
  }
}
