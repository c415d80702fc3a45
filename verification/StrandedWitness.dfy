/** A run in which a graceful close is left with a scheduled lane that no worker will ever serve. */
module StrandedWitness {
  import opened Events
  import opened LaneState
  import opened LaneHistory
  import opened Scheduler
  import opened SchedulerTheorems
  import opened Quiescence
  import opened Shutdown

  const EVENT := Event(Lifecycle(0), 1)

  /** A set with two shared lanes of capacity one, with everything that varies in the run. */
  function TwoLanes(first: Lane, second: Lane, ready: seq<nat>, worker: SharedWorker, emitter: Emitter, closer: Closer): System {
    System([first, second], ready, false, worker, emitter, closer, [EVENT], first.log.starts, [0, 0])
  }

  const FRESH_LANE := Lane(1, true, FRESH, Off, EMPTY_LOG, IN_SLOT)

  const QUEUED :=
    FRESH_LANE.(st := FRESH.(queue := [EVENT], phase := Scheduled), log := EMPTY_LOG.(offered := [Accepted(EVENT)]))

  const TAKEN :=
    QUEUED.(st := FRESH.(phase := Running, ownership := false), pc := Decided(0, Deliver(EVENT)),
            log := QUEUED.log.(taken := [Deliver(EVENT)]))

  const CALLED := TAKEN.(pc := Calling(0, Deliver(EVENT)), log := TAKEN.log.(starts := 1))

  /** A panic escaped the callback boundary and the subscriber was dropped on the way out. */
  const ESCAPED :=
    CALLED.(pc := Unwinding(false), custody := IN_SLOT.(cleanup := 1))

  /** The handler failed the lane; publishing its diagnostic is all that is left. */
  const FAILED :=
    ESCAPED.(st := AfterFailAfterUnwind(ESCAPED.st), pc := Publishing, log := ESCAPED.log.(exit := ViaUnwind),
             custody := ESCAPED.custody.(doneTaken := 1, signalled := true))

  const EMPTY_SET := System([FRESH_LANE, FRESH_LANE], [], false, Asleep, Quiet, Started, [], 0, [0, 0])

  const ONE_READY := TwoLanes(QUEUED, FRESH_LANE, [0], Asleep, Offering(EVENT, 1), Started)
  const BOTH_READY := TwoLanes(QUEUED, QUEUED, [0, 1], Asleep, Quiet, Started)
  const SERVING := TwoLanes(TAKEN, QUEUED, [1], Serving(0), Quiet, Started)
  const CALLING := TwoLanes(CALLED, QUEUED, [1], Serving(0), Quiet, Started)
  const UNWOUND := TwoLanes(ESCAPED, QUEUED, [1], Serving(0), Quiet, Started)
  const HANDLING := TwoLanes(FAILED, QUEUED, [1], Serving(0), Quiet, Started)
  const DEAD := TwoLanes(FAILED.(pc := Off), QUEUED, [1], Dead, Quiet, Started)

  const STRANDED :=
    TwoLanes(BeginCloseMove(FAILED.(pc := Off)), BeginCloseMove(QUEUED), [1], Dead, Quiet, SubmittingIdle(0))

  lemma {:induction false} Queues(lane: Lane)
    requires lane == FRESH_LANE
    ensures EnqueueMove(lane, EVENT) == QUEUED && EnqueueResultOf(FRESH, 1, true, EVENT) == ScheduleShared
  {
    var queued := EnqueueMove(lane, EVENT);
    assert queued.st.queue == [EVENT] && queued.log.offered == [Accepted(EVENT)];
  }

  lemma {:induction false} ReachOneReady()
    ensures Reachable(ONE_READY)
  {
    assert Initial(EMPTY_SET) && Run(EMPTY_SET, []) && After(EMPTY_SET, []) == EMPTY_SET;
    ReachableStep(EMPTY_SET, EmitBegin(EVENT));
    var s := Apply(EMPTY_SET, EmitBegin(EVENT));
    assert s == TwoLanes(FRESH_LANE, FRESH_LANE, [], Asleep, Offering(EVENT, 0), Started);
    ReachableStep(s, EmitLane);
    Queues(FRESH_LANE);
    var s' := Apply(s, EmitLane);
    assert s'.lanes == [QUEUED, FRESH_LANE];
    ReachableStep(s', EmitPush);
    assert Apply(s', EmitPush).ready == [0] && Apply(s', EmitPush).entered == [0, 0];
  }

  lemma {:induction false} ReachBothReady()
    ensures Reachable(BOTH_READY)
  {
    ReachOneReady();
    ReachableStep(ONE_READY, EmitLane);
    Queues(FRESH_LANE);
    var s := Apply(ONE_READY, EmitLane);
    assert s.lanes == [QUEUED, QUEUED];
    ReachableStep(s, EmitPush);
    var s' := Apply(s, EmitPush);
    assert s'.ready == [0, 1] && s'.entered == [0, 0];
    ReachableStep(s', EmitEnd);
    assert Apply(s', EmitEnd) == BOTH_READY;
  }

  lemma {:induction false} ReachServing()
    ensures Reachable(SERVING)
  {
    ReachBothReady();
    ReachableStep(BOTH_READY, WorkerPop);
    var s := Apply(BOTH_READY, WorkerPop);
    assert s.ready == [1];
    ReachableStep(s, WorkerEnter);
    var s' := Apply(s, WorkerEnter);
    ReachableStep(s', LaneStep(0, Normal));
    var s'' := Apply(s', LaneStep(0, Normal));
    assert s''.lanes[0].st.queue == [] && s''.lanes[0].log.taken == [Deliver(EVENT)];
    assert s''.lanes == SERVING.lanes;
  }

  lemma {:induction false} ReachCalling()
    ensures Reachable(CALLING)
  {
    ReachServing();
    ReachableStep(SERVING, LaneStep(0, Normal));
    assert Apply(SERVING, LaneStep(0, Normal)) == CALLING;
  }

  lemma {:induction false} ReachUnwound()
    ensures Reachable(UNWOUND)
  {
    ReachCalling();
    ReachableStep(CALLING, LaneStep(0, Escapes));
    var s := Apply(CALLING, LaneStep(0, Escapes));
    ReachableStep(s, LaneStep(0, Normal));
    assert Apply(s, LaneStep(0, Normal)) == UNWOUND;
  }

  lemma {:induction false} ReachHandling()
    ensures Reachable(HANDLING)
  {
    ReachUnwound();
    ReachableStep(UNWOUND, LaneStep(0, Normal));
    var s := Apply(UNWOUND, LaneStep(0, Normal));
    assert s.lanes[0].log.discarded == [];
    ReachableStep(s, LaneStep(0, Normal));
    assert Apply(s, LaneStep(0, Normal)) == HANDLING;
  }

  lemma {:induction false} ReachDead()
    ensures Reachable(DEAD)
  {
    ReachHandling();
    ReachableStep(HANDLING, LaneStep(0, Escapes));
    assert Apply(HANDLING, LaneStep(0, Escapes)) == DEAD;
  }

  lemma {:induction false} ReachStranded()
    ensures Reachable(STRANDED)
  {
    ReachDead();
    ReachableStep(DEAD, CloseBegin);
    var s := Apply(DEAD, CloseBegin);
    ReachableStep(s, CloseLane);
    var s' := Apply(s, CloseLane);
    ReachableStep(s', CloseLane);
    assert Apply(s', CloseLane) == STRANDED;
  }

  /**
   A panic escapes a callback and its handler's publication panics too: the shared worker is dead, the other lane's event
   was accepted, every lane is closing, and no worker step is left that would serve it.
   */
  lemma {:induction false} CloseCanStrandALane() returns (end: System)
    ensures Reachable(end) && AllClosing(end) && Stuck(end) && |end.lanes| == 2
    ensures end.lanes[1].shared && end.lanes[1].st.phase == Scheduled && end.lanes[1].st.queue == [EVENT]
    ensures Stranded(end, 1) && !end.lanes[1].custody.signalled
  {
    ReachStranded();
    end := STRANDED;
  }
}
