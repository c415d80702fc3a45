/** A run in which a graceful close loses an accepted event: the exception that `DrainCompleteness` leaves open. */
module DrainWitness {
  import opened Events
  import opened LaneState
  import opened LaneHistory
  import opened Scheduler
  import opened SchedulerTheorems

  const FIRST := Event(Lifecycle(0), 1)
  const SECOND := Event(Lifecycle(0), 2)

  /** A set with one shared lane of capacity one, with everything that varies in the run. */
  function OneLane(st: State, pc: Pc, log: Log, ready: seq<nat>, worker: SharedWorker, emitter: Emitter, closer: Closer,
                   emitted: seq<Event>, clock: nat): System
  {
    System([Lane(1, true, st, pc, log, IN_SLOT)], ready, false, worker, emitter, closer, emitted, clock, [0])
  }

  const OFFERED_ONE := EMPTY_LOG.(offered := [Accepted(FIRST)])
  const TAKEN_ONE := OFFERED_ONE.(taken := [Deliver(FIRST)])
  const OFFERED_TWO := TAKEN_ONE.(starts := 1, offered := [Accepted(FIRST), Accepted(SECOND)])
  const IN_LOOP := FRESH.(phase := Running, ownership := false)

  const START := OneLane(FRESH, Off, EMPTY_LOG, [], Asleep, Quiet, Started, [], 0)

  const POPPED := OneLane(FRESH.(queue := [FIRST], phase := Scheduled), Off, OFFERED_ONE, [], Popped(0), Quiet, Started, [FIRST], 0)

  const TAKEN := OneLane(IN_LOOP, Decided(0, Deliver(FIRST)), TAKEN_ONE, [], Serving(0), Quiet, Started, [FIRST], 0)

  const ABOUT_TO_RECHECK :=
    OneLane(IN_LOOP, Rechecking(1), TAKEN_ONE.(starts := 1), [], Serving(0), Quiet, Started, [FIRST], 1)

  const OVERTAKEN :=
    OneLane(IN_LOOP.(queue := [SECOND]), Rechecking(1), OFFERED_TWO, [], Serving(0), Quiet, Started, [FIRST, SECOND], 1)

  const CLOSING :=
    OneLane(IN_LOOP.(queue := [SECOND], closing := true), Rechecking(1), OFFERED_TWO, [], Serving(0), Quiet,
            SubmittingIdle(0), [FIRST, SECOND], 1)

  const PUSHING :=
    OneLane(FRESH.(queue := [FIRST], phase := Scheduled), Off, OFFERED_ONE, [], Asleep, Pushing(FIRST, 0), Started, [FIRST], 0)

  const WAITING :=
    OneLane(FRESH.(queue := [FIRST], phase := Scheduled), Off, OFFERED_ONE, [0], Asleep, Quiet, Started, [FIRST], 0)

  const EMITTING_FIRST := OneLane(FRESH, Off, EMPTY_LOG, [], Asleep, Offering(FIRST, 0), Started, [FIRST], 0)

  lemma {:induction false} OfferFirst()
    ensures Reachable(PUSHING)
  {
    assert Initial(START) && Run(START, []) && After(START, []) == START;
    ReachableStep(START, EmitBegin(FIRST));
    assert [] + [FIRST] == [FIRST];
    assert Apply(START, EmitBegin(FIRST)) == EMITTING_FIRST;
    ReachableStep(EMITTING_FIRST, EmitLane);
    var s := Apply(EMITTING_FIRST, EmitLane);
    assert s.lanes[0].st.queue == [FIRST] && s.lanes[0].log.offered == [Accepted(FIRST)];
    assert s.lanes == PUSHING.lanes;
  }

  lemma {:induction false} PushFirst()
    ensures Reachable(WAITING)
  {
    OfferFirst();
    ReachableStep(PUSHING, EmitPush);
    var s := Apply(PUSHING, EmitPush);
    assert s.ready == [0] && s.entered == [0];
    ReachableStep(s, EmitEnd);
    assert Apply(s, EmitEnd) == WAITING;
  }

  lemma {:induction false} EmitFirst()
    ensures Reachable(POPPED)
  {
    PushFirst();
    ReachableStep(WAITING, WorkerPop);
    assert Apply(WAITING, WorkerPop).ready == [];
    assert Apply(WAITING, WorkerPop) == POPPED;
  }

  lemma {:induction false} TakeFirst()
    ensures Reachable(TAKEN)
  {
    EmitFirst();
    ReachableStep(POPPED, WorkerEnter);
    var s1 := Apply(POPPED, WorkerEnter);
    ReachableStep(s1, LaneStep(0, Normal));
    var s2 := Apply(s1, LaneStep(0, Normal));
    assert s2.lanes[0].st.queue == [] && s2.lanes[0].log.taken == [Deliver(FIRST)];
    assert s2 == TAKEN;
  }

  lemma {:induction false} DecideToIdle()
    ensures Reachable(ABOUT_TO_RECHECK)
  {
    TakeFirst();
    ReachableStep(TAKEN, LaneStep(0, Normal));
    var s1 := Apply(TAKEN, LaneStep(0, Normal));
    ReachableStep(s1, LaneStep(0, Normal));
    var s2 := Apply(s1, LaneStep(0, Normal));
    ReachableStep(s2, LaneStep(0, Normal));
    assert Apply(s2, LaneStep(0, Normal)) == ABOUT_TO_RECHECK;
  }

  const EMITTING_SECOND := ABOUT_TO_RECHECK.(emitter := Offering(SECOND, 0), emitted := [FIRST, SECOND])

  lemma {:induction false} BeginSecond()
    ensures Reachable(EMITTING_SECOND)
  {
    DecideToIdle();
    ReachableStep(ABOUT_TO_RECHECK, EmitBegin(SECOND));
    assert [FIRST] + [SECOND] == [FIRST, SECOND];
    assert Apply(ABOUT_TO_RECHECK, EmitBegin(SECOND)) == EMITTING_SECOND;
  }

  lemma {:induction false} EmitSecond()
    ensures Reachable(OVERTAKEN)
  {
    BeginSecond();
    ReachableStep(EMITTING_SECOND, EmitLane);
    var s := Apply(EMITTING_SECOND, EmitLane);
    assert s.lanes[0].st.queue == [SECOND] && s.lanes[0].log.offered == [Accepted(FIRST), Accepted(SECOND)];
    assert s.lanes == OVERTAKEN.lanes;
    ReachableStep(s, EmitEnd);
    assert Apply(s, EmitEnd) == OVERTAKEN;
  }

  lemma {:induction false} BeginToClose()
    ensures Reachable(CLOSING)
  {
    EmitSecond();
    ReachableStep(OVERTAKEN, CloseBegin);
    var s1 := Apply(OVERTAKEN, CloseBegin);
    ReachableStep(s1, CloseLane);
    assert Apply(s1, CloseLane) == CLOSING;
  }

  const FINISHED :=
    System([Lane(1, true, Finish(IN_LOOP.(closing := true)), Submitting, LOST, COMPLETED)], [], false, Serving(0), Quiet,
           SubmittingIdle(0), [FIRST, SECOND], 1, [0])

  const LOST := OFFERED_TWO.(discarded := [SECOND], exit := ViaRecheck(1))
  const COMPLETED := IN_SLOT.(doneTaken := 1)

  lemma {:induction false} RecheckFinishes()
    ensures Reachable(FINISHED)
  {
    BeginToClose();
    ReachableStep(CLOSING, LaneStep(0, Normal));
    var s1 := Apply(CLOSING, LaneStep(0, Normal));
    assert s1.lanes[0].pc == Finishing(ViaRecheck(1));
    ReachableStep(s1, LaneStep(0, Normal));
    var s2 := Apply(s1, LaneStep(0, Normal));
    assert s2.lanes[0].log == LOST;
    assert s2 == FINISHED;
  }

  /**
   No abort, no panic, no full queue: an event accepted between the worker's decision to idle and its recheck,
   with the close beginning in between, is thrown away.
   */
  lemma {:induction false} GracefulCloseLosesAnEvent() returns (end: System)
    ensures Reachable(end) && |end.lanes| == 1 && Graceful(end.lanes[0])
    ensures AcceptedEvents(end.lanes[0].log.offered) == [FIRST, SECOND]
    ensures DeliveredEvents(end.lanes[0].log.taken) == [FIRST] && end.lanes[0].log.discarded == [SECOND]
  {
    RecheckFinishes();
    end := FINISHED;
    LostLog();
  }

  lemma {:induction false} LostLog()
    ensures AcceptedEvents(LOST.offered) == [FIRST, SECOND] && DeliveredEvents(LOST.taken) == [FIRST]
  {
    AcceptedAppended([], Accepted(FIRST));
    AcceptedAppended([Accepted(FIRST)], Accepted(SECOND));
    CallAppended([], Deliver(FIRST));
    assert [Accepted(FIRST)] + [Accepted(SECOND)] == LOST.offered;
    assert [] + [Accepted(FIRST)] == [Accepted(FIRST)] && [] + [Deliver(FIRST)] == [Deliver(FIRST)];
  }
}
