/**
 One subscriber lane: the fields behind its mutex and one definition per lock scope.

 The value functions are the specification of the class below and the building blocks
 of the interleaving model in `LaneHistory` and `Scheduler`.
 */
module LaneState {
  import opened Events

  /** Callbacks one shared lane may run before it yields the shared worker. */
  const SHARED_CALLBACK_QUANTUM: nat := 64

  datatype LanePhase = Idle | Scheduled | Running | Finished

  /** `ownership` and `done` say whether the lane's slot still holds the subscriber and the completion sender. */
  datatype State = State(
    queue: seq<Event>,
    dropped: nat,
    phase: LanePhase,
    closing: bool,
    abort: bool,
    closedReported: bool,
    ownership: bool,
    done: bool,
    finished: bool)

  const FRESH := State([], 0, Idle, false, false, false, true, true, false)

  datatype EnqueueResult = Queued | ScheduleShared | Closed

  datatype Next = NextEvent(event: Event) | NextOverflow(dropped: nat) | NextFinish | NextIdle

  /** What a worker does after it found nothing to do, or after a full quantum. */
  datatype Settle = SettleFinish | SettleIdle | SettleAgain

  predicate Drained(st: State) {
    st.queue == [] && st.dropped == 0
  }

  function EnqueueResultOf(st: State, capacity: nat, shared: bool, e: Event): EnqueueResult {
    if st.phase == Finished then
      if !IsInternalDiagnostic(e) && !st.closedReported then Closed else Queued
    else if |st.queue| == capacity then Queued
    else if st.phase == Idle && shared then ScheduleShared
    else Queued
  }

  function AfterEnqueue(st: State, capacity: nat, e: Event): State {
    if st.phase == Finished then
      st.(closedReported := st.closedReported || !IsInternalDiagnostic(e))
    else if |st.queue| == capacity then
      if IsInternalDiagnostic(e) then st else st.(dropped := SaturatingIncrement(st.dropped))
    else
      st.(queue := st.queue + [e], phase := if st.phase == Idle then Scheduled else st.phase)
  }

  /** Completion: the phase becomes final and the completion sender leaves the lane. */
  function Finish(st: State): State {
    st.(phase := Finished, finished := true, done := false)
  }

  function AfterBeginClose(st: State): State {
    var closing := st.(closing := true);
    if st.phase == Idle then Finish(closing).(ownership := false) else closing
  }

  function AfterAbort(st: State): State {
    var aborted := st.(closing := true, abort := true, queue := [], dropped := 0);
    if st.phase == Idle || st.phase == Scheduled then Finish(aborted).(ownership := false) else aborted
  }

  /** A worker takes the lane out of `Scheduled`, and the subscriber out of the slot. */
  function AfterAcquire(st: State): State {
    st.(phase := Running, ownership := false)
  }

  function NextOf(st: State): Next {
    if st.abort then NextFinish
    else if st.queue != [] then NextEvent(st.queue[0])
    else if st.dropped != 0 then NextOverflow(st.dropped)
    else if st.closing then NextFinish
    else NextIdle
  }

  function AfterNext(st: State): State {
    if st.abort then st
    else if st.queue != [] then st.(queue := st.queue[1..])
    else st.(dropped := 0)
  }

  /** The recheck after `NextIdle`: `closing` alone finishes, whatever the queue holds. */
  function RecheckOf(st: State): Settle {
    if st.abort || st.closing then SettleFinish
    else if Drained(st) then SettleIdle
    else SettleAgain
  }

  /** The end of a shared quantum: `closing` finishes only a drained lane. */
  function BoundaryOf(st: State): Settle {
    if st.abort || (st.closing && Drained(st)) then SettleFinish
    else if Drained(st) then SettleIdle
    else SettleAgain
  }

  /** The worker gives the subscriber back and leaves the lane in `phase`. */
  function AfterRelease(st: State, phase: LanePhase): State {
    st.(ownership := true, phase := phase)
  }

  function AfterFinishRunning(st: State): State {
    Finish(st).(queue := [], dropped := 0)
  }

  function AfterFailAfterUnwind(st: State): State {
    if st.phase == Finished then st
    else Finish(st).(queue := [], dropped := 0, ownership := false)
  }

  // ------------------------------------------------------------ what is left to deliver

  function EventsAsNext(queue: seq<Event>): (items: seq<Next>)
    ensures |items| == |queue| && forall i | 0 <= i < |queue| :: items[i] == NextEvent(queue[i])
  {
    seq(|queue|, i requires 0 <= i < |queue| => NextEvent(queue[i]))
  }

  /** Everything a worker has to deliver, in order: the queued events, then one report of all pending losses. */
  function Backlog(st: State): seq<Next> {
    EventsAsNext(st.queue) + if st.dropped != 0 then [NextOverflow(st.dropped)] else []
  }

  /** Unless aborted, `TakeNext` takes the backlog from the front, and says finish or idle exactly when it is empty. */
  lemma {:induction false} TakesBacklogInOrder(st: State)
    requires !st.abort
    ensures Backlog(st) != [] ==> NextOf(st) == Backlog(st)[0] && Backlog(AfterNext(st)) == Backlog(st)[1..]
    ensures Backlog(st) == [] ==> NextOf(st) == (if st.closing then NextFinish else NextIdle) && Drained(st)
    ensures Backlog(st) == [] <==> Drained(st)
  {
    if st.queue != [] {
      assert EventsAsNext(st.queue[1..]) == EventsAsNext(st.queue)[1..];
      assert Backlog(AfterNext(st)) == Backlog(st)[1..];
    } else {
      assert Backlog(st) == if st.dropped != 0 then [NextOverflow(st.dropped)] else [];
    }
  }

  function QuantumOf(backlog: seq<Next>): nat {
    if |backlog| <= SHARED_CALLBACK_QUANTUM then |backlog| else SHARED_CALLBACK_QUANTUM
  }

  /** The lane object: each method is one scope of the lane mutex. */
  class SubscriberLane {
    const capacity: nat
    const dedicated: bool
    var queue: seq<Event>
    var dropped: nat
    var phase: LanePhase
    var closing: bool
    var abort: bool
    var closedReported: bool
    var ownership: bool
    var done: bool
    var finished: bool

    function View(): State
      reads this
    {
      State(queue, dropped, phase, closing, abort, closedReported, ownership, done, finished)
    }

    constructor (capacity: nat, dedicated: bool)
      ensures View() == FRESH && this.capacity == capacity && this.dedicated == dedicated
    {
      this.capacity := capacity;
      this.dedicated := dedicated;
      queue, dropped, phase := [], 0, Idle;
      closing, abort, closedReported := false, false, false;
      ownership, done, finished := true, true, false;
    }

    method Enqueue(e: Event) returns (r: EnqueueResult)
      modifies this
      ensures r == EnqueueResultOf(old(View()), capacity, !dedicated, e)
      ensures View() == AfterEnqueue(old(View()), capacity, e)
    {
      var isInternal := IsInternalDiagnostic(e);
      if phase == Finished {
        if !isInternal && !closedReported {
          closedReported := true;
          return Closed;
        }
        return Queued;
      }
      if |queue| == capacity {
        if !isInternal {
          dropped := SaturatingIncrement(dropped);
        }
        return Queued;
      }
      queue := queue + [e];
      if phase == Idle {
        phase := Scheduled;
        if !dedicated {
          return ScheduleShared;
        }
      }
      return Queued;
    }

    /** `taken` means the caller now owns the subscriber and the completion was signalled. */
    method BeginClose() returns (taken: bool)
      modifies this
      ensures View() == AfterBeginClose(old(View()))
      ensures taken <==> old(phase) == Idle && old(ownership)
    {
      closing := true;
      taken := false;
      if phase == Idle {
        phase := Finished;
        finished := true;
        done := false;
        taken := ownership;
        ownership := false;
      }
    }

    method Abort() returns (taken: bool, queued: seq<Event>)
      modifies this
      ensures View() == AfterAbort(old(View()))
      ensures queued == old(queue)
      ensures taken <==> (old(phase) == Idle || old(phase) == Scheduled) && old(ownership)
    {
      closing := true;
      abort := true;
      queued := queue;
      queue := [];
      dropped := 0;
      taken := false;
      if phase == Idle || phase == Scheduled {
        phase := Finished;
        finished := true;
        done := false;
        taken := ownership;
        ownership := false;
      }
    }

    /** The entry of a shared quantum: a lane that is not scheduled any more is left alone. */
    method Acquire() returns (acquired: bool)
      modifies this
      ensures acquired <==> old(phase) == Scheduled && !old(abort)
      ensures View() == if acquired then AfterAcquire(old(View())) else old(View())
    {
      if phase != Scheduled || abort {
        return false;
      }
      phase := Running;
      ownership := false;
      return true;
    }

    method TakeNext() returns (next: Next)
      modifies this
      ensures next == NextOf(old(View()))
      ensures View() == AfterNext(old(View()))
      ensures !abort && Backlog(old(View())) != [] ==>
                next == Backlog(old(View()))[0] && Backlog(View()) == Backlog(old(View()))[1..]
      ensures !abort && Backlog(old(View())) == [] ==>
                next == (if closing then NextFinish else NextIdle) && Backlog(View()) == [] && Drained(View())
    {
      if !abort {
        TakesBacklogInOrder(View());
      }
      if abort {
        next := NextFinish;
      } else if |queue| > 0 {
        next := NextEvent(queue[0]);
        queue := queue[1..];
      } else if dropped != 0 {
        next := NextOverflow(dropped);
        dropped := 0;
      } else if closing {
        next := NextFinish;
      } else {
        next := NextIdle;
      }
    }

    /** A shared worker's two settling scopes; `fullQuantum` selects the quantum boundary. */
    method SettleShared(fullQuantum: bool) returns (r: Settle)
      modifies this
      ensures r == if fullQuantum then BoundaryOf(old(View())) else RecheckOf(old(View()))
      ensures View() == match r
                        case SettleFinish => old(View())
                        case SettleIdle => AfterRelease(old(View()), Idle)
                        case SettleAgain => AfterRelease(old(View()), Scheduled)
    {
      var empty := |queue| == 0 && dropped == 0;
      if abort || (closing && (!fullQuantum || empty)) {
        return SettleFinish;
      }
      ownership := true;
      if empty {
        phase := Idle;
        return SettleIdle;
      }
      phase := Scheduled;
      return SettleAgain;
    }

    method FinishRunning() returns (queued: seq<Event>)
      modifies this
      ensures View() == AfterFinishRunning(old(View()))
      ensures queued == old(queue)
    {
      phase := Finished;
      queued := queue;
      queue := [];
      dropped := 0;
      finished := true;
      done := false;
    }

    method FailRunningAfterUnwind() returns (taken: bool, queued: seq<Event>)
      modifies this
      ensures View() == AfterFailAfterUnwind(old(View()))
      ensures taken <==> old(phase) != Finished && old(ownership)
      ensures queued == if old(phase) == Finished then [] else old(queue)
    {
      if phase == Finished {
        return false, [];
      }
      phase := Finished;
      queued := queue;
      queue := [];
      dropped := 0;
      finished := true;
      done := false;
      taken := ownership;
      ownership := false;
    }

    /**
     One shared quantum that nothing interrupts; `poisons(k)` says whether callback k leaves a poisoned payload behind.
     Callbacks get the backlog in order, at most a quantum of it, and stop after a poisoned one; the lane ends
     finished, idle or scheduled again, and only a poisoned quantum throws events away.
     */
    method RunSharedQuantum(poisons: nat -> bool) returns (calls: seq<Next>, requeue: bool)
      requires phase == Scheduled && ownership && !abort && !dedicated
      modifies this
      ensures calls <= Backlog(old(View())) && |calls| <= QuantumOf(Backlog(old(View())))
      ensures forall k: nat | k + 1 < |calls| :: !poisons(k)
      ensures |calls| < QuantumOf(Backlog(old(View()))) ==> |calls| > 0 && poisons(|calls| - 1)
      ensures closing == old(closing) && abort == old(abort)
      ensures |calls| > 0 && poisons(|calls| - 1) ==> phase == Finished && !ownership && !requeue && Drained(View())
      ensures !(|calls| > 0 && poisons(|calls| - 1)) ==>
                && Backlog(View()) == Backlog(old(View()))[|calls|..]
                && phase == (if Backlog(View()) != [] then Scheduled else if closing then Finished else Idle)
                && ownership == (phase != Finished)
                && (requeue <==> phase == Scheduled)
    {
      ghost var backlog := Backlog(View());
      calls, requeue := [], false;
      var acquired := Acquire();
      for ran := 0 to SHARED_CALLBACK_QUANTUM
        invariant |calls| == ran <= |backlog| && calls == backlog[..ran] && Backlog(View()) == backlog[ran..]
        invariant phase == Running && !ownership && closing == old(closing) && !abort
        invariant forall k: nat | k < ran :: !poisons(k)
      {
        var next := TakeNext();
        if next.NextFinish? || next.NextIdle? {
          LeaveEmpty(next.NextFinish?);
          return;
        }
        calls := calls + [next];
        assert calls == backlog[..ran + 1];
        if poisons(ran) {
          var queued := FinishRunning();
          return;
        }
      }
      requeue := EndQuantum();
    }

    /** The end of a quantum that ran out of work. */
    method LeaveEmpty(finish: bool)
      requires phase == Running && !ownership && !abort && Drained(View()) && finish == closing
      modifies this
      ensures closing == old(closing) && abort == old(abort) && Drained(View())
      ensures phase == (if closing then Finished else Idle) && ownership == (phase != Finished)
    {
      if finish {
        var queued := FinishRunning();
      } else {
        var settle := SettleShared(false);
      }
    }

    /** The end of a full quantum: a lane with a backlog goes back to the ready queue, another one finishes or idles. */
    method EndQuantum() returns (requeue: bool)
      requires phase == Running && !ownership && !abort && !dedicated
      modifies this
      ensures closing == old(closing) && abort == old(abort)
      ensures Backlog(View()) == Backlog(old(View()))
      ensures phase == if Backlog(View()) != [] then Scheduled else if closing then Finished else Idle
      ensures ownership == (phase != Finished)
      ensures requeue <==> phase == Scheduled
    {
      TakesBacklogInOrder(View());
      var settle := SettleShared(true);
      if settle.SettleFinish? {
        var queued := FinishRunning();
      }
      requeue := settle.SettleAgain?;
      TakesBacklogInOrder(View());
    }
  }
}
