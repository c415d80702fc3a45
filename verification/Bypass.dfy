/**
 Fairness of the shared worker: once a lane is in the ready queue, a bounded number of callbacks of other
 shared lanes start before its own quantum begins.
 */
module Bypass {
  import opened LaneState
  import opened LaneHistory
  import opened Scheduler
  import opened SchedulerTheorems

  function SharedLanes(s: System): set<nat> {
    set l | 0 <= l < |s.lanes| && s.lanes[l].shared
  }

  /** Callbacks the shared worker may still start before it comes back to the ready queue. */
  function Remaining(pc: Pc): nat {
    match pc
    case AtNext(ran) => if ran < SHARED_CALLBACK_QUANTUM then SHARED_CALLBACK_QUANTUM - ran else 0
    case Decided(ran, _) => if ran < SHARED_CALLBACK_QUANTUM then SHARED_CALLBACK_QUANTUM - ran else 0
    case Calling(ran, _) => if ran < SHARED_CALLBACK_QUANTUM then SHARED_CALLBACK_QUANTUM - ran - 1 else 0
    case _ => 0
  }

  function InService(s: System): nat
    requires QueueInv(s)
  {
    match s.worker
    case Popped(_) => SHARED_CALLBACK_QUANTUM
    case Serving(w) => Remaining(s.lanes[w].pc)
    case _ => 0
  }

  /** The most callbacks of other lanes that `n` shared lanes allow before a waiting lane's turn. */
  function Bound(n: nat): int {
    SHARED_CALLBACK_QUANTUM * (n - 1)
  }

  ghost predicate WaitInv(s: System, p: nat)
    requires QueueInv(s) && p < |s.ready|
  {
    var l := s.ready[p];
    && s.entered[l] <= s.clock
    && s.clock - s.entered[l] + SHARED_CALLBACK_QUANTUM * p + InService(s) <= Bound(|SharedLanes(s)|)
  }

  ghost predicate BypassInv(s: System)
    requires QueueInv(s)
  {
    && (forall p: nat | p < |s.ready| :: WaitInv(s, p))
    && (s.worker.Popped? ==>
          && s.entered[s.worker.lane] <= s.clock
          && s.clock - s.entered[s.worker.lane] <= Bound(|SharedLanes(s)|))
  }

  // ------------------------------------------------------------ counting lanes

  function Elements(xs: seq<nat>): set<nat> {
    set x | x in xs
  }

  lemma {:induction false} DistinctCard(xs: seq<nat>)
    requires Distinct(xs)
    ensures |Elements(xs)| == |xs|
  {
    if xs == [] {
      assert Elements(xs) == {};
    } else {
      var init, last := xs[..|xs| - 1], xs[|xs| - 1];
      DistinctCard(init);
      assert xs == init + [last];
      assert Elements(xs) == Elements(init) + {last};
      assert last !in Elements(init);
    }
  }

  lemma {:induction false} SubsetCard(a: set<nat>, b: set<nat>)
    requires a <= b
    ensures |a| <= |b|
  {
    assert b == a + (b - a);
  }

  /** Different waiting lanes and others not waiting, all among `lanes`, are at most `|lanes|` many. */
  lemma {:induction false} Room(waiting: seq<nat>, others: set<nat>, lanes: set<nat>)
    requires Distinct(waiting) && Elements(waiting) <= lanes && others <= lanes && Elements(waiting) !! others
    ensures |waiting| + |others| <= |lanes|
  {
    DistinctCard(waiting);
    assert |Elements(waiting) + others| == |Elements(waiting)| + |others|;
    SubsetCard(Elements(waiting) + others, lanes);
  }

  lemma {:induction false} ReadyShared(s: System)
    requires QueueInv(s) && TokensInv(s)
    ensures Elements(s.ready) <= SharedLanes(s)
  {
    forall x | x in Elements(s.ready) ensures x in SharedLanes(s) {
      assert TokenInv(s, x);
    }
  }

  // ------------------------------------------------------------ steps

  lemma {:induction false} KindStays(s: System, step: Step, l: nat)
    requires l < |s.lanes| && Enabled(s, step)
    ensures l < |Apply(s, step).lanes| && Apply(s, step).lanes[l].shared == s.lanes[l].shared
  {
    if step.LaneStep? {
      WorkerKeepsKind(s.lanes[step.lane], step.outcome);
    }
  }

  lemma {:induction false} SharedLanesStay(s: System, step: Step)
    requires Enabled(s, step)
    ensures |Apply(s, step).lanes| == |s.lanes| && SharedLanes(Apply(s, step)) == SharedLanes(s)
  {
    forall l: nat | l < |s.lanes|
      ensures l < |Apply(s, step).lanes| && Apply(s, step).lanes[l].shared == s.lanes[l].shared
    {
      KindStays(s, step, l);
    }
    LaneCountStays(s, step);
  }

  /** Starting a callback costs the lane in service one of its remaining callbacks; nothing gives it more. */
  lemma {:induction false} WorkerSpends(lane: Lane, o: Outcome)
    requires PhaseInv(lane) && lane.shared && !lane.pc.Off?
    ensures lane.log.starts <= WorkerMove(lane, o).log.starts
    ensures WorkerMove(lane, o).log.starts - lane.log.starts <= 1
    ensures Remaining(WorkerMove(lane, o).pc) + (WorkerMove(lane, o).log.starts - lane.log.starts) <= Remaining(lane.pc)
  {
    match lane.pc
    case Off =>
    case AtNext(_) =>
    case Decided(_, _) =>
    case Calling(_, _) =>
    case Rechecking(_) =>
    case Boundary =>
    case Finishing(_) =>
    case Submitting =>
    case Requeueing =>
    case Unwinding(_) =>
    case Failing(_) =>
    case Publishing =>
  }

  lemma {:induction false} QuietLaneStep(s: System, l: nat, o: Outcome)
    requires Inv(s) && Enabled(s, LaneStep(l, o)) && QueueInv(Apply(s, LaneStep(l, o)))
    ensures var after := Apply(s, LaneStep(l, o));
            && s.clock <= after.clock && after.entered == s.entered && after.ready == s.ready
            && after.clock + InService(after) <= s.clock + InService(s)
            && (after.worker.Popped? ==> after.worker == s.worker && after.clock == s.clock)
  {
    Places(s, l);
    WorkerKeepsKind(s.lanes[l], o);
    if s.lanes[l].shared {
      WorkerSpends(s.lanes[l], o);
    } else if s.worker.Popped? || s.worker.Serving? {
      assert s.worker.lane != l;
    }
  }

  /** Steps that push nothing: the clock and the service together do not grow. */
  lemma {:induction false} QuietStep(s: System, step: Step)
    requires Inv(s) && Enabled(s, step) && QueueInv(Apply(s, step))
    requires !step.EmitPush? && !step.WorkerRequeue? && !step.WorkerPop?
    ensures var after := Apply(s, step);
            && s.clock <= after.clock && after.entered == s.entered
            && (after.ready == s.ready || after.ready == [])
            && after.clock + InService(after) <= s.clock + InService(s)
            && (after.worker.Popped? ==> after.worker == s.worker && after.clock == s.clock)
  {
    if step.LaneStep? {
      QuietLaneStep(s, step.lane, step.outcome);
    } else if step.DedicatedWake? && s.worker.Serving? {
      assert s.worker.lane != step.lane;
    }
  }

  lemma {:induction false} QuietKeepsBypass(s: System, step: Step)
    requires Inv(s) && Enabled(s, step) && BypassInv(s) && QueueInv(Apply(s, step))
    requires !step.EmitPush? && !step.WorkerRequeue? && !step.WorkerPop?
    ensures BypassInv(Apply(s, step))
  {
    QuietStep(s, step);
    SharedLanesStay(s, step);
    var after := Apply(s, step);
    forall p: nat | p < |after.ready| ensures WaitInv(after, p) {
      assert WaitInv(s, p);
    }
  }

  lemma {:induction false} PopKeepsBypass(s: System)
    requires Inv(s) && Enabled(s, WorkerPop) && BypassInv(s) && QueueInv(Apply(s, WorkerPop))
    ensures BypassInv(Apply(s, WorkerPop))
  {
    var after := Apply(s, WorkerPop);
    assert SharedLanes(after) == SharedLanes(s);
    assert WaitInv(s, 0);
    forall p: nat | p < |after.ready| ensures WaitInv(after, p) {
      assert WaitInv(s, p + 1);
    }
  }

  /** A lane that is pushed finds room behind the waiting lanes and the lane in service. */
  lemma {:induction false} RoomToPush(s: System, step: Step)
    requires Inv(s) && Enabled(s, step) && (step.EmitPush? || step.WorkerRequeue?)
    ensures step.EmitPush? ==> SHARED_CALLBACK_QUANTUM * |s.ready| + InService(s) <= Bound(|SharedLanes(s)|)
    ensures step.WorkerRequeue? ==> SHARED_CALLBACK_QUANTUM * |s.ready| <= Bound(|SharedLanes(s)|)
  {
    var l := Target(s, step);
    Places(s, l);
    ReadyShared(s);
    Room(s.ready, {l}, SharedLanes(s));
    if step.EmitPush? && (s.worker.Popped? || s.worker.Serving?) {
      RoomBesideService(s);
    }
  }

  /** A lane that is being pushed or is with the worker is not in the ready queue. */
  lemma {:induction false} NotWaiting(s: System, l: nat)
    requires Placed(s, l)
    requires (s.emitter.Pushing? && s.emitter.lane == l) || s.worker == Popped(l) || s.worker == Serving(l)
    ensures l !in s.ready && s.lanes[l].shared
    ensures s.emitter.Pushing? && s.emitter.lane == l ==> s.worker != Popped(l) && s.worker != Serving(l)
  {
  }

  lemma {:induction false} ServiceBounded(s: System)
    requires QueueInv(s)
    ensures InService(s) <= SHARED_CALLBACK_QUANTUM
  {
  }

  lemma {:induction false} RoomBesideService(s: System)
    requires Inv(s) && Enabled(s, EmitPush) && (s.worker.Popped? || s.worker.Serving?)
    ensures |s.ready| + 2 <= |SharedLanes(s)| && InService(s) <= SHARED_CALLBACK_QUANTUM
  {
    var l, w := s.emitter.lane, s.worker.lane;
    Places(s, l);
    NotWaiting(s, l);
    Places(s, w);
    NotWaiting(s, w);
    ReadyShared(s);
    ServiceBounded(s);
    Room(s.ready, {l, w}, SharedLanes(s));
  }

  lemma {:induction false} Pushed(s: System, step: Step)
    requires Inv(s) && Enabled(s, step) && QueueInv(Apply(s, step)) && (step.EmitPush? || step.WorkerRequeue?)
    ensures var l, after := Target(s, step), Apply(s, step);
            && after.clock == s.clock
            && (after.worker.Popped? ==> after.worker == s.worker)
            && (if s.queueClosed then after.ready == s.ready && after.entered == s.entered
                else && l !in s.ready && l < |s.entered| && (s.worker.Popped? ==> s.worker.lane != l)
                     && after.ready == s.ready + [l] && after.entered == s.entered[l := s.clock])
            && InService(after) <= InService(s)
            && (step.WorkerRequeue? ==> InService(after) == 0)
  {
    Places(s, Target(s, step));
  }

  lemma {:induction false} PushKeepsBypass(s: System, step: Step)
    requires Inv(s) && Enabled(s, step) && BypassInv(s) && QueueInv(Apply(s, step))
    requires step.EmitPush? || step.WorkerRequeue?
    ensures BypassInv(Apply(s, step))
  {
    var after := Apply(s, step);
    Pushed(s, step);
    RoomToPush(s, step);
    SharedLanesStay(s, step);
    forall p: nat | p < |after.ready| ensures WaitInv(after, p) {
      if p < |s.ready| {
        assert WaitInv(s, p);
      }
    }
  }

  lemma {:induction false} KeepsBypass(s: System, step: Step)
    requires Inv(s) && BypassInv(s) && Enabled(s, step)
    ensures QueueInv(Apply(s, step)) && BypassInv(Apply(s, step))
  {
    Keeps(s, step);
    if step.WorkerPop? {
      PopKeepsBypass(s);
    } else if step.EmitPush? || step.WorkerRequeue? {
      PushKeepsBypass(s, step);
    } else {
      QuietKeepsBypass(s, step);
    }
  }

  lemma {:induction false} RunKeepsBypass(s: System, steps: seq<Step>)
    requires Inv(s) && BypassInv(s) && Run(s, steps)
    ensures Inv(After(s, steps)) && BypassInv(After(s, steps))
    decreases |steps|
  {
    if steps != [] {
      Keeps(s, steps[0]);
      KeepsBypass(s, steps[0]);
      RunKeepsBypass(Apply(s, steps[0]), steps[1..]);
    }
  }

  /**
   Bounded bypass. With `n` shared lanes, at most 64 * (n - 1) callbacks of shared lanes start between the moment
   a lane enters the ready queue and the moment the worker enters the lane, and none of them is its own.
   */
  lemma {:induction false} BoundedBypass(s: System, l: nat)
    requires Reachable(s) && l < |s.lanes| == |s.entered|
    requires l in s.ready || s.worker == Popped(l)
    ensures s.entered[l] <= s.clock
    ensures s.clock - s.entered[l] <= SHARED_CALLBACK_QUANTUM * (|SharedLanes(s)| - 1)
    ensures s.lanes[l].shared && s.lanes[l].pc.Off?
  {
    var init: System, steps: seq<Step> :| Initial(init) && Run(init, steps) && After(init, steps) == s;
    InitialInv(init);
    RunKeepsBypass(init, steps);
    Places(s, l);
    if l in s.ready {
      var p: nat :| p < |s.ready| && s.ready[p] == l;
      assert WaitInv(s, p);
    }
  }

  // ------------------------------------------------------------ over a stretch of a run

  /** The lane waits for its turn: it is in the ready queue, or the worker holds it but did not enter it yet. */
  predicate Waits(s: System, l: nat) {
    l in s.ready || s.worker == Popped(l)
  }

  predicate WaitsThroughout(s: System, steps: seq<Step>, l: nat)
    requires Run(s, steps)
    decreases |steps|
  {
    Waits(s, l) && (steps == [] || WaitsThroughout(Apply(s, steps[0]), steps[1..], l))
  }

  /** The step starts a callback of a shared lane. */
  predicate StartsCallback(s: System, step: Step)
    requires Enabled(s, step)
  {
    step.LaneStep? && StartsShared(s.lanes[step.lane], WorkerMove(s.lanes[step.lane], step.outcome))
  }

  function SharedStarts(s: System, steps: seq<Step>): nat
    requires Run(s, steps)
    decreases |steps|
  {
    if steps == [] then 0 else One(StartsCallback(s, steps[0])) + SharedStarts(Apply(s, steps[0]), steps[1..])
  }

  lemma {:induction false} WaitingStep(s: System, step: Step, l: nat)
    requires Inv(s) && Enabled(s, step) && l < |s.lanes| && Waits(s, l)
    ensures Apply(s, step).clock == s.clock + One(StartsCallback(s, step))
    ensures |Apply(s, step).entered| == |s.entered| && Apply(s, step).entered[l] == s.entered[l]
  {
    Places(s, l);
    if step.EmitPush? || step.WorkerRequeue? {
      Places(s, Target(s, step));
    }
  }

  lemma {:induction false} WaitingRun(s: System, steps: seq<Step>, l: nat)
    requires Inv(s) && l < |s.lanes| && Run(s, steps) && WaitsThroughout(s, steps, l)
    ensures var end := After(s, steps);
            && Inv(end) && |end.lanes| == |s.lanes| && SharedLanes(end) == SharedLanes(s) && Waits(end, l)
            && end.clock == s.clock + SharedStarts(s, steps) && end.entered[l] == s.entered[l]
    decreases |steps|
  {
    if steps != [] {
      Keeps(s, steps[0]);
      WaitingStep(s, steps[0], l);
      SharedLanesStay(s, steps[0]);
      WaitingRun(Apply(s, steps[0]), steps[1..], l);
    }
  }

  /** However long a lane waits for its turn, at most 64 * (n - 1) callbacks of shared lanes start meanwhile. */
  lemma {:induction false} BoundedBypassOverRun(s: System, steps: seq<Step>, l: nat)
    requires Reachable(s) && l < |s.lanes| && Run(s, steps) && WaitsThroughout(s, steps, l)
    ensures SharedStarts(s, steps) <= SHARED_CALLBACK_QUANTUM * (|SharedLanes(s)| - 1)
  {
    ReachableInv(s);
    BoundedBypass(s, l);
    WaitingRun(s, steps, l);
    ReachableRun(s, steps);
    BoundedBypass(After(s, steps), l);
  }
}
