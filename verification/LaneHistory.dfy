/**
 One lane under interference: where its worker stands between two lock scopes, and the
 history of everything the lane was offered and everything its worker took.

 Every move below is one atomic step. The history fields never influence a move.
 */
module LaneHistory {
  import opened Events
  import opened LaneState

  // ------------------------------------------------------------ history

  /** What happened to one emitted event at this lane. */
  datatype Offer = Accepted(event: Event) | Refused(event: Event) | TooLate(event: Event)

  /** One callback: an event, or an overflow report covering the first `upTo` offers. */
  datatype Call = Deliver(event: Event) | Report(count: nat, upTo: nat)

  function OfferedEvents(offers: seq<Offer>): seq<Event> {
    if offers == [] then [] else OfferedEvents(offers[..|offers| - 1]) + [offers[|offers| - 1].event]
  }

  function AcceptedEvents(offers: seq<Offer>): seq<Event> {
    if offers == [] then []
    else
      var last := offers[|offers| - 1];
      AcceptedEvents(offers[..|offers| - 1]) + if last.Accepted? then [last.event] else []
  }

  /** Ordinary events refused by a full queue; refused internal diagnostics are not losses. */
  function Losses(offers: seq<Offer>): nat {
    if offers == [] then 0
    else
      var last := offers[|offers| - 1];
      Losses(offers[..|offers| - 1]) + if last.Refused? && !IsInternalDiagnostic(last.event) then 1 else 0
  }

  function DeliveredEvents(calls: seq<Call>): seq<Event> {
    if calls == [] then []
    else
      var last := calls[|calls| - 1];
      DeliveredEvents(calls[..|calls| - 1]) + if last.Deliver? then [last.event] else []
  }

  /** How many offers the overflow reports in `calls` already cover. */
  function ReportedUpTo(calls: seq<Call>): nat {
    if calls == [] then 0
    else if calls[|calls| - 1].Report? then calls[|calls| - 1].upTo
    else ReportedUpTo(calls[..|calls| - 1])
  }

  /**
   The `j`-th call, if it is a report, counts exactly the losses since the previous report, and
   comes after every event accepted before it was taken.
   */
  ghost predicate ReportExact(offers: seq<Offer>, calls: seq<Call>, j: nat)
    requires j < |calls|
  {
    calls[j].Report? ==>
      var from, upTo := ReportedUpTo(calls[..j]), calls[j].upTo;
      && from <= upTo <= |offers|
      && 0 < calls[j].count == Saturate(Losses(offers[from..upTo]))
      && DeliveredEvents(calls[..j]) == AcceptedEvents(offers[..upTo])
  }

  ghost predicate ReportsExact(offers: seq<Offer>, calls: seq<Call>) {
    forall j: nat | j < |calls| :: ReportExact(offers, calls, j)
  }

  // ------------------------------------------------------------ the lane

  /** How a lane became `Finished`. `ViaRecheck(upTo)` decided to idle after `upTo` offers. */
  datatype Exit =
    | Live
    | ViaNext
    | ViaRecheck(upTo: nat)
    | ViaBoundary
    | ViaPoison
    | ViaUnwind
    | ViaBeginClose
    | ViaAbort

  /**
   Where the lane's worker stands. `ran` counts finished callbacks of the current quantum. `Unwinding`: a panic escaped
   the lane's loop; `Failing` and `Publishing`: its handler failed the lane and drops the queue, then publishes a diagnostic.
   */
  datatype Pc =
    | Off
    | AtNext(ran: nat)
    | Decided(ran: nat, call: Call)
    | Calling(ran: nat, call: Call)
    | Rechecking(upTo: nat)
    | Boundary
    | Finishing(via: Exit)
    | Submitting
    | Requeueing
    | Unwinding(holds: bool)
    | Failing(owns: bool)
    | Publishing

  /** History: never read by a move's decisions. */
  datatype Log = Log(
    offered: seq<Offer>,
    taken: seq<Call>,
    starts: nat,
    skipped: nat,
    discarded: seq<Event>,
    exit: Exit,
    cut: bool)

  /** Whereabouts of the subscriber and of the completion once they left the lane's slots. */
  datatype Custody = Custody(inCloser: bool, cleanup: nat, doneTaken: nat, signalled: bool)

  datatype Lane = Lane(capacity: nat, shared: bool, st: State, pc: Pc, log: Log, custody: Custody)

  const EMPTY_LOG := Log([], [], 0, 0, [], Live, false)

  const IN_SLOT := Custody(false, 0, 0, false)

  predicate FreshLane(lane: Lane) {
    lane.capacity > 0 && lane == Lane(lane.capacity, lane.shared, FRESH, Off, EMPTY_LOG, IN_SLOT)
  }

  /** The result of a callback, and whether a panic escapes the callback boundary. */
  datatype Outcome = Normal | PayloadPoisoned | Escapes

  // ------------------------------------------------------------ moves of emitter and closer

  function OfferOf(st: State, capacity: nat, e: Event): Offer {
    if st.phase == Finished then TooLate(e)
    else if |st.queue| == capacity then Refused(e)
    else Accepted(e)
  }

  function EnqueueMove(lane: Lane, e: Event): Lane {
    lane.(st := AfterEnqueue(lane.st, lane.capacity, e),
          log := lane.log.(offered := lane.log.offered + [OfferOf(lane.st, lane.capacity, e)]))
  }

  function Complete(c: Custody, st: State): Custody {
    c.(doneTaken := c.doneTaken + if st.done then 1 else 0)
  }

  /** The closer finishes the lane itself: it takes the subscriber and signals the completion. */
  function TakenByCloser(c: Custody, st: State): Custody {
    Complete(c, st).(inCloser := st.ownership, signalled := true)
  }

  /** The lane finishes by `via`, and what it still queues is thrown away. */
  function Discard(log: Log, st: State, via: Exit): Log {
    log.(discarded := log.discarded + st.queue, exit := via)
  }

  function BeginCloseMove(lane: Lane): Lane {
    if lane.st.phase == Idle then
      lane.(st := AfterBeginClose(lane.st), log := lane.log.(exit := ViaBeginClose),
            custody := TakenByCloser(lane.custody, lane.st))
    else lane.(st := AfterBeginClose(lane.st))
  }

  function AbortMove(lane: Lane): Lane {
    if lane.st.phase == Idle || lane.st.phase == Scheduled then
      lane.(st := AfterAbort(lane.st), log := Discard(lane.log, lane.st, ViaAbort).(cut := true),
            custody := TakenByCloser(lane.custody, lane.st))
    else
      lane.(st := AfterAbort(lane.st),
            log := Discard(lane.log, lane.st, lane.log.exit).(cut := lane.log.cut || lane.st.phase != Finished))
  }

  function Submitted(c: Custody): Custody {
    c.(cleanup := c.cleanup + 1)
  }

  /** The closer hands a subscriber it took to the deferred-drop domain. */
  function CloserSubmitMove(lane: Lane): Lane {
    if lane.custody.inCloser then lane.(custody := Submitted(lane.custody).(inCloser := false)) else lane
  }

  // ------------------------------------------------------------ moves of the worker

  function AcquireMove(lane: Lane): Lane {
    lane.(st := AfterAcquire(lane.st), pc := AtNext(0))
  }

  function Took(log: Log, call: Call): Log {
    log.(taken := log.taken + [call])
  }

  function TakeMove(lane: Lane, ran: nat): Lane {
    match NextOf(lane.st)
    case NextEvent(e) =>
      lane.(st := AfterNext(lane.st), pc := Decided(ran, Deliver(e)), log := Took(lane.log, Deliver(e)))
    case NextOverflow(n) =>
      var call := Report(n, |lane.log.offered|);
      lane.(st := AfterNext(lane.st), pc := Decided(ran, call), log := Took(lane.log, call))
    case NextFinish => lane.(pc := Finishing(ViaNext))
    case NextIdle => lane.(pc := Rechecking(|lane.log.offered|))
  }

  /** Building an overflow report can panic before the callback starts; an event is passed as it is. */
  function StartMove(lane: Lane, ran: nat, call: Call, o: Outcome): Lane {
    if o.Escapes? && call.Report? then
      lane.(pc := Unwinding(true), log := lane.log.(skipped := lane.log.skipped + 1))
    else
      lane.(pc := Calling(ran, call), log := lane.log.(starts := lane.log.starts + 1))
  }

  function PcAfterReturn(shared: bool, ran: nat, o: Outcome): Pc {
    match o
    case Escapes => Unwinding(true)
    case PayloadPoisoned => Finishing(ViaPoison)
    case Normal => if shared && ran + 1 == SHARED_CALLBACK_QUANTUM then Boundary else AtNext(ran + 1)
  }

  function ReturnMove(lane: Lane, ran: nat, o: Outcome): Lane {
    lane.(pc := PcAfterReturn(lane.shared, ran, o))
  }

  function SettleMove(lane: Lane, settle: Settle, via: Exit): Lane {
    match settle
    case SettleFinish => lane.(pc := Finishing(via))
    case SettleIdle => lane.(st := AfterRelease(lane.st, Idle), pc := Off)
    case SettleAgain =>
      if lane.shared then lane.(st := AfterRelease(lane.st, Scheduled), pc := Requeueing)
      else lane.(pc := AtNext(0))
  }

  function FinishMove(lane: Lane, via: Exit): Lane {
    lane.(st := AfterFinishRunning(lane.st), pc := Submitting, log := Discard(lane.log, lane.st, via),
          custody := Complete(lane.custody, lane.st))
  }

  function SubmitMove(lane: Lane, o: Outcome): Lane {
    if o.Escapes? then lane.(pc := Unwinding(true), custody := lane.custody.(signalled := true))
    else lane.(pc := Off, custody := Submitted(lane.custody).(signalled := true))
  }

  /** Unwinding first drops the subscriber the worker still holds, then the handler fails a lane that is not final. */
  function UnwindMove(lane: Lane, holds: bool): Lane {
    if holds then lane.(pc := Unwinding(false), custody := Submitted(lane.custody))
    else if lane.st.phase == Finished then lane.(pc := Publishing)
    else
      lane.(st := AfterFailAfterUnwind(lane.st), log := Discard(lane.log, lane.st, ViaUnwind),
            pc := Failing(lane.st.ownership), custody := Complete(lane.custody, lane.st))
  }

  /** The handler drops the queue, submits what it took and signals; a panic skips the publication, nothing else. */
  function FailMove(lane: Lane, owns: bool, o: Outcome): Lane {
    lane.(pc := if o.Escapes? then Off else Publishing,
          custody := (if owns then Submitted(lane.custody) else lane.custody).(signalled := true))
  }

  /** A panic in the panic handler is outside the worker's catch: it ends the worker's thread. */
  predicate EndsThread(pc: Pc, o: Outcome) {
    o.Escapes? && (pc.Failing? || pc.Publishing?)
  }

  /** One step of the worker inside the lane; `Requeueing` leaves through `RequeuedMove` unless a panic escapes. */
  function WorkerMove(lane: Lane, o: Outcome): Lane {
    match lane.pc
    case Off => lane
    case AtNext(ran) => TakeMove(lane, ran)
    case Decided(ran, call) => StartMove(lane, ran, call, o)
    case Calling(ran, _) => ReturnMove(lane, ran, o)
    case Rechecking(upTo) => SettleMove(lane, RecheckOf(lane.st), ViaRecheck(upTo))
    case Boundary => SettleMove(lane, BoundaryOf(lane.st), ViaBoundary)
    case Finishing(via) => FinishMove(lane, via)
    case Submitting => SubmitMove(lane, o)
    case Requeueing => if o.Escapes? then lane.(pc := Unwinding(false)) else lane
    case Unwinding(holds) => UnwindMove(lane, holds)
    case Failing(owns) => FailMove(lane, owns, o)
    case Publishing => lane.(pc := Off)
  }

  function RequeuedMove(lane: Lane): Lane {
    lane.(pc := Off)
  }

  // ------------------------------------------------------------ invariant

  /** The worker owns the subscriber. */
  predicate WorkerHolds(pc: Pc) {
    pc.AtNext? || pc.Decided? || pc.Calling? || pc.Rechecking? || pc.Boundary? || pc.Finishing? || pc.Submitting?
    || (pc.Unwinding? && pc.holds) || (pc.Failing? && pc.owns)
  }

  /** The worker is in the part of its loop where only it may move the phase. */
  predicate InLoop(pc: Pc) {
    pc.AtNext? || pc.Decided? || pc.Calling? || pc.Rechecking? || pc.Boundary? || pc.Finishing?
  }

  function One(b: bool): nat {
    if b then 1 else 0
  }

  predicate PhaseInv(lane: Lane) {
    var pc, phase := lane.pc, lane.st.phase;
    && lane.capacity > 0
    && (pc.Off? ==> phase != Running)
    && (InLoop(pc) ==> phase == Running)
    && (pc.Submitting? || pc.Failing? || pc.Publishing? ==> phase == Finished)
    && (pc.Requeueing? ==> phase == Scheduled || phase == Finished)
    && (pc.Unwinding? ==> phase != Idle && (pc.holds ==> phase != Scheduled))
    && (pc.Boundary? || pc.Requeueing? ==> lane.shared)
    && (lane.shared && (pc.AtNext? || pc.Decided? || pc.Calling?) ==> pc.ran < SHARED_CALLBACK_QUANTUM)
    && (pc.Finishing? ==> pc.via.ViaNext? || pc.via.ViaRecheck? || pc.via.ViaBoundary? || pc.via.ViaPoison?)
  }

  /** Exactly one party holds the subscriber, and the completion leaves the lane exactly when it finishes. */
  predicate OwnershipInv(lane: Lane) {
    && (lane.st.ownership <==> lane.st.phase == Idle || lane.st.phase == Scheduled)
    && (lane.st.finished <==> lane.st.phase == Finished)
    && (lane.st.done <==> lane.st.phase != Finished)
    && One(lane.st.ownership) + One(WorkerHolds(lane.pc)) + One(lane.custody.inCloser) + lane.custody.cleanup == 1
    && lane.custody.doneTaken == One(lane.st.phase == Finished)
    && (lane.custody.signalled ==> lane.st.phase == Finished)
    && (lane.st.phase == Finished ==> lane.custody.signalled || lane.pc.Submitting? || lane.pc.Failing?)
  }

  predicate CloseInv(lane: Lane) {
    && |lane.st.queue| <= lane.capacity
    && (lane.st.phase == Idle || lane.st.phase == Finished || lane.st.abort ==> Drained(lane.st))
    && (lane.st.closing ==> lane.st.phase != Idle)
    && (lane.st.abort ==> lane.st.closing && lane.st.phase != Scheduled)
    && (lane.pc.Finishing? && !lane.pc.via.ViaPoison? ==> lane.st.closing)
    && (lane.pc.Finishing? && (lane.pc.via.ViaNext? || lane.pc.via.ViaBoundary?) ==> Drained(lane.st))
  }

  /** In the order of emission: delivered or in the callback, then queued, then discarded. */
  predicate QueueAccounted(lane: Lane) {
    AcceptedEvents(lane.log.offered) == DeliveredEvents(lane.log.taken) + lane.st.queue + lane.log.discarded
  }

  ghost predicate AccountingInv(lane: Lane) {
    && QueueAccounted(lane)
    && ReportsExact(lane.log.offered, lane.log.taken)
    && ReportedUpTo(lane.log.taken) <= |lane.log.offered|
    && (lane.st.phase != Finished && !lane.st.abort ==>
          && lane.log.discarded == []
          && lane.st.dropped == Saturate(Losses(lane.log.offered[ReportedUpTo(lane.log.taken)..])))
    && lane.log.starts + One(lane.pc.Decided?) + lane.log.skipped == |lane.log.taken|
    && (lane.pc.Decided? || lane.pc.Calling? ==> lane.log.taken != [] && lane.log.taken[|lane.log.taken| - 1] == lane.pc.call)
    && (lane.log.skipped > 0 ==>
          && lane.log.skipped == 1 && lane.log.taken != [] && lane.log.taken[|lane.log.taken| - 1].Report?
          && !InLoop(lane.pc) && (lane.pc.Unwinding? || lane.st.phase == Finished))
  }

  /** What a lane discards, by the way it finishes. */
  ghost predicate DrainInv(lane: Lane) {
    && (lane.log.exit.Live? <==> lane.st.phase != Finished)
    && (lane.log.cut ==> lane.st.abort)
    && (lane.st.abort && lane.st.phase != Finished ==> lane.log.cut)
    && (lane.pc.Rechecking? ==> WindowInv(lane, lane.pc.upTo))
    && (lane.pc.Finishing? && lane.pc.via.ViaRecheck? ==> WindowInv(lane, lane.pc.via.upTo))
    && (lane.log.exit.ViaAbort? ==> lane.log.cut)
    && (lane.log.exit.Live? || lane.log.exit.ViaPoison? || lane.log.exit.ViaUnwind? || lane.st.closing)
    && (!lane.log.cut && (lane.log.exit.ViaNext? || lane.log.exit.ViaBoundary? || lane.log.exit.ViaBeginClose?) ==>
          && lane.log.discarded == []
          && ReportedUpTo(lane.log.taken) <= |lane.log.offered|
          && Losses(lane.log.offered[ReportedUpTo(lane.log.taken)..]) == 0)
    && (lane.log.exit.ViaRecheck? ==>
          && SameLosses(lane.log, lane.log.exit.upTo)
          && (!lane.log.cut ==> lane.log.discarded == AcceptedEvents(lane.log.offered[lane.log.exit.upTo..])))
  }

  /** Nothing was left unreported after `upTo` offers: the losses since the last report are those after `upTo`. */
  predicate SameLosses(log: Log, upTo: nat) {
    && upTo <= |log.offered|
    && ReportedUpTo(log.taken) <= |log.offered|
    && Losses(log.offered[ReportedUpTo(log.taken)..]) == Losses(log.offered[upTo..])
  }

  /** Since the worker decided to idle, the queue holds exactly what was accepted after that decision. */
  ghost predicate WindowInv(lane: Lane, upTo: nat) {
    && SameLosses(lane.log, upTo)
    && (!lane.st.abort ==> lane.st.queue == AcceptedEvents(lane.log.offered[upTo..]))
  }

  ghost predicate LaneInv(lane: Lane) {
    PhaseInv(lane) && OwnershipInv(lane) && CloseInv(lane) && AccountingInv(lane) && DrainInv(lane)
  }

  // ------------------------------------------------------------ list lemmas

  lemma OfferAppended(offers: seq<Offer>, o: Offer, from: nat)
    requires from <= |offers|
    ensures AcceptedEvents((offers + [o])[from..]) ==
            AcceptedEvents(offers[from..]) + if o.Accepted? then [o.event] else []
    ensures Losses((offers + [o])[from..]) ==
            Losses(offers[from..]) + if o.Refused? && !IsInternalDiagnostic(o.event) then 1 else 0
    ensures OfferedEvents((offers + [o])[from..]) == OfferedEvents(offers[from..]) + [o.event]
  {
    assert (offers + [o])[from..] == offers[from..] + [o];
    assert (offers[from..] + [o])[..|offers| - from] == offers[from..];
  }

  lemma AcceptedAppended(offers: seq<Offer>, o: Offer)
    ensures o.Accepted? ==> AcceptedEvents(offers + [o]) == AcceptedEvents(offers) + [o.event]
    ensures !o.Accepted? ==> AcceptedEvents(offers + [o]) == AcceptedEvents(offers)
  {
    assert (offers + [o])[..|offers|] == offers;
  }

  lemma CallAppended(calls: seq<Call>, c: Call)
    ensures DeliveredEvents(calls + [c]) == DeliveredEvents(calls) + if c.Deliver? then [c.event] else []
    ensures ReportedUpTo(calls + [c]) == if c.Report? then c.upTo else ReportedUpTo(calls)
  {
    assert (calls + [c])[..|calls|] == calls;
  }

  /** Reports stay exact when more events are offered. */
  lemma ReportsExactOffer(offers: seq<Offer>, calls: seq<Call>, o: Offer)
    requires ReportsExact(offers, calls)
    ensures ReportsExact(offers + [o], calls)
  {
    forall j: nat | j < |calls| ensures ReportExact(offers + [o], calls, j) {
      assert ReportExact(offers, calls, j);
      if calls[j].Report? {
        var from, upTo := ReportedUpTo(calls[..j]), calls[j].upTo;
        assert (offers + [o])[from..upTo] == offers[from..upTo];
        assert (offers + [o])[..upTo] == offers[..upTo];
      }
    }
  }

  /** One more call keeps all reports exact if it is itself exact. */
  lemma ReportsExactCall(offers: seq<Offer>, calls: seq<Call>, c: Call)
    requires ReportsExact(offers, calls)
    requires c.Report? ==>
               && ReportedUpTo(calls) <= c.upTo <= |offers|
               && 0 < c.count == Saturate(Losses(offers[ReportedUpTo(calls)..c.upTo]))
               && DeliveredEvents(calls) == AcceptedEvents(offers[..c.upTo])
    ensures ReportsExact(offers, calls + [c])
  {
    forall j: nat | j < |calls + [c]| ensures ReportExact(offers, calls + [c], j) {
      assert (calls + [c])[..j] == calls[..j];
      if j < |calls| {
        assert ReportExact(offers, calls, j);
      } else {
        assert calls[..j] == calls;
      }
    }
  }

  /** Throwing the queue away moves it behind what was already thrown away. */
  lemma Discarding(delivered: seq<Event>, queue: seq<Event>, discarded: seq<Event>)
    requires queue == [] || discarded == []
    ensures delivered + queue + discarded == delivered + [] + (discarded + queue)
  {
  }

  // ------------------------------------------------------------ preservation

  lemma {:induction false} FreshLaneInv(lane: Lane)
    requires FreshLane(lane)
    ensures LaneInv(lane)
  {
  }

  lemma {:induction false} EnqueueKeepsQueue(lane: Lane, e: Event)
    requires QueueAccounted(lane)
    requires lane.st.phase != Finished ==> lane.log.discarded == []
    ensures QueueAccounted(EnqueueMove(lane, e))
  {
    var o := OfferOf(lane.st, lane.capacity, e);
    AcceptedAppended(lane.log.offered, o);
    if o.Accepted? {
      var delivered, queue := DeliveredEvents(lane.log.taken), lane.st.queue;
      assert (delivered + queue + []) + [e] == delivered + (queue + [e]) + [];
    }
  }

  /** The lane's counter holds the losses since the last report. */
  predicate LossesCounted(lane: Lane) {
    && ReportedUpTo(lane.log.taken) <= |lane.log.offered|
    && lane.st.dropped == Saturate(Losses(lane.log.offered[ReportedUpTo(lane.log.taken)..]))
  }

  lemma {:induction false} EnqueueKeepsLosses(lane: Lane, e: Event)
    requires LossesCounted(lane) && lane.st.phase != Finished
    ensures LossesCounted(EnqueueMove(lane, e))
  {
    OfferAppended(lane.log.offered, OfferOf(lane.st, lane.capacity, e), ReportedUpTo(lane.log.taken));
  }

  lemma {:induction false} EnqueueKeepsAccounting(lane: Lane, e: Event)
    requires LaneInv(lane) && !lane.st.closing
    ensures AccountingInv(EnqueueMove(lane, e))
  {
    EnqueueKeepsQueue(lane, e);
    var o := OfferOf(lane.st, lane.capacity, e);
    if lane.st.phase != Finished {
      EnqueueKeepsLosses(lane, e);
    }
    ReportsExactOffer(lane.log.offered, lane.log.taken, o);
  }

  lemma {:induction false} EnqueueKeepsDrain(lane: Lane, e: Event)
    requires LaneInv(lane) && !lane.st.closing
    ensures DrainInv(EnqueueMove(lane, e))
  {
    var o := OfferOf(lane.st, lane.capacity, e);
    var offers := lane.log.offered;
    OfferAppended(offers, o, ReportedUpTo(lane.log.taken));
    if lane.pc.Rechecking? {
      OfferAppended(offers, o, lane.pc.upTo);
    }
  }

  /** Emission never reaches a closing lane; the scheduler establishes that. */
  lemma {:induction false} EnqueueKeeps(lane: Lane, e: Event)
    requires LaneInv(lane) && !lane.st.closing
    ensures LaneInv(EnqueueMove(lane, e))
  {
    EnqueueKeepsAccounting(lane, e);
    EnqueueKeepsDrain(lane, e);
  }

  lemma {:induction false} BeginCloseKeeps(lane: Lane)
    requires LaneInv(lane)
    ensures LaneInv(BeginCloseMove(lane))
  {
  }

  lemma {:induction false} AbortKeepsAccounting(lane: Lane)
    requires LaneInv(lane)
    ensures AccountingInv(AbortMove(lane))
  {
    Discarding(DeliveredEvents(lane.log.taken), lane.st.queue, lane.log.discarded);
  }

  lemma {:induction false} AbortKeepsDrain(lane: Lane)
    requires PhaseInv(lane) && CloseInv(lane) && DrainInv(lane)
    ensures DrainInv(AbortMove(lane))
  {
  }

  lemma {:induction false} AbortKeeps(lane: Lane)
    requires LaneInv(lane)
    ensures LaneInv(AbortMove(lane))
  {
    AbortKeepsAccounting(lane);
    AbortKeepsDrain(lane);
  }

  lemma {:induction false} CloserSubmitKeeps(lane: Lane)
    requires LaneInv(lane)
    ensures LaneInv(CloserSubmitMove(lane))
  {
  }

  lemma {:induction false} AcquireKeeps(lane: Lane)
    requires LaneInv(lane) && lane.pc.Off? && lane.st.phase == Scheduled
    ensures LaneInv(AcquireMove(lane))
  {
  }

  lemma {:induction false} TakeEventKeeps(lane: Lane, e: Event)
    requires LaneInv(lane) && lane.pc.AtNext? && NextOf(lane.st) == NextEvent(e)
    ensures LaneInv(TakeMove(lane, lane.pc.ran))
  {
    CallAppended(lane.log.taken, Deliver(e));
    ReportsExactCall(lane.log.offered, lane.log.taken, Deliver(e));
  }

  lemma {:induction false} TakeReportKeeps(lane: Lane, n: nat)
    requires LaneInv(lane) && lane.pc.AtNext? && NextOf(lane.st) == NextOverflow(n)
    ensures LaneInv(TakeMove(lane, lane.pc.ran))
  {
    var offers, calls := lane.log.offered, lane.log.taken;
    var call := Report(n, |offers|);
    CallAppended(calls, call);
    assert offers[ReportedUpTo(calls)..|offers|] == offers[ReportedUpTo(calls)..];
    assert offers[..|offers|] == offers;
    ReportsExactCall(offers, calls, call);
    assert offers[|offers|..] == [];
  }

  lemma {:induction false} TakeKeeps(lane: Lane)
    requires LaneInv(lane) && lane.pc.AtNext?
    ensures LaneInv(TakeMove(lane, lane.pc.ran))
  {
    match NextOf(lane.st)
    case NextEvent(e) => TakeEventKeeps(lane, e);
    case NextOverflow(n) => TakeReportKeeps(lane, n);
    case NextFinish =>
    case NextIdle => assert lane.log.offered[|lane.log.offered|..] == [];
  }

  lemma {:induction false} StartKeeps(lane: Lane, o: Outcome)
    requires LaneInv(lane) && lane.pc.Decided?
    ensures LaneInv(StartMove(lane, lane.pc.ran, lane.pc.call, o))
  {
  }

  lemma {:induction false} ReturnKeeps(lane: Lane, o: Outcome)
    requires LaneInv(lane) && lane.pc.Calling?
    ensures LaneInv(ReturnMove(lane, lane.pc.ran, o))
  {
  }

  lemma {:induction false} RecheckKeeps(lane: Lane)
    requires LaneInv(lane) && lane.pc.Rechecking?
    ensures LaneInv(SettleMove(lane, RecheckOf(lane.st), ViaRecheck(lane.pc.upTo)))
  {
  }

  lemma {:induction false} BoundaryKeeps(lane: Lane)
    requires LaneInv(lane) && lane.pc.Boundary?
    ensures LaneInv(SettleMove(lane, BoundaryOf(lane.st), ViaBoundary))
  {
  }

  lemma {:induction false} FinishKeeps(lane: Lane)
    requires LaneInv(lane) && lane.pc.Finishing?
    ensures LaneInv(FinishMove(lane, lane.pc.via))
  {
    Discarding(DeliveredEvents(lane.log.taken), lane.st.queue, lane.log.discarded);
  }

  lemma {:induction false} SubmitKeeps(lane: Lane, o: Outcome)
    requires LaneInv(lane) && lane.pc.Submitting?
    ensures LaneInv(SubmitMove(lane, o))
  {
  }

  lemma {:induction false} FailingKeeps(lane: Lane, o: Outcome)
    requires LaneInv(lane) && (lane.pc.Failing? || lane.pc.Publishing?)
    ensures LaneInv(WorkerMove(lane, o))
  {
  }

  lemma {:induction false} FailKeeps(lane: Lane)
    requires LaneInv(lane) && lane.pc == Unwinding(false) && lane.st.phase != Finished
    ensures LaneInv(UnwindMove(lane, false))
  {
    Discarding(DeliveredEvents(lane.log.taken), lane.st.queue, lane.log.discarded);
  }

  lemma {:induction false} UnwindKeeps(lane: Lane)
    requires LaneInv(lane) && lane.pc.Unwinding?
    ensures LaneInv(UnwindMove(lane, lane.pc.holds))
  {
    if !lane.pc.holds && lane.st.phase != Finished {
      FailKeeps(lane);
    }
  }

  lemma {:induction false} WorkerKeeps(lane: Lane, o: Outcome)
    requires LaneInv(lane)
    ensures LaneInv(WorkerMove(lane, o))
  {
    match lane.pc
    case Off =>
    case AtNext(_) => TakeKeeps(lane);
    case Decided(_, _) => StartKeeps(lane, o);
    case Calling(_, _) => ReturnKeeps(lane, o);
    case Rechecking(_) => RecheckKeeps(lane);
    case Boundary => BoundaryKeeps(lane);
    case Finishing(_) => FinishKeeps(lane);
    case Submitting => SubmitKeeps(lane, o);
    case Requeueing =>
    case Unwinding(_) => UnwindKeeps(lane);
    case Failing(_) => FailingKeeps(lane, o);
    case Publishing => FailingKeeps(lane, o);
  }

  lemma {:induction false} RequeuedKeeps(lane: Lane)
    requires LaneInv(lane) && lane.pc.Requeueing?
    ensures LaneInv(RequeuedMove(lane))
  {
  }
}
