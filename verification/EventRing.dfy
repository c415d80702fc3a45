/**
 The event bus: a bounded ring that keeps the newest events, counts what it displaces, and wakes its one
 receiver only on the empty-to-nonempty edge, after the ring lock was released.
 */
module EventRing {
  import opened Prelude
  import opened Events

  // ------------------------------------------------------------ the ring under its lock

  datatype Ring = Ring(events: seq<Event>, dropped: nat, closed: bool)

  /** One receive: an event, with the number of older events displaced before it. */
  datatype Message = Message(dropped: nat, event: Event)

  const EMPTY_RING := Ring([], 0, false)

  function PushRetainingNewest(r: Ring, e: Event, capacity: nat): Ring {
    if |r.events| == capacity && |r.events| > 0 then
      r.(events := r.events[1..] + [e], dropped := SaturatingIncrement(r.dropped))
    else r.(events := r.events + [e])
  }

  function AfterReceive(r: Ring): Ring
    requires r.events != []
  {
    r.(events := r.events[1..], dropped := 0)
  }

  /** The ring object; the capacity of zero is raised to one. */
  class EventRing {
    const capacity: nat
    var events: seq<Event>
    var dropped: nat
    var closed: bool
    var enabled: bool

    function View(): Ring
      reads this
    {
      Ring(events, dropped, closed)
    }

    constructor (capacity: nat)
      ensures View() == EMPTY_RING && !enabled
      ensures this.capacity == if capacity == 0 then 1 else capacity
    {
      this.capacity := if capacity == 0 then 1 else capacity;
      events, dropped, closed, enabled := [], 0, false, false;
    }

    /** `becameNonempty` obliges the caller to notify the receiver after releasing the lock. */
    method Publish(e: Event) returns (displaced: seq<Event>, becameNonempty: bool)
      requires capacity > 0
      modifies this
      ensures enabled == old(enabled)
      ensures View() == if old(closed) then old(View()) else PushRetainingNewest(old(View()), e, capacity)
      ensures displaced == if !old(closed) && |old(events)| == capacity then old(events)[..1] else []
      ensures becameNonempty <==> !old(closed) && old(events) == []
    {
      if closed {
        return [], false;
      }
      becameNonempty := |events| == 0;
      displaced := [];
      if |events| == capacity {
        dropped := SaturatingIncrement(dropped);
        displaced := events[..1];
        events := events[1..];
      }
      events := events + [e];
    }

    /** The gate in front of the ring: a disabled bus ignores the event without taking the ring lock. */
    method PublishLazy(e: Event) returns (displaced: seq<Event>, becameNonempty: bool)
      requires capacity > 0
      modifies this
      ensures enabled == old(enabled) && closed == old(closed)
      ensures !old(enabled) || old(closed) ==> View() == old(View()) && displaced == [] && !becameNonempty
      ensures old(enabled) && !old(closed) ==>
                && |events| > 0 && events[|events| - 1] == e
                && displaced + events == old(events) + [e]
                && |displaced| == (if |old(events)| == capacity then 1 else 0)
                && dropped == (if displaced == [] then old(dropped) else SaturatingIncrement(old(dropped)))
                && (becameNonempty <==> old(events) == [])
    {
      if !enabled {
        return [], false;
      }
      displaced, becameNonempty := Publish(e);
    }

    method TryMessage() returns (found: bool, m: Message)
      modifies this
      ensures enabled == old(enabled)
      ensures found <==> old(events) != []
      ensures found ==> m == Message(old(dropped), old(events)[0]) && View() == AfterReceive(old(View()))
      ensures !found ==> View() == old(View())
    {
      if |events| == 0 {
        return false, Message(0, Event(RuntimeFailure, 0));
      }
      found, m := true, Message(dropped, events[0]);
      events := events[1..];
      dropped := 0;
    }

    method CloseAndTakePending() returns (pending: seq<Event>, lost: nat)
      modifies this
      ensures pending == old(events) && lost == old(dropped)
      ensures View() == Ring([], 0, true) && !enabled
    {
      closed := true;
      enabled := false;
      pending, lost := events, dropped;
      events, dropped := [], 0;
    }

    method Enable()
      modifies this
      ensures View() == old(View()) && enabled == (old(enabled) || !closed)
    {
      if !closed {
        enabled := true;
      }
    }
  }

  // ------------------------------------------------------------ the protocol

  /** A publisher: past the lock-free enabled check, or still owing a notification. */
  datatype Publisher = Away | Checked(event: Event) | Owes

  /** The receiver's registration with the notifier: none, waiting, woken by `notify_one`, or served by a stored permit. */
  datatype Waiter = Unregistered | Registered | Woken | Served

  /** The receiver: outside `recv`, about to look at the ring, or awaiting its registration. */
  datatype Receiver = Outside | Looking | Parked

  /**
   History: `sent` is every event that entered the ring, `got` every message received, `indexes[i]` the position of
   the event of `got[i]` in `sent`, and `gap` the number of events displaced (or closed away) since the last receive.
   */
  datatype Bus = Bus(
    capacity: nat,
    ring: Ring,
    enabled: bool,
    receiverTaken: bool,
    permit: bool,
    waiter: Waiter,
    receiver: Receiver,
    publishers: seq<Publisher>,
    sent: seq<Event>,
    got: seq<Message>,
    indexes: seq<nat>,
    gap: nat)

  datatype Step =
    | Check(p: nat, event: Event)
    | Insert(p: nat)
    | Notify(p: nat)
    | Enable
    | TakeReceiver
    | BeginWait
    | Look
    | TryRecv
    | Wake
    | Cancel
    | Close

  predicate Initial(b: Bus) {
    && b.capacity > 0
    && (forall p | 0 <= p < |b.publishers| :: b.publishers[p].Away?)
    && b == Bus(b.capacity, EMPTY_RING, false, false, false, Unregistered, Outside, b.publishers, [], [], [], 0)
  }

  predicate Enabled(b: Bus, step: Step) {
    match step
    case Check(p, _) => p < |b.publishers| && b.publishers[p].Away?
    case Insert(p) => p < |b.publishers| && b.publishers[p].Checked?
    case Notify(p) => p < |b.publishers| && b.publishers[p].Owes?
    case Enable => true
    case TakeReceiver => !b.receiverTaken
    case BeginWait => b.receiverTaken && b.receiver.Outside?
    case Look => b.receiver.Looking?
    case TryRecv => b.receiverTaken && b.receiver.Outside?
    case Wake => b.receiver.Parked? && (b.waiter.Woken? || b.waiter.Served?)
    case Cancel => b.receiver.Parked?
    case Close => b.receiverTaken && b.receiver.Outside?
  }

  /** Registration consumes a stored permit at once. */
  function Register(b: Bus): Bus {
    if b.permit then b.(permit := false, waiter := Served, receiver := Looking)
    else b.(waiter := Registered, receiver := Looking)
  }

  /** Dropping a registration that `notify_one` woke passes the notification on; here nobody else waits. */
  function Unregister(b: Bus): Bus {
    b.(waiter := Unregistered, permit := b.permit || b.waiter.Woken?)
  }

  /** The position of the oldest event in the ring. */
  function Front(b: Bus): nat {
    NextIndex(b.indexes) + b.gap
  }

  function NextIndex(indexes: seq<nat>): nat {
    if indexes == [] then 0 else indexes[|indexes| - 1] + 1
  }

  function Receive(b: Bus): Bus
    requires b.ring.events != []
  {
    b.(ring := AfterReceive(b.ring),
       got := b.got + [Message(b.ring.dropped, b.ring.events[0])],
       indexes := b.indexes + [Front(b)],
       gap := 0)
  }

  function InsertBy(b: Bus, p: nat, e: Event): Bus
    requires p < |b.publishers|
  {
    if b.ring.closed then b.(publishers := b.publishers[p := Away])
    else
      b.(ring := PushRetainingNewest(b.ring, e, b.capacity),
         publishers := b.publishers[p := if b.ring.events == [] then Owes else Away],
         sent := b.sent + [e],
         gap := b.gap + if |b.ring.events| == b.capacity then 1 else 0)
  }

  function NotifyOne(b: Bus): Bus {
    if b.waiter.Registered? then b.(waiter := Woken) else b.(permit := true)
  }

  function Apply(b: Bus, step: Step): Bus
    requires Enabled(b, step)
  {
    match step
    case Check(p, e) => if b.enabled then b.(publishers := b.publishers[p := Checked(e)]) else b
    case Insert(p) => InsertBy(b, p, b.publishers[p].event)
    case Notify(p) => NotifyOne(b.(publishers := b.publishers[p := Away]))
    case Enable => if b.ring.closed then b else b.(enabled := true)
    case TakeReceiver => b.(receiverTaken := true, enabled := b.enabled || !b.ring.closed)
    case BeginWait => Register(b)
    case Look => if b.ring.events == [] then b.(receiver := Parked) else Unregister(Receive(b)).(receiver := Outside)
    case TryRecv => if b.ring.events == [] then b else Receive(b)
    case Wake => Register(b.(waiter := Unregistered))
    case Cancel => Unregister(b).(receiver := Outside)
    case Close => b.(ring := Ring([], 0, true), enabled := false, gap := b.gap + |b.ring.events|)
  }

  // ------------------------------------------------------------ runs

  predicate Run(b: Bus, steps: seq<Step>)
    decreases |steps|
  {
    steps == [] || (Enabled(b, steps[0]) && Run(Apply(b, steps[0]), steps[1..]))
  }

  function After(b: Bus, steps: seq<Step>): Bus
    requires Run(b, steps)
    decreases |steps|
  {
    if steps == [] then b else After(Apply(b, steps[0]), steps[1..])
  }

  ghost predicate Reachable(b: Bus) {
    exists init: Bus, steps: seq<Step> :: Initial(init) && Run(init, steps) && After(init, steps) == b
  }

  // ------------------------------------------------------------ invariant

  /** The ring is the part of `sent` that starts at `Front`. */
  predicate RingInv(b: Bus) {
    && b.capacity > 0
    && |b.ring.events| <= b.capacity
    && Front(b) + |b.ring.events| == |b.sent|
    && b.ring.events == b.sent[Front(b)..]
    && (!b.ring.closed ==> b.ring.dropped == Saturate(b.gap) && (b.gap > 0 ==> |b.ring.events| == b.capacity))
  }

  predicate CloseInv(b: Bus) {
    b.ring.closed ==> b.ring == Ring([], 0, true) && !b.enabled
  }

  /** The `i`-th message is the event at `indexes[i]`, with the exact number of positions skipped before it. */
  predicate MessageExact(sent: seq<Event>, got: seq<Message>, indexes: seq<nat>, i: nat)
    requires i < |got| == |indexes|
  {
    && NextIndex(indexes[..i]) <= indexes[i] < |sent|
    && got[i].event == sent[indexes[i]]
    && got[i].dropped == Saturate(indexes[i] - NextIndex(indexes[..i]))
  }

  predicate MessagesExact(sent: seq<Event>, got: seq<Message>, indexes: seq<nat>) {
    |got| == |indexes| && forall i: nat | i < |got| :: MessageExact(sent, got, indexes, i)
  }

  predicate SomeoneOwes(b: Bus) {
    exists p :: 0 <= p < |b.publishers| && b.publishers[p].Owes?
  }

  predicate WakeInv(b: Bus) {
    && (b.waiter.Registered? ==> !b.permit)
    && (b.receiver.Outside? <==> b.waiter.Unregistered?)
    && (b.receiver.Parked? && b.waiter.Registered? && b.ring.events != [] ==> SomeoneOwes(b))
  }

  predicate Inv(b: Bus) {
    RingInv(b) && CloseInv(b) && WakeInv(b) && MessagesExact(b.sent, b.got, b.indexes)
  }

  lemma {:induction false} MessagesExactSent(sent: seq<Event>, e: Event, got: seq<Message>, indexes: seq<nat>)
    requires MessagesExact(sent, got, indexes)
    ensures MessagesExact(sent + [e], got, indexes)
  {
    forall i: nat | i < |got| ensures MessageExact(sent + [e], got, indexes, i) {
      assert MessageExact(sent, got, indexes, i);
    }
  }

  lemma {:induction false} MessagesExactGot(sent: seq<Event>, got: seq<Message>, indexes: seq<nat>, m: Message, index: nat)
    requires MessagesExact(sent, got, indexes)
    requires NextIndex(indexes) <= index < |sent| && m == Message(Saturate(index - NextIndex(indexes)), sent[index])
    ensures MessagesExact(sent, got + [m], indexes + [index])
  {
    forall i: nat | i < |got + [m]| ensures MessageExact(sent, got + [m], indexes + [index], i) {
      if i < |got| {
        assert MessageExact(sent, got, indexes, i);
        assert (indexes + [index])[..i] == indexes[..i];
      } else {
        assert (indexes + [index])[..i] == indexes;
      }
    }
  }

  lemma {:induction false} InsertKeepsRing(b: Bus, p: nat, e: Event)
    requires RingInv(b) && p < |b.publishers| && !b.ring.closed
    ensures RingInv(InsertBy(b, p, e))
  {
    var after := InsertBy(b, p, e);
    if |b.ring.events| == b.capacity {
      assert b.sent[Front(b)..][1..] == b.sent[Front(b) + 1..];
    }
    assert after.ring.events == after.sent[Front(after)..];
  }

  lemma {:induction false} InsertKeepsWake(b: Bus, p: nat, e: Event)
    requires WakeInv(b) && p < |b.publishers| && b.publishers[p].Checked?
    ensures WakeInv(InsertBy(b, p, e))
  {
    var after := InsertBy(b, p, e);
    if b.ring.events == [] && !b.ring.closed {
      assert after.publishers[p].Owes?;
    } else if SomeoneOwes(b) {
      var q :| 0 <= q < |b.publishers| && b.publishers[q].Owes?;
      assert after.publishers[q].Owes?;
    }
  }

  lemma {:induction false} InsertKeeps(b: Bus, p: nat, e: Event)
    requires Inv(b) && p < |b.publishers| && b.publishers[p].Checked?
    ensures Inv(InsertBy(b, p, e))
  {
    InsertKeepsWake(b, p, e);
    if !b.ring.closed {
      InsertKeepsRing(b, p, e);
      MessagesExactSent(b.sent, e, b.got, b.indexes);
    }
  }

  lemma {:induction false} ReceiveKeeps(b: Bus)
    requires Inv(b) && b.ring.events != [] && !b.receiver.Parked?
    ensures Inv(Receive(b))
  {
    MessagesExactGot(b.sent, b.got, b.indexes, Message(b.ring.dropped, b.ring.events[0]), Front(b));
  }

  lemma {:induction false} NotifyKeeps(b: Bus, p: nat)
    requires Inv(b) && Enabled(b, Notify(p))
    ensures Inv(Apply(b, Notify(p)))
  {
  }

  lemma {:induction false} CheckKeeps(b: Bus, p: nat, e: Event)
    requires Inv(b) && Enabled(b, Check(p, e))
    ensures Inv(Apply(b, Check(p, e)))
  {
    var after := Apply(b, Check(p, e));
    if SomeoneOwes(b) {
      var q :| 0 <= q < |b.publishers| && b.publishers[q].Owes?;
      assert after.publishers[q].Owes?;
    }
  }

  lemma {:induction false} LookKeeps(b: Bus)
    requires Inv(b) && Enabled(b, Look)
    ensures Inv(Apply(b, Look))
  {
    if b.ring.events != [] {
      ReceiveKeeps(b);
    }
  }

  lemma {:induction false} TryRecvKeeps(b: Bus)
    requires Inv(b) && Enabled(b, TryRecv)
    ensures Inv(Apply(b, TryRecv))
  {
    if b.ring.events != [] {
      ReceiveKeeps(b);
    }
  }

  lemma {:induction false} CloseKeeps(b: Bus)
    requires Inv(b) && Enabled(b, Close)
    ensures Inv(Apply(b, Close))
  {
  }

  /** Steps that touch only the notifier and the flags. */
  lemma {:induction false} ControlKeeps(b: Bus, step: Step)
    requires Inv(b) && Enabled(b, step)
    requires step.Enable? || step.TakeReceiver? || step.BeginWait? || step.Wake? || step.Cancel?
    ensures Inv(Apply(b, step))
  {
  }

  lemma {:induction false} Keeps(b: Bus, step: Step)
    requires Inv(b) && Enabled(b, step)
    ensures Inv(Apply(b, step))
  {
    match step
    case Check(p, e) => CheckKeeps(b, p, e);
    case Insert(p) => InsertKeeps(b, p, b.publishers[p].event);
    case Notify(p) => NotifyKeeps(b, p);
    case Look => LookKeeps(b);
    case TryRecv => TryRecvKeeps(b);
    case Close => CloseKeeps(b);
    case _ => ControlKeeps(b, step);
  }

  lemma {:induction false} RunKeeps(b: Bus, steps: seq<Step>)
    requires Inv(b) && Run(b, steps)
    ensures Inv(After(b, steps))
    decreases |steps|
  {
    if steps != [] {
      Keeps(b, steps[0]);
      RunKeeps(Apply(b, steps[0]), steps[1..]);
    }
  }

  lemma {:induction false} InitialInv(b: Bus)
    requires Initial(b)
    ensures Inv(b)
  {
    assert b.sent == [] && b.got == [] && b.indexes == [] && b.gap == 0 && b.ring == EMPTY_RING;
    assert Front(b) == 0 && b.sent[0..] == [];
    assert b.waiter.Unregistered? && b.receiver.Outside?;
  }

  lemma {:induction false} ReachableInv(b: Bus)
    requires Reachable(b)
    ensures Inv(b)
  {
    var init: Bus, steps: seq<Step> :| Initial(init) && Run(init, steps) && After(init, steps) == b;
    InitialInv(init);
    RunKeeps(init, steps);
  }

  // ------------------------------------------------------------ what it means

  function TotalDropped(got: seq<Message>): nat {
    if got == [] then 0 else TotalDropped(got[..|got| - 1]) + got[|got| - 1].dropped
  }

  lemma {:induction false} PositionsAddUp(sent: seq<Event>, got: seq<Message>, indexes: seq<nat>)
    requires MessagesExact(sent, got, indexes) && |sent| <= U64_MAX
    ensures NextIndex(indexes) == |got| + TotalDropped(got)
    decreases |got|
  {
    if got != [] {
      var n := |got| - 1;
      forall i: nat | i < n ensures MessageExact(sent, got[..n], indexes[..n], i) {
        assert MessageExact(sent, got, indexes, i);
        assert indexes[..n][..i] == indexes[..i];
      }
      PositionsAddUp(sent, got[..n], indexes[..n]);
      assert MessageExact(sent, got, indexes, n);
    }
  }

  /**
   The ring refines positions in the published sequence: after k receives that reported D losses in total, it is the
   published suffix from k + D + (losses not reported yet), never longer than its capacity.
   */
  lemma {:induction false} RingRefinesPositions(b: Bus)
    requires Reachable(b) && |b.sent| <= U64_MAX
    ensures |b.ring.events| <= b.capacity
    ensures !b.ring.closed ==>
              var from := |b.got| + TotalDropped(b.got) + b.ring.dropped;
              from <= |b.sent| && b.ring.events == b.sent[from..]
  {
    ReachableInv(b);
    PositionsAddUp(b.sent, b.got, b.indexes);
  }

  /** Nothing is displaced too early: an open ring holds the newest unread events, as many as fit, and counts the others. */
  lemma {:induction false} RingHoldsNewest(b: Bus)
    requires Reachable(b) && !b.ring.closed
    ensures NextIndex(b.indexes) <= |b.sent|
    ensures var unread := b.sent[NextIndex(b.indexes)..];
            var lost := |unread| - |b.ring.events|;
            && b.ring.events == (if |unread| <= b.capacity then unread else unread[|unread| - b.capacity..])
            && b.ring.dropped == if lost <= U64_MAX then lost else U64_MAX
  {
    ReachableInv(b);
  }

  /** Messages come in publication order, each with the exact number of events skipped before it. */
  lemma {:induction false} MessagesAreExact(b: Bus, i: nat)
    requires Reachable(b) && i < |b.got|
    ensures |b.indexes| == |b.got| && b.indexes[i] < |b.sent| && b.got[i].event == b.sent[b.indexes[i]]
    ensures i == 0 ==> b.got[i].dropped == Saturate(b.indexes[i])
    ensures i > 0 ==> b.indexes[i - 1] < b.indexes[i] && b.got[i].dropped == Saturate(b.indexes[i] - b.indexes[i - 1] - 1)
  {
    ReachableInv(b);
    assert MessageExact(b.sent, b.got, b.indexes, i);
  }

  /**
   No lost wakeup: a receiver that is parked without a notification while the ring holds events has a publisher that
   still owes one; so inside `recv`, with events to read, the receiver can move or a notification can.
   */
  lemma {:induction false} NoLostWakeup(b: Bus)
    requires Reachable(b) && b.ring.events != []
    ensures b.receiver.Parked? && b.waiter.Registered? ==> SomeoneOwes(b)
    ensures !b.receiver.Outside? ==>
              Enabled(b, Look) || Enabled(b, Wake) || exists p: nat :: Enabled(b, Notify(p))
  {
    ReachableInv(b);
    if b.receiver.Parked? && b.waiter.Registered? {
      var p: nat :| p < |b.publishers| && b.publishers[p].Owes?;
      assert Enabled(b, Notify(p));
    }
  }

  /** A notification that reaches a parked receiver lets it leave, and its next look takes the oldest event. */
  lemma {:induction false} NotifiedReceiverReads(b: Bus, p: nat)
    requires Reachable(b) && b.ring.events != [] && b.receiver.Parked? && Enabled(b, Notify(p))
    ensures var steps := [Notify(p), Wake, Look];
            && Run(b, steps)
            && After(b, steps).got == b.got + [Message(b.ring.dropped, b.ring.events[0])]
            && After(b, steps).receiver.Outside?
  {
    ReachableInv(b);
    var b1 := Apply(b, Notify(p));
    var b2 := Apply(b1, Wake);
    var b3 := Apply(b2, Look);
    var steps := [Notify(p), Wake, Look];
    assert steps[1..] == [Wake, Look] && steps[1..][1..] == [Look] && steps[1..][1..][1..] == [];
    assert Run(b2, [Look]) && After(b2, [Look]) == b3;
    assert Run(b1, [Wake, Look]);
  }

  lemma {:induction false} ClosedStep(b: Bus, step: Step)
    requires Inv(b) && b.ring.closed && Enabled(b, step)
    ensures Apply(b, step).ring == Ring([], 0, true) && !Apply(b, step).enabled
    ensures Apply(b, step).sent == b.sent && Apply(b, step).got == b.got
  {
  }

  lemma {:induction false} ClosedRun(b: Bus, steps: seq<Step>)
    requires Inv(b) && b.ring.closed && Run(b, steps)
    ensures After(b, steps).ring == Ring([], 0, true) && !After(b, steps).enabled
    ensures After(b, steps).sent == b.sent && After(b, steps).got == b.got
    decreases |steps|
  {
    if steps != [] {
      Keeps(b, steps[0]);
      ClosedStep(b, steps[0]);
      ClosedRun(Apply(b, steps[0]), steps[1..]);
    }
  }

  /**
   Close is final. It hands over exactly the unread suffix with its unreported loss; afterwards, whatever publishers
   already past the check, later enables and the receiver do, the bus stays disabled and empty and nothing is published.
   */
  lemma {:induction false} CloseIsFinal(b: Bus, steps: seq<Step>)
    requires Reachable(b) && Enabled(b, Close) && !b.ring.closed && Run(Apply(b, Close), steps)
    ensures NextIndex(b.indexes) <= Front(b) <= |b.sent|
    ensures b.ring.events == b.sent[Front(b)..] && b.ring.dropped == Saturate(Front(b) - NextIndex(b.indexes))
    ensures var end := After(Apply(b, Close), steps);
            end.ring == Ring([], 0, true) && !end.enabled && end.sent == b.sent && end.got == b.got
  {
    ReachableInv(b);
    Keeps(b, Close);
    ClosedRun(Apply(b, Close), steps);
  }
}
