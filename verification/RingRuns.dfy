/** The event bus over whole runs: which publications enter the ring, when the bus is enabled, and what a receiver gets. */
module RingRuns {
  import opened Events
  import opened EventRing

  // ------------------------------------------------------------ which publications enter

  /** An event that entered the ring, with its publisher. */
  datatype Entry = Entry(publisher: nat, event: Event)

  /** What a step puts into the ring. */
  function EntryAt(b: Bus, step: Step): seq<Entry>
    requires Enabled(b, step)
  {
    if step.Insert? && !b.ring.closed then [Entry(step.p, b.publishers[step.p].event)] else []
  }

  function Entries(b: Bus, steps: seq<Step>): seq<Entry>
    requires Run(b, steps)
    decreases |steps|
  {
    if steps == [] then [] else EntryAt(b, steps[0]) + Entries(Apply(b, steps[0]), steps[1..])
  }

  function EventsOf(entries: seq<Entry>): seq<Event> {
    if entries == [] then [] else [entries[0].event] + EventsOf(entries[1..])
  }

  function By(entries: seq<Entry>, p: nat): seq<Event> {
    if entries == [] then []
    else (if entries[0].publisher == p then [entries[0].event] else []) + By(entries[1..], p)
  }

  /** The events publisher `p` offered while the bus was enabled. */
  function Admitted(b: Bus, steps: seq<Step>, p: nat): seq<Event>
    requires Run(b, steps)
    decreases |steps|
  {
    if steps == [] then []
    else
      (if steps[0].Check? && steps[0].p == p && b.enabled then [steps[0].event] else [])
      + Admitted(Apply(b, steps[0]), steps[1..], p)
  }

  /** What publisher `p` is about to insert. */
  function Pending(b: Bus, p: nat): seq<Event> {
    if p < |b.publishers| && b.publishers[p].Checked? then [b.publishers[p].event] else []
  }

  lemma {:induction false} SentAt(b: Bus, step: Step)
    requires Enabled(b, step)
    ensures Apply(b, step).sent == b.sent + EventsOf(EntryAt(b, step))
  {
    var entry := EntryAt(b, step);
    if entry != [] {
      assert entry[1..] == [];
    }
  }

  lemma {:induction false} EventsOfConcat(xs: seq<Entry>, ys: seq<Entry>)
    ensures EventsOf(xs + ys) == EventsOf(xs) + EventsOf(ys)
  {
    if xs == [] {
      assert xs + ys == ys;
    } else {
      assert (xs + ys)[1..] == xs[1..] + ys;
      EventsOfConcat(xs[1..], ys);
    }
  }

  lemma {:induction false} ByConcat(xs: seq<Entry>, ys: seq<Entry>, p: nat)
    ensures By(xs + ys, p) == By(xs, p) + By(ys, p)
  {
    if xs == [] {
      assert xs + ys == ys;
    } else {
      var own := if xs[0].publisher == p then [xs[0].event] else [];
      assert (xs + ys)[0] == xs[0] && (xs + ys)[1..] == xs[1..] + ys;
      ByConcat(xs[1..], ys, p);
      assert own + By(xs[1..], p) + By(ys, p) == own + (By(xs[1..], p) + By(ys, p));
    }
  }

  /** The published sequence grows by the entries of a run, in their order, and by nothing else. */
  lemma {:induction false} SentIsEntered(b: Bus, steps: seq<Step>)
    requires Run(b, steps)
    ensures After(b, steps).sent == b.sent + EventsOf(Entries(b, steps))
    decreases |steps|
  {
    if steps != [] {
      var b' := Apply(b, steps[0]);
      SentAt(b, steps[0]);
      SentIsEntered(b', steps[1..]);
      EventsOfConcat(EntryAt(b, steps[0]), Entries(b', steps[1..]));
    }
  }

  lemma {:induction false} ClosedStays(b: Bus, steps: seq<Step>)
    requires Run(b, steps) && b.ring.closed
    ensures After(b, steps).ring.closed && Entries(b, steps) == []
    decreases |steps|
  {
    if steps != [] {
      assert Apply(b, steps[0]).ring.closed;
      ClosedStays(Apply(b, steps[0]), steps[1..]);
    }
  }

  /** An event that was admitted enters or still waits at its publisher, unless the ring is closed. */
  lemma {:induction false} AdmittedAt(b: Bus, step: Step, p: nat)
    requires Enabled(b, step)
    ensures var admitted := if step.Check? && step.p == p && b.enabled then [step.event] else [];
            var all, out := Pending(b, p) + admitted, By(EntryAt(b, step), p);
            && out <= all
            && (!b.ring.closed ==> all == out + Pending(Apply(b, step), p))
  {
    var entry := EntryAt(b, step);
    if entry != [] {
      assert entry[1..] == [];
    }
  }

  lemma {:induction false} Chained(
    before: seq<Event>, now: seq<Event>, later: seq<Event>, out: seq<Event>, between: seq<Event>, rest: seq<Event>)
    requires before + now == out + between && rest <= between + later
    ensures out + rest <= before + (now + later)
    ensures forall left: seq<Event> :: between + later == rest + left ==> before + (now + later) == (out + rest) + left
  {
    assert before + (now + later) == before + now + later;
    assert out + between + later == out + (between + later);
  }

  /**
   Publishing publishes. What publisher `p` offered while the bus was enabled enters in order, except what is still
   with `p`; a close cuts the rest off. Nothing else of `p` ever enters.
   */
  lemma {:induction false} AdmittedEnters(b: Bus, steps: seq<Step>, p: nat)
    requires Run(b, steps)
    ensures var all, out := Pending(b, p) + Admitted(b, steps, p), By(Entries(b, steps), p);
            && out <= all
            && (!After(b, steps).ring.closed ==> all == out + Pending(After(b, steps), p))
    decreases |steps|
  {
    if steps != [] && b.ring.closed {
      ClosedStays(b, steps);
    } else if steps != [] {
      var b', step := Apply(b, steps[0]), steps[0];
      AdmittedAt(b, step, p);
      AdmittedEnters(b', steps[1..], p);
      var out, rest := EntryAt(b, step), Entries(b', steps[1..]);
      ByConcat(out, rest, p);
      Chained(Pending(b, p), if step.Check? && step.p == p && b.enabled then [step.event] else [], Admitted(b', steps[1..], p),
              By(out, p), Pending(b', p), By(rest, p));
    }
  }

  predicate StepOf(step: Step, p: nat) {
    match step
    case Check(q, _) => q == p
    case Insert(q) => q == p
    case Notify(q) => q == p
    case _ => false
  }

  predicate WithoutPublisher(steps: seq<Step>, p: nat) {
    forall i | 0 <= i < |steps| :: !StepOf(steps[i], p)
  }

  lemma {:induction false} PublisherWaits(b: Bus, steps: seq<Step>, p: nat)
    requires Run(b, steps) && p < |b.publishers| && WithoutPublisher(steps, p)
    ensures p < |After(b, steps).publishers| && After(b, steps).publishers[p] == b.publishers[p]
    decreases |steps|
  {
    if steps != [] {
      assert !StepOf(steps[0], p);
      PublisherWaits(Apply(b, steps[0]), steps[1..], p);
    }
  }

  /**
   One publication on an enabled bus, whatever others do between its check and its insertion: it enters as the newest event
   if the ring is still open, and otherwise it is ignored; meanwhile only the others' events entered. The publisher has to
   notify exactly when its event made the ring nonempty.
   */
  lemma {:induction false} PublicationEnters(b: Bus, p: nat, e: Event, others: seq<Step>)
    requires b.enabled && Enabled(b, Check(p, e)) && Run(Apply(b, Check(p, e)), others) && WithoutPublisher(others, p)
    ensures var b' := After(Apply(b, Check(p, e)), others);
            && b'.sent == b.sent + EventsOf(Entries(Apply(b, Check(p, e)), others))
            && Enabled(b', Insert(p))
            && Apply(b', Insert(p)).sent == (if b'.ring.closed then b'.sent else b'.sent + [e])
            && p < |Apply(b', Insert(p)).publishers|
            && Apply(b', Insert(p)).publishers[p] == if !b'.ring.closed && b'.ring.events == [] then Owes else Away
  {
    PublisherWaits(Apply(b, Check(p, e)), others, p);
    SentIsEntered(Apply(b, Check(p, e)), others);
  }

  // ------------------------------------------------------------ enabling

  predicate Enables(step: Step) {
    step.Enable? || step.TakeReceiver?
  }

  /** The bus is enabled exactly from the first `enable` or `take_receiver` to the close. */
  lemma {:induction false} EnabledUntilClosed(init: Bus, steps: seq<Step>)
    requires Initial(init) && Run(init, steps)
    ensures After(init, steps).enabled <==>
            !After(init, steps).ring.closed && SomeEnables(steps)
  {
    EnabledFrom(init, steps);
  }

  predicate SomeEnables(steps: seq<Step>) {
    exists i :: 0 <= i < |steps| && Enables(steps[i])
  }

  lemma {:induction false} FirstOrLater(steps: seq<Step>)
    requires steps != []
    ensures SomeEnables(steps) <==> Enables(steps[0]) || SomeEnables(steps[1..])
  {
    if i :| 0 <= i < |steps| && Enables(steps[i]) {
      assert i > 0 ==> Enables(steps[1..][i - 1]);
    }
    if i :| 0 <= i < |steps[1..]| && Enables(steps[1..][i]) {
      assert Enables(steps[i + 1]);
    }
  }

  lemma {:induction false} EnabledAt(b: Bus, step: Step)
    requires Enabled(b, step) && (b.enabled ==> !b.ring.closed)
    ensures var b' := Apply(b, step);
            && (b.ring.closed ==> b'.ring.closed)
            && (b'.enabled <==> !b'.ring.closed && (b.enabled || Enables(step)))
  {
  }

  lemma {:induction false} EnabledFrom(b: Bus, steps: seq<Step>)
    requires Run(b, steps) && (b.enabled ==> !b.ring.closed)
    ensures After(b, steps).enabled <==> !After(b, steps).ring.closed && (b.enabled || SomeEnables(steps))
    decreases |steps|
  {
    if steps != [] {
      EnabledAt(b, steps[0]);
      EnabledFrom(Apply(b, steps[0]), steps[1..]);
      FirstOrLater(steps);
      if Apply(b, steps[0]).ring.closed {
        ClosedStays(Apply(b, steps[0]), steps[1..]);
      }
    }
  }

  lemma {:induction false} NothingAdmitted(b: Bus, steps: seq<Step>)
    requires Run(b, steps) && !b.enabled && !SomeEnables(steps)
    ensures forall p: nat :: Admitted(b, steps, p) == []
    decreases |steps|
  {
    if steps != [] {
      FirstOrLater(steps);
      NothingAdmitted(Apply(b, steps[0]), steps[1..]);
    }
  }

  lemma {:induction false} SomeoneEntered(entries: seq<Entry>)
    requires entries != []
    ensures By(entries, entries[0].publisher) != []
  {
  }

  /** A bus that nobody enables publishes nothing. */
  lemma {:induction false} DisabledBusIsSilent(init: Bus, steps: seq<Step>)
    requires Initial(init) && Run(init, steps) && !SomeEnables(steps)
    ensures After(init, steps).sent == [] && Entries(init, steps) == []
  {
    NothingAdmitted(init, steps);
    SentIsEntered(init, steps);
    var entries := Entries(init, steps);
    if entries != [] {
      SomeoneEntered(entries);
      AdmittedEnters(init, steps, entries[0].publisher);
    }
  }

  function ReceiversTaken(steps: seq<Step>): nat {
    if steps == [] then 0 else (if steps[0].TakeReceiver? then 1 else 0) + ReceiversTaken(steps[1..])
  }

  lemma {:induction false} TakenFrom(b: Bus, steps: seq<Step>)
    requires Run(b, steps)
    ensures (if After(b, steps).receiverTaken then 1 else 0) == (if b.receiverTaken then 1 else 0) + ReceiversTaken(steps)
    decreases |steps|
  {
    if steps != [] {
      TakenFrom(Apply(b, steps[0]), steps[1..]);
    }
  }

  /** Over any run the receiver is taken at most once, and it is taken afterwards if and only if that happened. */
  lemma {:induction false} ReceiverIsTakenOnce(init: Bus, steps: seq<Step>)
    requires Initial(init) && Run(init, steps)
    ensures ReceiversTaken(steps) <= 1 && (After(init, steps).receiverTaken <==> ReceiversTaken(steps) == 1)
  {
    TakenFrom(init, steps);
  }

  // ------------------------------------------------------------ receiving

  /** A receiver that looks at a nonempty ring leaves with its oldest event and the whole loss count; at an empty one it gets nothing. */
  lemma {:induction false} LookingReceives(b: Bus, step: Step)
    requires Reachable(b) && Enabled(b, step) && (step.Look? || step.TryRecv?)
    ensures var b' := Apply(b, step);
            && b'.sent == b.sent
            && (b.ring.events != [] ==>
                  && b'.got == b.got + [Message(b.ring.dropped, b.ring.events[0])]
                  && b'.ring == b.ring.(events := b.ring.events[1..], dropped := 0) && b'.receiver.Outside?)
            && (b.ring.events == [] ==> b'.got == b.got && b'.ring == b.ring && (b'.receiver.Parked? <==> step.Look?))
  {
    ReachableInv(b);
  }

  function Received(got: seq<Message>): seq<Event> {
    seq(|got|, i requires 0 <= i < |got| => got[i].event)
  }

  function Repeat(step: Step, n: nat): seq<Step> {
    seq(n, i => step)
  }

  lemma {:induction false} DrainFrom(b: Bus)
    requires b.receiverTaken && b.receiver.Outside?
    ensures var steps := Repeat(TryRecv, |b.ring.events|);
            && Run(b, steps) && After(b, steps).ring.events == [] && After(b, steps).receiver.Outside?
            && Received(After(b, steps).got) == Received(b.got) + b.ring.events
            && (b.ring.events != [] ==>
                  |After(b, steps).got| > |b.got| && After(b, steps).got[|b.got|].dropped == b.ring.dropped
                  && After(b, steps).got[..|b.got|] == b.got)
    decreases |b.ring.events|
  {
    if b.ring.events != [] {
      var steps, b' := Repeat(TryRecv, |b.ring.events|), Apply(b, TryRecv);
      assert steps[1..] == Repeat(TryRecv, |b'.ring.events|);
      DrainFrom(b');
      var got := After(b, steps).got;
      if b'.ring.events != [] {
        assert got[..|b'.got|][|b.got|] == got[|b.got|];
        assert got[..|b.got|] == got[..|b'.got|][..|b.got|];
      } else {
        assert steps[1..] == [];
      }
      assert Received(b'.got) == Received(b.got) + [b.ring.events[0]];
      assert [b.ring.events[0]] + b'.ring.events == b.ring.events;
    }
  }

  /**
   Publish, then receive: draining an open ring yields the newest unread events in publication order, as many as fit, and
   the first message carries the exact loss.
   */
  lemma {:induction false} DrainGetsNewest(b: Bus)
    requires Reachable(b) && b.receiverTaken && b.receiver.Outside? && !b.ring.closed
    ensures NextIndex(b.indexes) <= |b.sent|
    ensures var unread := b.sent[NextIndex(b.indexes)..];
            var kept := if |unread| <= b.capacity then unread else unread[|unread| - b.capacity..];
            var steps := Repeat(TryRecv, |kept|);
            && Run(b, steps)
            && Received(After(b, steps).got) == Received(b.got) + kept
            && (kept != [] ==>
                  |After(b, steps).got| > |b.got|
                  && After(b, steps).got[|b.got|].dropped == Saturate(|unread| - |kept|))
  {
    ReachableInv(b);
    RingHoldsNewest(b);
    DrainFrom(b);
  }

  // ------------------------------------------------------------ notifications

  /** A notification is stored or has reached the receiver's registration. */
  predicate Notified(b: Bus) {
    b.permit || b.waiter.Woken? || b.waiter.Served?
  }

  /** The receiver neither uses its notification nor gives up waiting in these steps. */
  predicate WithoutUse(steps: seq<Step>) {
    forall i | 0 <= i < |steps| :: !steps[i].Look? && !steps[i].Wake? && !steps[i].Cancel?
  }

  lemma {:induction false} NotifiedStays(b: Bus, steps: seq<Step>)
    requires Inv(b) && Notified(b) && Run(b, steps) && WithoutUse(steps)
    ensures Inv(After(b, steps)) && Notified(After(b, steps))
    decreases |steps|
  {
    if steps != [] {
      assert !steps[0].Look? && !steps[0].Wake? && !steps[0].Cancel?;
      Keeps(b, steps[0]);
      NotifiedStays(Apply(b, steps[0]), steps[1..]);
    }
  }

  /**
   A notification is not lost: it stays until the receiver uses it, also when the receiver was not waiting yet, and a receiver
   that parks meanwhile can wake. The publisher is done.
   */
  lemma {:induction false} NotificationIsKept(b: Bus, p: nat, steps: seq<Step>)
    requires Reachable(b) && Enabled(b, Notify(p)) && Run(Apply(b, Notify(p)), steps) && WithoutUse(steps)
    ensures p < |Apply(b, Notify(p)).publishers| && Apply(b, Notify(p)).publishers[p].Away?
    ensures var end := After(Apply(b, Notify(p)), steps);
            Notified(end) && (end.receiver.Parked? ==> Enabled(end, Wake))
  {
    ReachableInv(b);
    Keeps(b, Notify(p));
    NotifiedStays(Apply(b, Notify(p)), steps);
  }

  /** A receiver that gives up waiting is outside again, has taken nothing, and passes on a notification that woke it. */
  lemma {:induction false} CancelPassesOn(b: Bus)
    requires Reachable(b) && Enabled(b, Cancel)
    ensures var b' := Apply(b, Cancel);
            && b'.receiver.Outside? && b'.waiter.Unregistered?
            && b'.ring == b.ring && b'.got == b.got
            && (b.waiter.Woken? || b.permit ==> b'.permit)
  {
    ReachableInv(b);
  }
}
