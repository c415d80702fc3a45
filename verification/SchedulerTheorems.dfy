/** What holds in every reachable state of the lane scheduler, for any number of lanes and any interleaving. */
module SchedulerTheorems {
  import opened Prelude
  import opened Events
  import opened LaneState
  import opened LaneHistory
  import opened Scheduler

  ghost predicate Reachable(s: System) {
    exists init: System, steps: seq<Step> :: Initial(init) && Run(init, steps) && After(init, steps) == s
  }

  lemma {:induction false} ReachableInv(s: System)
    requires Reachable(s)
    ensures Inv(s)
  {
    var init: System, steps: seq<Step> :| Initial(init) && Run(init, steps) && After(init, steps) == s;
    InitialInv(init);
    RunKeeps(init, steps);
  }

  lemma {:induction false} RunExtended(init: System, steps: seq<Step>, step: Step)
    requires Run(init, steps) && Enabled(After(init, steps), step)
    ensures Run(init, steps + [step]) && After(init, steps + [step]) == Apply(After(init, steps), step)
    decreases |steps|
  {
    if steps == [] {
      assert (steps + [step])[1..] == [];
    } else {
      assert (steps + [step])[1..] == steps[1..] + [step];
      RunExtended(Apply(init, steps[0]), steps[1..], step);
    }
  }

  lemma {:induction false} ReachableStep(s: System, step: Step)
    requires Reachable(s) && Enabled(s, step)
    ensures Reachable(Apply(s, step))
  {
    var init: System, steps: seq<Step> :| Initial(init) && Run(init, steps) && After(init, steps) == s;
    RunExtended(init, steps, step);
  }

  lemma {:induction false} ReachableRun(s: System, steps: seq<Step>)
    requires Reachable(s) && Run(s, steps)
    ensures Reachable(After(s, steps))
    decreases |steps|
  {
    if steps != [] {
      ReachableStep(s, steps[0]);
      ReachableRun(Apply(s, steps[0]), steps[1..]);
    }
  }

  /**
   A lane with work is `Scheduled` or `Running`. A `Scheduled` shared lane waits in exactly one place,
   an `Idle` or `Running` lane in none, and the worker cannot sleep through a `Scheduled` lane.
   */
  lemma {:induction false} NoStrandedLane(s: System, l: nat)
    requires Reachable(s) && l < |s.lanes|
    ensures var lane := s.lanes[l];
            && (lane.st.queue != [] || lane.st.dropped != 0 ==> lane.st.phase == Scheduled || lane.st.phase == Running)
            && (lane.shared && lane.st.phase == Scheduled ==> Tokens(s, l) + One(FailsNext(lane)) == 1)
            && (lane.st.phase == Idle || lane.st.phase == Running ==> Tokens(s, l) == 0)
            && (lane.st.phase == Finished ==> Tokens(s, l) <= One(lane.st.abort))
            && Distinct(s.ready)
            && (lane.shared && lane.st.phase == Scheduled && s.worker.Asleep? && s.emitter.Quiet? ==> l in s.ready)
            && (lane.st.phase == Running ==> !lane.pc.Off?)
  {
    ReachableInv(s);
    Places(s, l);
  }

  /** The shared worker serves one lane at a time: two shared lanes are never inside their workers' loops together. */
  lemma {:induction false} SharedServiceIsSerial(s: System, l: nat, m: nat)
    requires Reachable(s) && l < |s.lanes| && m < |s.lanes| && s.lanes[l].shared && s.lanes[m].shared
    requires !s.lanes[l].pc.Off? && !s.lanes[m].pc.Off?
    ensures l == m && s.worker == Serving(l) && Tokens(s, l) <= One(s.lanes[l].pc.Requeueing?)
  {
    ReachableInv(s);
    Places(s, l);
    Places(s, m);
  }

  /**
   Every emitted event was offered to the lane, in order (the one being emitted may still be on its way). What the lane accepted is what its callbacks
   got, then what is queued, then what was thrown away; each overflow report is exact and in place, and a live lane's
   counter is exactly the losses since the last report.
   */
  lemma {:induction false} DeliveryAccounting(s: System, l: nat)
    requires Reachable(s) && l < |s.lanes|
    ensures var log := s.lanes[l].log;
            && (OfferedEvents(log.offered) == s.emitted
                || (!s.emitter.Quiet? && OfferedEvents(log.offered) + [s.emitter.event] == s.emitted))
            && AcceptedEvents(log.offered) == DeliveredEvents(log.taken) + s.lanes[l].st.queue + log.discarded
            && ReportsExact(log.offered, log.taken)
            && log.starts + One(s.lanes[l].pc.Decided?) + log.skipped == |log.taken|
            && log.skipped <= 1
            && ReportedUpTo(log.taken) <= |log.offered|
            && (s.lanes[l].st.phase != Finished && !s.lanes[l].st.abort ==>
                  s.lanes[l].st.dropped == Saturate(Losses(log.offered[ReportedUpTo(log.taken)..])))
  {
    ReachableInv(s);
    Places(s, l);
    assert LaneInv(s.lanes[l]);
    OffersFollow(s.emitter, s.emitted, l, OfferedEvents(s.lanes[l].log.offered));
  }

  lemma {:induction false} OffersFollow(emitter: Emitter, emitted: seq<Event>, l: nat, offered: seq<Event>)
    requires Offered(emitter, emitted, l, offered)
    ensures offered == emitted || (!emitter.Quiet? && offered + [emitter.event] == emitted)
  {
    if emitted != [] {
      assert emitted == emitted[..|emitted| - 1] + [emitted[|emitted| - 1]];
    }
  }

  /** Two consecutive reports, below saturation: the second counts the losses between them, one by one. */
  lemma {:induction false} ReportCountsLossesBetween(offers: seq<Offer>, calls: seq<Call>, j: nat)
    requires ReportsExact(offers, calls) && j < |calls| && calls[j].Report?
    requires |offers| <= U64_MAX
    ensures ReportedUpTo(calls[..j]) <= calls[j].upTo <= |offers|
    ensures calls[j].count == Losses(offers[..calls[j].upTo]) - Losses(offers[..ReportedUpTo(calls[..j])])
    ensures DeliveredEvents(calls[..j]) == AcceptedEvents(offers[..calls[j].upTo])
  {
    assert ReportExact(offers, calls, j);
    var from, upTo := ReportedUpTo(calls[..j]), calls[j].upTo;
    LossesBounded(offers[from..upTo]);
    LossesSplit(offers[..upTo], from);
    assert offers[..upTo][..from] == offers[..from];
    assert offers[..upTo][from..] == offers[from..upTo];
  }

  lemma {:induction false} LossesBounded(offers: seq<Offer>)
    ensures Losses(offers) <= |offers|
  {
    if offers != [] {
      LossesBounded(offers[..|offers| - 1]);
    }
  }

  lemma {:induction false} LossesSplit(offers: seq<Offer>, from: nat)
    requires from <= |offers|
    ensures Losses(offers) == Losses(offers[..from]) + Losses(offers[from..])
    decreases |offers|
  {
    if from == |offers| {
      assert offers[..from] == offers;
    } else {
      var init := offers[..|offers| - 1];
      LossesSplit(init, from);
      assert init[..from] == offers[..from];
      assert offers[from..][..|offers| - from - 1] == init[from..];
    }
  }

  /** The lane ended for a reason other than abort, a poisoned panic payload or an escaped panic. */
  predicate Graceful(lane: Lane) {
    lane.st.phase == Finished && !lane.log.cut && !lane.log.exit.ViaPoison? && !lane.log.exit.ViaUnwind?
  }

  /**
   Drain completeness. A graceful end through `Next::Finish`, the quantum boundary or `begin_close` loses
   nothing: every accepted event went to a callback and every loss was reported. A graceful end through the
   idle recheck throws away exactly the events accepted since the worker decided to idle, and leaves unreported exactly
   the losses since then.
   */
  lemma {:induction false} DrainCompleteness(s: System, l: nat)
    requires Reachable(s) && l < |s.lanes| && Graceful(s.lanes[l])
    ensures var log := s.lanes[l].log;
            && (log.exit.ViaNext? || log.exit.ViaBoundary? || log.exit.ViaBeginClose? || log.exit.ViaRecheck?)
            && (!log.exit.ViaRecheck? ==>
                  && log.discarded == []
                  && AcceptedEvents(log.offered) == DeliveredEvents(log.taken)
                  && ReportedUpTo(log.taken) <= |log.offered|
                  && Losses(log.offered[ReportedUpTo(log.taken)..]) == 0)
            && (log.exit.ViaRecheck? ==>
                  && log.exit.upTo <= |log.offered|
                  && log.discarded == AcceptedEvents(log.offered[log.exit.upTo..])
                  && ReportedUpTo(log.taken) <= |log.offered|
                  && Losses(log.offered[ReportedUpTo(log.taken)..]) == Losses(log.offered[log.exit.upTo..])
                  && AcceptedEvents(log.offered) == DeliveredEvents(log.taken) + log.discarded)
  {
    ReachableInv(s);
    assert LaneInv(s.lanes[l]);
  }

  /**
   The subscriber is in exactly one place: slot, worker, closer, or the deferred-drop domain. The slot holds
   it exactly in `Idle` and `Scheduled`, the completion leaves once, and neither `expect` nor `unreachable!` fires.
   */
  lemma {:induction false} OwnershipIsLinear(s: System, l: nat)
    requires Reachable(s) && l < |s.lanes|
    ensures var lane := s.lanes[l];
            && One(lane.st.ownership) + One(WorkerHolds(lane.pc)) + One(lane.custody.inCloser) + lane.custody.cleanup == 1
            && (lane.st.ownership <==> lane.st.phase == Idle || lane.st.phase == Scheduled)
            && (lane.st.finished <==> lane.st.phase == Finished)
            && (lane.st.done <==> lane.st.phase != Finished)
            && lane.custody.doneTaken == One(!lane.st.done)
            // a worker outside the lane never finds it `Running`, and a `Scheduled` lane has its subscriber
            && (lane.pc.Off? ==> lane.st.phase != Running)
            && (lane.st.phase == Scheduled ==> lane.st.ownership)
            // the completion is signalled only once the lane is final
            && (lane.custody.signalled ==> lane.st.phase == Finished)
  {
    ReachableInv(s);
    Places(s, l);
  }

  /** `closing` implies no emission can still meet the lane, `abort` leaves only running or finished lanes. */
  lemma {:induction false} CloseDiscipline(s: System, l: nat)
    requires Reachable(s) && l < |s.lanes|
    ensures var lane := s.lanes[l];
            && (s.emitter.Offering? || s.emitter.Pushing? ==> !lane.st.closing)
            && (lane.st.closing ==> lane.st.phase != Idle && !s.closer.Started?)
            && (lane.st.abort ==> lane.st.phase == Running || lane.st.phase == Finished)
            // the early return of a shared quantum leaves behind only finished lanes
            && (s.worker == Popped(l) && (lane.st.phase != Scheduled || lane.st.abort) ==> lane.st.phase == Finished)
  {
    ReachableInv(s);
    Places(s, l);
  }

  /**
   Once `close` is over every lane is final: its subscriber is with the deferred-drop domain, or a worker that
   was inside an aborted lane still holds it.
   */
  lemma {:induction false} ClosedSet(s: System, l: nat)
    requires Reachable(s) && l < |s.lanes| && s.closer.SetClosed?
    ensures var lane := s.lanes[l];
            && s.ready == [] && s.queueClosed
            && (lane.st.phase == Finished || (lane.st.phase == Running && lane.st.abort))
            && Drained(lane.st)
            && (lane.custody.cleanup == 1 || (WorkerHolds(lane.pc) && (lane.st.abort || lane.st.phase == Finished)))
  {
    ReachableInv(s);
    Places(s, l);
  }
}
