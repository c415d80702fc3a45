/** Which exit a task run selects, and which attempts it retries, read off what happened in its last cycle. */
module ActorExits {
  import opened Prelude
  import opened AttemptRunner
  import opened TaskActor

  /** The loop starts another turn after this attempt: it retries or repeats, and its sleep completes or it needs none. */
  predicate ContinuesAfter(p: Params, c: Cycle, r: Record) {
    || (r.decision.Retry? && c.sleepCompletes)
    || (r.result.Succeeded? && p.restart.Always?
        && (c.sleepCompletes || (p.restart.interval.None? && c.elapsed >= IMMEDIATE_RESTART_FLOOR)))
  }

  /** A canceled sleep, a cancellation seen after the final success, or an attempt that returned `Canceled`. */
  predicate CanceledAfter(p: Params, c: Cycle, r: Record) {
    || (r.decision.Retry? && !c.sleepCompletes)
    || (r.result.Succeeded? && p.restart.Always? && !c.sleepCompletes
        && (p.restart.interval.Some? || c.elapsed < IMMEDIATE_RESTART_FLOOR))
    || (r.result.Succeeded? && !p.restart.Always? && c.canceledAtEnd)
    || r.result == Failed(Failure(Canceled, false))
  }

  /** A cancellation before the attempt, or a wait for the permit that did not get one. */
  predicate CanceledBefore(p: Params, c: Cycle) {
    c.canceledBefore || c.canceledAfterPermit || (p.hasSemaphore && (c.permit.CanceledWaiting? || c.permit.SemaphoreClosed?))
  }

  /** The attempt is the first, or the one before lets another follow. */
  predicate Arrives(p: Params, cycles: seq<Cycle>, trace: seq<Record>)
    requires |trace| <= |cycles|
  {
    trace == [] || ContinuesAfter(p, cycles[|trace| - 1], trace[|trace| - 1])
  }

  /** What the exit means, for the last finished attempt or the turn that follows it. */
  ghost predicate ExitMeans(p: Params, cycles: seq<Cycle>, trace: seq<Record>, exit: Exit)
    requires |trace| <= |cycles|
  {
    var n := |trace|;
    var next := n < |cycles| && Arrives(p, cycles, trace);
    && (exit.Completed? <==>
          && n > 0 && SucceedsCleanly(cycles[n - 1].script, p.hasTimer)
          && !p.restart.Always? && !cycles[n - 1].canceledAtEnd)
    && (exit.ExitCanceled? <==>
          || (next && CanceledBefore(p, cycles[n]))
          || (n > 0 && CanceledAfter(p, cycles[n - 1], trace[n - 1])))
    && (exit.ExitAborted? <==> next && !CanceledBefore(p, cycles[n]) && EndOf(cycles[n].script, p.hasTimer).Dropped?)
    && (exit.StillRunning? <==>
          && Arrives(p, cycles, trace)
          && (n == |cycles| || (!CanceledBefore(p, cycles[n]) && EndOf(cycles[n].script, p.hasTimer).InFlight?)))
    && (exit.ExitFatal? <==>
          n > 0 && trace[n - 1].result.Failed? && trace[n - 1].result.failure.error.Fatal?
          && !trace[n - 1].result.failure.cleanupPanicked)
    && (exit.RetriesStopped? <==>
          && n > 0 && trace[n - 1].result.Failed? && !trace[n - 1].result.failure.cleanupPanicked
          && (trace[n - 1].result.failure.error.Timeout? || trace[n - 1].result.failure.error.Fail?)
          && (p.restart.Never? || (p.maxRetries.Some? && trace[n - 1].counter >= p.maxRetries.value)))
  }

  lemma {:induction false} LastFollows(p: Params, cycles: seq<Cycle>, trace: seq<Record>, exit: Exit)
    requires TraceExact(p, trace) && RunExact(p, cycles, trace, exit) && trace != []
    ensures |trace| <= |cycles|
    ensures FollowsCycle(p, cycles[|trace| - 1], trace[|trace| - 1])
    ensures JudgedRight(p, trace[|trace| - 1].result, trace[|trace| - 1].counter, trace[|trace| - 1].decision)
    ensures RunsThrough(p, cycles, trace) <==> ExitAfter(p, cycles[|trace| - 1], trace[|trace| - 1]).StillRunning?
  {
    var last := |trace| - 1;
    assert RecordExact(p, trace, last);
    RecordsFollow(p, cycles, trace, exit, last);
    if ExitAfter(p, cycles[last], trace[last]).StillRunning? {
      if !RunsThrough(p, cycles, trace) {
        forall i: nat | i < |trace| ensures PassesCycle(p, cycles, trace, i) {
          assert i < last ==> PassesCycle(p, cycles, trace[..last], i);
        }
      }
    } else {
      assert !PassesCycle(p, cycles, trace, last);
    }
  }

  /** After one judged attempt the selected exit says which case it was. */
  lemma {:induction false} ExitAfterMeans(p: Params, c: Cycle, r: Record)
    requires FollowsCycle(p, c, r) && JudgedRight(p, r.result, r.counter, r.decision)
    ensures var exit := ExitAfter(p, c, r);
            && (exit.StillRunning? <==> ContinuesAfter(p, c, r))
            && (exit.ExitCanceled? <==> CanceledAfter(p, c, r))
            && (exit.Completed? <==> r.result.Succeeded? && !p.restart.Always? && !c.canceledAtEnd)
            && (exit.ExitFatal? <==> r.result.Failed? && r.result.failure.error.Fatal? && !r.result.failure.cleanupPanicked)
            && (exit.RetriesStopped? <==>
                  && r.result.Failed? && !r.result.failure.cleanupPanicked
                  && (r.result.failure.error.Timeout? || r.result.failure.error.Fail?)
                  && (p.restart.Never? || (p.maxRetries.Some? && r.counter >= p.maxRetries.value)))
            && !exit.ExitAborted?
  {
    CanceledIsClean(c.script, p.hasTimer);
  }

  /** A cleanup panic always reads as a plain failure, never as a cancellation or a fatal error. */
  lemma {:induction false} CanceledIsClean(script: Script, hasTimer: bool)
    requires EndOf(script, hasTimer).Returned?
    ensures var r := EndOf(script, hasTimer).result;
            r.Failed? && (r.failure.error.Canceled? || r.failure.error.Fatal?) ==> !r.failure.cleanupPanicked
  {
  }

  /**
   The exit of a run, exactly. It is completed if and only if the last attempt succeeded cleanly, the policy does not repeat it
   and nothing is canceled at its end; canceled if and only if one of the five cancellations was met; and so on for each exit.
   */
  lemma {:induction false} ExitExactly(p: Params, cycles: seq<Cycle>, trace: seq<Record>, exit: Exit)
    requires TraceExact(p, trace) && RunExact(p, cycles, trace, exit)
    ensures |trace| <= |cycles| && ExitMeans(p, cycles, trace, exit)
  {
    if trace != [] {
      var c, r := cycles[|trace| - 1], trace[|trace| - 1];
      LastFollows(p, cycles, trace, exit);
      ExitAfterMeans(p, c, r);
      SuccessExactly(c.script, p.hasTimer);
    }
  }

  /**
   Which attempts are retried, exactly: those that failed with a timeout or a plain failure, a panic included, that were
   destroyed cleanly, error and all, under a policy that restarts and with the failures of the streak below the limit.
   */
  lemma {:induction false} RetriedExactly(p: Params, cycles: seq<Cycle>, trace: seq<Record>, exit: Exit, i: nat)
    requires ValidParams(p) && TraceExact(p, trace) && RunExact(p, cycles, trace, exit) && i < |trace|
    ensures |trace| <= |cycles|
    ensures var script, r := cycles[i].script, trace[i].result;
            && EndOf(script, p.hasTimer) == Returned(r)
            && (trace[i].decision.Retry? <==>
                  && r.Failed? && (r.failure.error.Timeout? || r.failure.error.Fail?) && !r.failure.cleanupPanicked
                  && cycles[i].errorDrop.Clean?
                  && !p.restart.Never? && (p.maxRetries.Some? ==> Streak(trace[..i]) < p.maxRetries.value))
            && (script.spawn == SpawnPanics(false) ==> r.Failed? && r.failure.error.Fail? && !r.failure.cleanupPanicked)
  {
    RecordsFollow(p, cycles, trace, exit, i);
    assert RecordExact(p, trace, i);
    if p.maxRetries.Some? {
      StreakAfter(p, trace, i);
    }
  }
}
