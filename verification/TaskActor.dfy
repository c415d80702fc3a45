/**
 The attempt loop of one task: restart policy, failure-streak counter, retry limit and the exits.

 A run is driven by a list of cycles, one per turn of the loop; a list that ends early is a run observed so far.
 */
module TaskActor {
  import opened Prelude
  import opened AttemptRunner
  import Backoff

  function Saturate32(n: nat): nat {
    if n <= U32_MAX then n else U32_MAX
  }

  function SaturatingIncrement32(n: nat): nat {
    if n < U32_MAX then n + 1 else U32_MAX
  }

  datatype RestartPolicy = Never | OnFailure | Always(interval: Option<nat>)

  /** `maxRetries` is a non-zero 32-bit number when present. */
  datatype Params = Params(
    restart: RestartPolicy,
    maxRetries: Option<nat>,
    backoff: Backoff.Policy,
    hasTimer: bool,
    hasSemaphore: bool)

  predicate ValidParams(p: Params) {
    p.maxRetries.Some? ==> 0 < p.maxRetries.value <= U32_MAX
  }

  predicate AllowsRetry(restart: RestartPolicy) {
    restart.OnFailure? || restart.Always?
  }

  predicate Exhausted(maxRetries: Option<nat>, counter: nat) {
    maxRetries.Some? && counter >= maxRetries.value
  }

  datatype Decision = Finish(result: AttemptResult) | Retry | CleanupPanic

  /** A retryable failure, cleanly destroyed, that policy and limit let through. */
  predicate WithinBudget(p: Params, result: AttemptResult, counter: nat) {
    && result.Failed? && IsRetryable(result.failure.error) && !result.failure.cleanupPanicked
    && AllowsRetry(p.restart) && !Exhausted(p.maxRetries, counter)
  }

  /** A retryable failure, cleanly destroyed, that policy or limit stops. */
  predicate StopsForRetries(p: Params, result: AttemptResult, counter: nat) {
    && result.Failed? && IsRetryable(result.failure.error) && !result.failure.cleanupPanicked
    && (!AllowsRetry(p.restart) || Exhausted(p.maxRetries, counter))
  }

  /** A retry needs a failure within the budget, a cleanup panic forces the panic decision, the rest is final. */
  predicate JudgedRight(p: Params, result: AttemptResult, counter: nat, d: Decision) {
    && (d.Retry? ==> WithinBudget(p, result, counter))
    && (d.Finish? ==> d.result == result && !WithinBudget(p, result, counter))
    && (result.Failed? && result.failure.cleanupPanicked ==> d.CleanupPanic?)
    && (result.Succeeded? || StopsForRetries(p, result, counter) ==> d.Finish?)
  }

  /** The error is destroyed while the attempt's guards are still held: before a retry, and after a cleanup panic. */
  predicate DropsError(result: AttemptResult, p: Params, counter: nat) {
    (result.Failed? && result.failure.cleanupPanicked) || WithinBudget(p, result, counter)
  }

  /** Restart and retry rules for one result. */
  method ClassifyAttempt(result: AttemptResult, p: Params, counter: nat, errorDrop: Destruction, flag: PoisonFlag)
    returns (d: Decision)
    modifies flag
    ensures flag.raised == (old(flag.raised) || (DropsError(result, p, counter) && Poisons(errorDrop)))
    ensures JudgedRight(p, result, counter, d)
    ensures d.Finish? <==> !DropsError(result, p, counter)
    ensures d.Retry? <==> WithinBudget(p, result, counter) && errorDrop.Clean?
    ensures !d.CleanupPanic? ==> flag.raised == old(flag.raised)
  {
    if result.Succeeded? {
      return Finish(result);
    }
    var failure := result.failure;
    if failure.cleanupPanicked {
      if errorDrop.Panics? {
        var retained := DisposePanicPayload(flag, errorDrop.payloadPanics);
      }
      return CleanupPanic;
    }
    if !(AllowsRetry(p.restart) && IsRetryable(failure.error)) || Exhausted(p.maxRetries, counter) {
      return Finish(result);
    }
    if errorDrop.Panics? {
      var retained := DisposePanicPayload(flag, errorDrop.payloadPanics);
      return CleanupPanic;
    }
    return Retry;
  }

  datatype PermitWait = Granted | SemaphoreClosed | CanceledWaiting

  /** Everything one turn of the loop meets; `elapsed` is the time since the attempt's start, `draw` the jitter's random choice. */
  datatype Cycle = Cycle(
    canceledBefore: bool,
    permit: PermitWait,
    canceledAfterPermit: bool,
    script: Script,
    errorDrop: Destruction,
    elapsed: nat,
    draw: nat,
    sleepCompletes: bool,
    canceledAtEnd: bool)

  /** `Aborted`: the actor was dropped inside an attempt. `StillRunning`: the cycles ended first. */
  datatype Exit =
    | Completed
    | RetriesStopped(limitReached: bool)
    | ExitCanceled
    | Panicked(cleanupPoisoned: bool)
    | ExitFatal
    | ExitAborted
    | StillRunning

  /** One finished attempt: its number, the counter it was judged with, and the poison flag when it started. */
  datatype Record = Record(number: nat, poisonedAtStart: bool, result: AttemptResult, counter: nat, decision: Decision)

  // ------------------------------------------------------------ reference

  /** Consecutive failed attempts at the end of the trace. */
  function Streak(trace: seq<Record>): nat {
    if trace == [] || trace[|trace| - 1].result.Succeeded? then 0 else 1 + Streak(trace[..|trace| - 1])
  }

  /** Another attempt may follow this one. */
  predicate MayContinue(p: Params, r: Record) {
    || (r.result.Succeeded? && p.restart.Always?)
    || (r.decision.Retry? && WithinBudget(p, r.result, r.counter))
  }

  predicate RecordExact(p: Params, trace: seq<Record>, i: nat)
    requires i < |trace|
  {
    && trace[i].number == Saturate32(i + 1)
    && trace[i].counter == Saturate32(Streak(trace[..i]))
    && !trace[i].poisonedAtStart
    && (i + 1 < |trace| ==> MayContinue(p, trace[i]))
    && JudgedRight(p, trace[i].result, trace[i].counter, trace[i].decision)
  }

  predicate TraceExact(p: Params, trace: seq<Record>) {
    forall i: nat | i < |trace| :: RecordExact(p, trace, i)
  }

  /** The attempt forces neither a panic exit nor a stop for retries. */
  predicate GoesOn(p: Params, r: Record) {
    !r.decision.CleanupPanic? && !StopsForRetries(p, r.result, r.counter)
  }

  /** The exit that the last finished attempt forces. */
  predicate ExitExact(p: Params, trace: seq<Record>, exit: Exit) {
    match exit
    case Completed => trace != [] && trace[|trace| - 1].result.Succeeded? && !p.restart.Always?
    case RetriesStopped(limitReached) =>
      trace != [] &&
      var last := trace[|trace| - 1];
      && last.result.Failed? && IsRetryable(last.result.failure.error) && !last.result.failure.cleanupPanicked
      && last.decision == Finish(last.result)
      && (limitReached <==> Exhausted(p.maxRetries, last.counter))
      && (!AllowsRetry(p.restart) || limitReached)
    case Panicked(_) => trace != [] && trace[|trace| - 1].decision.CleanupPanic?
    case ExitFatal =>
      trace != [] &&
      var last := trace[|trace| - 1];
      last.result.Failed? && last.result.failure.error.Fatal? && last.decision.Finish?
    case _ => trace != [] ==> GoesOn(p, trace[|trace| - 1])
  }

  /** Cancellation or a closed semaphore ends the run before the cycle's attempt. */
  predicate StopsBefore(p: Params, c: Cycle) {
    c.canceledBefore || (p.hasSemaphore && !c.permit.Granted?) || c.canceledAfterPermit
  }

  /** The record is the outcome of the cycle's own script. */
  predicate FollowsCycle(p: Params, c: Cycle, r: Record) {
    && !StopsBefore(p, c)
    && EndOf(c.script, p.hasTimer) == Returned(r.result)
    && (r.decision.Finish? <==> !DropsError(r.result, p, r.counter))
    && (r.decision.Retry? <==> WithinBudget(p, r.result, r.counter) && c.errorDrop.Clean?)
  }

  const IMMEDIATE_RESTART_FLOOR: nat := 1_000_000

  /** Delay after a success under Always: the interval, or what is missing to one millisecond between starts. */
  function FlooredInterval(interval: nat, elapsed: nat): (delay: nat)
    ensures delay >= interval && elapsed + delay >= IMMEDIATE_RESTART_FLOOR
    ensures delay == interval || elapsed + delay == IMMEDIATE_RESTART_FLOOR
  {
    var missing := if elapsed < IMMEDIATE_RESTART_FLOOR then IMMEDIATE_RESTART_FLOOR - elapsed else 0;
    if interval >= missing then interval else missing
  }

  /** The sleep the loop asks for after a judged attempt; `None` where it does not sleep. */
  function DelayAfter(p: Params, c: Cycle, r: Record): Option<nat> {
    match r.decision
    case Retry => Some(Backoff.DelayForRetry(p.backoff, r.counter, c.draw))
    case Finish(Succeeded) =>
      (match p.restart
       case Always(Some(interval)) => Some(FlooredInterval(interval, c.elapsed))
       case Always(None) =>
         if c.elapsed < IMMEDIATE_RESTART_FLOOR then Some(IMMEDIATE_RESTART_FLOOR - c.elapsed) else None
       case _ => None)
    case _ => None
  }

  /** A panic payload of this cycle could not be destroyed: one of the attempt's own, or the one of its dropped error. */
  predicate CyclePoisons(p: Params, c: Cycle, r: Record) {
    AttemptPoisons(c.script, p.hasTimer) || (DropsError(r.result, p, r.counter) && Poisons(c.errorDrop))
  }

  /** The exit a judged attempt selects; `StillRunning` means the loop goes on. */
  function ExitAfter(p: Params, c: Cycle, r: Record): Exit {
    match r.decision
    case CleanupPanic => Panicked(CyclePoisons(p, c, r))
    case Retry => if c.sleepCompletes then StillRunning else ExitCanceled
    case Finish(Succeeded) =>
      if p.restart.Always? then (if c.sleepCompletes || DelayAfter(p, c, r).None? then StillRunning else ExitCanceled)
      else if c.canceledAtEnd then ExitCanceled else Completed
    case Finish(Failed(failure)) =>
      if failure.error.Fatal? then ExitFatal
      else if failure.error.Canceled? then ExitCanceled
      else RetriesStopped(Exhausted(p.maxRetries, r.counter))
  }

  /** The exit selected by a cycle whose attempt did not return. */
  function ExitWithin(p: Params, c: Cycle): Exit {
    if StopsBefore(p, c) then ExitCanceled
    else if EndOf(c.script, p.hasTimer).Dropped? then ExitAborted
    else StillRunning
  }

  /** The `i`-th record is the outcome of its cycle and does not end the run. */
  predicate PassesCycle(p: Params, cycles: seq<Cycle>, trace: seq<Record>, i: nat)
    requires i < |trace| <= |cycles|
  {
    FollowsCycle(p, cycles[i], trace[i]) && ExitAfter(p, cycles[i], trace[i]).StillRunning?
  }

  predicate RunsThrough(p: Params, cycles: seq<Cycle>, trace: seq<Record>) {
    && |trace| <= |cycles|
    && forall i: nat | i < |trace| :: PassesCycle(p, cycles, trace, i)
  }

  /** The run consumes its cycles in order, skips none, and stops exactly where the first exit is selected. */
  predicate RunExact(p: Params, cycles: seq<Cycle>, trace: seq<Record>, exit: Exit) {
    if RunsThrough(p, cycles, trace) then
      if |trace| == |cycles| then exit.StillRunning?
      else
        var c := cycles[|trace|];
        exit == ExitWithin(p, c) && (StopsBefore(p, c) || !EndOf(c.script, p.hasTimer).Returned?)
    else
      && 0 < |trace| <= |cycles|
      && RunsThrough(p, cycles, trace[..|trace| - 1])
      && FollowsCycle(p, cycles[|trace| - 1], trace[|trace| - 1])
      && exit == ExitAfter(p, cycles[|trace| - 1], trace[|trace| - 1])
  }

  predicate DelaysExact(p: Params, cycles: seq<Cycle>, trace: seq<Record>, delays: seq<Option<nat>>) {
    && |delays| == |trace| <= |cycles|
    && forall i | 0 <= i < |trace| :: delays[i] == DelayAfter(p, cycles[i], trace[i])
  }

  lemma {:induction false} DelaysExtended(
    p: Params, cycles: seq<Cycle>, trace: seq<Record>, delays: seq<Option<nat>>, r: Record, delay: Option<nat>)
    requires DelaysExact(p, cycles, trace, delays) && |trace| < |cycles| && delay == DelayAfter(p, cycles[|trace|], r)
    ensures DelaysExact(p, cycles, trace + [r], delays + [delay])
  {
  }

  /** The poison flag a run leaves behind. */
  predicate RunPoisons(p: Params, cycles: seq<Cycle>, trace: seq<Record>, exit: Exit) {
    match exit
    case Panicked(cleanupPoisoned) => cleanupPoisoned
    case ExitAborted => |trace| < |cycles| && AttemptPoisons(cycles[|trace|].script, p.hasTimer)
    case _ => false
  }

  lemma {:induction false} RunExtended(p: Params, cycles: seq<Cycle>, trace: seq<Record>, r: Record)
    requires RunsThrough(p, cycles, trace) && |trace| < |cycles| && FollowsCycle(p, cycles[|trace|], r)
    ensures var exit := ExitAfter(p, cycles[|trace|], r);
            if exit.StillRunning? then RunsThrough(p, cycles, trace + [r])
            else
              && RunExact(p, cycles, trace + [r], exit)
              && (RunPoisons(p, cycles, trace + [r], exit) <==> exit.Panicked? && exit.cleanupPoisoned)
  {
    assert (trace + [r])[..|trace|] == trace;
    if ExitAfter(p, cycles[|trace|], r).StillRunning? {
      forall i: nat | i < |trace + [r]| ensures PassesCycle(p, cycles, trace + [r], i) {
        assert i < |trace| ==> PassesCycle(p, cycles, trace, i);
      }
    } else {
      assert !PassesCycle(p, cycles, trace + [r], |trace|);
    }
  }

  /** A run that got through its trace ends in the next cycle, if that one does not return an attempt. */
  lemma {:induction false} RunStops(p: Params, cycles: seq<Cycle>, trace: seq<Record>)
    requires RunsThrough(p, cycles, trace) && |trace| < |cycles|
    requires StopsBefore(p, cycles[|trace|]) || !EndOf(cycles[|trace|].script, p.hasTimer).Returned?
    ensures var exit := ExitWithin(p, cycles[|trace|]);
            && RunExact(p, cycles, trace, exit)
            && (RunPoisons(p, cycles, trace, exit) <==> exit.ExitAborted? && AttemptPoisons(cycles[|trace|].script, p.hasTimer))
  {
  }

  lemma {:induction false} RunGoesOn(p: Params, cycles: seq<Cycle>, trace: seq<Record>)
    requires RunsThrough(p, cycles, trace) && |trace| == |cycles|
    ensures RunExact(p, cycles, trace, StillRunning) && !RunPoisons(p, cycles, trace, StillRunning)
  {
  }

  /** A judged attempt that selects no exit lets another one follow, and was retried exactly if it failed. */
  lemma {:induction false} LoopGoesOn(p: Params, c: Cycle, r: Record)
    requires JudgedRight(p, r.result, r.counter, r.decision) && ExitAfter(p, c, r).StillRunning?
    ensures MayContinue(p, r) && (r.decision.Retry? <==> r.result.Failed?) && !r.decision.CleanupPanic?
  {
  }

  /** The counter that the loop goes on with is the length of the failure streak so far. */
  lemma {:induction false} CounterFollows(trace: seq<Record>, r: Record)
    requires r.decision.Retry? <==> r.result.Failed?
    ensures Saturate32(Streak(trace + [r])) ==
            if r.decision.Retry? then SaturatingIncrement32(Saturate32(Streak(trace))) else 0
  {
    assert (trace + [r])[..|trace|] == trace;
  }

  /** An exit after a finished attempt says poisoned exactly if the attempt raised the flag. */
  lemma {:induction false} ExitPoisons(p: Params, c: Cycle, r: Record)
    requires CyclePoisons(p, c, r) ==> r.decision.CleanupPanic?
    ensures var exit := ExitAfter(p, c, r);
            CyclePoisons(p, c, r) <==> exit.Panicked? && exit.cleanupPoisoned
  {
  }

  lemma {:induction false} TraceExtended(p: Params, trace: seq<Record>, r: Record)
    requires TraceExact(p, trace)
    requires trace != [] ==> MayContinue(p, trace[|trace| - 1])
    requires r.number == Saturate32(|trace| + 1) && r.counter == Saturate32(Streak(trace)) && !r.poisonedAtStart
    requires JudgedRight(p, r.result, r.counter, r.decision)
    ensures TraceExact(p, trace + [r])
  {
    forall i: nat | i < |trace + [r]| ensures RecordExact(p, trace + [r], i) {
      if i < |trace| {
        assert RecordExact(p, trace, i);
        assert (trace + [r])[..i] == trace[..i];
      } else {
        assert (trace + [r])[..i] == trace;
      }
    }
  }

  // ------------------------------------------------------------ the loop

  class TaskActor {
    const params: Params
    const flag: PoisonFlag
    var attempt: nat
    var backoffAttempt: nat

    constructor (params: Params, flag: PoisonFlag)
      ensures this.params == params && this.flag == flag && attempt == 0 && backoffAttempt == 0
    {
      this.params := params;
      this.flag := flag;
      attempt, backoffAttempt := 0, 0;
    }

    /** One attempt and its judgement, under the attempt's permit and activity guard. */
    method Attempt(cycle: Cycle, ghost trace: seq<Record>) returns (end: End, record: Record)
      requires ValidParams(params) && !flag.raised && TraceExact(params, trace)
      requires attempt == Saturate32(|trace|) && backoffAttempt == Saturate32(Streak(trace))
      requires trace != [] ==> MayContinue(params, trace[|trace| - 1])
      modifies this`attempt, flag
      ensures attempt == Saturate32(|trace| + 1)
      ensures end == EndOf(cycle.script, params.hasTimer)
      ensures !end.Returned? ==> flag.raised == AttemptPoisons(cycle.script, params.hasTimer)
      ensures end.InFlight? ==> !flag.raised
      ensures end.Returned? ==>
                && flag.raised == CyclePoisons(params, cycle, record)
                && record.result == end.result && record.counter == backoffAttempt
                && JudgedRight(params, record.result, record.counter, record.decision)
                && TraceExact(params, trace + [record])
                && (flag.raised ==> record.decision.CleanupPanic?)
                && (record.decision.Finish? <==> !DropsError(record.result, params, record.counter))
                && (record.decision.Retry? <==> WithinBudget(params, record.result, record.counter) && cycle.errorDrop.Clean?)
    {
      attempt := SaturatingIncrement32(attempt);
      var poisonedAtStart := flag.raised;
      var ended, events, boundary, cleanupPanics, timedOut := RunOnce(cycle.script, params.hasTimer, flag);
      end := ended;
      if !end.Returned? {
        return end, Record(attempt, poisonedAtStart, Succeeded, backoffAttempt, Retry);
      }
      var decision := ClassifyAttempt(end.result, params, backoffAttempt, cycle.errorDrop, flag);
      record := Record(attempt, poisonedAtStart, end.result, backoffAttempt, decision);
      TraceExtended(params, trace, record);
    }

    /** Selects the exit for a judged attempt, or waits and lets the loop go on; `delay` is the sleep it asks for. */
    method Settle(cycle: Cycle, record: Record) returns (exit: Exit, delay: Option<nat>)
      requires record.counter == backoffAttempt
      requires record.decision.CleanupPanic? ==> flag.raised == CyclePoisons(params, cycle, record)
      modifies this`backoffAttempt
      ensures exit == ExitAfter(params, cycle, record)
      ensures delay == DelayAfter(params, cycle, record)
      ensures exit.StillRunning? ==>
                backoffAttempt == if record.decision.Retry? then SaturatingIncrement32(old(backoffAttempt)) else 0
    {
      match record.decision
      case CleanupPanic =>
        return Panicked(flag.raised), None;
      case Retry =>
        delay := Some(Backoff.DelayForRetry(params.backoff, backoffAttempt, cycle.draw));
        backoffAttempt := SaturatingIncrement32(backoffAttempt);
        return if cycle.sleepCompletes then StillRunning else ExitCanceled, delay;
      case Finish(result) =>
        if result.Succeeded? {
          backoffAttempt := 0;
          if !params.restart.Always? {
            return if cycle.canceledAtEnd then ExitCanceled else Completed, None;
          }
          if params.restart.interval.Some? {
            delay := Some(FlooredInterval(params.restart.interval.value, cycle.elapsed));
          } else if cycle.elapsed < IMMEDIATE_RESTART_FLOOR {
            delay := Some(IMMEDIATE_RESTART_FLOOR - cycle.elapsed);
          } else {
            return StillRunning, None;
          }
          return if cycle.sleepCompletes then StillRunning else ExitCanceled, delay;
        } else if result.failure.error.Fatal? {
          return ExitFatal, None;
        } else if result.failure.error.Canceled? {
          return ExitCanceled, None;
        } else {
          return RetriesStopped(Exhausted(params.maxRetries, backoffAttempt)), None;
        }
    }

    /** One turn of the loop: wait for the permit, attempt, settle. A turn without a finished attempt has no record. */
    method Turn(cycle: Cycle, ghost trace: seq<Record>) returns (exit: Exit, record: Option<Record>, delay: Option<nat>)
      requires ValidParams(params) && !flag.raised && TraceExact(params, trace)
      requires attempt == Saturate32(|trace|) && backoffAttempt == Saturate32(Streak(trace))
      requires trace != [] ==> MayContinue(params, trace[|trace| - 1])
      modifies this`attempt, this`backoffAttempt, flag
      ensures record.None? <==> StopsBefore(params, cycle) || !EndOf(cycle.script, params.hasTimer).Returned?
      ensures record.None? ==>
                && exit == ExitWithin(params, cycle)
                && flag.raised == (exit.ExitAborted? && AttemptPoisons(cycle.script, params.hasTimer))
                && attempt == Saturate32(if exit.ExitCanceled? then |trace| else |trace| + 1)
      ensures record.Some? ==>
                && FollowsCycle(params, cycle, record.value) && TraceExact(params, trace + [record.value])
                && exit == ExitAfter(params, cycle, record.value) && delay == DelayAfter(params, cycle, record.value)
                && flag.raised == (exit.Panicked? && exit.cleanupPoisoned)
                && attempt == Saturate32(|trace| + 1)
      ensures record.Some? && exit.StillRunning? ==>
                MayContinue(params, record.value) && backoffAttempt == Saturate32(Streak(trace + [record.value]))
    {
      if cycle.canceledBefore || (params.hasSemaphore && !cycle.permit.Granted?) || cycle.canceledAfterPermit {
        return ExitCanceled, None, None;
      }
      var end, judged := Attempt(cycle, trace);
      if !end.Returned? {
        return (if end.Dropped? then ExitAborted else StillRunning), None, None;
      }
      record := Some(judged);
      exit, delay := Settle(cycle, judged);
      ExitPoisons(params, cycle, judged);
      if exit.StillRunning? {
        LoopGoesOn(params, cycle, judged);
        CounterFollows(trace, judged);
      }
    }

    /** Runs until policy, failure or cancellation selects an exit. */
    method Run(cycles: seq<Cycle>) returns (exit: Exit, trace: seq<Record>, delays: seq<Option<nat>>)
      requires ValidParams(params) && !flag.raised && attempt == 0 && backoffAttempt == 0
      modifies this, flag
      ensures RunExact(params, cycles, trace, exit)
      ensures TraceExact(params, trace)
      ensures DelaysExact(params, cycles, trace, delays)
      ensures flag.raised == RunPoisons(params, cycles, trace, exit)
      ensures || attempt == Saturate32(|trace|)
              || ((exit.ExitAborted? || exit.StillRunning?) && attempt == Saturate32(|trace| + 1))
    {
      trace, delays := [], [];
      for i := 0 to |cycles|
        invariant TraceExact(params, trace) && DelaysExact(params, cycles, trace, delays)
        invariant attempt == Saturate32(|trace|) && backoffAttempt == Saturate32(Streak(trace))
        invariant !flag.raised
        invariant |trace| == i && RunsThrough(params, cycles, trace)
        invariant trace != [] ==> MayContinue(params, trace[|trace| - 1])
      {
        var selected, record, delay := Turn(cycles[i], trace);
        if record.None? {
          RunStops(params, cycles, trace);
          return selected, trace, delays;
        }
        RunExtended(params, cycles, trace, record.value);
        DelaysExtended(params, cycles, trace, delays, record.value, delay);
        trace, delays := trace + [record.value], delays + [delay];
        if !selected.StillRunning? {
          return selected, trace, delays;
        }
      }
      RunGoesOn(params, cycles, trace);
      exit := StillRunning;
    }
  }

  /** Every record of a run, the last one included, is the outcome of its cycle. */
  lemma {:induction false} RecordsFollow(p: Params, cycles: seq<Cycle>, trace: seq<Record>, exit: Exit, i: nat)
    requires RunExact(p, cycles, trace, exit) && i < |trace|
    ensures |trace| <= |cycles| && FollowsCycle(p, cycles[i], trace[i])
  {
    if RunsThrough(p, cycles, trace) {
      assert PassesCycle(p, cycles, trace, i);
    } else if i < |trace| - 1 {
      assert PassesCycle(p, cycles, trace[..|trace| - 1], i);
    }
  }

  /** The exit fits the last finished attempt. */
  lemma {:induction false} ExitFits(p: Params, cycles: seq<Cycle>, trace: seq<Record>, exit: Exit)
    requires TraceExact(p, trace) && RunExact(p, cycles, trace, exit)
    ensures ExitExact(p, trace, exit)
  {
    if trace != [] {
      assert RecordExact(p, trace, |trace| - 1);
      assert RunsThrough(p, cycles, trace) ==> PassesCycle(p, cycles, trace, |trace| - 1);
    }
  }

  // ------------------------------------------------------------ retry budget

  lemma {:induction false} StreakAfter(p: Params, trace: seq<Record>, k: nat)
    requires ValidParams(p) && TraceExact(p, trace) && k <= |trace| && p.maxRetries.Some?
    ensures Streak(trace[..k]) <= p.maxRetries.value + 1
    ensures k < |trace| ==> Streak(trace[..k]) <= p.maxRetries.value
    decreases k
  {
    if k > 0 {
      StreakAfter(p, trace, k - 1);
      assert RecordExact(p, trace, k - 1);
      assert trace[..k][..k - 1] == trace[..k - 1];
    }
  }

  /**
   The retry budget over a whole run. Attempts are numbered from one and counters count failures, both up to 32 bits. With a limit m no failure streak is longer than m + 1; the backoff index of every
   retry is the number of failures before it in its streak, and below m.
   */
  lemma {:induction false} RetryBudget(p: Params, trace: seq<Record>, k: nat)
    requires ValidParams(p) && TraceExact(p, trace) && k < |trace|
    ensures trace[k].number == if k < U32_MAX then k + 1 else U32_MAX
    ensures trace[k].counter == if Streak(trace[..k]) <= U32_MAX then Streak(trace[..k]) else U32_MAX
    ensures p.maxRetries.Some? ==> Streak(trace[..k + 1]) <= p.maxRetries.value + 1
    ensures p.maxRetries.Some? ==> trace[k].counter == Streak(trace[..k]) <= p.maxRetries.value
    ensures trace[k].decision.Retry? ==>
              && trace[k].result.Failed?
              && trace[k].counter == Saturate32(Streak(trace[..k + 1]) - 1)
              && (p.maxRetries.Some? ==> trace[k].counter < p.maxRetries.value)
  {
    assert RecordExact(p, trace, k);
    assert trace[..k + 1][..k] == trace[..k];
    if p.maxRetries.Some? {
      StreakAfter(p, trace, k);
      StreakAfter(p, trace, k + 1);
    }
  }

  /** Within a streak the indexes are consecutive: 0, 1, 2, and so on. */
  lemma {:induction false} BackoffIndexesAreConsecutive(p: Params, trace: seq<Record>, k: nat)
    requires ValidParams(p) && TraceExact(p, trace) && k < |trace|
    ensures k == 0 || trace[k - 1].result.Succeeded? ==> trace[k].counter == 0
    ensures k > 0 && trace[k - 1].result.Failed? ==> trace[k].counter == SaturatingIncrement32(trace[k - 1].counter)
  {
    assert RecordExact(p, trace, k);
    if k > 0 {
      assert RecordExact(p, trace, k - 1);
      assert trace[..k][..k - 1] == trace[..k - 1];
    }
  }

  lemma {:induction false} AllFailedBut(p: Params, trace: seq<Record>, k: nat)
    requires TraceExact(p, trace) && !p.restart.Always? && k < |trace|
    ensures Streak(trace[..k]) == k
    decreases k
  {
    if k > 0 {
      AllFailedBut(p, trace, k - 1);
      assert RecordExact(p, trace, k - 1);
      assert trace[..k][..k - 1] == trace[..k - 1];
    }
  }

  /** Without `Always` the limit bounds the whole run: at most m + 1 attempts under OnFailure, at most one under Never. */
  lemma {:induction false} AttemptBudget(p: Params, trace: seq<Record>)
    requires ValidParams(p) && TraceExact(p, trace)
    ensures p.restart.Never? ==> |trace| <= 1
    ensures p.restart.OnFailure? && p.maxRetries.Some? ==> |trace| <= p.maxRetries.value + 1
  {
    if |trace| > 1 {
      assert RecordExact(p, trace, 0);
    }
    if p.restart.OnFailure? && p.maxRetries.Some? && |trace| > 0 {
      AllFailedBut(p, trace, |trace| - 1);
      StreakAfter(p, trace, |trace| - 1);
    }
  }

  /**
   The "retry limit" reason is given exactly when a policy that allows retries meets a retryable failure with the
   counter equal to the limit; the other stop for a retryable failure is the policy Never.
   */
  lemma {:induction false} RetryLimitReason(p: Params, trace: seq<Record>, exit: Exit)
    requires ValidParams(p) && TraceExact(p, trace) && ExitExact(p, trace, exit)
    ensures exit == RetriesStopped(true) <==>
              && trace != []
              && var last := trace[|trace| - 1];
                 && last.result.Failed? && IsRetryable(last.result.failure.error) && !last.result.failure.cleanupPanicked
                 && AllowsRetry(p.restart) && p.maxRetries == Some(last.counter)
    ensures exit == RetriesStopped(false) ==> p.restart.Never?
    ensures exit == RetriesStopped(true) ==> Streak(trace) == p.maxRetries.value + 1
  {
    if trace != [] {
      var n := |trace| - 1;
      var last := trace[n];
      assert RecordExact(p, trace, n);
      assert trace[..|trace|] == trace;
      if p.maxRetries.Some? {
        StreakAfter(p, trace, n);
        StreakAfter(p, trace, |trace|);
      }
      AttemptBudget(p, trace);
    }
  }

  /** A destructor of the attempt panicked: one inside it, or the one of an error that is dropped before going on. */
  predicate CleanupPanics(p: Params, c: Cycle, r: Record) {
    DropsError(r.result, p, r.counter) && (r.result.failure.cleanupPanicked || c.errorDrop.Panics?)
  }

  /**
   The Panicked exit, exactly: the last finished attempt met a cleanup panic, and the exit says poisoned if and only if a
   panic payload of that attempt could not be destroyed.
   */
  lemma {:induction false} PanickedExactly(p: Params, cycles: seq<Cycle>, trace: seq<Record>, exit: Exit)
    requires TraceExact(p, trace) && RunExact(p, cycles, trace, exit)
    ensures |trace| <= |cycles|
    ensures exit.Panicked? <==> trace != [] && CleanupPanics(p, cycles[|trace| - 1], trace[|trace| - 1])
    ensures exit.Panicked? ==> exit == Panicked(CyclePoisons(p, cycles[|trace| - 1], trace[|trace| - 1]))
  {
    if trace != [] {
      var last := |trace| - 1;
      assert RecordExact(p, trace, last);
      RecordsFollow(p, cycles, trace, exit, last);
      assert RunsThrough(p, cycles, trace) ==> PassesCycle(p, cycles, trace, last);
    }
  }

  /** A cleanup panic is terminal: no attempt follows it, and the poison flag was clear when it started. */
  lemma {:induction false} CleanupPanicIsTerminal(p: Params, cycles: seq<Cycle>, trace: seq<Record>, exit: Exit, i: nat)
    requires TraceExact(p, trace) && RunExact(p, cycles, trace, exit) && i < |trace|
    ensures |trace| <= |cycles| && !trace[i].poisonedAtStart
    ensures CleanupPanics(p, cycles[i], trace[i]) ==>
              i == |trace| - 1 && exit == Panicked(CyclePoisons(p, cycles[i], trace[i]))
  {
    assert RecordExact(p, trace, i);
    RecordsFollow(p, cycles, trace, exit, i);
    PanickedExactly(p, cycles, trace, exit);
  }

  // ------------------------------------------------------------ delays of a whole run

  /** Slept for this long after the attempt, or not at all. */
  function Slept(delay: Option<nat>): nat {
    if delay.Some? then delay.value else 0
  }

  /**
   Over a whole run the k-th retry of a failure streak sleeps for the policy's delay with index k, between the policy's
   floor and cap; and an attempt that follows a success starts at least a millisecond after the start of that success.
   */
  lemma {:induction false} DelaysOfRun(p: Params, cycles: seq<Cycle>, trace: seq<Record>, delays: seq<Option<nat>>, k: nat)
    requires TraceExact(p, trace) && DelaysExact(p, cycles, trace, delays) && Backoff.Valid(p.backoff) && k < |trace|
    ensures trace[k].decision.Retry? ==>
              && delays[k] == Some(Backoff.DelayForRetry(p.backoff, Saturate32(Streak(trace[..k])), cycles[k].draw))
              && p.backoff.floor <= delays[k].value <= p.backoff.max
    ensures k + 1 < |trace| && trace[k].result.Succeeded? ==>
              && p.restart.Always?
              && cycles[k].elapsed + Slept(delays[k]) >= IMMEDIATE_RESTART_FLOOR
              && (p.restart.interval.Some? ==> Slept(delays[k]) >= p.restart.interval.value)
              && (Slept(delays[k]) == (if p.restart.interval.Some? then p.restart.interval.value else 0)
                  || cycles[k].elapsed + Slept(delays[k]) == IMMEDIATE_RESTART_FLOOR)
  {
    assert RecordExact(p, trace, k);
    Backoff.DelayInRange(p.backoff, trace[k].counter, cycles[k].draw);
  }

  /** Without jitter and with a whole factor f, the k-th retry of a streak sleeps first * f^k, within least delay and cap. */
  lemma {:induction false} PlainDelaysOfRun(
    p: Params, cycles: seq<Cycle>, trace: seq<Record>, delays: seq<Option<nat>>, k: nat, factor: nat)
    requires TraceExact(p, trace) && DelaysExact(p, cycles, trace, delays) && Backoff.Valid(p.backoff) && k < |trace|
    requires p.backoff.jitter.NoJitter? && p.backoff.factor == factor as real && trace[k].decision.Retry?
    ensures var n := Saturate32(Streak(trace[..k]));
            delays[k] == Some(Backoff.Max(Backoff.Min(p.backoff.first * Backoff.IntPow(factor, n), p.backoff.max),
                                          Backoff.Least(p.backoff)))
  {
    DelaysOfRun(p, cycles, trace, delays, k);
    Backoff.PlainDelay(p.backoff, factor, Saturate32(Streak(trace[..k])), cycles[k].draw);
  }

  /** All attempts from `i` to `k` were retried, so they are part of one failure streak. */
  predicate RetriedThroughout(trace: seq<Record>, i: nat, k: nat) {
    i <= k < |trace| && forall m | i <= m <= k :: trace[m].decision.Retry?
  }

  lemma {:induction false} CountersGrow(p: Params, trace: seq<Record>, i: nat, k: nat)
    requires ValidParams(p) && TraceExact(p, trace) && RetriedThroughout(trace, i, k)
    ensures trace[i].counter <= trace[k].counter
    decreases k
  {
    if i < k {
      CountersGrow(p, trace, i, k - 1);
      RetryBudget(p, trace, k - 1);
      BackoffIndexesAreConsecutive(p, trace, k);
    }
  }

  /** Without jitter the sleeps of one failure streak never get shorter. */
  lemma {:induction false} StreakDelaysGrow(p: Params, cycles: seq<Cycle>, trace: seq<Record>, delays: seq<Option<nat>>, i: nat, k: nat)
    requires ValidParams(p) && TraceExact(p, trace) && DelaysExact(p, cycles, trace, delays)
    requires Backoff.Valid(p.backoff) && p.backoff.jitter.NoJitter? && RetriedThroughout(trace, i, k)
    ensures delays[i].Some? && delays[k].Some? && delays[i].value <= delays[k].value
  {
    CountersGrow(p, trace, i, k);
    Backoff.DelayMonotoneWithoutJitter(p.backoff, trace[i].counter, trace[k].counter, cycles[i].draw, cycles[k].draw);
  }

  lemma {:induction false} PlainStreakDelays(p: Params, cycles: seq<Cycle>, trace: seq<Record>, delays: seq<Option<nat>>, k: nat)
    returns (c: nat)
    requires ValidParams(p) && TraceExact(p, trace) && DelaysExact(p, cycles, trace, delays)
    requires RetriedThroughout(trace, k, k + 1) && trace[k].counter < U32_MAX
    ensures delays[k] == Some(Backoff.DelayForRetry(p.backoff, c, cycles[k].draw))
    ensures delays[k + 1] == Some(Backoff.DelayForRetry(p.backoff, c + 1, cycles[k + 1].draw))
  {
    c := trace[k].counter;
    RetryBudget(p, trace, k);
    BackoffIndexesAreConsecutive(p, trace, k + 1);
  }

  /**
   Without jitter a retry waits the factor times as long as the one before it in the streak, up to rounding, as long as the
   first of the two is above the policy's least delay and the second below its cap.
   */
  lemma {:induction false} StreakDelaysMultiply(p: Params, cycles: seq<Cycle>, trace: seq<Record>, delays: seq<Option<nat>>, k: nat)
    requires ValidParams(p) && TraceExact(p, trace) && DelaysExact(p, cycles, trace, delays)
    requires Backoff.Valid(p.backoff) && p.backoff.jitter.NoJitter?
    requires RetriedThroughout(trace, k, k + 1) && trace[k].counter < U32_MAX
    requires delays[k].Some? && delays[k].value > Backoff.Least(p.backoff)
    requires delays[k + 1].Some? && delays[k + 1].value < p.backoff.max
    ensures Backoff.Multiplied(delays[k].value, delays[k + 1].value, p.backoff.factor)
  {
    var c := PlainStreakDelays(p, cycles, trace, delays, k);
    Backoff.PlainDelayStep(p.backoff, c, cycles[k].draw, cycles[k + 1].draw);
  }
}
