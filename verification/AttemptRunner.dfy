/**
 One physical attempt: the panic boundary around a user future, and the runner that drives it to a result.

 Everything the user controls is an input: what each poll does, whether a timer fires or the attempt is
 dropped from outside, and whether destroying a value panics (and then whether destroying that panic's payload panics again).
 */
module AttemptRunner {

  datatype TaskError = Timeout | Fatal(code: int) | Fail(code: int) | Canceled

  predicate IsRetryable(e: TaskError) {
    e.Timeout? || e.Fail?
  }

  datatype Result = Ok | Err(error: TaskError)

  /** Destroying a user value. */
  datatype Destruction = Clean | Panics(payloadPanics: bool)

  datatype Poll = Pending | Ready(result: Result, resultDrop: Destruction) | PollPanics(payloadPanics: bool)

  /** What happens to the attempt next. */
  datatype Turn = Polled(poll: Poll) | TimerFires | Aborted

  datatype Spawn = Spawned | SpawnPanics(payloadPanics: bool)

  /** The whole environment of one attempt. */
  datatype Script = Script(spawn: Spawn, turns: seq<Turn>, futureDrop: Destruction)

  /** Error of a task that panicked. */
  const PANICKED := Fail(0)

  datatype Failure = Failure(error: TaskError, cleanupPanicked: bool)

  datatype AttemptResult = Succeeded | Failed(failure: Failure)

  /** `Dropped`: the attempt was aborted and never returned. `InFlight`: the script ended first. */
  datatype End = Returned(result: AttemptResult) | Dropped | InFlight

  datatype AttemptEvent = AttemptSucceeded | AttemptCanceled | AttemptFailed | AttemptTimedOut | DropDiagnostic

  /** Set once a panic payload could not be destroyed. */
  class PoisonFlag {
    var raised: bool

    constructor ()
      ensures !raised
    {
      raised := false;
    }
  }

  /** `retained` means the payload's own destructor panicked. */
  method DisposePanicPayload(flag: PoisonFlag, payloadPanics: bool) returns (retained: bool)
    modifies flag
    ensures retained == payloadPanics && flag.raised == (old(flag.raised) || payloadPanics)
  {
    if payloadPanics {
      flag.raised := true;
    }
    retained := payloadPanics;
  }

  /** Destroying the value raises the flag. */
  predicate Poisons(d: Destruction) {
    d.Panics? && d.payloadPanics
  }

  // ------------------------------------------------------------ reference

  /** The turn ends the attempt. */
  predicate Decisive(t: Turn, hasTimer: bool) {
    (t.Polled? && !t.poll.Pending?) || (t.TimerFires? && hasTimer) || t.Aborted?
  }

  /** The position of the first decisive turn, or the number of turns. */
  function FirstDecisive(turns: seq<Turn>, hasTimer: bool): (i: nat)
    ensures i <= |turns| && (i < |turns| ==> Decisive(turns[i], hasTimer))
    ensures forall j | 0 <= j < i :: !Decisive(turns[j], hasTimer)
  {
    if turns == [] || Decisive(turns[0], hasTimer) then 0 else 1 + FirstDecisive(turns[1..], hasTimer)
  }

  function FailedWith(error: TaskError, cleanupPanicked: bool): End {
    Returned(Failed(Failure(error, cleanupPanicked)))
  }

  /** How a decisive turn ends the attempt, given how the future's destruction goes. */
  function TurnEnd(t: Turn, futureDrop: Destruction): End {
    match t
    case Aborted => Dropped
    case TimerFires => if futureDrop.Clean? then FailedWith(Timeout, false) else FailedWith(PANICKED, true)
    case Polled(Pending) => InFlight
    case Polled(Ready(result, _)) =>
      if futureDrop.Panics? then FailedWith(PANICKED, true)
      else if result.Ok? then Returned(Succeeded)
      else FailedWith(result.error, false)
    case Polled(PollPanics(payloadPanics)) => FailedWith(PANICKED, payloadPanics || futureDrop.Panics?)
  }

  /** Some panic payload of this turn cannot be destroyed. */
  predicate TurnPoisons(t: Turn, futureDrop: Destruction) {
    || Poisons(futureDrop)
    || (t.Polled? && t.poll.PollPanics? && t.poll.payloadPanics)
    || (t.Polled? && t.poll.Ready? && futureDrop.Panics? && Poisons(t.poll.resultDrop))
  }

  /** The whole attempt. */
  function EndOf(script: Script, hasTimer: bool): End {
    match script.spawn
    case SpawnPanics(payloadPanics) => FailedWith(PANICKED, payloadPanics)
    case Spawned =>
      var i := FirstDecisive(script.turns, hasTimer);
      if i == |script.turns| then InFlight else TurnEnd(script.turns[i], script.futureDrop)
  }

  predicate AttemptPoisons(script: Script, hasTimer: bool) {
    match script.spawn
    case SpawnPanics(payloadPanics) => payloadPanics
    case Spawned =>
      var i := FirstDecisive(script.turns, hasTimer);
      i < |script.turns| && TurnPoisons(script.turns[i], script.futureDrop)
  }

  /** The turn lets the attempt go on: the future is not ready, or a timer fires that the attempt does not have. */
  predicate KeepsWaiting(t: Turn, hasTimer: bool) {
    t == Polled(Pending) || (t.TimerFires? && !hasTimer)
  }

  predicate EndsAt(turns: seq<Turn>, hasTimer: bool, i: nat) {
    i < |turns| && !KeepsWaiting(turns[i], hasTimer) && forall j | 0 <= j < i :: KeepsWaiting(turns[j], hasTimer)
  }

  /** The future was spawned, got as far as a poll that is ready with success, and was then destroyed cleanly. */
  ghost predicate SucceedsCleanly(script: Script, hasTimer: bool) {
    && script.spawn.Spawned? && script.futureDrop.Clean?
    && exists i: nat :: EndsAt(script.turns, hasTimer, i)
                        && script.turns[i].Polled? && script.turns[i].poll.Ready? && script.turns[i].poll.result.Ok?
  }

  lemma {:induction false} EndIsFirstDecisive(turns: seq<Turn>, hasTimer: bool, i: nat)
    requires EndsAt(turns, hasTimer, i)
    ensures i == FirstDecisive(turns, hasTimer)
  {
    if i > 0 {
      assert KeepsWaiting(turns[0], hasTimer);
      assert EndsAt(turns[1..], hasTimer, i - 1);
      EndIsFirstDecisive(turns[1..], hasTimer, i - 1);
    }
  }

  lemma {:induction false} FirstDecisiveIsEnd(turns: seq<Turn>, hasTimer: bool)
    ensures FirstDecisive(turns, hasTimer) < |turns| ==> EndsAt(turns, hasTimer, FirstDecisive(turns, hasTimer))
    ensures forall i: nat :: EndsAt(turns, hasTimer, i) ==> i == FirstDecisive(turns, hasTimer)
  {
    forall i: nat | EndsAt(turns, hasTimer, i) ensures i == FirstDecisive(turns, hasTimer) {
      EndIsFirstDecisive(turns, hasTimer, i);
    }
  }

  /** What the first turn that ends an attempt makes of it, case by case. */
  lemma {:induction false} EndByFirstTurn(script: Script, hasTimer: bool, i: nat)
    requires script.spawn.Spawned? && EndsAt(script.turns, hasTimer, i)
    ensures var turn, clean, end := script.turns[i], script.futureDrop.Clean?, EndOf(script, hasTimer);
            && (end == Dropped <==> turn == Aborted)
            && (end == Returned(Succeeded) <==> turn.Polled? && turn.poll.Ready? && turn.poll.result == Ok && clean)
            && (turn == TimerFires && clean ==> end == Returned(Failed(Failure(Timeout, false))))
            && (turn.Polled? && turn.poll.Ready? && turn.poll.result.Err? && clean ==>
                  end == Returned(Failed(Failure(turn.poll.result.error, false))))
            && (turn.Polled? && turn.poll.PollPanics? && clean ==>
                  end == Returned(Failed(Failure(PANICKED, turn.poll.payloadPanics))))
            && (turn != Aborted && !clean ==> end == Returned(Failed(Failure(PANICKED, true))))
  {
    FirstDecisiveIsEnd(script.turns, hasTimer);
  }

  /** An attempt is still in flight exactly while every turn lets it go on, and a spawn that panics is a failed attempt at once. */
  lemma {:induction false} EndWithoutTurn(script: Script, hasTimer: bool)
    ensures EndOf(script, hasTimer).InFlight? <==>
            script.spawn.Spawned? && forall i | 0 <= i < |script.turns| :: KeepsWaiting(script.turns[i], hasTimer)
    ensures script.spawn.SpawnPanics? ==>
              EndOf(script, hasTimer) == Returned(Failed(Failure(PANICKED, script.spawn.payloadPanics)))
  {
    if script.spawn.Spawned? {
      FirstDecisiveIsEnd(script.turns, hasTimer);
      var i := FirstDecisive(script.turns, hasTimer);
      if i < |script.turns| {
        EndByFirstTurn(script, hasTimer, i);
      }
    }
  }

  /** An attempt succeeds if and only if its spawned future became ready with success and was destroyed cleanly. */
  lemma {:induction false} SuccessExactly(script: Script, hasTimer: bool)
    ensures EndOf(script, hasTimer) == Returned(Succeeded) <==> SucceedsCleanly(script, hasTimer)
  {
    FirstDecisiveIsEnd(script.turns, hasTimer);
    EndWithoutTurn(script, hasTimer);
    if script.spawn.Spawned? {
      var i := FirstDecisive(script.turns, hasTimer);
      if i < |script.turns| {
        EndByFirstTurn(script, hasTimer, i);
      }
    }
  }

  /**
   A cleanup panic is never lost: an attempt that returns after poisoning the flag says so in its result, a result
   that says so is a panic and neither success, timeout nor cancellation, and a clean success destroyed the future cleanly.
   */
  lemma {:induction false} CleanupPanicIsVisible(script: Script, hasTimer: bool)
    requires EndOf(script, hasTimer).Returned?
    ensures var r := EndOf(script, hasTimer).result;
            && (AttemptPoisons(script, hasTimer) ==> r.Failed? && r.failure.cleanupPanicked)
            && (r.Failed? && r.failure.cleanupPanicked ==> r.failure.error == PANICKED)
            && (script.spawn.Spawned? && script.futureDrop.Panics? ==> r.Failed? && r.failure.cleanupPanicked)
  {
  }

  // ------------------------------------------------------------ the boundary

  /** The panic boundary. `destroyed` counts destructions of the future, `cleanupPanics` panics of any destructor. */
  class CatchPanic {
    const flag: PoisonFlag
    var present: bool
    ghost var polls: nat
    ghost var destroyed: nat
    ghost var cleanupPanics: nat

    ghost predicate Valid()
      reads this
    {
      destroyed == if present then 0 else 1
    }

    constructor (flag: PoisonFlag)
      ensures Valid() && present && destroyed == 0 && polls == 0 && cleanupPanics == 0 && this.flag == flag
    {
      this.flag := flag;
      present := true;
      polls, destroyed, cleanupPanics := 0, 0, 0;
    }

    /** Destroys the user future; `failed` means its destructor panicked. */
    method DropFuture(d: Destruction) returns (failed: bool)
      requires Valid() && present
      modifies this, flag
      ensures Valid() && !present && failed == d.Panics?
      ensures flag.raised == (old(flag.raised) || Poisons(d))
      ensures polls == old(polls)
      ensures cleanupPanics == old(cleanupPanics) + (if d.Panics? then 1 else 0) + (if Poisons(d) then 1 else 0)
    {
      present := false;
      destroyed := destroyed + 1;
      failed := d.Panics?;
      if d.Panics? {
        var retained := DisposePanicPayload(flag, d.payloadPanics);
        cleanupPanics := cleanupPanics + if retained then 2 else 1;
      }
    }

    method DisposeValue(d: Destruction)
      modifies this`cleanupPanics, flag
      ensures flag.raised == (old(flag.raised) || Poisons(d))
      ensures cleanupPanics == old(cleanupPanics) + (if d.Panics? then 1 else 0) + (if Poisons(d) then 1 else 0)
    {
      if d.Panics? {
        var retained := DisposePanicPayload(flag, d.payloadPanics);
        cleanupPanics := cleanupPanics + if retained then 2 else 1;
      }
    }

    /** One poll. The future is gone exactly when the poll completes, and it must be there before. */
    method Poll(p: Poll, futureDrop: Destruction) returns (done: bool, r: AttemptResult)
      requires Valid() && present && cleanupPanics == 0
      modifies this, flag
      ensures Valid() && done == !p.Pending? && present == !done && polls == old(polls) + 1
      ensures !done ==> cleanupPanics == 0 && flag.raised == old(flag.raised)
      ensures done && r.Succeeded? ==> p.Ready? && p.result.Ok? && futureDrop.Clean? && cleanupPanics == 0
      ensures done && r.Failed? ==> (r.failure.cleanupPanicked <==> cleanupPanics > 0)
      ensures done && r.Failed? && r.failure.error.Canceled? ==>
                p.Ready? && p.result == Err(Canceled) && !r.failure.cleanupPanicked
      ensures done ==> flag.raised == (old(flag.raised) || TurnPoisons(Polled(p), futureDrop))
      ensures done && cleanupPanics == 0 ==> flag.raised == old(flag.raised)
      ensures done && p.Ready? && futureDrop.Clean? ==>
                r == if p.result.Ok? then Succeeded else Failed(Failure(p.result.error, false))
      ensures done && !(p.Ready? && futureDrop.Clean?) ==> r.Failed? && r.failure.error == PANICKED
      ensures done ==> Returned(r) == TurnEnd(Polled(p), futureDrop)
    {
      r := Succeeded;
      polls := polls + 1;
      match p
      case Pending => done := false;
      case Ready(result, resultDrop) =>
        done := true;
        var failed := DropFuture(futureDrop);
        if failed {
          DisposeValue(resultDrop);
          r := Failed(Failure(PANICKED, true));
        } else {
          r := if result.Ok? then Succeeded else Failed(Failure(result.error, false));
        }
      case PollPanics(payloadPanics) =>
        done := true;
        var payloadPoisoned := DisposePanicPayload(flag, payloadPanics);
        cleanupPanics := cleanupPanics + if payloadPoisoned then 1 else 0;
        var failed := DropFuture(futureDrop);
        r := Failed(Failure(PANICKED, payloadPoisoned || failed));
    }
  }

  /** The terminal event that belongs to a returned result. */
  function TerminalEvent(r: AttemptResult, timedOut: bool): AttemptEvent {
    if r.Succeeded? then AttemptSucceeded
    else if timedOut && !r.failure.cleanupPanicked then AttemptTimedOut
    else if r.failure.error.Canceled? then AttemptCanceled
    else AttemptFailed
  }

  /**
   One attempt. `boundary` is null exactly when the task panicked before it produced a future. The ghost results
   count destructor panics and say whether the timer ended the attempt.
   */
  method RunOnce(script: Script, hasTimer: bool, flag: PoisonFlag)
    returns (end: End, events: seq<AttemptEvent>, boundary: CatchPanic?, ghost cleanupPanics: nat, ghost timedOut: bool)
    modifies flag
    // the future is destroyed exactly once on every path, and never while the attempt is in flight
    ensures boundary == null <==> script.spawn.SpawnPanics?
    ensures boundary != null ==> fresh(boundary) && boundary.destroyed == (if end.InFlight? then 0 else 1)
    ensures boundary == null ==> end.Returned?
    // exactly one terminal event, and it matches the result
    ensures end.Returned? ==> events == [TerminalEvent(end.result, timedOut)]
    ensures end.InFlight? ==> events == []
    ensures end.Dropped? ==> events == if cleanupPanics > 0 then [DropDiagnostic] else []
    // a timeout is reported only for a timer that fired with a clean destruction
    ensures AttemptTimedOut in events <==> timedOut && cleanupPanics == 0
    ensures timedOut ==> hasTimer && TimerFires in script.turns && end.Returned?
    ensures timedOut && cleanupPanics == 0 ==> end == Returned(Failed(Failure(Timeout, false)))
    // a destructor panic is always visible in the result, and only a destructor panic raises the flag
    ensures end.Returned? ==> (cleanupPanics > 0 <==> end.result.Failed? && end.result.failure.cleanupPanicked)
    ensures end.Returned? && end.result.Failed? ==> !(end.result.failure.error.Canceled? && end.result.failure.cleanupPanicked)
    ensures cleanupPanics == 0 ==> flag.raised == old(flag.raised)
    // the first decisive turn, and nothing else, decides
    ensures end == EndOf(script, hasTimer)
    ensures end == Returned(Succeeded) <==> SucceedsCleanly(script, hasTimer)
    ensures script.spawn.SpawnPanics? ==>
              end == Returned(Failed(Failure(PANICKED, script.spawn.payloadPanics))) && events == [AttemptFailed]
    ensures AttemptSucceeded in events <==> end == Returned(Succeeded)
    ensures AttemptCanceled in events <==> end == Returned(Failed(Failure(Canceled, false)))
    ensures flag.raised == (old(flag.raised) || AttemptPoisons(script, hasTimer))
    ensures timedOut <==> boundary != null && FirstDecisive(script.turns, hasTimer) < |script.turns|
                          && script.turns[FirstDecisive(script.turns, hasTimer)].TimerFires?
  {
    SuccessExactly(script, hasTimer);
    events, cleanupPanics, timedOut, boundary := [], 0, false, null;
    if script.spawn.SpawnPanics? {
      var retained := DisposePanicPayload(flag, script.spawn.payloadPanics);
      cleanupPanics := if retained then 1 else 0;
      end, events := Returned(Failed(Failure(PANICKED, retained))), [AttemptFailed];
      return;
    }
    var fut := new CatchPanic(flag);
    boundary := fut;
    for i := 0 to |script.turns|
      invariant fut.Valid() && fut.present && fut.cleanupPanics == 0 && fut.flag == flag
      invariant flag.raised == old(flag.raised)
      invariant fresh(fut)
      invariant forall j | 0 <= j < i :: !Decisive(script.turns[j], hasTimer)
    {
      match script.turns[i]
      case Polled(poll) =>
        var done, r := fut.Poll(poll, script.futureDrop);
        if done {
          cleanupPanics := fut.cleanupPanics;
          end := Returned(r);
          if r.Succeeded? {
            events := [AttemptSucceeded];
          } else if r.failure.error.Canceled? {
            events := [AttemptCanceled];
          } else {
            events := [AttemptFailed];
          }
          return;
        }
      case TimerFires =>
        if hasTimer {
          timedOut := true;
          var failed := fut.DropFuture(script.futureDrop);
          cleanupPanics := fut.cleanupPanics;
          if failed {
            end, events := Returned(Failed(Failure(PANICKED, true))), [AttemptFailed];
          } else {
            end, events := Returned(Failed(Failure(Timeout, false))), [AttemptTimedOut];
          }
          return;
        }
      case Aborted =>
        var failed := fut.DropFuture(script.futureDrop);
        cleanupPanics := fut.cleanupPanics;
        end := Dropped;
        if failed {
          events := [DropDiagnostic];
        }
        return;
    }
    end := InFlight;
  }
}
