# Taskvisor: a verified model of event delivery, retries and identities

Taskvisor supervises asynchronous tasks. This project models the parts of it where several parties share state
or where a counter, a guard or a bound must hold over a whole run, and proves what its design relies on:

- **Subscriber lanes** (`LaneState`, `LaneHistory`, `Scheduler`, `SchedulerTheorems`, `LaneRuns`, `GracefulClose`, `Quiescence`, `Shutdown`,
  `Bypass`, and the two witness runs `DrainWitness` and `StrandedWitness`).
  Any number of bounded lanes are fed by an emitter and drained by one shared round-robin worker, by dedicated workers, and by a
  closer that first closes gracefully and then aborts. `LaneState` has the lane object, one method per lock scope, each equal
  to a function on the lane's fields. `LaneHistory` puts the same functions between the program points of a worker and adds a
  history. `Scheduler` interleaves all lanes, the ready queue, the emitter, the workers and the closer; a step is one lock scope or
  one action between two of them. A run is any list of enabled steps, so every theorem about reachable states covers every interleaving.
- **Event ring** (`EventRing`, `RingRuns`). A bounded ring that keeps the newest events, with any number of publishers, one receiver, and a
  notifier that stores at most one permit and knows at most one waiter.
- **Attempts and actors** (`AttemptRunner`, `TaskActor`, `ActorExits`, `ConcurrencyLimit`). The panic boundary around a user future, the attempt
  loop with its failure-streak counter, and any number of actors on one semaphore. User behaviour is input: poll results, panics, panics of
  destructors, panics of panic payloads, timers, cancellation, aborts.
- **Delays and identities** (`Backoff`, `Sequences`) and **startup** (`SubscriberStart`).

Points where the model had to choose:

- A panic can escape a subscriber worker while it builds an overflow report, after a callback (publishing the diagnostic), while it
  drops the discarded queue, and while it puts a lane back into the ready queue. These are the places outside a callback's own `catch_unwind`
  where user or allocating code runs. The worker's handler then fails the lane, drops its queue and publishes a diagnostic, and each
  of these can panic again. The handler runs outside the worker's `catch_unwind`, so such a second panic ends the thread: the shared worker is `Dead`.
- Panics of the emitter and of the closer themselves are not modelled. In particular the same push onto the ready queue is assumed not to panic in
  the emitter: it would leave a lane `Scheduled` without a turn anywhere.
  On the worker's side it may, because there a handler deals with it.
- Locks, condition variables and the notifier are taken at their word: lock scopes are atomic, a waiter whose predicate holds can run.
- Atomics are sequentially consistent, except in `Sequences`, where a relaxed load may return any value the counter ever had.
- The growth factor is a `real` instead of a 64-bit float. A random draw is any value of its inclusive range.

Two properties that the module documentation suggests do not hold, and each has a run that breaks it and its exact condition:

- A graceful close can lose an accepted event. The idle recheck finishes a lane on `closing` without looking at the queue
  (`DrainWitness.GracefulCloseLosesAnEvent`). The state in which `begin_close` meets the lane decides it: something is lost if and only if the
  worker stands between its decision to idle and the recheck, with a nonempty queue, and then exactly that queue (`GracefulClose.CloseLosesExactly`).
- A closing set need not come to rest with all lanes finished. A panic in the panic handler ends the only shared worker, and every lane still waiting
  in its queue stays scheduled (`StrandedWitness.CloseCanStrandALane`). That is the only way (`Shutdown.ClosingFinishes`, `Shutdown.WorkerDiesExactly`),
  and the abort at the end of `close` still finishes such lanes (`Shutdown.CloserGetsThrough`, `Shutdown.CloseFinishesStranded`).

## Model

| member | source | states |
|---|---|---|
| `LaneState.SubscriberLane.constructor` | src/subscribers/subscriber_set.rs:852-871 | a new lane is idle, empty, and holds its subscriber and its completion sender |
| `LaneState.SubscriberLane.Enqueue` | src/subscribers/subscriber_set.rs:250-276 | one bounded enqueue attempt: queued and scheduled, refused and counted (never for an internal diagnostic), or reported closed |
| `LaneState.SubscriberLane.BeginClose` | src/subscribers/subscriber_set.rs:284-302 | marks the lane closing; an idle lane is finished on the spot and gives up its subscriber |
| `LaneState.SubscriberLane.Abort` | src/subscribers/subscriber_set.rs:304-325 | drops the queue and the loss count, returns the queue, and finishes an idle or scheduled lane |
| `LaneState.SubscriberLane.Acquire` | src/subscribers/subscriber_set.rs:500-511 | a worker enters exactly a scheduled, not aborted lane and takes its subscriber |
| `LaneState.SubscriberLane.TakeNext` | src/subscribers/subscriber_set.rs:521-534 | abort first, then the queue front, then the coalesced loss count, then closing, then idle |
| `LaneState.SubscriberLane.SettleShared` | src/subscribers/subscriber_set.rs:567-599 | the idle recheck finishes on closing alone, the quantum boundary only when drained; otherwise the lane goes idle or is scheduled again |
| `LaneState.SubscriberLane.FinishRunning` | src/subscribers/subscriber_set.rs:327-342 | a running lane becomes finished and hands back what it still queued |
| `LaneState.SubscriberLane.FailRunningAfterUnwind` | src/subscribers/subscriber_set.rs:344-363 | an escaped panic finishes the lane once, taking the subscriber if the slot still has it |
| `LaneState.TakesBacklogInOrder` | src/subscribers/subscriber_set.rs:521-534 | unless aborted, the next item is always the front of "queued events, then one loss report", and finish or idle is chosen exactly when that is empty |
| `LaneState.SubscriberLane.RunSharedQuantum` | src/subscribers/subscriber_set.rs:499-600 | an undisturbed quantum delivers at most 64 items from the front of the backlog in order, stops only after a poisoned callback, keeps the rest, and leaves the lane finished, idle or scheduled accordingly |
| `LaneHistory.EnqueueKeeps` | src/subscribers/subscriber_set.rs:250-276 | an enqueue keeps all lane invariants: ownership, phase, FIFO accounting, exact loss count, exact idle window |
| `LaneHistory.BeginCloseKeeps` | src/subscribers/subscriber_set.rs:284-302 | so does the start of a close |
| `LaneHistory.AbortKeeps` | src/subscribers/subscriber_set.rs:304-325 | so does an abort at any program point of the worker |
| `LaneHistory.WorkerKeeps` | src/subscribers/subscriber_set.rs:327-600 | so does every step of a shared or dedicated worker, including escaped panics, the handler that fails the lane, and panics of that handler |
| `Scheduler.SharedQueue.Schedule` | src/subscribers/subscriber_set.rs:196-203 | appends to the ready queue unless it is closed |
| `Scheduler.SharedQueue.Next` | src/subscribers/subscriber_set.rs:205-214 | takes the oldest ready lane; finds none only when closed and empty |
| `Scheduler.SharedQueue.Close` | src/subscribers/subscriber_set.rs:216-224 | closes and abandons what is ready |
| `Scheduler.Keeps` | src/subscribers/subscriber_set.rs:196-225 | every step of emitter, workers and closer keeps the system invariant: lanes, tokens, closing discipline, offers |
| `SchedulerTheorems.NoStrandedLane` | src/subscribers/subscriber_set.rs:250-276 | in every reachable state a lane with work is scheduled or running; a scheduled shared lane waits in exactly one place (or is about to be failed by the panic that interrupted its requeueing), idle and running ones in none, finished ones in at most one and only after an abort; a sleeping worker cannot overlook a scheduled lane |
| `SchedulerTheorems.SharedServiceIsSerial` | src/subscribers/subscriber_set.rs:378-388 | at most one shared lane is in service at a time |
| `SchedulerTheorems.DeliveryAccounting` | src/subscribers/subscriber_set.rs:901-917 | every lane is offered every emitted event in order; what it accepted is what callbacks got, then the queue, then what was discarded; the loss counter of a live lane is exactly the losses since its last report; at most one taken report never starts |
| `SchedulerTheorems.ReportCountsLossesBetween` | src/subscribers/subscriber_set.rs:548-562 | an overflow report counts exactly the ordinary events refused since the previous report and follows every event accepted before it |
| `SchedulerTheorems.DrainCompleteness` | src/subscribers/subscriber_set.rs:563-590 | a graceful end through finish, boundary or idle close loses nothing and leaves no loss unreported; an idle-recheck end discards exactly what was accepted and leaves unreported exactly what was refused after the decision to idle |
| `LaneRuns.EmissionOutcome` | src/subscribers/subscriber_set.rs:250-276 | an emitted event is queued if the lane is live and has room, counted (up to 64 bits, never an internal diagnostic) if it is full, ignored if it is finished; only an idle lane that takes an event gets a turn |
| `LaneRuns.ReportsClosedOnce` | src/subscribers/subscriber_set.rs:250-258 | over any run a lane reports itself closed at most once, and it did if and only if an ordinary event came after its end |
| `LaneRuns.EndHasItsCause` | src/subscribers/subscriber_set.rs:327-600 | over any run a finished lane ended by poison if and only if one of its callbacks left a poisoned payload, by unwinding if and only if a panic escaped a callback (or its requeueing, with no abort in between), and otherwise it was closing |
| `LaneRuns.NormalLaneLives` | src/subscribers/subscriber_set.rs:513-600 | a lane whose callbacks go normally and that nobody closes is never finished and throws nothing away |
| `LaneRuns.HandlerPublishes` | src/subscribers/subscriber_set.rs:366-376 | from whatever point a panic escaped, the handler leaves the lane finished, empty and signalled, and comes to publish |
| `LaneRuns.WorkerServesItsLane` | src/subscribers/subscriber_set.rs:499-600 | under any interference a worker takes what is in front of its lane each time it looks and every third step ends a callback, while there is work, no abort and no panic: for 64 callbacks of a shared lane, without limit for a dedicated one |
| `LaneRuns.UndisturbedWorkerServesBacklog` | src/subscribers/subscriber_set.rs:513-562 | a worker left alone gives its callback the lane's backlog from the front, item by item, as the quantum method does |
| `GracefulClose.CloseLosesExactly` | src/subscribers/subscriber_set.rs:284-302 | the state `begin_close` meets decides every graceful continuation: discarded is the queue and unreported the loss count if the worker is between the decision to idle and the recheck, and both are empty otherwise |
| `DrainWitness.GracefulCloseLosesAnEvent` | src/subscribers/subscriber_set.rs:567-571 | a concrete reachable run in which a graceful close throws away an accepted event |
| `SchedulerTheorems.OwnershipIsLinear` | src/subscribers/subscriber_set.rs:406-424 | the subscriber is in exactly one of slot, worker, closer and cleanup; the slot holds it exactly when idle or scheduled; the completion leaves once; the `expect` and `unreachable!` cannot fire |
| `SchedulerTheorems.CloseDiscipline` | src/subscribers/subscriber_set.rs:931-952 | no emission meets a closing lane, a closing lane is not idle, an aborted lane is running or finished, and the early return of a quantum leaves only finished lanes |
| `SchedulerTheorems.ClosedSet` | src/subscribers/subscriber_set.rs:953-980 | after close every lane is drained and final, or running under abort with its worker holding the subscriber |
| `Shutdown.AtMostOneLateCallback` | src/subscribers/subscriber_set.rs:304-325 | whatever happens after an abort, at most the one callback already taken still starts |
| `Quiescence.QuietStep` | src/subscribers/subscriber_set.rs:378-600 | while nobody emits, open or closing, every worker step lowers a natural measure and no step raises it |
| `Quiescence.UnsettledCanMove` | src/subscribers/subscriber_set.rs:378-425 | a lane that is neither idle nor finished has a worker that can move if and only if it is not a shared lane of a dead worker |
| `Quiescence.QuietSetSettles` | src/subscribers/subscriber_set.rs:378-600 | while nobody emits the worker steps are bounded; when none is left a lane is idle or finished if and only if it has no turn in a dead worker's queue, and then accepted is delivered plus discarded; an idle lane discarded nothing and reported every loss |
| `Shutdown.ClosingFinishes` | src/subscribers/subscriber_set.rs:931-980 | a run of a closing set has a bounded number of worker steps; when none is left a lane is finished if and only if it has no turn in a dead worker's queue, and in a closed set always |
| `Shutdown.CloserGetsThrough` | src/subscribers/subscriber_set.rs:931-980 | whatever workers and callbacks do, the closer takes at most 4n + 4 steps, and outside an emission it has none left if and only if the set is closed |
| `Shutdown.DrainSucceedsExactly` | src/subscribers/subscriber_set.rs:953-966 | once the workers of a closing set are at rest, close sees every lane completed, without its timeout, if and only if no lane has a turn with a dead worker |
| `Shutdown.AbortNeedsTimeout` | src/subscribers/subscriber_set.rs:953-980 | a run without the timeout and without dropping the set aborts no lane and cuts none short |
| `Shutdown.WorkerDiesExactly` | src/subscribers/subscriber_set.rs:366-388 | over any run the shared worker dies if and only if a panic leaves its own panic handler |
| `Shutdown.DeadWorkerStrands` | src/subscribers/subscriber_set.rs:366-388 | after its death no shared callback is taken or started in any continuation, and a scheduled lane stays scheduled unless it is aborted |
| `Shutdown.CloseFinishesStranded` | src/subscribers/subscriber_set.rs:953-980 | once the set is closed every shared lane of a dead worker is finished, empty, signalled, and its subscriber is with cleanup |
| `StrandedWitness.CloseCanStrandALane` | src/subscribers/subscriber_set.rs:366-388 | a concrete reachable closing set with an accepted event in a scheduled shared lane and no worker step left |
| `Bypass.BoundedBypass` | src/subscribers/subscriber_set.rs:196-214 | with n shared lanes at most 64(n-1) shared callbacks start between a lane's entry into the ready queue and the worker's entry into the lane |
| `Bypass.BoundedBypassOverRun` | src/subscribers/subscriber_set.rs:513-599 | in any stretch of any run through which a lane waits for its turn, at most 64(n-1) callbacks of shared lanes start |
| `SubscriberStart.SubscriberSet.StartWith` | src/subscribers/subscriber_set.rs:767-894 | start succeeds exactly when every needed worker can be spawned; a failure leaves the definitions pending, launches nothing and releases exactly the earlier launchers; not pending is a no-op |
| `SubscriberStart.SpawnWorkers` | src/subscribers/subscriber_set.rs:800-824 | workers are spawned in order up to the first failure |
| `SubscriberStart.Commit` | src/subscribers/subscriber_set.rs:826-887 | the commit hands launcher k the k-th launch of the plan; no launcher is missing and none is left over |
| `SubscriberStart.PlanServesOnlyLanes` | src/subscribers/subscriber_set.rs:793-800 | the plan has a shared launch only if some lane is shared, and dedicated launches only of dedicated lanes |
| `SubscriberStart.PlanServesEveryLane` | src/subscribers/subscriber_set.rs:793-800 | the plan has one launch per dedicated lane and one shared launch first if any lane is shared, all different, as many as workers are counted |
| `EventRing.EventRing.Publish` | src/events/bus.rs:226-240 | a full ring drops its oldest event and counts it; a closed one ignores the event; the caller must notify exactly on the empty edge |
| `EventRing.EventRing.PublishLazy` | src/events/bus.rs:219-249 | a disabled or closed bus ignores the event; an enabled open one keeps it as the newest, displacing and counting only when full |
| `EventRing.EventRing.TryMessage` | src/events/bus.rs:128-141 | takes the oldest event together with the whole loss count, or nothing |
| `EventRing.EventRing.CloseAndTakePending` | src/events/bus.rs:165-177 | disables and empties the ring and hands over its content |
| `EventRing.EventRing.Enable` | src/events/bus.rs:255-264 | enables only an open ring |
| `EventRing.Keeps` | src/events/bus.rs:128-264 | every step of publishers, receiver and notifier keeps the ring, wakeup and close invariants |
| `EventRing.RingRefinesPositions` | src/events/bus.rs:49-59 | after k receives with total reported loss D the ring is the published suffix from k + D + pending loss, never longer than the capacity |
| `EventRing.RingHoldsNewest` | src/events/bus.rs:49-59 | an open ring is exactly the newest unread events, as many as fit, and its loss count is the number of the others up to 64 bits |
| `EventRing.MessagesAreExact` | src/events/bus.rs:128-141 | messages come in publication order, each with the exact number of events skipped before it, and every receive advances |
| `EventRing.NoLostWakeup` | src/events/bus.rs:144-154 | a receiver parked without notification on a nonempty ring has a publisher that still owes one; inside `recv` something can always move |
| `EventRing.NotifiedReceiverReads` | src/events/bus.rs:144-154 | a notification lets the parked receiver wake, look and take the oldest event |
| `EventRing.CloseIsFinal` | src/events/bus.rs:165-177 | closing hands over the unread suffix and its exact loss; whatever late publishers and enables do, the bus stays disabled and empty and nothing more is published |
| `RingRuns.AdmittedEnters` | src/events/bus.rs:219-240 | over any run what a publisher offered while the bus was enabled enters the ring in order, except what it is still about to insert or a close cut off, and nothing else of it enters |
| `RingRuns.SentIsEntered` | src/events/bus.rs:226-240 | the published sequence grows by the insertions of a run, in their order, and by nothing else |
| `RingRuns.PublicationEnters` | src/events/bus.rs:219-249 | on an enabled bus a check and a later insertion add exactly that event, whatever others do in between, unless the ring closed; the publisher owes a notification exactly on the empty edge |
| `RingRuns.EnabledUntilClosed` | src/events/bus.rs:255-285 | the bus is enabled exactly from the first enable or receiver to the close |
| `RingRuns.DisabledBusIsSilent` | src/events/bus.rs:219-224 | a run that enables nothing publishes nothing |
| `RingRuns.ReceiverIsTakenOnce` | src/events/bus.rs:275-285 | the receiver is taken at most once |
| `RingRuns.LookingReceives` | src/events/bus.rs:128-162 | looking at a nonempty ring takes its oldest event with the whole loss count; at an empty one it takes nothing and `recv` parks |
| `RingRuns.DrainGetsNewest` | src/events/bus.rs:128-162 | draining an open ring yields exactly the newest unread events in order, and the first message carries the exact loss |
| `RingRuns.NotificationIsKept` | src/events/bus.rs:144-154 | a notification stays until the receiver uses it, also if the receiver was not waiting yet, and a receiver that parks meanwhile can wake |
| `RingRuns.CancelPassesOn` | src/events/bus.rs:144-154 | a receiver that gives up waiting has taken nothing and passes on the notification that woke it |
| `AttemptRunner.DisposePanicPayload` | src/core/runner.rs:206-217 | a payload whose destructor panics raises the poison flag |
| `AttemptRunner.CatchPanic.DropFuture` | src/core/runner.rs:108-127 | destroys a future that is present, once, and reports a destructor panic |
| `AttemptRunner.CatchPanic.Poll` | src/core/runner.rs:141-180 | a completing poll destroys the future exactly once; its result is clean, the task's error, or a panic, and says whether any destructor panicked |
| `AttemptRunner.EndByFirstTurn` | src/core/runner.rs:295-356 | the first turn that does not keep the future waiting decides the attempt: abort, timeout, success, the task's own error, or a panic, with the exact cleanup flag |
| `AttemptRunner.EndWithoutTurn` | src/core/runner.rs:295-312 | an attempt is in flight exactly while every turn keeps it waiting; a spawn that panics fails it at once with a panic failure |
| `AttemptRunner.SuccessExactly` | src/core/runner.rs:314-340 | an attempt succeeds if and only if a future was spawned, became ready with success, and was destroyed cleanly |
| `AttemptRunner.RunOnce` | src/core/runner.rs:279-356 | it returns success exactly then, and a panicking spawn as that failure; on every path the future is destroyed exactly once; a returning attempt publishes one terminal event that matches its result; AttemptTimedOut only for a timer with clean destruction; cleanup panics are visible in the result; Canceled never carries one; the first decisive turn decides |
| `TaskActor.ClassifyAttempt` | src/core/actor.rs:102-136 | retry exactly for a retryable failure within policy and limit whose error is destroyed cleanly; a cleanup panic is never retried; the rest is final |
| `TaskActor.TaskActor.Attempt` | src/core/actor.rs:263-296 | an attempt starts with a clear poison flag, is numbered, run and judged with the current counter; afterwards the flag is raised exactly if a panic payload of the attempt or of its dropped error could not be destroyed |
| `TaskActor.TaskActor.Settle` | src/core/actor.rs:298-413 | success resets the counter, a retry increments it, and exit and sleep are the ones the decision selects |
| `TaskActor.TaskActor.Turn` | src/core/actor.rs:237-296 | one turn of the loop: no attempt starts after a cancellation or on a closed semaphore, an unfinished attempt ends the run or is still in flight, a finished one is recorded and settled |
| `TaskActor.TaskActor.Run` | src/core/actor.rs:231-416 | the loop consumes its cycles in order, stops exactly at the first selected exit, and its trace has exact attempt numbers, counters, decisions and sleeps; the poison flag it leaves is raised exactly if the last attempt raised it |
| `TaskActor.ExitFits` | src/core/actor.rs:298-413 | the exit of a run fits its last finished attempt |
| `TaskActor.RetryBudget` | src/core/actor.rs:304-306 | with limit m no failure streak is longer than m + 1, and each backoff index is the number of earlier failures in its streak, below m |
| `TaskActor.BackoffIndexesAreConsecutive` | src/core/actor.rs:304-322 | indexes in a streak are 0, 1, 2 and so on, and start again after a success |
| `TaskActor.AttemptBudget` | src/core/actor.rs:102-128 | at most m + 1 attempts under OnFailure with limit m, at most one under Never |
| `TaskActor.RetryLimitReason` | src/core/actor.rs:384-412 | the retry-limit reason occurs exactly when a retry-allowing policy meets a retryable failure with the counter at the limit |
| `TaskActor.PanickedExactly` | src/core/actor.rs:298-303 | a run exits Panicked if and only if its last finished attempt met a cleanup panic, and the exit says poisoned exactly if a panic payload of that attempt could not be destroyed |
| `TaskActor.CleanupPanicIsTerminal` | src/core/actor.rs:298-303 | an attempt with a cleanup panic is the last one, and no attempt starts with the flag raised |
| `TaskActor.DelaysOfRun` | src/core/actor.rs:304-347 | over a whole run the k-th retry of a streak sleeps the policy's delay with index k, within floor and cap, and an attempt after a success starts at least a millisecond after its start, after exactly the interval or the missing time |
| `TaskActor.PlainDelaysOfRun` | src/core/actor.rs:304-306 | without jitter and with a whole factor f the k-th retry of a streak sleeps first * f^k, within least delay and cap |
| `TaskActor.StreakDelaysMultiply` | src/core/actor.rs:304-306 | without jitter, for every factor, a retry sleeps the factor times as long as the one before, up to rounding, between least delay and cap |
| `TaskActor.StreakDelaysGrow` | src/core/actor.rs:304-306 | without jitter the sleeps of one failure streak never get shorter |
| `TaskActor.FlooredInterval` | src/core/actor.rs:46-53 | the delay after a success is at least the interval and keeps starts one millisecond apart, and no longer than one of the two requires |
| `ActorExits.ExitExactly` | src/core/actor.rs:237-416 | each exit of a run if and only if what happened in its last cycle: completed after a clean success that nothing repeats or cancels, canceled by one of five cancellations, aborted, still running, fatal, or stopped for retries |
| `ActorExits.RetriedExactly` | src/core/actor.rs:102-136 | an attempt is retried if and only if it failed with a timeout or plain failure (panics included), everything was destroyed cleanly, the policy restarts, and fewer failures than the limit precede it in its streak |
| `ConcurrencyLimit.Keeps` | src/core/actor.rs:241-296 | every step of any actor, including aborts, conserves permits and keeps the guards nested |
| `ConcurrencyLimit.ConcurrencyIsBounded` | src/core/actor.rs:141-155 | over every run, permits are conserved, a live future has an active flag and an active flag a permit, active attempts never exceed the limit, and one actor's attempts never overlap |
| `ConcurrencyLimit.HolderCanMove` | src/core/actor.rs:288-296 | when all permits are out some holder has a step of its own |
| `ConcurrencyLimit.HolderReleases` | src/core/actor.rs:259-296 | a holder returns its permit by at most five steps of its own, once its future ends, and nothing else changes |
| `ConcurrencyLimit.ActorsAreIndependent` | src/core/actor.rs:237-347 | in any run an actor's guards and future depend on its own actions alone |
| `ConcurrencyLimit.TurnHoldsItsGuards` | src/core/actor.rs:241-296 | at each point of a turn exactly the guards the loop declares are held, and the turn ends where it began |
| `ConcurrencyLimit.TurnGoesOn` | src/core/actor.rs:241-296 | each point of the turn enables the next action, except that acquiring needs a free permit |
| `ConcurrencyLimit.AbortDropsInOrder` | src/core/actor.rs:263-296 | an abort inside an attempt drops future, activity flag and permit in this order |
| `ConcurrencyLimit.EndIsFinal` | src/core/actor.rs:237-347 | an actor is gone exactly when it was canceled, exited or aborted; then it holds nothing, its permit is back, and it never moves again |
| `Backoff.NanosRoundTrip` | src/policies/jitter.rs:141-147 | the nanosecond conversion is exact up to the largest duration and only there |
| `Backoff.DurationRoundTrip` | src/policies/jitter.rs:141-147 | converting a duration to nanoseconds and back gives the same duration |
| `Backoff.BuiltIsValid` | src/policies/backoff.rs:136-243 | every accepted builder chain keeps first and floor at most max and the factor at least one |
| `Backoff.RefusedExactly` | src/policies/backoff.rs:136-155 | a chain is refused exactly for a factor below one or a first delay above the maximum of its constructor |
| `Backoff.LastSettingCounts` | src/policies/backoff.rs:219-243 | later builder settings replace earlier ones, cut by the cap |
| `Backoff.WholeFactorGrowth` | src/policies/backoff.rs:289-298 | with a whole factor k the base delay of retry n is first * k^n, cut off at the cap |
| `Backoff.FactorGrowth` | src/policies/backoff.rs:289-298 | for every factor, below the cap, the next base delay is the factor times this one, up to rounding each to a nanosecond |
| `Backoff.DocumentedSequences` | src/policies/backoff.rs:110-211 | a constant policy stays, an exponential one doubles up to its cap, the default doubles from 200 ms to 30 s |
| `Backoff.ReadyMadeDelays` | src/policies/backoff.rs:110-211 | the actual delays of these policies, with the one-millisecond guard and the default's equal jitter |
| `Backoff.DelayExactly` | src/policies/backoff.rs:299-315 | a delay is the jittered draw raised to the policy's least delay and no further |
| `Backoff.PlainDelay` | src/policies/backoff.rs:289-315 | without jitter and with a whole factor k, retry n waits first * k^n within least delay and cap |
| `Backoff.PlainDelayStep` | src/policies/backoff.rs:289-315 | without jitter and between the limits the next delay is the factor times this one, up to rounding |
| `Backoff.BaseMonotone` | src/policies/backoff.rs:289-298 | the base delay never decreases with the retry index, over all indexes and overflow |
| `Backoff.BaseAtLeastFirst` | src/policies/backoff.rs:289-298 | the base delay starts at first and stays between first and max |
| `Backoff.JitterRange` | src/policies/jitter.rs:84-138 | every draw stays in its jitter's documented range, up to the largest duration |
| `Backoff.JitterCoversRange` | src/policies/jitter.rs:99-138 | every value of the documented range is drawn by some outcome |
| `Backoff.DelayBounds` | src/policies/backoff.rs:289-315 | for every chain, index and draw the delay is between floor and max, at least a millisecond (or max) for a non-zero first delay, and just the floor for a zero one |
| `Backoff.DelayMonotoneWithoutJitter` | src/policies/backoff.rs:289-315 | without jitter the delay never decreases along a streak |
| `Sequences.Sequence.Next` | src/identity.rs:55-61 | returns the current value and advances it, or fails at the sentinel |
| `Sequences.SwapLosesOnlyToOthers` | src/identity.rs:55-61 | a caller that saw the current value is issued exactly that value if and only if nobody was issued one in between |
| `Sequences.FailureTeaches` | src/identity.rs:55-61 | a failed swap leaves the caller with the current value, and at the sentinel the call fails without effect |
| `Sequences.KthAllocationIsK` | src/identity.rs:33-61 | under any interleaving of compare-and-swap loops the k-th success returns k; values are distinct and non-zero |
| `Sequences.ExhaustionIsFinal` | src/events/event.rs:68-85 | a call fails only after every 64-bit value was issued, and then nothing is ever issued again |

## Left out

- Registry, supervisor core, event relay, deferred-drop broker and controller: not part of this model; handing a subscriber to cleanup is one step.
- Dropping the `close` future at its await point: the model assumes that a close, once begun, runs to its end; dropping it would detach the workers with lanes still scheduled.
- `Bus` diagnostics published by lanes, attempts and actors: which events are published is modelled for attempts only, and their delivery only in `EventRing`.
- LaneState.SubscriberLane.RunSharedQuantum: describes a quantum without interference; the interleaved quantum is the `LaneStep` of `Scheduler`, as value-level steps, because other parties act between its lock scopes.
- `run_dedicated_lane` as a loop: only as steps of `Scheduler`, for the same reason.
- ConcurrencyLimit.ConcurrencyIsBounded: actors without a semaphore and a closed semaphore are not modelled there, because no limit is claimed for them; `TaskActor` has both.
- Clocks: the elapsed time of an attempt and whether a sleep completes before cancellation are inputs of `TaskActor`.
- Error texts, reasons, exit codes and event payloads: carried through unchanged in the original.
- Exact 64-bit float rounding of the growth factor and the distribution of random draws.
- Configuration setters, error enums, labels, snapshots and metadata checks of subscribers: they would only add easy members.
- Operating-system threads, timers and signals: a spawn, a timer or a wakeup is an input or an enabled step.
