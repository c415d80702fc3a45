/** Startup of the subscriber set: all workers are spawned before anything is committed. */
module SubscriberStart {

  datatype Definition = Definition(name: nat, capacity: nat, dedicated: bool)

  /** What a spawned worker is told to run. */
  datatype Launch = SharedWorker | DedicatedWorker(lane: nat)

  datatype SetState =
    | Pending(definitions: seq<Definition>)
    | Started(lanes: seq<Definition>, hasShared: bool, workers: nat)
    | SetClosed

  datatype StartResult = Ok | RuntimeUnavailable | ThreadStartFailed

  predicate AnyShared(defs: seq<Definition>) {
    exists i :: 0 <= i < |defs| && !defs[i].dedicated
  }

  function CountDedicated(defs: seq<Definition>): nat {
    if defs == [] then 0
    else CountDedicated(defs[..|defs| - 1]) + if defs[|defs| - 1].dedicated then 1 else 0
  }

  function WorkerCount(defs: seq<Definition>): nat {
    (if AnyShared(defs) then 1 else 0) + CountDedicated(defs)
  }

  /** The launches of the dedicated lanes, in lane order. */
  function DedicatedLaunches(defs: seq<Definition>): seq<Launch> {
    if defs == [] then []
    else
      DedicatedLaunches(defs[..|defs| - 1])
      + if defs[|defs| - 1].dedicated then [DedicatedWorker(|defs| - 1)] else []
  }

  /** Launcher `k` gets the `k`-th launch: the shared worker first, if there is one. */
  function LaunchPlan(defs: seq<Definition>): seq<Launch> {
    (if AnyShared(defs) then [SharedWorker] else []) + DedicatedLaunches(defs)
  }

  lemma {:induction false} LaunchCount(defs: seq<Definition>)
    ensures |DedicatedLaunches(defs)| == CountDedicated(defs)
  {
    if defs != [] {
      LaunchCount(defs[..|defs| - 1]);
    }
  }

  lemma {:induction false} CountDedicatedMonotone(defs: seq<Definition>, i: nat)
    requires i <= |defs|
    ensures CountDedicated(defs[..i]) <= CountDedicated(defs)
    decreases |defs| - i
  {
    if i == |defs| {
      assert defs[..i] == defs;
    } else {
      CountDedicatedMonotone(defs, i + 1);
      assert defs[..i + 1][..i] == defs[..i];
    }
  }

  /** The plan launches nothing else: the shared worker only for a shared lane, a dedicated worker only for a dedicated lane. */
  lemma {:induction false} PlanServesOnlyLanes(defs: seq<Definition>, k: nat)
    requires k < |LaunchPlan(defs)|
    ensures match LaunchPlan(defs)[k]
            case SharedWorker => k == 0 && exists i :: 0 <= i < |defs| && !defs[i].dedicated
            case DedicatedWorker(lane) => lane < |defs| && defs[lane].dedicated
  {
    LaunchesIncrease(defs);
  }

  /** The plan serves every lane once: each launch is the shared worker or one dedicated lane, and each dedicated lane has exactly one launch. */
  lemma {:induction false} PlanServesEveryLane(defs: seq<Definition>, lane: nat)
    requires lane < |defs|
    ensures defs[lane].dedicated ==>
              exists k :: 0 <= k < |LaunchPlan(defs)| && LaunchPlan(defs)[k] == DedicatedWorker(lane)
    ensures !defs[lane].dedicated ==> LaunchPlan(defs) != [] && LaunchPlan(defs)[0].SharedWorker?
    ensures forall k, m | 0 <= k < m < |LaunchPlan(defs)| :: LaunchPlan(defs)[k] != LaunchPlan(defs)[m]
    ensures |LaunchPlan(defs)| == WorkerCount(defs)
  {
    LaunchCount(defs);
    LaunchesIncrease(defs);
    if defs[lane].dedicated {
      var j := LaunchOf(defs, lane);
      var shift := if AnyShared(defs) then 1 else 0;
      assert LaunchPlan(defs)[j + shift] == DedicatedWorker(lane);
    }
  }

  /** Launches of dedicated lanes only, in increasing lane order. */
  predicate Increasing(ls: seq<Launch>, defs: seq<Definition>) {
    && (forall k | 0 <= k < |ls| :: ls[k].DedicatedWorker? && ls[k].lane < |defs| && defs[ls[k].lane].dedicated)
    && (forall k, m | 0 <= k < m < |ls| :: ls[k].lane < ls[m].lane)
  }

  lemma {:induction false} LaunchesIncrease(defs: seq<Definition>)
    ensures Increasing(DedicatedLaunches(defs), defs)
  {
    if defs != [] {
      var init := defs[..|defs| - 1];
      LaunchesIncrease(init);
      var rest := DedicatedLaunches(init);
      assert Increasing(rest, init);
      assert Increasing(rest, defs);
    }
  }

  lemma {:induction false} LaunchOf(defs: seq<Definition>, lane: nat) returns (k: nat)
    requires lane < |defs| && defs[lane].dedicated
    ensures k < |DedicatedLaunches(defs)| && DedicatedLaunches(defs)[k] == DedicatedWorker(lane)
    decreases |defs|
  {
    if lane == |defs| - 1 {
      k := |DedicatedLaunches(defs)| - 1;
    } else {
      k := LaunchOf(defs[..|defs| - 1], lane);
    }
  }

  /** The indexes below `n`, in order. */
  function UpTo(n: nat): seq<nat> {
    seq(n, i => i)
  }

  class SubscriberSet {
    var state: SetState

    constructor (definitions: seq<Definition>)
      ensures state == Pending(definitions)
    {
      state := Pending(definitions);
    }

    /**
     `spawn(k)` says whether the k-th worker thread can be started. `released` are launchers dropped without a launch,
     `launches[k]` is what launcher k was told to run.
     */
    method StartWith(runtimeAvailable: bool, spawn: nat -> bool)
      returns (r: StartResult, released: seq<nat>, launches: seq<Launch>)
      modifies this
      ensures !old(state).Pending? ==> r == Ok && state == old(state) && released == [] && launches == []
      ensures old(state).Pending? ==>
                var defs := old(state).definitions;
                && (r == RuntimeUnavailable <==> !runtimeAvailable)
                // success exactly when every needed worker starts: the plan is carried out, no launcher is left over
                && (r == Ok <==> runtimeAvailable && forall k: nat | k < WorkerCount(defs) :: spawn(k))
                && (r == Ok ==>
                      && state == Started(defs, AnyShared(defs), WorkerCount(defs))
                      && launches == LaunchPlan(defs) && released == [])
                // any failure leaves the definitions pending, launches nothing and releases every earlier launcher
                && (r != Ok ==> state == old(state) && launches == [])
                && (r == RuntimeUnavailable ==> released == [])
                && (r == ThreadStartFailed ==>
                      exists k: nat :: k < WorkerCount(defs) && !spawn(k) && released == UpTo(k)
                                       && forall j: nat | j < k :: spawn(j))
    {
      released, launches := [], [];
      if !state.Pending? {
        return Ok, released, launches;
      }
      var defs := state.definitions;
      if !runtimeAvailable {
        return RuntimeUnavailable, released, launches;
      }
      if |defs| == 0 {
        state := Started([], false, 0);
        return Ok, released, launches;
      }
      var started, launchers := SpawnWorkers(WorkerCount(defs), spawn);
      if !started {
        return ThreadStartFailed, launchers, launches;
      }
      launches := Commit(defs, launchers);
      state := Started(defs, AnyShared(defs), |launches|);
      LaunchCount(defs);
      return Ok, released, launches;
    }
  }

  /** Starts worker threads until one cannot be started; `launchers` are those that were. */
  method SpawnWorkers(count: nat, spawn: nat -> bool) returns (started: bool, launchers: seq<nat>)
    ensures started <==> forall k: nat | k < count :: spawn(k)
    ensures started ==> launchers == UpTo(count)
    ensures !started ==>
              |launchers| < count && !spawn(|launchers|) && launchers == UpTo(|launchers|)
              && forall j: nat | j < |launchers| :: spawn(j)
  {
    launchers := [];
    for index := 0 to count
      invariant launchers == UpTo(index)
      invariant forall j: nat | j < index :: spawn(j)
    {
      if !spawn(index) {
        return false, launchers;
      }
      launchers := launchers + [index];
    }
    started := true;
  }

  /** Hands one launch to each launcher, in order: no launcher is missing when it is needed, and none is left over. */
  method Commit(defs: seq<Definition>, launchers: seq<nat>) returns (launches: seq<Launch>)
    requires launchers == UpTo(WorkerCount(defs))
    ensures launches == LaunchPlan(defs)
  {
    launches := [];
    var next := 0;
    if AnyShared(defs) {
      // the launcher taken here exists, and it is the one with this index
      assert launchers[next] == |launches|;
      launches := [SharedWorker];
      next := 1;
    }
    ghost var first := launches;
    for i := 0 to |defs|
      invariant launches == first + DedicatedLaunches(defs[..i])
      invariant next == |launches| == |first| + CountDedicated(defs[..i])
    {
      CountDedicatedMonotone(defs, i + 1);
      assert defs[..i + 1][..i] == defs[..i];
      if defs[i].dedicated {
        assert launchers[next] == |launches|;
        launches := launches + [DedicatedWorker(i)];
        next := next + 1;
      }
    }
    assert defs[..|defs|] == defs;
    assert next == |launchers|;
  }
}
