/**
 Any number of task actors sharing one attempt semaphore, each of which may be canceled between steps or
 aborted at any suspension point. Guards are dropped in the order the actor declares them: the attempt future first,
 then the activity flag, then the permit.
 */
module ConcurrencyLimit {

  /** Where an actor stands. `Aborted*` are the remaining steps of an abort that hit an attempt. */
  datatype Pc =
    | Top
    | AwaitingPermit
    | Permitted
    | Active
    | InAttempt
    | Judging
    | Inactive
    | Sleeping
    | AbortedInAttempt
    | AbortedActive
    | AbortedPermitted
    | Gone

  /** `futures` counts live user futures of the actor. */
  datatype Actor = Actor(pc: Pc, holdsPermit: bool, active: bool, futures: nat)

  datatype Pool = Pool(limit: nat, available: nat, actors: seq<Actor>)

  /** `stops` is what the environment decides: cancellation, or an exit selected by the policy. */
  datatype Action =
    | Loop(stops: bool)
    | Acquire
    | GiveUpWaiting
    | Recheck(stops: bool)
    | Spawn(panics: bool)
    | FutureEnds
    | DropActivity
    | DropPermit(stops: bool)
    | Wake(stops: bool)
    | Abort
    | AbortDestroysFuture
    | AbortDropsActivity
    | AbortDropsPermit

  const FRESH := Actor(Top, false, false, 0)

  predicate Initial(s: Pool) {
    s.available == s.limit && forall i | 0 <= i < |s.actors| :: s.actors[i] == FRESH
  }

  predicate Enabled(s: Pool, i: nat, a: Action) {
    i < |s.actors| &&
    var pc := s.actors[i].pc;
    match a
    case Loop(_) => pc.Top?
    case Acquire => pc.AwaitingPermit? && s.available > 0
    case GiveUpWaiting => pc.AwaitingPermit?
    case Recheck(_) => pc.Permitted?
    case Spawn(_) => pc.Active?
    case FutureEnds => pc.InAttempt?
    case DropActivity => pc.Judging?
    case DropPermit(_) => pc.Inactive?
    case Wake(_) => pc.Sleeping?
    case Abort => pc.AwaitingPermit? || pc.InAttempt? || pc.Sleeping?
    case AbortDestroysFuture => pc.AbortedInAttempt?
    case AbortDropsActivity => pc.AbortedActive?
    case AbortDropsPermit => pc.AbortedPermitted?
  }

  function Less(n: nat): nat {
    if n == 0 then 0 else n - 1
  }

  /** The actor after its step. */
  function Move(x: Actor, a: Action): Actor {
    match a
    case Loop(stops) => x.(pc := if stops then Gone else AwaitingPermit)
    case Acquire => x.(pc := Permitted, holdsPermit := true)
    case GiveUpWaiting => x.(pc := Gone)
    case Recheck(stops) =>
      if stops then x.(pc := Gone, holdsPermit := false) else x.(pc := Active, active := true)
    case Spawn(panics) => if panics then x.(pc := Judging) else x.(pc := InAttempt, futures := x.futures + 1)
    case FutureEnds => x.(pc := Judging, futures := Less(x.futures))
    case DropActivity => x.(pc := Inactive, active := false)
    case DropPermit(stops) => x.(pc := if stops then Gone else Sleeping, holdsPermit := false)
    case Wake(stops) => x.(pc := if stops then Gone else Top)
    case Abort => x.(pc := if x.pc.InAttempt? then AbortedInAttempt else Gone)
    case AbortDestroysFuture => x.(pc := AbortedActive, futures := Less(x.futures))
    case AbortDropsActivity => x.(pc := AbortedPermitted, active := false)
    case AbortDropsPermit => x.(pc := Gone, holdsPermit := false)
  }

  function Apply(s: Pool, i: nat, a: Action): Pool
    requires Enabled(s, i, a)
  {
    var released := match a case Recheck(stops) => stops case DropPermit(_) => true case AbortDropsPermit => true case _ => false;
    s.(actors := s.actors[i := Move(s.actors[i], a)],
       available := if a.Acquire? then s.available - 1 else if released then s.available + 1 else s.available)
  }

  // ------------------------------------------------------------ runs

  predicate Run(s: Pool, steps: seq<(nat, Action)>)
    decreases |steps|
  {
    steps == [] || (Enabled(s, steps[0].0, steps[0].1) && Run(Apply(s, steps[0].0, steps[0].1), steps[1..]))
  }

  function After(s: Pool, steps: seq<(nat, Action)>): Pool
    requires Run(s, steps)
    decreases |steps|
  {
    if steps == [] then s else After(Apply(s, steps[0].0, steps[0].1), steps[1..])
  }

  // ------------------------------------------------------------ invariant

  /** The guards an actor holds at each point. */
  predicate ActorInv(x: Actor) {
    match x.pc
    case Permitted => x == Actor(Permitted, true, false, 0)
    case Active => x == Actor(Active, true, true, 0)
    case InAttempt => x == Actor(InAttempt, true, true, 1)
    case Judging => x == Actor(Judging, true, true, 0)
    case Inactive => x == Actor(Inactive, true, false, 0)
    case AbortedInAttempt => x == Actor(AbortedInAttempt, true, true, 1)
    case AbortedActive => x == Actor(AbortedActive, true, true, 0)
    case AbortedPermitted => x == Actor(AbortedPermitted, true, false, 0)
    case _ => x == Actor(x.pc, false, false, 0)
  }

  function Total(xs: seq<Actor>, f: Actor -> nat): nat {
    if xs == [] then 0 else f(xs[0]) + Total(xs[1..], f)
  }

  function Held(x: Actor): nat {
    if x.holdsPermit then 1 else 0
  }

  function ActiveCount(x: Actor): nat {
    if x.active then 1 else 0
  }

  function Futures(x: Actor): nat {
    x.futures
  }

  lemma {:induction false} TotalUpdated(xs: seq<Actor>, i: nat, x: Actor, f: Actor -> nat)
    requires i < |xs|
    ensures Total(xs[i := x], f) + f(xs[i]) == Total(xs, f) + f(x)
  {
    if i == 0 {
      assert xs[0 := x][1..] == xs[1..];
    } else {
      assert xs[i := x][1..] == xs[1..][i - 1 := x];
      TotalUpdated(xs[1..], i - 1, x, f);
    }
  }

  lemma {:induction false} TotalMonotone(xs: seq<Actor>, f: Actor -> nat, g: Actor -> nat)
    requires forall i | 0 <= i < |xs| :: f(xs[i]) <= g(xs[i])
    ensures Total(xs, f) <= Total(xs, g)
  {
    if xs != [] {
      assert f(xs[0]) <= g(xs[0]);
      TotalMonotone(xs[1..], f, g);
    }
  }

  predicate Inv(s: Pool) {
    && s.available + Total(s.actors, Held) == s.limit
    && forall i | 0 <= i < |s.actors| :: ActorInv(s.actors[i])
  }

  lemma {:induction false} NoneHeld(xs: seq<Actor>)
    requires forall i | 0 <= i < |xs| :: xs[i] == FRESH
    ensures Total(xs, Held) == 0
  {
    if xs != [] {
      NoneHeld(xs[1..]);
    }
  }

  lemma {:induction false} Keeps(s: Pool, i: nat, a: Action)
    requires Inv(s) && Enabled(s, i, a)
    ensures Inv(Apply(s, i, a))
  {
    TotalUpdated(s.actors, i, Move(s.actors[i], a), Held);
  }

  lemma {:induction false} RunKeeps(s: Pool, steps: seq<(nat, Action)>)
    requires Inv(s) && Run(s, steps)
    ensures Inv(After(s, steps)) && After(s, steps).limit == s.limit
    decreases |steps|
  {
    if steps != [] {
      Keeps(s, steps[0].0, steps[0].1);
      RunKeeps(Apply(s, steps[0].0, steps[0].1), steps[1..]);
    }
  }

  /**
   The concurrency limit, over every run of any number of actors: permits are conserved, every live future is covered by
   an active flag and every active flag by a permit, so neither active attempts nor live futures ever exceed the limit,
   and one actor never has two live futures.
   */
  lemma {:induction false} ConcurrencyIsBounded(init: Pool, steps: seq<(nat, Action)>, i: nat)
    requires Initial(init) && Run(init, steps) && i < |After(init, steps).actors|
    ensures var s := After(init, steps);
            && s.available + Total(s.actors, Held) == init.limit
            && (s.actors[i].active ==> s.actors[i].holdsPermit)
            && (s.actors[i].futures > 0 ==> s.actors[i].active)
            && s.actors[i].futures <= 1
            && Total(s.actors, ActiveCount) <= init.limit
            && Total(s.actors, Futures) <= Total(s.actors, ActiveCount)
  {
    NoneHeld(init.actors);
    RunKeeps(init, steps);
    var s := After(init, steps);
    assert ActorInv(s.actors[i]);
    GuardsNest(s.actors);
  }

  lemma {:induction false} GuardsNest(xs: seq<Actor>)
    requires forall i | 0 <= i < |xs| :: ActorInv(xs[i])
    ensures Total(xs, Futures) <= Total(xs, ActiveCount) <= Total(xs, Held)
  {
    forall i | 0 <= i < |xs| ensures Futures(xs[i]) <= ActiveCount(xs[i]) <= Held(xs[i]) {
      assert ActorInv(xs[i]);
    }
    TotalMonotone(xs, Futures, ActiveCount);
    TotalMonotone(xs, ActiveCount, Held);
  }

  /** No permit is stuck: when all permits are out, some holder has a step of its own. */
  lemma {:induction false} HolderCanMove(s: Pool) returns (i: nat, a: Action)
    requires Inv(s) && s.limit > 0 && s.available == 0
    ensures Enabled(s, i, a) && s.actors[i].holdsPermit
  {
    i := FindHolder(s.actors);
    assert ActorInv(s.actors[i]);
    match s.actors[i].pc
    case Permitted => a := Recheck(false);
    case Active => a := Spawn(false);
    case InAttempt => a := FutureEnds;
    case Judging => a := DropActivity;
    case Inactive => a := DropPermit(false);
    case AbortedInAttempt => a := AbortDestroysFuture;
    case AbortedActive => a := AbortDropsActivity;
    case AbortedPermitted => a := AbortDropsPermit;
    case _ => assert false;
  }

  lemma {:induction false} FindHolder(xs: seq<Actor>) returns (i: nat)
    requires Total(xs, Held) > 0
    ensures i < |xs| && xs[i].holdsPermit
  {
    if xs[0].holdsPermit {
      i := 0;
    } else {
      var j := FindHolder(xs[1..]);
      i := j + 1;
    }
  }

  // ------------------------------------------------------------ the life of one actor

  /** The actions of actor `i` in a run, in order. */
  function ActionsOf(steps: seq<(nat, Action)>, i: nat): seq<Action> {
    if steps == [] then []
    else (if steps[0].0 == i then [steps[0].1] else []) + ActionsOf(steps[1..], i)
  }

  function MoveAll(x: Actor, actions: seq<Action>): Actor
    decreases |actions|
  {
    if actions == [] then x else MoveAll(Move(x, actions[0]), actions[1..])
  }

  /** Actors meet only at the semaphore: what an actor does to its guards and its future depends on its own actions alone. */
  lemma {:induction false} ActorsAreIndependent(s: Pool, steps: seq<(nat, Action)>, i: nat)
    requires Run(s, steps) && i < |s.actors|
    ensures i < |After(s, steps).actors| && After(s, steps).actors[i] == MoveAll(s.actors[i], ActionsOf(steps, i))
    decreases |steps|
  {
    if steps != [] {
      var s', own := Apply(s, steps[0].0, steps[0].1), ActionsOf(steps[1..], i);
      ActorsAreIndependent(s', steps[1..], i);
      if steps[0].0 == i {
        assert ActionsOf(steps, i) == [steps[0].1] + own;
        assert ([steps[0].1] + own)[1..] == own;
      } else {
        assert ActionsOf(steps, i) == [] + own == own;
      }
    }
  }

  /** One turn of the loop with an attempt that runs and a sleep that completes. */
  const TURN: seq<Action> :=
    [Loop(false), Acquire, Recheck(false), Spawn(false), FutureEnds, DropActivity, DropPermit(false), Wake(false)]

  const TURN_PCS: seq<Pc> := [Top, AwaitingPermit, Permitted, Active, InAttempt, Judging, Inactive, Sleeping, Top]

  lemma {:induction false} MoveAllAppended(x: Actor, actions: seq<Action>, a: Action)
    ensures MoveAll(x, actions + [a]) == Move(MoveAll(x, actions), a)
    decreases |actions|
  {
    if actions == [] {
      assert (actions + [a])[1..] == [];
    } else {
      assert (actions + [a])[1..] == actions[1..] + [a];
      MoveAllAppended(Move(x, actions[0]), actions[1..], a);
    }
  }

  /**
   A turn, action by action: the permit is held from the second action to the seventh, the activity flag
   from the third to the sixth, the future lives from the fourth to the fifth, and the actor ends where it began.
   */
  lemma {:induction false} TurnHoldsItsGuards(k: nat)
    requires k <= |TURN|
    ensures MoveAll(FRESH, TURN[..k]) == Actor(TURN_PCS[k], 2 <= k < 7, 3 <= k < 6, if k == 4 then 1 else 0)
  {
    if k > 0 {
      TurnHoldsItsGuards(k - 1);
      MoveAllAppended(FRESH, TURN[..k - 1], TURN[k - 1]);
      assert TURN[..k] == TURN[..k - 1] + [TURN[k - 1]];
    }
  }

  /** An actor at any point of its turn can take the turn's next action, as far as there is a permit to acquire. */
  lemma {:induction false} TurnGoesOn(s: Pool, i: nat, k: nat)
    requires k < |TURN| && i < |s.actors| && s.actors[i] == MoveAll(FRESH, TURN[..k])
    ensures Enabled(s, i, TURN[k]) <==> (k == 1 ==> s.available > 0)
    ensures Enabled(s, i, TURN[k]) ==>
              Apply(s, i, TURN[k]).available == if k == 1 then s.available - 1 else if k == 6 then s.available + 1 else s.available
  {
    TurnHoldsItsGuards(k);
  }

  /** An abort in the middle of an attempt, and the drops it causes. */
  const ABORT: seq<Action> := [Abort, AbortDestroysFuture, AbortDropsActivity, AbortDropsPermit]

  const ABORT_PCS: seq<Pc> := [InAttempt, AbortedInAttempt, AbortedActive, AbortedPermitted, Gone]

  /** An abort drops the future first, then the activity flag, then the permit, and ends the actor. */
  lemma {:induction false} AbortDropsInOrder(k: nat)
    requires k <= |ABORT|
    ensures MoveAll(Actor(InAttempt, true, true, 1), ABORT[..k]) == Actor(ABORT_PCS[k], k < 4, k < 3, if k < 2 then 1 else 0)
  {
    if k > 0 {
      AbortDropsInOrder(k - 1);
      MoveAllAppended(Actor(InAttempt, true, true, 1), ABORT[..k - 1], ABORT[k - 1]);
      assert ABORT[..k] == ABORT[..k - 1] + [ABORT[k - 1]];
    }
  }

  /** The environment ends the actor: it is canceled, gives up waiting, exits, or is aborted outside an attempt. */
  predicate Ends(pc: Pc, a: Action) {
    match a
    case Loop(stops) => stops
    case Recheck(stops) => stops
    case DropPermit(stops) => stops
    case Wake(stops) => stops
    case GiveUpWaiting => true
    case Abort => !pc.InAttempt?
    case AbortDropsPermit => true
    case _ => false
  }

  /** An actor is gone exactly when it was ended; it then holds nothing, its permit is back, and it never moves again. */
  lemma {:induction false} EndIsFinal(s: Pool, i: nat, a: Action)
    requires Inv(s) && Enabled(s, i, a)
    ensures var s' := Apply(s, i, a);
            && |s'.actors| == |s.actors|
            && (s'.actors[i].pc.Gone? <==> Ends(s.actors[i].pc, a))
            && (s'.actors[i].pc.Gone? ==>
                  && s'.actors[i] == Actor(Gone, false, false, 0)
                  && s'.available == s.available + Held(s.actors[i])
                  && forall b: Action :: !Enabled(s', i, b))
  {
    assert ActorInv(s.actors[i]);
  }

  /** Own steps that an actor is away from giving its permit back. */
  function ToRelease(pc: Pc): nat {
    match pc
    case Permitted => 5
    case Active => 4
    case InAttempt => 3
    case AbortedInAttempt => 3
    case Judging => 2
    case AbortedActive => 2
    case Inactive => 1
    case AbortedPermitted => 1
    case _ => 0
  }

  /** Nobody else is needed to free a permit: its holder gives it back by at most five steps of its own, once its future ends. */
  lemma {:induction false} HolderReleases(s: Pool, i: nat) returns (steps: seq<(nat, Action)>)
    requires Inv(s) && i < |s.actors| && s.actors[i].holdsPermit
    ensures Run(s, steps) && |steps| <= ToRelease(s.actors[i].pc) <= 5
    ensures forall k | 0 <= k < |steps| :: steps[k].0 == i
    ensures |After(s, steps).actors| == |s.actors| && !After(s, steps).actors[i].holdsPermit
    ensures After(s, steps).available == s.available + 1
    ensures After(s, steps).actors == s.actors[i := After(s, steps).actors[i]]
    decreases ToRelease(s.actors[i].pc)
  {
    assert ActorInv(s.actors[i]);
    var a := ReleaseAction(s.actors[i].pc);
    var s' := Apply(s, i, a);
    Keeps(s, i, a);
    var rest := [];
    if s'.actors[i].holdsPermit {
      rest := HolderReleases(s', i);
    }
    steps := [(i, a)] + rest;
    assert steps[1..] == rest;
  }

  /** The action that brings a holder closer to giving its permit back. */
  function ReleaseAction(pc: Pc): Action {
    match pc
    case Permitted => Recheck(true)
    case Active => Spawn(false)
    case InAttempt => FutureEnds
    case Judging => DropActivity
    case Inactive => DropPermit(false)
    case AbortedInAttempt => AbortDestroysFuture
    case AbortedActive => AbortDropsActivity
    case _ => AbortDropsPermit
  }
}
