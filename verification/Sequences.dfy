/**
 Process-wide identities: task ids and event sequence numbers. Both advance a 64-bit atomic with a compare-and-swap
 loop; zero is the exhaustion sentinel.
 */
module Sequences {
  import opened Prelude

  function Advance(current: nat): Option<nat> {
    if current == 0 then None else if current == U64_MAX then Some(0) else Some(current + 1)
  }

  /** A caller inside the update loop remembers the value it last saw. */
  datatype Caller = Calm | Saw(value: nat)

  /** `past` holds every value the counter ever had: a relaxed load may return any of them. */
  datatype Counter = Counter(
    value: nat,
    callers: seq<Caller>,
    past: set<nat>,
    issued: seq<nat>,
    exhausted: nat)

  datatype Step = Load(caller: nat, seen: nat) | Swap(caller: nat, spuriousFailure: bool)

  predicate Initial(c: Counter) {
    && (forall i | 0 <= i < |c.callers| :: c.callers[i].Calm?)
    && c == Counter(1, c.callers, {1}, [], 0)
  }

  predicate Enabled(c: Counter, step: Step) {
    match step
    case Load(i, seen) => i < |c.callers| && c.callers[i].Calm? && seen in c.past
    case Swap(i, _) => i < |c.callers| && c.callers[i].Saw?
  }

  function Apply(c: Counter, step: Step): Counter
    requires Enabled(c, step)
  {
    match step
    case Load(i, seen) => c.(callers := c.callers[i := Saw(seen)])
    case Swap(i, spurious) =>
      var seen := c.callers[i].value;
      match Advance(seen)
      case None => c.(callers := c.callers[i := Calm], exhausted := c.exhausted + 1)
      case Some(next) =>
        if seen == c.value && !spurious then
          c.(value := next, callers := c.callers[i := Calm], past := c.past + {next}, issued := c.issued + [seen])
        else c.(callers := c.callers[i := Saw(c.value)])
  }

  predicate Run(c: Counter, steps: seq<Step>)
    decreases |steps|
  {
    steps == [] || (Enabled(c, steps[0]) && Run(Apply(c, steps[0]), steps[1..]))
  }

  function After(c: Counter, steps: seq<Step>): Counter
    requires Run(c, steps)
    decreases |steps|
  {
    if steps == [] then c else After(Apply(c, steps[0]), steps[1..])
  }

  predicate Inv(c: Counter) {
    && |c.issued| <= U64_MAX
    && (forall k | 0 <= k < |c.issued| :: c.issued[k] == k + 1)
    && c.value == (if |c.issued| == U64_MAX then 0 else |c.issued| + 1)
    && c.value in c.past
    && (0 in c.past ==> c.value == 0)
    && (forall i | 0 <= i < |c.callers| :: c.callers[i].Saw? ==> c.callers[i].value in c.past)
    && (c.exhausted > 0 ==> c.value == 0)
  }

  lemma {:induction false} Keeps(c: Counter, step: Step)
    requires Inv(c) && Enabled(c, step)
    ensures Inv(Apply(c, step))
    ensures c.issued <= Apply(c, step).issued
  {
  }

  lemma {:induction false} RunKeeps(c: Counter, steps: seq<Step>)
    requires Inv(c) && Run(c, steps)
    ensures Inv(After(c, steps)) && c.issued <= After(c, steps).issued
    decreases |steps|
  {
    if steps != [] {
      Keeps(c, steps[0]);
      RunKeeps(Apply(c, steps[0]), steps[1..]);
    }
  }

  /** Under any interleaving the k-th successful allocation returns k; values are never zero and never repeat. */
  lemma {:induction false} KthAllocationIsK(init: Counter, steps: seq<Step>, k: nat)
    requires Initial(init) && Run(init, steps) && k < |After(init, steps).issued|
    ensures After(init, steps).issued[k] == k + 1 <= U64_MAX
    ensures forall j | 0 <= j < k :: After(init, steps).issued[j] != After(init, steps).issued[k]
  {
    RunKeeps(init, steps);
  }

  lemma {:induction false} ExhaustedRun(c: Counter, steps: seq<Step>)
    requires Inv(c) && c.value == 0 && Run(c, steps)
    ensures After(c, steps).value == 0 && After(c, steps).issued == c.issued
    decreases |steps|
  {
    if steps != [] {
      Keeps(c, steps[0]);
      ExhaustedRun(Apply(c, steps[0]), steps[1..]);
    }
  }

  /** A call fails only after all 64-bit values were handed out, and from then on nothing is ever handed out again. */
  lemma {:induction false} ExhaustionIsFinal(init: Counter, steps: seq<Step>, more: seq<Step>)
    requires Initial(init) && Run(init, steps) && Run(After(init, steps), more)
    requires After(init, steps).exhausted > 0 || |After(init, steps).issued| == U64_MAX
    ensures |After(init, steps).issued| == U64_MAX
    ensures After(After(init, steps), more).issued == After(init, steps).issued
  {
    RunKeeps(init, steps);
    ExhaustedRun(After(init, steps), more);
  }

  predicate WithoutCaller(steps: seq<Step>, i: nat) {
    forall k | 0 <= k < |steps| :: steps[k].caller != i
  }

  lemma {:induction false} OthersRun(c: Counter, steps: seq<Step>, i: nat)
    requires Inv(c) && Run(c, steps) && i < |c.callers| && WithoutCaller(steps, i)
    ensures Inv(After(c, steps)) && i < |After(c, steps).callers| && After(c, steps).callers[i] == c.callers[i]
    ensures c.issued <= After(c, steps).issued
    decreases |steps|
  {
    if steps != [] {
      assert steps[0].caller != i;
      Keeps(c, steps[0]);
      OthersRun(Apply(c, steps[0]), steps[1..], i);
    }
  }

  /**
   A swap is lost only to somebody else. A caller that saw the current value, and whose swap does not fail spuriously, is
   issued exactly that value if and only if nobody was issued one in between; either way it has then seen the newest value
   or is done.
   */
  lemma {:induction false} SwapLosesOnlyToOthers(c: Counter, i: nat, others: seq<Step>)
    requires Inv(c) && i < |c.callers| && c.callers[i] == Saw(c.value) && c.value != 0
    requires Run(c, others) && WithoutCaller(others, i)
    ensures var seen := After(c, others);
            && Enabled(seen, Swap(i, false))
            && (var swapped := Apply(seen, Swap(i, false));
                && (swapped.issued == seen.issued + [c.value] <==> seen.issued == c.issued)
                && (seen.issued == c.issued ==> swapped.callers[i] == Calm)
                && (seen.issued != c.issued ==> swapped.issued == seen.issued && swapped.callers[i] == Saw(swapped.value))
                && swapped.exhausted == seen.exhausted)
  {
    OthersRun(c, others, i);
  }

  /** Any stale or spurious failure teaches the caller the current value; at the sentinel its next swap reports exhaustion. */
  lemma {:induction false} FailureTeaches(c: Counter, i: nat, spurious: bool)
    requires Inv(c) && Enabled(c, Swap(i, spurious))
    ensures var after := Apply(c, Swap(i, spurious));
            && (c.callers[i].value == 0 ==> after.exhausted == c.exhausted + 1 && after.callers[i] == Calm && after.issued == c.issued)
            && (c.callers[i].value != 0 && (spurious || c.callers[i].value != c.value) ==>
                  after.callers[i] == Saw(c.value) && after.value == c.value && after.issued == c.issued
                  && after.exhausted == c.exhausted)
  {
  }

  /** The atomic as the caller of `next` uses it, with nobody else in between. */
  class Sequence {
    var value: nat

    constructor ()
      ensures value == 1
    {
      value := 1;
    }

    method Next() returns (r: Option<nat>)
      requires value <= U64_MAX
      modifies this
      ensures value <= U64_MAX
      ensures old(value) == 0 <==> r.None?
      ensures r.Some? ==> r.value == old(value) > 0 && (value == 0 || value == r.value + 1)
      ensures r.None? ==> value == 0
      ensures value == 0 <==> old(value) == 0 || old(value) == U64_MAX
    {
      match Advance(value)
      case None => r := None;
      case Some(next) =>
        r := Some(value);
        value := next;
    }
  }
}
