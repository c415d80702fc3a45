/**
 Retry delays: growth, jitter, floors and cap. Durations are nanosecond counts; the growth factor is a real
 number where the original uses a 64-bit float, and the conversion back to nanoseconds rounds to nearest, ties to even.
 */
module Backoff {
  import opened Prelude

  const NANOS_PER_SECOND: nat := 1_000_000_000
  const DURATION_MAX: nat := U64_MAX * NANOS_PER_SECOND + (NANOS_PER_SECOND - 1)
  const MIN_NONZERO_DELAY: nat := 1_000_000
  const DEFAULT_MAX: nat := 30 * NANOS_PER_SECOND

  function Min(a: nat, b: nat): nat {
    if a <= b then a else b
  }

  function Max(a: nat, b: nat): nat {
    if a >= b then a else b
  }

  // ------------------------------------------------------------ durations

  /** Seconds and subsecond nanoseconds. */
  datatype Duration = Duration(seconds: nat, subsecNanos: nat)

  predicate ValidDuration(d: Duration) {
    d.seconds <= U64_MAX && d.subsecNanos < NANOS_PER_SECOND
  }

  function AsNanos(d: Duration): nat {
    d.seconds * NANOS_PER_SECOND + d.subsecNanos
  }

  /** The seconds are cast to 64 bits. */
  function DurationFromNanos(nanos: nat): Duration {
    Duration(nanos / NANOS_PER_SECOND % (U64_MAX + 1), nanos % NANOS_PER_SECOND)
  }

  /** The conversion is exact in both directions up to the largest duration, and only there. */
  lemma {:induction false} NanosRoundTrip(nanos: nat)
    ensures ValidDuration(DurationFromNanos(nanos))
    ensures AsNanos(DurationFromNanos(nanos)) == nanos <==> nanos <= DURATION_MAX
  {
  }

  lemma {:induction false} DurationRoundTrip(d: Duration)
    requires ValidDuration(d)
    ensures AsNanos(d) <= DURATION_MAX && DurationFromNanos(AsNanos(d)) == d
  {
  }

  // ------------------------------------------------------------ jitter

  datatype Jitter = NoJitter | Full | Equal | RandomizedBand

  /** A uniform draw from an inclusive range; `seed` ranges over all outcomes. */
  function Draw(lo: nat, hi: nat, seed: nat): (v: nat)
    requires lo <= hi
    ensures lo <= v <= hi
  {
    lo + seed % (hi - lo + 1)
  }

  function FullJitter(ns: nat, seed: nat): nat {
    if ns == 0 then 0 else AsNanos(DurationFromNanos(Draw(0, ns, seed)))
  }

  function EqualJitter(ns: nat, seed: nat): nat {
    if ns == 0 then 0 else AsNanos(DurationFromNanos(ns / 2 + Draw(0, ns - ns / 2, seed)))
  }

  function ApplyJitter(j: Jitter, ns: nat, seed: nat): nat {
    match j
    case NoJitter => ns
    case RandomizedBand => FullJitter(ns, seed)
    case Full => FullJitter(ns, seed)
    case Equal => EqualJitter(ns, seed)
  }

  function ApplyRandomizedBand(j: Jitter, lower: nat, upperSeed: nat, max: nat, seed: nat): nat {
    var lo := Min(lower, max);
    if !j.RandomizedBand? then ApplyJitter(j, lo, seed)
    else
      var hi := Max(Min(Min(3 * upperSeed, DURATION_MAX), max), lo);
      if lo >= hi then lo else AsNanos(DurationFromNanos(Draw(lo, hi, seed)))
  }

  // ------------------------------------------------------------ policies

  datatype Policy = Policy(jitter: Jitter, first: nat, floor: nat, max: nat, factor: real)

  datatype Built = Accepted(policy: Policy) | InvalidFactor | FirstExceedsMax

  const DEFAULT := Policy(Equal, 200_000_000, 0, DEFAULT_MAX, 2.0)

  function New(first: nat, max: nat, factor: real, jitter: Jitter): Built {
    if factor < 1.0 then InvalidFactor
    else if first > max then FirstExceedsMax
    else Accepted(Policy(jitter, first, 0, max, factor))
  }

  function Constant(delay: nat): Policy {
    Policy(NoJitter, delay, 0, Max(delay, DEFAULT_MAX), 1.0)
  }

  function Exponential(first: nat): Policy {
    Policy(NoJitter, first, 0, Max(first, DEFAULT_MAX), 2.0)
  }

  function WithMax(p: Policy, max: nat): Policy {
    p.(max := max, first := Min(p.first, max), floor := Min(p.floor, max))
  }

  function WithJitter(p: Policy, jitter: Jitter): Policy {
    p.(jitter := jitter)
  }

  function WithFloor(p: Policy, floor: nat): Policy {
    p.(floor := Min(floor, p.max))
  }

  predicate Valid(p: Policy) {
    p.first <= p.max <= DURATION_MAX && p.floor <= p.max && p.factor >= 1.0
  }

  /** A policy as an application can write it: one constructor and any chain of builders. */
  datatype Source =
    | FromDefault
    | FromNew(first: nat, max: nat, factor: real, jitter: Jitter)
    | FromConstant(delay: nat)
    | FromExponential(first: nat)
    | ThenMax(inner: Source, max: nat)
    | ThenJitter(inner: Source, jitter: Jitter)
    | ThenFloor(inner: Source, floor: nat)

  /** Every duration in the chain is a duration. */
  predicate InRange(s: Source) {
    match s
    case FromDefault => true
    case FromNew(first, max, _, _) => first <= DURATION_MAX && max <= DURATION_MAX
    case FromConstant(d) => d <= DURATION_MAX
    case FromExponential(d) => d <= DURATION_MAX
    case ThenMax(inner, max) => InRange(inner) && max <= DURATION_MAX
    case ThenJitter(inner, _) => InRange(inner)
    case ThenFloor(inner, floor) => InRange(inner) && floor <= DURATION_MAX
  }

  function Build(s: Source): Built {
    match s
    case FromDefault => Accepted(DEFAULT)
    case FromNew(first, max, factor, jitter) => New(first, max, factor, jitter)
    case FromConstant(d) => Accepted(Constant(d))
    case FromExponential(d) => Accepted(Exponential(d))
    case ThenMax(inner, max) => var b := Build(inner); if b.Accepted? then Accepted(WithMax(b.policy, max)) else b
    case ThenJitter(inner, j) => var b := Build(inner); if b.Accepted? then Accepted(WithJitter(b.policy, j)) else b
    case ThenFloor(inner, floor) => var b := Build(inner); if b.Accepted? then Accepted(WithFloor(b.policy, floor)) else b
  }

  /** Every chain that is accepted yields a valid policy. */
  lemma {:induction false} BuiltIsValid(s: Source)
    requires InRange(s) && Build(s).Accepted?
    ensures Valid(Build(s).policy)
  {
    match s
    case ThenMax(inner, _) => BuiltIsValid(inner);
    case ThenJitter(inner, _) => BuiltIsValid(inner);
    case ThenFloor(inner, _) => BuiltIsValid(inner);
    case _ =>
  }

  function Root(s: Source): Source {
    match s
    case ThenMax(inner, _) => Root(inner)
    case ThenJitter(inner, _) => Root(inner)
    case ThenFloor(inner, _) => Root(inner)
    case _ => s
  }

  /** A chain is refused only by its own constructor, and says why. */
  lemma {:induction false} RefusedExactly(s: Source)
    ensures Build(s) == InvalidFactor <==> Root(s).FromNew? && Root(s).factor < 1.0
    ensures Build(s) == FirstExceedsMax <==> Root(s).FromNew? && Root(s).factor >= 1.0 && Root(s).first > Root(s).max
  {
    match s
    case ThenMax(inner, _) => RefusedExactly(inner);
    case ThenJitter(inner, _) => RefusedExactly(inner);
    case ThenFloor(inner, _) => RefusedExactly(inner);
    case _ =>
  }

  /** The setting of a kind that comes last in the chain counts, unless a smaller cap cuts it. */
  lemma {:induction false} LastSettingCounts(s: Source, max: nat, floor: nat, jitter: Jitter)
    requires Build(s).Accepted?
    ensures Build(ThenMax(s, max)).Accepted? && Build(ThenMax(s, max)).policy.max == max
    ensures var first := Build(s).policy.first; Build(ThenMax(s, max)).policy.first == if first <= max then first else max
    ensures Build(ThenFloor(ThenMax(s, max), floor)).policy.floor == if floor <= max then floor else max
    ensures Build(ThenJitter(s, jitter)).policy == Build(s).policy.(jitter := jitter)
  {
  }

  // ------------------------------------------------------------ growth

  /** Nearest integer, ties to even. */
  function Round(x: real): int {
    var f := x.Floor;
    var frac := x - f as real;
    if frac < 0.5 || (frac == 0.5 && f % 2 == 0) then f else f + 1
  }

  lemma {:induction false} RoundMonotone(x: real, y: real)
    requires x <= y
    ensures Round(x) <= Round(y)
  {
  }

  lemma {:induction false} RoundInteger(n: int)
    ensures Round(n as real) == n
  {
  }

  lemma {:induction false} TimesAtLeast(x: real, y: real)
    requires x >= 1.0 && y >= 0.0
    ensures x * y >= y
  {
  }

  /** The first delay times the `index`-th power of the factor. */
  function Grown(p: Policy, index: nat): real {
    if index == 0 then p.first as real else p.factor * Grown(p, index - 1)
  }

  lemma {:induction false} GrownGrows(p: Policy, index: nat)
    requires p.factor >= 1.0
    ensures p.first as real <= Grown(p, index) <= Grown(p, index + 1)
  {
    if index > 0 {
      GrownGrows(p, index - 1);
    }
    TimesAtLeast(p.factor, Grown(p, index));
  }

  /** A delay too long to be a duration becomes the cap, like every delay above it. */
  function Cap(nanos: int, max: nat): nat {
    if nanos > DURATION_MAX || nanos > max then max else if nanos < 0 then 0 else nanos
  }

  /** The delay before jitter and floors. */
  function Base(p: Policy, index: nat): nat {
    if p.first == 0 then 0 else Cap(Round(Grown(p, index)), p.max)
  }

  lemma {:induction false} BaseAtLeastFirst(p: Policy, index: nat)
    requires Valid(p)
    ensures p.first <= Base(p, index) <= p.max
    ensures Base(p, 0) == p.first
  {
    GrownGrows(p, index);
    RoundMonotone(p.first as real, Grown(p, index));
    RoundInteger(p.first);
  }

  lemma {:induction false} BaseStep(p: Policy, index: nat)
    requires Valid(p)
    ensures Base(p, index) <= Base(p, index + 1)
  {
    GrownGrows(p, index);
    RoundMonotone(Grown(p, index), Grown(p, index + 1));
  }

  /** The base delay never decreases with the retry index. */
  lemma {:induction false} BaseMonotone(p: Policy, i: nat, j: nat)
    requires Valid(p) && i <= j
    ensures Base(p, i) <= Base(p, j)
    decreases j - i
  {
    if i < j {
      BaseMonotone(p, i, j - 1);
      BaseStep(p, j - 1);
    }
  }

  // ------------------------------------------------------------ how fast it grows

  function IntPow(k: nat, n: nat): nat {
    if n == 0 then 1 else IntPow(k, n - 1) * k
  }

  lemma {:induction false} TimesInteger(k: nat, x: nat, y: nat)
    ensures k as real * (x * y) as real == (x * (y * k)) as real
  {
    assert x * (y * k) == k * (x * y);
  }

  lemma {:induction false} GrownWhole(p: Policy, k: nat, n: nat)
    requires p.factor == k as real
    ensures Grown(p, n) == (p.first * IntPow(k, n)) as real
  {
    if n > 0 {
      GrownWhole(p, k, n - 1);
      TimesInteger(k, p.first, IntPow(k, n - 1));
    }
  }

  /** With a whole factor the base delay is the first delay multiplied by the factor once per retry, cut off at the cap. */
  lemma {:induction false} WholeFactorGrowth(p: Policy, k: nat, n: nat)
    requires Valid(p) && p.factor == k as real
    ensures Base(p, n) == Min(p.first * IntPow(k, n), p.max)
  {
    GrownWhole(p, k, n);
    RoundInteger(p.first * IntPow(k, n));
  }

  lemma {:induction false} IntPowOne(n: nat)
    ensures IntPow(1, n) == 1
  {
    if n > 0 {
      IntPowOne(n - 1);
    }
  }

  /** The documented sequences: a constant stays, an exponential doubles up to its cap. */
  lemma {:induction false} DocumentedSequences(d: nat, n: nat)
    requires d <= DURATION_MAX
    ensures Base(Constant(d), n) == d
    ensures Base(Exponential(d), n) == Min(d * IntPow(2, n), Max(d, 30 * NANOS_PER_SECOND))
    ensures Base(DEFAULT, n) == Min(200_000_000 * IntPow(2, n), 30 * NANOS_PER_SECOND)
  {
    IntPowOne(n);
    WholeFactorGrowth(Constant(d), 1, n);
    WholeFactorGrowth(Exponential(d), 2, n);
    WholeFactorGrowth(DEFAULT, 2, n);
  }

  /** At most half a unit apart. */
  predicate Near(x: real, y: real) {
    -0.5 <= x - y <= 0.5
  }

  lemma {:induction false} RoundIsNear(x: real)
    ensures Near(Round(x) as real, x)
  {
  }

  lemma {:induction false} BelowCap(p: Policy, n: nat)
    requires Valid(p) && p.first > 0 && Base(p, n) < p.max
    ensures Base(p, n) == Round(Grown(p, n))
  {
    GrownGrows(p, n);
    RoundMonotone(p.first as real, Grown(p, n));
    RoundInteger(p.first);
  }

  lemma {:induction false} ZeroStays(p: Policy, n: nat)
    requires p.first == 0
    ensures Grown(p, n) == 0.0
  {
    if n > 0 {
      ZeroStays(p, n - 1);
    }
  }

  lemma {:induction false} BaseNear(p: Policy, n: nat)
    requires Valid(p) && Base(p, n) < p.max
    ensures Near(Base(p, n) as real, Grown(p, n))
  {
    if p.first > 0 {
      BelowCap(p, n);
      RoundIsNear(Grown(p, n));
    } else {
      ZeroStays(p, n);
    }
  }

  lemma {:induction false} NextGrown(p: Policy, n: nat) returns (g: real, exact: real)
    ensures g == Grown(p, n) && exact == Grown(p, n + 1) && exact == p.factor * g
  {
    g, exact := Grown(p, n), Grown(p, n + 1);
  }

  lemma {:induction false} BasesNear(p: Policy, n: nat, g: real, exact: real)
    requires Valid(p) && Base(p, n + 1) < p.max && g == Grown(p, n) && exact == Grown(p, n + 1)
    ensures Near(Base(p, n) as real, g) && Near(Base(p, n + 1) as real, exact)
  {
    BaseStep(p, n);
    BaseNear(p, n);
    BaseNear(p, n + 1);
  }

  predicate RoundedFrom(x: nat, y: nat, factor: real, g: real, exact: real) {
    Near(x as real, g) && Near(y as real, exact) && exact == factor * g
  }

  /** `y` is `factor` times `x`, both rounded: they are within half a nanosecond of some `g` and of `factor` times `g`. */
  ghost predicate Multiplied(x: nat, y: nat, factor: real) {
    exists g: real, exact: real :: RoundedFrom(x, y, factor, g, exact)
  }

  lemma {:induction false} ExactBases(p: Policy, n: nat) returns (g: real, exact: real)
    requires Valid(p) && Base(p, n + 1) < p.max
    ensures RoundedFrom(Base(p, n), Base(p, n + 1), p.factor, g, exact)
  {
    g, exact := NextGrown(p, n);
    BasesNear(p, n, g, exact);
  }

  /** Below the cap every retry multiplies the base delay by the factor, up to rounding. */
  lemma {:induction false} FactorGrowth(p: Policy, n: nat)
    requires Valid(p) && Base(p, n + 1) < p.max
    ensures Multiplied(Base(p, n), Base(p, n + 1), p.factor)
  {
    var g, exact := ExactBases(p, n);
  }

  // ------------------------------------------------------------ delays

  /** The jittered delay for a given base. */
  function Jittered(p: Policy, base: nat, seed: nat): nat {
    if p.jitter.RandomizedBand? then ApplyRandomizedBand(p.jitter, Min(p.first, p.max), base, p.max, seed)
    else ApplyJitter(p.jitter, base, seed)
  }

  function RawDelay(p: Policy, index: nat, seed: nat): nat {
    Jittered(p, Base(p, index), seed)
  }

  function DelayForRetry(p: Policy, index: nat, seed: nat): nat {
    var floored := Max(RawDelay(p, index, seed), p.floor);
    if Base(p, index) == 0 then floored else Max(floored, Min(MIN_NONZERO_DELAY, p.max))
  }

  /** The documented range of a jitter policy around a base delay. */
  predicate InDocumentedRange(p: Policy, base: nat, raw: nat) {
    match p.jitter
    case NoJitter => raw == base
    case Full => raw <= base
    case Equal => base / 2 <= raw <= base
    case RandomizedBand => p.first <= raw <= Min(3 * base, p.max)
  }

  lemma {:induction false} FullRange(base: nat, seed: nat)
    requires base <= DURATION_MAX
    ensures FullJitter(base, seed) == Draw(0, base, seed)
  {
    NanosRoundTrip(Draw(0, base, seed));
  }

  lemma {:induction false} EqualRange(base: nat, seed: nat)
    requires base <= DURATION_MAX
    ensures EqualJitter(base, seed) == base / 2 + Draw(0, base - base / 2, seed)
  {
    NanosRoundTrip(base / 2 + Draw(0, base - base / 2, seed));
  }

  lemma {:induction false} BandRange(first: nat, base: nat, max: nat, seed: nat)
    requires first <= base <= max <= DURATION_MAX
    ensures first <= Min(3 * base, max)
    ensures ApplyRandomizedBand(RandomizedBand, first, base, max, seed) == Draw(first, Min(3 * base, max), seed)
  {
    var hi := Min(3 * base, max);
    NanosRoundTrip(Draw(first, hi, seed));
  }

  lemma {:induction false} JitteredRange(p: Policy, base: nat, seed: nat)
    requires p.first <= base <= p.max <= DURATION_MAX
    ensures InDocumentedRange(p, base, Jittered(p, base, seed)) && Jittered(p, base, seed) <= p.max
  {
    match p.jitter
    case NoJitter =>
    case Full => FullRange(base, seed);
    case Equal => EqualRange(base, seed);
    case RandomizedBand => BandRange(p.first, base, p.max, seed);
  }

  /** Every draw stays in the documented range of its jitter. */
  lemma {:induction false} JitterRange(p: Policy, index: nat, seed: nat)
    requires Valid(p)
    ensures InDocumentedRange(p, Base(p, index), RawDelay(p, index, seed))
    ensures RawDelay(p, index, seed) <= p.max
  {
    BaseAtLeastFirst(p, index);
    JitteredRange(p, Base(p, index), seed);
  }

  lemma {:induction false} DrawHits(lo: nat, hi: nat, v: nat)
    requires lo <= v <= hi
    ensures Draw(lo, hi, v - lo) == v
  {
  }

  lemma {:induction false} JitteredCovers(p: Policy, base: nat, raw: nat) returns (seed: nat)
    requires p.first <= base <= p.max <= DURATION_MAX && InDocumentedRange(p, base, raw)
    ensures Jittered(p, base, seed) == raw
  {
    match p.jitter
    case NoJitter =>
      seed := 0;
    case Full =>
      seed := raw;
      FullRange(base, seed);
      DrawHits(0, base, raw);
    case Equal =>
      seed := raw - base / 2;
      EqualRange(base, seed);
      DrawHits(0, base - base / 2, seed);
    case RandomizedBand =>
      seed := raw - p.first;
      BandRange(p.first, base, p.max, seed);
      DrawHits(p.first, Min(3 * base, p.max), raw);
  }

  /** The range is exact: every value in it is drawn by some seed. */
  lemma {:induction false} JitterCoversRange(p: Policy, index: nat, raw: nat) returns (seed: nat)
    requires Valid(p) && InDocumentedRange(p, Base(p, index), raw)
    ensures RawDelay(p, index, seed) == raw
  {
    BaseAtLeastFirst(p, index);
    seed := JitteredCovers(p, Base(p, index), raw);
  }

  lemma {:induction false} DelayInRange(p: Policy, index: nat, seed: nat)
    requires Valid(p)
    ensures p.floor <= DelayForRetry(p, index, seed) <= p.max
    ensures p.first > 0 ==> DelayForRetry(p, index, seed) >= Min(MIN_NONZERO_DELAY, p.max)
    ensures p.first == 0 ==> DelayForRetry(p, index, seed) == p.floor
  {
    JitterRange(p, index, seed);
    BaseAtLeastFirst(p, index);
  }

  /**
   Backoff bounds, for every builder chain, retry index and draw: the user floor and the cap hold, and a non-zero first
   delay never yields less than a millisecond (or the cap, if that is shorter).
   */
  lemma {:induction false} DelayBounds(s: Source, index: nat, seed: nat)
    requires InRange(s) && Build(s).Accepted?
    ensures var p := Build(s).policy;
            && p.floor <= DelayForRetry(p, index, seed) <= p.max
            && (p.first > 0 ==> DelayForRetry(p, index, seed) >= Min(MIN_NONZERO_DELAY, p.max))
            && (p.first == 0 ==> DelayForRetry(p, index, seed) == p.floor)
  {
    BuiltIsValid(s);
    DelayInRange(Build(s).policy, index, seed);
  }

  /** The shortest delay a policy allows after a failure. */
  function Least(p: Policy): nat {
    if p.first == 0 then p.floor else Max(p.floor, Min(MIN_NONZERO_DELAY, p.max))
  }

  /** A delay is the jittered draw, raised to the least delay the policy allows and no further. */
  lemma {:induction false} DelayExactly(p: Policy, index: nat, seed: nat)
    requires Valid(p)
    ensures DelayForRetry(p, index, seed) == Max(RawDelay(p, index, seed), Least(p))
    ensures InDocumentedRange(p, Base(p, index), RawDelay(p, index, seed))
  {
    JitterRange(p, index, seed);
    BaseAtLeastFirst(p, index);
  }

  /** Without jitter and with a whole factor k, retry n waits for first * k^n, within the policy's least delay and its cap. */
  lemma {:induction false} PlainDelay(p: Policy, k: nat, n: nat, seed: nat)
    requires Valid(p) && p.jitter.NoJitter? && p.factor == k as real
    ensures DelayForRetry(p, n, seed) == Max(Min(p.first * IntPow(k, n), p.max), Least(p))
  {
    DelayExactly(p, n, seed);
    WholeFactorGrowth(p, k, n);
  }

  lemma {:induction false} PlainDelaysAreBases(p: Policy, n: nat, seed: nat, seed': nat)
    requires Valid(p) && p.jitter.NoJitter?
    requires DelayForRetry(p, n, seed) > Least(p) && DelayForRetry(p, n + 1, seed') < p.max
    ensures DelayForRetry(p, n, seed) == Base(p, n) && DelayForRetry(p, n + 1, seed') == Base(p, n + 1) < p.max
  {
    DelayExactly(p, n, seed);
    DelayExactly(p, n + 1, seed');
    BaseStep(p, n);
  }

  /** Without jitter and between the policy's limits, the next delay is the factor times this one, up to rounding. */
  lemma {:induction false} PlainDelayStep(p: Policy, n: nat, seed: nat, seed': nat)
    requires Valid(p) && p.jitter.NoJitter?
    requires DelayForRetry(p, n, seed) > Least(p) && DelayForRetry(p, n + 1, seed') < p.max
    ensures Multiplied(DelayForRetry(p, n, seed), DelayForRetry(p, n + 1, seed'), p.factor)
  {
    PlainDelaysAreBases(p, n, seed, seed');
    FactorGrowth(p, n);
  }

  /** The delays of the ready-made policies, in nanoseconds. */
  lemma {:induction false} ReadyMadeDelays(d: nat, n: nat, seed: nat)
    requires 0 < d <= DURATION_MAX
    ensures DelayForRetry(Constant(d), n, seed) == Max(d, MIN_NONZERO_DELAY)
    ensures DelayForRetry(Exponential(d), n, seed) ==
            Max(Min(d * IntPow(2, n), Max(d, 30 * NANOS_PER_SECOND)), MIN_NONZERO_DELAY)
    ensures var base := Min(200_000_000 * IntPow(2, n), 30 * NANOS_PER_SECOND);
            Base(DEFAULT, n) / 2 <= DelayForRetry(DEFAULT, n, seed) <= base == Base(DEFAULT, n)
  {
    DocumentedSequences(d, n);
    DelayExactly(Constant(d), n, seed);
    DelayExactly(Exponential(d), n, seed);
    DelayExactly(DEFAULT, n, seed);
    BaseAtLeastFirst(DEFAULT, n);
  }

  /** Without jitter the delay itself never decreases along a failure streak. */
  lemma {:induction false} DelayMonotoneWithoutJitter(p: Policy, i: nat, j: nat, seed: nat, seed': nat)
    requires Valid(p) && p.jitter.NoJitter? && i <= j
    ensures DelayForRetry(p, i, seed) <= DelayForRetry(p, j, seed')
  {
    BaseMonotone(p, i, j);
    BaseAtLeastFirst(p, i);
    BaseAtLeastFirst(p, j);
  }
}
