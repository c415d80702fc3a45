/** Events as the delivery machinery sees them, and the saturating counter it uses for losses. */
module Events {
  import opened Prelude

  /** Event kinds. `Lifecycle` stands for every kind that is not an internal diagnostic. */
  datatype EventKind =
    | SubscriberPanicked
    | RuntimeFailure
    | OwnershipCapacityRetired
    | SubscriberOverflow
    | Lifecycle(code: nat)

  datatype Event = Event(kind: EventKind, seqNo: nat)

  /** Diagnostics about delivery itself are never counted as losses. */
  predicate IsInternalDiagnostic(e: Event) {
    e.kind.SubscriberOverflow? || e.kind.SubscriberPanicked? || e.kind.RuntimeFailure? || e.kind.OwnershipCapacityRetired?
  }

  /** The value of a 64-bit saturating counter after `n` increments from zero. */
  function Saturate(n: nat): nat {
    if n <= U64_MAX then n else U64_MAX
  }

  function SaturatingIncrement(n: nat): nat {
    if n < U64_MAX then n + 1 else U64_MAX
  }
}
