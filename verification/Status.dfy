/** Status conditions as `meta.SetStatusCondition` keeps them (internal/controller/helpers.go:22). */
module Status {
  import opened Text

  datatype Kind = Ready | Fetched | Rendered | ManifestsApplied | SecretsReady | WorkloadWired | RolloutComplete

  /** Condition reasons of api/v1alpha1/conditions.go; `Given` carries one an error
      or the workload supplied. */
  datatype Reason =
    | Synced | Progressing | Degraded
    | AuthFailed | SingletonViolation
    | AwaitingFirstResolution | DegradedServingLastGood | MaxDegradedExceeded
    | ManifestInvalid | ManifestApplyFailed
    | RollingOut | ProgressDeadlineExceeded
    | Given(text: string)

  datatype Condition = Condition(holds: bool, reason: Reason, since: int)

  type Conditions = map<Kind, Condition>

  /** The condition after it is set: its transition time moves only when the status
      flips. */
  function Flip(c: Option<Condition>, holds: bool, reason: Reason, now: int): Condition {
    Condition(holds, reason, if c.Some? && c.value.holds == holds then c.value.since else now)
  }

  function Find(cs: Conditions, k: Kind): Option<Condition> {
    if k in cs then Some(cs[k]) else None
  }

  function SetCondition(cs: Conditions, k: Kind, holds: bool, reason: Reason, now: int): Conditions {
    cs[k := Flip(Find(cs, k), holds, reason, now)]
  }
}
