/** Operating thresholds shared by admission and locked publications. */
module FieldLabCapacity {
  const OPERATIONAL_SOFT_LIMIT: nat := 800_000
  const RESERVED_BUDGET: nat := 15_000

  datatype Policy = Policy(softLimit: nat, stopAt: nat, reserve: nat, effectiveStopAt: int)

  /**
    `capacity_policy`, with the truncated float product of `RoundedStop` as an integer quotient.
   */
  function CapacityPolicy(maxArtifacts: nat): (p: Policy)
    ensures p.reserve <= p.stopAt <= maxArtifacts
  {
    var softLimit := if maxArtifacts < OPERATIONAL_SOFT_LIMIT then maxArtifacts else OPERATIONAL_SOFT_LIMIT;
    var stopAt := softLimit * 9 / 10;
    var reserve := if stopAt / 6 < RESERVED_BUDGET then stopAt / 6 else RESERVED_BUDGET;
    Policy(softLimit, stopAt, reserve, stopAt - reserve)
  }

  /**
    The float product is within 0.05 of the exact one and, being rounded to nearest, not below an integer that the
    exact one reaches; truncating it gives the integer quotient.
   */
  lemma RoundedStop(softLimit: nat, product: real)
    requires softLimit as real * 0.9 - 0.05 < product < softLimit as real * 0.9 + 0.05
    requires product >= (softLimit * 9 / 10) as real
    ensures product.Floor == softLimit * 9 / 10
  {
    var stop := softLimit * 9 / 10;
    assert softLimit * 9 <= 10 * stop + 9;
    assert softLimit as real * 9.0 <= 10.0 * stop as real + 9.0;
    assert stop as real <= product < (stop + 1) as real;
  }

  /** The `remaining` figure of `_capacity_fields`. */
  function Remaining(maxArtifacts: nat, count: nat): (n: nat) {
    var room := CapacityPolicy(maxArtifacts).stopAt - count - 1;
    if room < 0 then 0 else room
  }

  /** `check_capacity` with its default reserve lets a cycle start. */
  predicate CheckCapacity(maxArtifacts: nat, count: nat) {
    count + CapacityPolicy(maxArtifacts).reserve < CapacityPolicy(maxArtifacts).stopAt
  }

  /** A larger ceiling never lowers the stop, so a nested scope with a larger ceiling keeps the outer stop. */
  lemma StopIsMonotone(a: nat, b: nat)
    requires a <= b
    ensures CapacityPolicy(a).stopAt <= CapacityPolicy(b).stopAt
  {
  }

  /** A cycle that passes the check has room for its whole reserve; one that is not `blocked` does pass. */
  lemma CheckedCycleHasItsReserve(maxArtifacts: nat, count: nat)
    ensures CheckCapacity(maxArtifacts, count) <==> count < CapacityPolicy(maxArtifacts).effectiveStopAt
    ensures CheckCapacity(maxArtifacts, count) ==>
              Remaining(maxArtifacts, count) >= CapacityPolicy(maxArtifacts).reserve
  {
  }
}
