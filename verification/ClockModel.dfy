/** Clocks as functions of physical time, the ghost worlds of the timing proofs. */
module ClockModel {
  type Instant = real
  type Clock = Instant -> real

  /** Over every interval the two clocks advance by amounts that differ by at most the skew. */
  ghost predicate ElapsedAgree(a: Clock, b: Clock, skew: real) {
    forall s: Instant, t: Instant :: -skew <= (a(t) - a(s)) - (b(t) - b(s)) <= skew
  }

  ghost predicate NeverBack(c: Clock) {
    forall s: Instant, t: Instant :: s <= t ==> c(s) <= c(t)
  }

  /** The two clocks show readings within the skew of each other at `t`. */
  predicate ReadingsAgree(a: Clock, b: Clock, t: Instant, skew: real) {
    -skew <= a(t) - b(t) <= skew
  }
}
