/** The renewal check `assertHeartbeats`, `app/frontend/e2e/reliability/lifecycle.ts`, lines 186-233. */
module Heartbeats {
  import opened Wrappers
  import opened LifecycleEvents

  /** `didNotAdvance`: not strictly later, or with a tolerance, earlier by more than it. */
  predicate DidNotAdvance(current: real, previous: real, skew: real) {
    if skew == 0.0 then current <= previous else current < previous - skew
  }

  /** The renewal's identity is missing, or not the first one's. */
  predicate ChangedOwner(e: Heartbeat, first: Heartbeat) {
    || e.workerId in {None, Some("")} || e.messageId == "" || e.deliveryId == ""
    || e.attempt.None? || e.attempt.value < 1
    || e.workerId != first.workerId || e.attempt != first.attempt || e.messageId != first.messageId
    || e.deliveryId != first.deliveryId
  }

  predicate BadTimes(e: Heartbeat, skew: real) {
    e.at <= 0.0 || e.startedAtMs <= 0.0 || e.cycle < 1 || e.startedAtMs > e.at + skew
  }

  predicate Expired(expiry: Option<real>, at: real) {
    expiry.None? || expiry.value <= at
  }

  /** Strictly later, or with a tolerance, not earlier by more than it. */
  predicate Advances(current: real, previous: real, skew: real) {
    if skew == 0.0 then current > previous else current >= previous - skew
  }

  predicate SameOwnerAs(a: Heartbeat, b: Heartbeat) {
    a.workerId == b.workerId && a.attempt == b.attempt && a.messageId == b.messageId && a.deliveryId == b.deliveryId
  }

  /** A complete renewal with an identity, sensible times and unexpired bounds. */
  predicate Complete(e: Heartbeat, skew: real) {
    && e.workerId.Some? && e.workerId.value != "" && e.messageId != "" && e.deliveryId != ""
    && e.attempt.Some? && e.attempt.value >= 1
    && e.at > 0.0 && e.startedAtMs > 0.0 && e.cycle >= 1 && e.startedAtMs <= e.at + skew
    && e.leaseExpiresAtMs.Some? && e.leaseExpiresAtMs.value > e.at
    && e.visibilityExpiresAtMs.Some? && e.visibilityExpiresAtMs.value > e.at
  }

  predicate Follows(e: Heartbeat, previous: Heartbeat, skew: real)
    requires Complete(e, skew) && Complete(previous, skew)
  {
    && Advances(e.at, previous.at, skew)
    && Advances(e.leaseExpiresAtMs.value, previous.leaseExpiresAtMs.value, skew)
    && Advances(e.visibilityExpiresAtMs.value, previous.visibilityExpiresAtMs.value, skew)
  }

  /**
   * The renewals the check is for: enough complete cycles, all by one owner of one delivery, every
   * cycle number above all earlier ones, and no time falling back by more than the tolerance.
   */
  ghost predicate Renewed(events: seq<Heartbeat>, minimum: int, skew: real) {
    && skew >= 0.0 && 1 <= minimum <= |events|
    && (forall i :: 0 <= i < |events| ==> events[i].succeeded && Complete(events[i], skew))
    && (forall i, j :: 0 <= i < j < |events| ==> SameOwnerAs(events[i], events[j]) && events[i].cycle < events[j].cycle)
    && forall i :: 0 < i < |events| ==> Follows(events[i], events[i - 1], skew)
  }

  lemma SameOwnerJoins()
    ensures forall a, b, c :: SameOwnerAs(a, c) && SameOwnerAs(b, c) ==> SameOwnerAs(a, b)
    ensures forall a, c :: SameOwnerAs(a, c) <==> SameOwnerAs(c, a)
    ensures forall a :: SameOwnerAs(a, a)
  {
  }

  lemma RefusalsAre(e: Heartbeat, first: Heartbeat, skew: real)
    ensures ChangedOwner(e, first) || BadTimes(e, skew) || Expired(e.leaseExpiresAtMs, e.at) || Expired(e.visibilityExpiresAtMs, e.at)
            <==> !(Complete(e, skew) && SameOwnerAs(e, first))
    ensures Complete(e, skew) ==> e.leaseExpiresAtMs.Some? && e.visibilityExpiresAtMs.Some?
  {
  }

  lemma StepRefusalsAre(e: Heartbeat, previous: Heartbeat, skew: real)
    requires Complete(e, skew) && Complete(previous, skew)
    ensures e.leaseExpiresAtMs.Some? && previous.leaseExpiresAtMs.Some?
    ensures e.visibilityExpiresAtMs.Some? && previous.visibilityExpiresAtMs.Some?
    ensures Follows(e, previous, skew) <==>
              !DidNotAdvance(e.at, previous.at, skew)
              && !DidNotAdvance(e.leaseExpiresAtMs.value, previous.leaseExpiresAtMs.value, skew)
              && !DidNotAdvance(e.visibilityExpiresAtMs.value, previous.visibilityExpiresAtMs.value, skew)
  {
  }

  method AssertHeartbeats(events: seq<Heartbeat>, minimum: int, skew: real) returns (ok: bool)
    ensures ok <==> Renewed(events, minimum, skew)
  {
    hide Complete, Follows, SameOwnerAs, ChangedOwner, BadTimes, Expired, DidNotAdvance;
    SameOwnerJoins();
    if skew < 0.0 || minimum < 1 || (exists e :: e in events && !e.succeeded) || |events| < minimum {
      return false;
    }
    var first := events[0];
    for i := 0 to |events|
      invariant forall k :: 0 <= k < i ==> Complete(events[k], skew) && SameOwnerAs(events[k], first)
      invariant forall k :: 0 < k < i ==> events[k - 1].cycle < events[k].cycle && Follows(events[k], events[k - 1], skew)
      invariant forall k, l :: 0 <= k < l < i ==> events[k].cycle < events[l].cycle
    {
      var event := events[i];
      RefusalsAre(event, first, skew);
      if ChangedOwner(event, first) || BadTimes(event, skew)
         || Expired(event.leaseExpiresAtMs, event.at) || Expired(event.visibilityExpiresAtMs, event.at) {
        return false;
      }
      if i > 0 {
        var previous := events[i - 1];
        StepRefusalsAre(event, previous, skew);
        if DidNotAdvance(event.at, previous.at, skew) || event.cycle <= previous.cycle
           || DidNotAdvance(event.leaseExpiresAtMs.value, previous.leaseExpiresAtMs.value, skew)
           || DidNotAdvance(event.visibilityExpiresAtMs.value, previous.visibilityExpiresAtMs.value, skew) {
          return false;
        }
      }
    }
    return true;
  }

  /** The cycles counted are distinct, so the last one is at least the required number. */
  lemma {:induction false} CyclesAreDistinct(events: seq<Heartbeat>, minimum: int, skew: real, j: nat)
    requires Renewed(events, minimum, skew) && j < |events|
    ensures events[j].cycle >= j + 1
    ensures j == |events| - 1 ==> events[j].cycle >= minimum
    ensures forall i :: 0 <= i < |events| && i != j ==> events[i].cycle != events[j].cycle
  {
    if j > 0 {
      CyclesAreDistinct(events, minimum, skew, j - 1);
      assert events[j - 1].cycle < events[j].cycle;
    }
  }

  /** Without a tolerance both expiry bounds and the times grow strictly over the whole run. */
  lemma {:induction false} BoundsGrow(events: seq<Heartbeat>, minimum: int, i: nat, j: nat)
    requires Renewed(events, minimum, 0.0) && i < j < |events|
    ensures events[i].at < events[j].at
    ensures events[i].leaseExpiresAtMs.value < events[j].leaseExpiresAtMs.value
    ensures events[i].visibilityExpiresAtMs.value < events[j].visibilityExpiresAtMs.value
    decreases j
  {
    assert Follows(events[j], events[j - 1], 0.0);
    if i < j - 1 { BoundsGrow(events, minimum, i, j - 1); }
  }

  /** With a tolerance the losses add up: one tolerance for each step between two renewals. */
  lemma {:induction false} LossIsBounded(events: seq<Heartbeat>, minimum: int, skew: real, i: nat, j: nat)
    requires Renewed(events, minimum, skew) && i <= j < |events|
    ensures events[j].leaseExpiresAtMs.value >= events[i].leaseExpiresAtMs.value - (j - i) as real * skew
    ensures events[j].visibilityExpiresAtMs.value >= events[i].visibilityExpiresAtMs.value - (j - i) as real * skew
    decreases j
  {
    if i < j {
      assert Follows(events[j], events[j - 1], skew);
      LossIsBounded(events, minimum, skew, i, j - 1);
      assert (j - i) as real * skew == (j - 1 - i) as real * skew + skew;
    }
  }

  /** A renewal of cycle `n + 1` whose bounds are `n` tolerances below the first one's. */
  function Losing(n: nat, skew: real): Heartbeat {
    var at := 100.0 * skew - n as real * skew;
    Heartbeat(true, Some("w"), Some(1), "m", "d", n + 1, at, at, Some(at + skew), Some(at + skew), at)
  }

  /** The bound per step is exact: one tolerance over the whole run would be too little. */
  lemma LossAddsUp(skew: real)
    requires skew > 0.0
    ensures var events := [Losing(0, skew), Losing(1, skew), Losing(2, skew)];
            && Renewed(events, 3, skew)
            && events[2].leaseExpiresAtMs.value == events[0].leaseExpiresAtMs.value - 2.0 * skew
  {
  }

  /** Paired evidence that passes the check holds exactly two operations for each cycle it counts. */
  lemma RenewalsUseEveryOperation(s: Settings, rows: seq<Row>, minimum: int)
    requires Usable(s, rows)
    requires var ops := OperationsOf(s, rows); Renewed(HeartbeatsOf(s, ops, Keys(ops)), minimum, s.skew)
    ensures var ops := OperationsOf(s, rows);
            && |ops| == 2 * |HeartbeatsOf(s, ops, Keys(ops))| >= 2 * minimum
            && forall op, other :: op in ops && other in ops ==> op.deliveryId == other.deliveryId
  {
    var ops := OperationsOf(s, rows);
    var heartbeats := HeartbeatsOf(s, ops, Keys(ops));
    OperationsConserved(s, rows);
    AllSucceeded(heartbeats);
    forall op, other | op in ops && other in ops ensures op.deliveryId == other.deliveryId {
      var a := HeartbeatFor(s, ops, op);
      var b := HeartbeatFor(s, ops, other);
      assert SameOwnerAs(heartbeats[a], heartbeats[b]) || SameOwnerAs(heartbeats[b], heartbeats[a]) || a == b;
    }
  }

  lemma {:induction false} AllSucceeded(heartbeats: seq<Heartbeat>)
    requires forall i :: 0 <= i < |heartbeats| ==> heartbeats[i].succeeded
    ensures Succeeded(heartbeats) == |heartbeats|
  {
    if heartbeats != [] { AllSucceeded(heartbeats[..|heartbeats| - 1]); }
  }

  /** Every operation is in the heartbeat of its delivery and cycle. */
  lemma HeartbeatFor(s: Settings, ops: seq<Operation>, op: Operation) returns (i: nat)
    requires op in ops
    ensures var heartbeats := HeartbeatsOf(s, ops, Keys(ops));
            i < |heartbeats| && heartbeats[i].deliveryId == op.deliveryId && heartbeats[i].cycle == op.cycle
  {
    var key := KeyOf(op);
    assert GroupOf(ops, key).NonEmpty();
    assert key in Keys(ops);
    var h := HeartbeatOf(s, GroupOf(ops, key));
    HeartbeatMembers(s, ops, Keys(ops), h);
    i :| 0 <= i < |HeartbeatsOf(s, ops, Keys(ops))| && HeartbeatsOf(s, ops, Keys(ops))[i] == h;
  }
}
