/**
 * The safe restart bound of `app/frontend/e2e/reliability/lifecycle.ts` and the wait of
 * `lifecycle-driver.ts`, against a ghost model of several clocks. Times are milliseconds.
 */
module Clocks {
  import opened Wrappers
  import opened ClockModel

  datatype ExpiryInput = ExpiryInput(
    databaseNowMs: real, leaseExpiresAtMs: real, localBeforeMs: real, localAfterMs: real,
    visibilityObservedAtMs: real, visibilityDurationMs: real, stoppedAtMs: real, maximumVisibilityMs: real,
    clockSkewMs: real)

  datatype Bounds = Bounds(leaseSafeAfterMs: real, visibilitySafeAfterMs: real, recoveryAfterMs: real)

  datatype ClockCause = LocalClockReversed | DbBehind | DbAhead

  datatype Failure = NotPositive | ClockOutOfBounds(cause: ClockCause, excessMs: real) | VisibilityAfterStop

  function Max(a: real, b: real): real {
    if a >= b then a else b
  }

  /** `assertDatabaseClock`; `None` when the observation is accepted. */
  function AssertDatabaseClock(databaseNow: real, before: real, after: real, skew: real): Option<Failure> {
    if databaseNow <= 0.0 || before <= 0.0 || after <= 0.0 || skew <= 0.0 then Some(NotPositive)
    else if after < before || databaseNow < before - skew || databaseNow > after + skew then
      Some(ClockOutOfBounds(
        if after < before then LocalClockReversed else if databaseNow < before - skew then DbBehind else DbAhead,
        if after < before then before - after else Max(before - skew - databaseNow, databaseNow - after - skew)))
    else None
  }

  /**
   * The reported excess is exactly the tolerance that was missing; for a local clock that ran
   * back it is how far, and no tolerance makes up for it.
   */
  lemma ExcessIsExact(databaseNow: real, before: real, after: real, skew: real, more: real)
    requires more >= 0.0
    requires AssertDatabaseClock(databaseNow, before, after, skew).Some?
    requires AssertDatabaseClock(databaseNow, before, after, skew).value.ClockOutOfBounds?
    ensures
      var failure := AssertDatabaseClock(databaseNow, before, after, skew).value;
      && failure.excessMs > 0.0
      && (failure.cause == LocalClockReversed <==> after < before)
      && (failure.cause == DbBehind <==> before <= after && databaseNow + skew < before)
      && (failure.cause == DbAhead <==> before <= after && after < databaseNow - skew)
      && (after < before ==>
            failure.excessMs == before - after && AssertDatabaseClock(databaseNow, before, after, skew + more) == Some(failure))
      && (before <= after ==>
            (AssertDatabaseClock(databaseNow, before, after, skew + more).None? <==> more >= failure.excessMs))
  {
  }

  /** Numbers that are all positive are never refused as unusable, and others always are. */
  lemma UnusableIff(databaseNow: real, before: real, after: real, skew: real)
    ensures AssertDatabaseClock(databaseNow, before, after, skew) == Some(NotPositive)
            <==> !(databaseNow > 0.0 && before > 0.0 && after > 0.0 && skew > 0.0)
  {
  }

  function ExpiryBounds(i: ExpiryInput): Result<Bounds, Failure> {
    if i.databaseNowMs <= 0.0 || i.leaseExpiresAtMs <= 0.0 || i.localBeforeMs <= 0.0 || i.localAfterMs <= 0.0
       || i.visibilityObservedAtMs <= 0.0 || i.visibilityDurationMs <= 0.0 || i.stoppedAtMs <= 0.0
       || i.maximumVisibilityMs <= 0.0 || i.clockSkewMs <= 0.0 then Err(NotPositive)
    else
      match AssertDatabaseClock(i.databaseNowMs, i.localBeforeMs, i.localAfterMs, i.clockSkewMs)
      case Some(f) => Err(f)
      case None =>
        if i.visibilityObservedAtMs > i.stoppedAtMs + i.clockSkewMs then Err(VisibilityAfterStop)
        else
          var lease := i.localAfterMs + Max(0.0, i.leaseExpiresAtMs - i.databaseNowMs);
          var visibility := Max(
            i.visibilityObservedAtMs + i.visibilityDurationMs + i.clockSkewMs,
            i.stoppedAtMs + i.maximumVisibilityMs);
          Ok(Bounds(lease, visibility, Max(lease, visibility) + i.clockSkewMs))
  }

  // ---------- The world: clocks as functions of physical time ----------

  datatype World = World(local: Clock, db: Clock, queue: Clock, worker: Clock)

  /** The instants behind the evidence: the database read, the worker's stop. */
  ghost predicate Evidence(w: World, i: ExpiryInput, read: Instant, stop: Instant) {
    && ElapsedAgree(w.db, w.local, i.clockSkewMs)
    && ElapsedAgree(w.queue, w.local, i.clockSkewMs)
    && NeverBack(w.local)
    && i.localBeforeMs <= w.local(read) <= i.localAfterMs
    && w.db(read) == i.databaseNowMs
    && w.local(stop) <= i.stoppedAtMs
  }

  // ---------- When there is a bound ----------

  /** Every number of the evidence is positive. */
  predicate AllPositive(i: ExpiryInput) {
    var all := [i.databaseNowMs, i.leaseExpiresAtMs, i.localBeforeMs, i.localAfterMs, i.visibilityObservedAtMs,
                i.visibilityDurationMs, i.stoppedAtMs, i.maximumVisibilityMs, i.clockSkewMs];
    forall x :: x in all ==> x > 0.0
  }

  /** The database was read between the two local readings, when the two clocks agreed within the skew. */
  ghost predicate ExplainsRead(w: World, i: ExpiryInput, read: Instant) {
    && i.localBeforeMs <= w.local(read) <= i.localAfterMs
    && w.db(read) == i.databaseNowMs
    && ReadingsAgree(w.db, w.local, read, i.clockSkewMs)
  }

  /** The last extension was answered before the worker stopped, when its clock agreed with the local one within the skew. */
  ghost predicate ExplainsStop(w: World, i: ExpiryInput, response: Instant, stop: Instant) {
    && NeverBack(w.local)
    && response <= stop
    && w.worker(response) == i.visibilityObservedAtMs
    && w.local(stop) == i.stoppedAtMs
    && ReadingsAgree(w.worker, w.local, response, i.clockSkewMs)
  }

  /** The two instants of a world that the evidence fits, on clocks whose elapsed times agree. */
  ghost predicate Explained(w: World, i: ExpiryInput, read: Instant, response: Instant, stop: Instant) {
    Evidence(w, i, read, stop) && ExplainsRead(w, i, read) && ExplainsStop(w, i, response, stop)
  }

  ghost predicate MayBeRead(i: ExpiryInput) {
    exists w, read :: ExplainsRead(w, i, read)
  }

  ghost predicate MayPrecedeStop(i: ExpiryInput) {
    exists w, response, stop :: ExplainsStop(w, i, response, stop)
  }

  /** Genuine evidence is never refused. */
  lemma GenuineIsAnswered(w: World, i: ExpiryInput, read: Instant, response: Instant, stop: Instant)
    requires AllPositive(i) && ExplainsRead(w, i, read) && ExplainsStop(w, i, response, stop)
    ensures ExpiryBounds(i).Ok?
  {
    PositiveParts(i);
    assert w.local(response) <= w.local(stop);
  }

  lemma PositiveParts(i: ExpiryInput)
    ensures AllPositive(i) <==>
              && i.databaseNowMs > 0.0 && i.leaseExpiresAtMs > 0.0 && i.localBeforeMs > 0.0 && i.localAfterMs > 0.0
              && i.visibilityObservedAtMs > 0.0 && i.visibilityDurationMs > 0.0 && i.stoppedAtMs > 0.0
              && i.maximumVisibilityMs > 0.0 && i.clockSkewMs > 0.0
  {
    var all := [i.databaseNowMs, i.leaseExpiresAtMs, i.localBeforeMs, i.localAfterMs, i.visibilityObservedAtMs,
                i.visibilityDurationMs, i.stoppedAtMs, i.maximumVisibilityMs, i.clockSkewMs];
    assert all[0] in all && all[1] in all && all[2] in all && all[3] in all && all[4] in all && all[5] in all
        && all[6] in all && all[7] in all && all[8] in all;
  }

  /** A world for evidence whose times fit: local clock and queue show physical time, the others are set by the readings. */
  lemma FittingWorld(i: ExpiryInput) returns (w: World, read: Instant, response: Instant, stop: Instant)
    requires AllPositive(i) && i.localBeforeMs <= i.localAfterMs
    requires i.localBeforeMs - i.clockSkewMs <= i.databaseNowMs <= i.localAfterMs + i.clockSkewMs
    ensures ExplainsRead(w, i, read) && Evidence(w, i, read, stop)
    ensures i.visibilityObservedAtMs <= i.stoppedAtMs + i.clockSkewMs ==> ExplainsStop(w, i, response, stop)
  {
    PositiveParts(i);
    read := if i.databaseNowMs < i.localBeforeMs then i.localBeforeMs
            else if i.databaseNowMs > i.localAfterMs then i.localAfterMs else i.databaseNowMs;
    stop := i.stoppedAtMs;
    response := if i.visibilityObservedAtMs < stop then i.visibilityObservedAtMs else stop;
    var local: Clock := t => t;
    var db: Clock, worker: Clock := ShowingAt(read, i.databaseNowMs), ShowingAt(response, i.visibilityObservedAtMs);
    w := World(local, db, local, worker);
  }

  /** A clock that runs with physical time and shows `reading` at `at`. */
  function ShowingAt(at: Instant, reading: real): Clock {
    t => t + (reading - at)
  }

  /**
   * Main theorem: evidence of positive numbers gets a bound if and only if some world explains it;
   * a refusal names what no world explains, the database reading first.
   */
  lemma AnsweredIff(i: ExpiryInput)
    ensures ExpiryBounds(i).Ok? <==>
              AllPositive(i) && exists w, read, response, stop :: Explained(w, i, read, response, stop)
    ensures ExpiryBounds(i) == Err(NotPositive) <==> !AllPositive(i)
    ensures ExpiryBounds(i).Err? && ExpiryBounds(i).error.ClockOutOfBounds? <==> AllPositive(i) && !MayBeRead(i)
    ensures ExpiryBounds(i) == Err(VisibilityAfterStop) <==> AllPositive(i) && MayBeRead(i) && !MayPrecedeStop(i)
  {
    hide AllPositive;
    PositiveParts(i);
    if AllPositive(i) {
      if MayBeRead(i) {
        var w, read :| ExplainsRead(w, i, read);
        var v, r, response, stop := FittingWorld(i);
        if MayPrecedeStop(i) {
          var u, p, q :| ExplainsStop(u, i, p, q);
          assert u.local(p) <= u.local(q);
          assert Explained(v, i, r, response, stop);
        }
      } else if i.localBeforeMs <= i.localAfterMs && i.localBeforeMs - i.clockSkewMs <= i.databaseNowMs <= i.localAfterMs + i.clockSkewMs {
        var v, r, response, stop := FittingWorld(i);
        assert false;
      }
      if ExpiryBounds(i).Ok? {
        var v, r, response, stop := FittingWorld(i);
        assert Explained(v, i, r, response, stop);
      }
    }
  }

  /** A visibility window the queue granted at `grant` for `duration` is over at `t`. */
  predicate WindowOver(w: World, grant: Instant, duration: real, t: Instant) {
    w.queue(t) >= w.queue(grant) + duration
  }

  /** The last extension the worker logged, its response read no later than the evidence says. */
  ghost predicate LoggedExtension(w: World, i: ExpiryInput, grant: Instant, response: Instant) {
    && grant <= response
    && ReadingsAgree(w.worker, w.local, response, i.clockSkewMs)
    && w.worker(response) <= i.visibilityObservedAtMs
  }

  /**
   * Main theorem: once the local clock shows `recoveryAfterMs`, the lease has expired on the
   * database clock, every window granted before the stop for at most the maximum visibility
   * is over on the queue clock, and so is the last logged extension.
   */
  lemma RecoveryIsSafe(w: World, i: ExpiryInput, read: Instant, stop: Instant, t: Instant)
    requires ExpiryBounds(i).Ok? && Evidence(w, i, read, stop)
    requires w.local(t) >= ExpiryBounds(i).value.recoveryAfterMs
    ensures w.db(t) >= i.leaseExpiresAtMs
    ensures forall grant, duration :: grant <= stop && duration <= i.maximumVisibilityMs ==> WindowOver(w, grant, duration, t)
    ensures forall grant, response :: LoggedExtension(w, i, grant, response) ==>
              WindowOver(w, grant, i.visibilityDurationMs, t)
  {
    var skew := i.clockSkewMs;
    assert -skew <= (w.db(t) - w.db(read)) - (w.local(t) - w.local(read)) <= skew;
    forall grant, duration | grant <= stop && duration <= i.maximumVisibilityMs ensures WindowOver(w, grant, duration, t) {
      assert w.local(grant) <= w.local(stop);
      assert -skew <= (w.queue(t) - w.queue(grant)) - (w.local(t) - w.local(grant)) <= skew;
    }
    forall grant, response | LoggedExtension(w, i, grant, response)
      ensures WindowOver(w, grant, i.visibilityDurationMs, t)
    {
      assert w.local(grant) <= w.local(response);
      assert -skew <= (w.queue(t) - w.queue(grant)) - (w.local(t) - w.local(grant)) <= skew;
    }
  }

  /** Something that must be over is not: the lease, a window granted before the stop, or the logged extension. */
  ghost predicate Unexpired(w: World, i: ExpiryInput, stop: Instant, t: Instant) {
    || w.db(t) < i.leaseExpiresAtMs
    || (exists grant, duration :: grant <= stop && duration <= i.maximumVisibilityMs && !WindowOver(w, grant, duration, t))
    || exists grant, response :: LoggedExtension(w, i, grant, response) && !WindowOver(w, grant, i.visibilityDurationMs, t)
  }

  /** The bound without rounding up a lease that had already expired when it was read. */
  function TightRecovery(i: ExpiryInput): real {
    Max(i.localAfterMs + (i.leaseExpiresAtMs - i.databaseNowMs),
        Max(i.visibilityObservedAtMs + i.visibilityDurationMs + i.clockSkewMs, i.stoppedAtMs + i.maximumVisibilityMs))
    + i.clockSkewMs
  }

  /** Some world that the evidence cannot rule out has something unexpired when the local clock shows `reading`. */
  ghost predicate MayBeUnexpired(i: ExpiryInput, reading: real) {
    exists w, read, stop, t :: Evidence(w, i, read, stop) && w.local(t) == reading && Unexpired(w, i, stop, t)
  }

  /** A local clock that stands still for a while once it shows `from`. */
  function Pausing(from: real): Clock {
    t => if t <= from then t else if t <= from + 1.0 then from else t - 1.0
  }

  /** The local clock's reading, but `lag` behind it at every instant but one. */
  function BehindExcept(local: Clock, at: Instant, offset: real, lag: real): Clock {
    t => if t == at then local(t) + offset else local(t) + offset - lag
  }

  lemma BehindAgrees(local: Clock, at: Instant, offset: real, lag: real)
    requires lag >= 0.0
    ensures ElapsedAgree(BehindExcept(local, at, offset, lag), local, lag)
    ensures ElapsedAgree(local, local, lag)
  {
  }

  lemma PausingNeverBack(from: real)
    ensures NeverBack(Pausing(from))
  {
  }

  lemma LeaseMayLast(i: ExpiryInput, reading: real)
    requires ExpiryBounds(i).Ok? && reading < i.localAfterMs + (i.leaseExpiresAtMs - i.databaseNowMs) + i.clockSkewMs
    ensures MayBeUnexpired(i, reading)
  {
    var a := i.localAfterMs;
    var local, read := Pausing(a), a + 1.0;
    var w := World(local, BehindExcept(local, read, i.databaseNowMs - a, i.clockSkewMs), local, local);
    BehindAgrees(local, read, i.databaseNowMs - a, i.clockSkewMs);
    PausingNeverBack(a);
    var stop := if i.stoppedAtMs <= a then i.stoppedAtMs else i.stoppedAtMs + 1.0;
    var t := if reading <= a then reading else reading + 1.0;
    assert Evidence(w, i, read, stop) && w.local(t) == reading && w.db(t) < i.leaseExpiresAtMs;
  }

  lemma WindowMayLast(i: ExpiryInput, reading: real)
    requires ExpiryBounds(i).Ok? && reading < i.stoppedAtMs + i.maximumVisibilityMs + i.clockSkewMs
    ensures MayBeUnexpired(i, reading)
  {
    var local: Clock := t => t;
    var stop := i.stoppedAtMs;
    var queue := BehindExcept(local, stop, 0.0, i.clockSkewMs);
    var w := World(local, BehindExcept(local, i.localAfterMs, i.databaseNowMs - i.localAfterMs, 0.0), queue, local);
    BehindAgrees(local, stop, 0.0, i.clockSkewMs);
    BehindAgrees(local, i.localAfterMs, i.databaseNowMs - i.localAfterMs, 0.0);
    SmallerSkew(w.db, local, 0.0, i.clockSkewMs);
    assert Evidence(w, i, i.localAfterMs, stop) && w.local(reading) == reading;
    assert !WindowOver(w, stop, i.maximumVisibilityMs, reading);
  }

  lemma SmallerSkew(a: Clock, b: Clock, skew: real, more: real)
    requires ElapsedAgree(a, b, skew) && skew <= more
    ensures ElapsedAgree(a, b, more)
  {
  }

  lemma ExtensionMayLast(i: ExpiryInput, reading: real)
    requires ExpiryBounds(i).Ok?
    requires reading < i.visibilityObservedAtMs + i.visibilityDurationMs + i.clockSkewMs + i.clockSkewMs
    ensures MayBeUnexpired(i, reading)
  {
    var local: Clock := t => t;
    var skew := i.clockSkewMs;
    var worker: Clock := t => t - skew;
    var response := i.visibilityObservedAtMs + skew;
    var queue := BehindExcept(local, response, 0.0, skew);
    var w := World(local, BehindExcept(local, i.localAfterMs, i.databaseNowMs - i.localAfterMs, 0.0), queue, worker);
    BehindAgrees(local, response, 0.0, skew);
    BehindAgrees(local, i.localAfterMs, i.databaseNowMs - i.localAfterMs, 0.0);
    SmallerSkew(w.db, local, 0.0, skew);
    assert Evidence(w, i, i.localAfterMs, i.stoppedAtMs) && w.local(reading) == reading;
    assert LoggedExtension(w, i, response, response) && !WindowOver(w, response, i.visibilityDurationMs, reading);
  }

  lemma OverFromTightRecovery(w: World, i: ExpiryInput, read: Instant, stop: Instant, t: Instant)
    requires ExpiryBounds(i).Ok? && Evidence(w, i, read, stop) && w.local(t) >= TightRecovery(i)
    ensures !Unexpired(w, i, stop, t)
  {
    var skew := i.clockSkewMs;
    assert -skew <= (w.db(t) - w.db(read)) - (w.local(t) - w.local(read)) <= skew;
    forall grant, duration | grant <= stop && duration <= i.maximumVisibilityMs ensures WindowOver(w, grant, duration, t) {
      assert w.local(grant) <= w.local(stop);
      assert -skew <= (w.queue(t) - w.queue(grant)) - (w.local(t) - w.local(grant)) <= skew;
    }
    forall grant, response | LoggedExtension(w, i, grant, response) ensures WindowOver(w, grant, i.visibilityDurationMs, t) {
      assert w.local(grant) <= w.local(response);
      assert -skew <= (w.queue(t) - w.queue(grant)) - (w.local(t) - w.local(grant)) <= skew;
    }
  }

  /**
   * How tight the bound is, for every evidence and every reading: something may be unexpired if
   * and only if the reading is below `TightRecovery`. The bound is that number unless the lease
   * had expired when it was read and the visibility bound lies below the reading's own time.
   */
  lemma NoEarlierBoundIsSafe(i: ExpiryInput, reading: real)
    requires ExpiryBounds(i).Ok?
    ensures MayBeUnexpired(i, reading) <==> reading < TightRecovery(i)
    ensures TightRecovery(i) <= ExpiryBounds(i).value.recoveryAfterMs
    ensures TightRecovery(i) == ExpiryBounds(i).value.recoveryAfterMs
            <==> i.leaseExpiresAtMs >= i.databaseNowMs || ExpiryBounds(i).value.visibilitySafeAfterMs >= i.localAfterMs
  {
    if reading < i.localAfterMs + (i.leaseExpiresAtMs - i.databaseNowMs) + i.clockSkewMs { LeaseMayLast(i, reading); }
    if reading < i.stoppedAtMs + i.maximumVisibilityMs + i.clockSkewMs { WindowMayLast(i, reading); }
    if reading < i.visibilityObservedAtMs + i.visibilityDurationMs + i.clockSkewMs + i.clockSkewMs { ExtensionMayLast(i, reading); }
    if reading >= TightRecovery(i) {
      forall w, read, stop, t | Evidence(w, i, read, stop) && w.local(t) == reading ensures !Unexpired(w, i, stop, t) {
        OverFromTightRecovery(w, i, read, stop, t);
      }
    }
  }

  // ---------- The driver's wait and the replacement check ----------

  /** The condition under which the driver restarts the worker: the database and the local clock both say so. */
  predicate MayRestart(databaseNow: real, leaseExpires: real, localNow: real, recoveryAfterMs: real, skew: real) {
    databaseNow >= leaseExpires && localNow >= recoveryAfterMs + 2.0 * skew
  }

  /** `assertCrashRecovery`'s check of the replacement's acquisition time. */
  predicate ReplacementAccepted(at: real, recoveryAfterMs: real, skew: real) {
    at > 0.0 && !(at - skew < recoveryAfterMs)
  }

  /** A genuine acquisition, after the restart, logged by a worker clock within the skew, is accepted. */
  lemma GenuineRestartIsAccepted(
    w: World, leaseExpires: real, recoveryAfterMs: real, skew: real, read: Instant, restart: Instant, acquired: Instant)
    requires recoveryAfterMs > 0.0 && skew > 0.0 && NeverBack(w.local) && restart <= acquired
    requires MayRestart(w.db(read), leaseExpires, w.local(restart), recoveryAfterMs, skew)
    requires ReadingsAgree(w.worker, w.local, acquired, skew)
    ensures ReplacementAccepted(w.worker(acquired), recoveryAfterMs, skew)
  {
    assert w.local(restart) <= w.local(acquired);
  }

  /**
   * The database clause never holds the restart back for good: whenever the local clause holds, a
   * database read made then already shows the lease expired.
   */
  lemma LocalWaitSuffices(w: World, i: ExpiryInput, read: Instant, stop: Instant, t: Instant)
    requires ExpiryBounds(i).Ok? && Evidence(w, i, read, stop)
    ensures var after := ExpiryBounds(i).value.recoveryAfterMs;
            MayRestart(w.db(t), i.leaseExpiresAtMs, w.local(t), after, i.clockSkewMs)
            <==> w.local(t) >= after + 2.0 * i.clockSkewMs
  {
    if w.local(t) >= ExpiryBounds(i).value.recoveryAfterMs { RecoveryIsSafe(w, i, read, stop, t); }
  }

  /** Conversely, an accepted acquisition really happened after everything had expired. */
  lemma AcceptedReplacementIsSafe(w: World, i: ExpiryInput, read: Instant, stop: Instant, acquired: Instant)
    requires ExpiryBounds(i).Ok? && Evidence(w, i, read, stop)
    requires ReadingsAgree(w.worker, w.local, acquired, i.clockSkewMs)
    requires ReplacementAccepted(w.worker(acquired), ExpiryBounds(i).value.recoveryAfterMs, i.clockSkewMs)
    ensures w.db(acquired) >= i.leaseExpiresAtMs
    ensures forall grant, duration :: grant <= stop && duration <= i.maximumVisibilityMs ==>
              WindowOver(w, grant, duration, acquired)
  {
    RecoveryIsSafe(w, i, read, stop, acquired);
  }

  /** A reading that a genuine restart, after a wait, may be logged with. */
  predicate GenuineReading(localNow: real, at: real, recoveryAfterMs: real, wait: real, skew: real) {
    localNow >= recoveryAfterMs + wait && -skew <= at - localNow <= skew
  }

  /** The extra wait is exact: twice the skew suffices, and nothing less does. */
  lemma WaitIsExact(recoveryAfterMs: real, skew: real, wait: real)
    requires recoveryAfterMs > 0.0 && skew > 0.0
    ensures (forall localNow, at :: GenuineReading(localNow, at, recoveryAfterMs, wait, skew) ==>
               ReplacementAccepted(at, recoveryAfterMs, skew))
            <==> wait >= 2.0 * skew
  {
    if wait < 2.0 * skew {
      var localNow := recoveryAfterMs + wait;
      assert GenuineReading(localNow, localNow - skew, recoveryAfterMs, wait, skew);
      assert !ReplacementAccepted(localNow - skew, recoveryAfterMs, skew);
    }
  }
}
