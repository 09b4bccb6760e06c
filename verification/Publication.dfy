/**
 * The publication probe, `app/frontend/e2e/publication-probe.ts`. Times are milliseconds of the
 * observer's monotonic clock.
 */
module Publication {
  import opened Wrappers

  const RECOVERY_BOUND_MS: real := 10000.0
  const OBSERVATION_GAP_MS: real := 5000.0

  /** `exists()` answers or throws. */
  datatype Probe = Present | Absent | Unobservable

  /**
   * What one round of the loop reads: the abort signal and the clock in the guard, the storage probe
   * between two readings, the CDN status (`None` when it throws) and a last reading. Once the
   * manifest was present the probe and its readings are not used.
   */
  datatype Round = Round(
    aborted: bool, guardAt: real, startedAt: real, probe: Probe, presentAt: real, status: Option<int>, observedAt: real)

  datatype Initial = Initial(absentAt: real, negativeAt: real)

  datatype Evidence = Evidence(
    lastAbsentAt: real, firstPresentAt: real, lastNegativeAt: real, firstSuccessAt: real,
    recoveryUpperBoundMs: real, recoveryBoundMs: real)

  datatype Reason = Stopped | ProbeFailed | NotBracketed | StatusFailed | UnexpectedStatus | TooSlow

  datatype Ended = Returned(evidence: Evidence) | Failed(reason: Reason) | StillPolling

  predicate Negative(status: Option<int>) {
    status == Some(403) || status == Some(404)
  }

  // ---------- The accepted observations ----------

  function Deadline(start: real, timeout: real): real {
    start + timeout
  }

  /** The round starts within the budget and reads a status the probe knows. */
  predicate Sound(r: Round, deadline: real) {
    !r.aborted && r.guardAt < deadline && (r.status == Some(200) || Negative(r.status))
  }

  /** The start of the last probe that found nothing, before round `j`, the first to find the manifest. */
  function LastAbsent(rounds: seq<Round>, initial: Option<Initial>, j: nat): Option<real>
    requires j <= |rounds|
  {
    if j > 0 then Some(rounds[j - 1].startedAt) else if initial.Some? then Some(initial.value.absentAt) else None
  }

  /** The last negative CDN answer in the first `n` rounds. */
  function LastNegative(rounds: seq<Round>, initial: Option<Initial>, n: nat): Option<real>
    requires n <= |rounds|
  {
    if n == 0 then if initial.Some? then Some(initial.value.negativeAt) else None
    else if Negative(rounds[n - 1].status) then Some(rounds[n - 1].observedAt)
    else LastNegative(rounds, initial, n - 1)
  }

  /** Round `j` is the first to find the manifest. */
  ghost predicate FirstPresent(rounds: seq<Round>, j: nat) {
    j < |rounds| && rounds[j].probe == Present && forall i :: 0 <= i < j ==> rounds[i].probe == Absent
  }

  predicate Recent(earlier: Option<real>, at: real) {
    earlier.Some? && at - earlier.value <= OBSERVATION_GAP_MS
  }

  predicate Bracketed(rounds: seq<Round>, initial: Option<Initial>, j: nat)
    requires j < |rounds|
  {
    && Recent(LastAbsent(rounds, initial, j), rounds[j].presentAt)
    && Recent(LastNegative(rounds, initial, j), rounds[j].presentAt)
  }

  predicate InBound(r: Round, lastAbsentAt: real) {
    r.observedAt - lastAbsentAt <= RECOVERY_BOUND_MS
  }

  /** The manifest appears in round `j`, bracketed, and the CDN first serves it after that in round `m`, in time. */
  ghost predicate Observes(rounds: seq<Round>, deadline: real, initial: Option<Initial>, j: nat, m: nat) {
    && j <= m < |rounds|
    && (forall i :: 0 <= i <= m ==> Sound(rounds[i], deadline))
    && FirstPresent(rounds, j)
    && Bracketed(rounds, initial, j)
    && (forall i :: j <= i <= m ==> InBound(rounds[i], LastAbsent(rounds, initial, j).value))
    && (forall i :: j <= i < m ==> rounds[i].status != Some(200))
    && rounds[m].status == Some(200)
  }

  function EvidenceOf(rounds: seq<Round>, initial: Option<Initial>, j: nat, m: nat): Evidence
    requires j <= m < |rounds| && Bracketed(rounds, initial, j)
  {
    var absent := LastAbsent(rounds, initial, j).value;
    LastNegativeStays(rounds, initial, j, m + 1);
    Evidence(absent, rounds[j].presentAt, LastNegative(rounds, initial, m + 1).value, rounds[m].observedAt,
             rounds[m].observedAt - absent, RECOVERY_BOUND_MS)
  }

  lemma {:induction false} LastNegativeStays(rounds: seq<Round>, initial: Option<Initial>, j: nat, n: nat)
    requires j <= n <= |rounds| && LastNegative(rounds, initial, j).Some?
    ensures LastNegative(rounds, initial, n).Some?
    decreases n
  {
    if j < n { LastNegativeStays(rounds, initial, j, n - 1); }
  }

  // ---------- The loop as written ----------

  /** The budget is spent, or somebody gave up: the guard lets no round begin that reads this. */
  predicate Halts(r: Round, start: real, timeout: real) {
    r.aborted || r.guardAt - start >= timeout
  }

  /** Round `i` is the first that the guard does not let begin, and no round before it ended the probe. */
  ghost predicate StopsAt(rounds: seq<Round>, start: real, timeout: real, initial: Option<Initial>, i: nat, present: Option<nat>) {
    && Polled(rounds, Deadline(start, timeout), initial, i, present)
    && i < |rounds| && Halts(rounds[i], start, timeout)
    && forall k :: 0 <= k < i ==> !Halts(rounds[k], start, timeout)
  }

  /** The first `i` rounds all ended with another pause. */
  ghost predicate Polled(rounds: seq<Round>, deadline: real, initial: Option<Initial>, i: nat, present: Option<nat>) {
    && i <= |rounds|
    && (forall k :: 0 <= k < i ==> Sound(rounds[k], deadline))
    && match present
       case None => forall k :: 0 <= k < i ==> rounds[k].probe == Absent
       case Some(j) =>
         && j < i && FirstPresent(rounds, j) && Bracketed(rounds, initial, j)
         && forall k :: j <= k < i ==> rounds[k].status != Some(200)
                                       && InBound(rounds[k], LastAbsent(rounds, initial, j).value)
  }

  /** Why the round at `i` makes the probe fail, after `i` rounds that did not. */
  ghost predicate FailsWith(
    rounds: seq<Round>, deadline: real, initial: Option<Initial>, i: nat, present: Option<nat>, reason: Reason) {
    && i < |rounds| && Polled(rounds, deadline, initial, i, present)
    && var round := rounds[i];
       var seen := present.Some? || (round.probe == Present && Bracketed(rounds, initial, i));
       && (reason == Stopped <==> round.aborted || round.guardAt >= deadline)
       && match reason
          case Stopped => true
          case ProbeFailed => present.None? && round.probe == Unobservable
          case NotBracketed => present.None? && round.probe == Present && !Bracketed(rounds, initial, i)
          case StatusFailed => (seen || round.probe == Absent) && round.status.None?
          case UnexpectedStatus =>
            (seen || round.probe == Absent) && round.status.Some? && round.status.value !in {200, 403, 404}
          case TooSlow =>
            && seen && Sound(round, deadline)
            && !InBound(round, LastAbsent(rounds, initial, if present.Some? then present.value else i).value)
  }

  /** An accepted observation does not end before the rounds already polled, and agrees on the first presence. */
  lemma PolledIsBefore(rounds: seq<Round>, deadline: real, initial: Option<Initial>, i: nat, present: Option<nat>, j: nat, m: nat)
    requires Polled(rounds, deadline, initial, i, present) && Observes(rounds, deadline, initial, j, m)
    ensures i <= m && match present case None => i <= j case Some(p) => p == j
  {
  }

  /**
   * `observePublication` on the rounds it gets to. It returns exactly on an accepted observation,
   * and what it returns is fixed by the first presence and the first success after it: the lower
   * bound is the one in force when the manifest was first seen, whatever the later rounds read.
   */
  method ObservePublication(start: real, timeout: real, initial: Option<Initial>, rounds: seq<Round>) returns (r: Ended)
    ensures r.Returned? <==> exists j: nat, m: nat :: Observes(rounds, Deadline(start, timeout), initial, j, m)
    ensures forall j: nat, m: nat :: Observes(rounds, Deadline(start, timeout), initial, j, m) ==>
              r == Returned(EvidenceOf(rounds, initial, j, m))
    ensures r.Failed? ==> exists i: nat, p :: FailsWith(rounds, Deadline(start, timeout), initial, i, p, r.reason)
    ensures r == Failed(Stopped) <==> exists i: nat, p :: StopsAt(rounds, start, timeout, initial, i, p)
    ensures r == StillPolling <==> exists present :: Polled(rounds, Deadline(start, timeout), initial, |rounds|, present)
  {
    hide StopsAt;
    var deadline := Deadline(start, timeout);
    var lastAbsentAt: Option<real> := if initial.Some? then Some(initial.value.absentAt) else None;
    var lastNegativeAt: Option<real> := if initial.Some? then Some(initial.value.negativeAt) else None;
    var firstPresentAt: Option<real> := None;
    ghost var present: Option<nat> := None;
    for i := 0 to |rounds|
      invariant Polled(rounds, deadline, initial, i, present)
      invariant lastNegativeAt == LastNegative(rounds, initial, i)
      invariant lastAbsentAt == LastAbsent(rounds, initial, if present.Some? then present.value else i)
      invariant firstPresentAt == if present.Some? then Some(rounds[present.value].presentAt) else None
    {
      var round := rounds[i];
      ghost var before := present;
      if round.aborted || !(round.guardAt < deadline) {
        RoundFails(rounds, start, timeout, initial, i, before, Stopped);
        return Failed(Stopped);
      }
      if firstPresentAt.None? {
        if round.probe == Unobservable {
          RoundFails(rounds, start, timeout, initial, i, before, ProbeFailed);
          return Failed(ProbeFailed);
        }
        if round.probe == Present {
          firstPresentAt := Some(round.presentAt);
          if lastAbsentAt.None? || lastNegativeAt.None?
             || round.presentAt - lastAbsentAt.value > OBSERVATION_GAP_MS
             || round.presentAt - lastNegativeAt.value > OBSERVATION_GAP_MS {
            RoundFails(rounds, start, timeout, initial, i, before, NotBracketed);
            return Failed(NotBracketed);
          }
          present := Some(i);
        } else {
          lastAbsentAt := Some(round.startedAt);
        }
      }
      if round.status.None? {
        RoundFails(rounds, start, timeout, initial, i, before, StatusFailed);
        return Failed(StatusFailed);
      }
      if round.status.value !in {200, 403, 404} {
        RoundFails(rounds, start, timeout, initial, i, before, UnexpectedStatus);
        return Failed(UnexpectedStatus);
      }
      if round.status.value == 403 || round.status.value == 404 {
        lastNegativeAt := Some(round.observedAt);
      }
      if firstPresentAt.Some? {
        if round.observedAt - lastAbsentAt.value > RECOVERY_BOUND_MS {
          RoundFails(rounds, start, timeout, initial, i, before, TooSlow);
          return Failed(TooSlow);
        }
        if round.status == Some(200) {
          RoundReturns(rounds, start, timeout, initial, i, before, present.value);
          assert Observes(rounds, Deadline(start, timeout), initial, present.value, i);
          return Returned(Evidence(lastAbsentAt.value, firstPresentAt.value, lastNegativeAt.value, round.observedAt,
                                   round.observedAt - lastAbsentAt.value, RECOVERY_BOUND_MS));
        }
      }
    }
    PolledIsNotStopped(rounds, start, timeout, initial, present);
    forall j: nat, m: nat ensures !Observes(rounds, deadline, initial, j, m) {
      if Observes(rounds, deadline, initial, j, m) { PolledIsBefore(rounds, deadline, initial, |rounds|, present, j, m); }
    }
    return StillPolling;
  }

  lemma RoundFails(
    rounds: seq<Round>, start: real, timeout: real, initial: Option<Initial>, i: nat, present: Option<nat>, reason: Reason)
    requires FailsWith(rounds, Deadline(start, timeout), initial, i, present, reason)
    ensures exists k: nat, p :: FailsWith(rounds, Deadline(start, timeout), initial, k, p, reason)
    ensures forall j: nat, m: nat :: !Observes(rounds, Deadline(start, timeout), initial, j, m)
    ensures forall p :: !Polled(rounds, Deadline(start, timeout), initial, |rounds|, p)
    ensures reason == Stopped <==> exists k: nat, p :: StopsAt(rounds, start, timeout, initial, k, p)
  {
    var deadline := Deadline(start, timeout);
    forall j: nat, m: nat ensures !Observes(rounds, deadline, initial, j, m) {
      if Observes(rounds, deadline, initial, j, m) {
        PolledIsBefore(rounds, deadline, initial, i, present, j, m);
      }
    }
    forall p ensures !Polled(rounds, deadline, initial, |rounds|, p) {
      if Polled(rounds, deadline, initial, |rounds|, p) { PresentAgrees(rounds, deadline, initial, i, present, |rounds|, p); }
    }
    if reason == Stopped {
      assert StopsAt(rounds, start, timeout, initial, i, present);
    } else {
      forall k: nat, p ensures !StopsAt(rounds, start, timeout, initial, k, p) {
        OtherFailureGoesFirst(rounds, start, timeout, initial, i, present, reason, k, p);
      }
    }
  }

  lemma OtherFailureGoesFirst(
    rounds: seq<Round>, start: real, timeout: real, initial: Option<Initial>, i: nat, present: Option<nat>, reason: Reason,
    k: nat, later: Option<nat>)
    requires FailsWith(rounds, Deadline(start, timeout), initial, i, present, reason) && reason != Stopped
    ensures !StopsAt(rounds, start, timeout, initial, k, later)
  {
    if StopsAt(rounds, start, timeout, initial, k, later) && i <= k {
      PresentAgrees(rounds, Deadline(start, timeout), initial, i, present, k, later);
    }
  }

  lemma PresentAgrees(
    rounds: seq<Round>, deadline: real, initial: Option<Initial>, i: nat, present: Option<nat>, n: nat, later: Option<nat>)
    requires i <= n && Polled(rounds, deadline, initial, i, present) && Polled(rounds, deadline, initial, n, later)
    ensures present.Some? ==> later == present
    ensures present.None? && later.Some? ==> i <= later.value
  {
  }

  lemma RoundReturns(
    rounds: seq<Round>, start: real, timeout: real, initial: Option<Initial>, i: nat, before: Option<nat>, j: nat)
    requires i < |rounds| && Polled(rounds, Deadline(start, timeout), initial, i, before)
    requires Observes(rounds, Deadline(start, timeout), initial, j, i)
    ensures forall k: nat, m: nat :: Observes(rounds, Deadline(start, timeout), initial, k, m) ==> k == j && m == i
    ensures forall p :: !Polled(rounds, Deadline(start, timeout), initial, |rounds|, p)
    ensures forall k: nat, p :: !StopsAt(rounds, start, timeout, initial, k, p)
  {
    var deadline := Deadline(start, timeout);
    forall k: nat, m: nat | Observes(rounds, deadline, initial, k, m) ensures k == j && m == i {
      PolledIsBefore(rounds, deadline, initial, i, before, k, m);
    }
    forall k: nat, p | Polled(rounds, deadline, initial, k, p) ensures k <= i {
      PolledIsBefore(rounds, deadline, initial, k, p, j, i);
    }
  }

  lemma PolledIsNotStopped(rounds: seq<Round>, start: real, timeout: real, initial: Option<Initial>, present: Option<nat>)
    requires Polled(rounds, Deadline(start, timeout), initial, |rounds|, present)
    ensures forall k: nat, p :: !StopsAt(rounds, start, timeout, initial, k, p)
  {
  }

  // ---------- The world the observer looks at ----------

  /** When the manifest became visible, when the CDN first served it after that, and when each answer was true. */
  datatype World = World(publishedAt: real, successAt: real, probedAt: seq<real>, servedAt: seq<real>)

  /** The observer's clock never runs back, and the initial observation was made before the rounds. */
  ghost predicate InOrder(rounds: seq<Round>, initial: Option<Initial>) {
    && (initial.Some? && rounds != [] ==> initial.value.absentAt <= rounds[0].guardAt)
    && (forall i :: 0 <= i < |rounds| ==>
          rounds[i].guardAt <= rounds[i].startedAt <= rounds[i].presentAt <= rounds[i].observedAt)
    && forall i, k :: 0 <= i < k < |rounds| ==> rounds[i].observedAt <= rounds[k].guardAt
  }

  /** The world explains what rounds up to `m` read; the manifest, once published in it, stays. */
  ghost predicate Explains(w: World, rounds: seq<Round>, initial: Option<Initial>, j: nat, m: nat)
    requires j <= m < |rounds|
  {
    && |w.probedAt| == |rounds| == |w.servedAt|
    && w.publishedAt <= w.successAt
    && (initial.Some? ==> initial.value.absentAt < w.publishedAt)
    && (forall i :: 0 <= i <= j ==>
          && rounds[i].startedAt <= w.probedAt[i] <= rounds[i].presentAt
          && (rounds[i].probe == Present <==> w.publishedAt <= w.probedAt[i]))
    && forall i :: 0 <= i <= m ==>
         && (if i <= j then w.probedAt[i] else rounds[i].guardAt) <= w.servedAt[i] <= rounds[i].observedAt
         && (w.publishedAt <= w.servedAt[i] ==> (rounds[i].status == Some(200) <==> w.successAt <= w.servedAt[i]))
  }

  /**
   * Main theorem: in every world that explains an accepted observation, publication lies between the
   * last absence and the first presence, at most five seconds apart, and the true delay from
   * publication to the CDN's first success is at most the reported bound, which is at most ten seconds.
   */
  lemma PublicationBracketed(w: World, rounds: seq<Round>, deadline: real, initial: Option<Initial>, j: nat, m: nat)
    requires Observes(rounds, deadline, initial, j, m) && InOrder(rounds, initial) && Explains(w, rounds, initial, j, m)
    ensures
      var e := EvidenceOf(rounds, initial, j, m);
      && e.lastAbsentAt < w.publishedAt <= e.firstPresentAt <= e.lastAbsentAt + OBSERVATION_GAP_MS
      && w.publishedAt <= w.successAt <= e.firstSuccessAt
      && w.successAt - w.publishedAt <= e.recoveryUpperBoundMs <= RECOVERY_BOUND_MS
  {
    if j > 0 { assert rounds[j - 1].probe == Absent && rounds[j - 1].startedAt <= w.probedAt[j - 1]; }
    assert w.publishedAt <= w.probedAt[j] <= rounds[j].presentAt;
    assert w.publishedAt <= w.servedAt[m] by {
      if m > j { assert rounds[j].observedAt <= rounds[m].guardAt; }
    }
  }

  /**
   * No smaller bound would be safe: if any world at all explains the observation, then every
   * smaller number is exceeded by the true delay in some world that explains it as well.
   */
  lemma NoSmallerBoundIsSafe(
    w: World, rounds: seq<Round>, deadline: real, initial: Option<Initial>, j: nat, m: nat, smaller: real)
    requires Observes(rounds, deadline, initial, j, m) && InOrder(rounds, initial) && Explains(w, rounds, initial, j, m)
    requires smaller < EvidenceOf(rounds, initial, j, m).recoveryUpperBoundMs
    ensures exists late :: Explains(late, rounds, initial, j, m) && late.successAt - late.publishedAt > smaller
  {
    PublicationBracketed(w, rounds, deadline, initial, j, m);
    var e := EvidenceOf(rounds, initial, j, m);
    var slack := Smaller(e.recoveryUpperBoundMs - smaller, w.publishedAt - e.lastAbsentAt);
    var late := LateWorld(w, rounds, j, m, e.lastAbsentAt + slack / 2.0);
    assert Explains(late, rounds, initial, j, m) by {
      LateWorldExplains(w, late, rounds, deadline, initial, j, m, e.lastAbsentAt + slack / 2.0);
    }
  }

  function Smaller(a: real, b: real): real {
    if a <= b then a else b
  }

  /** The world with publication moved forward, early answers before round `j`, and the success as late as it can be. */
  function LateWorld(w: World, rounds: seq<Round>, j: nat, m: nat, publishedAt: real): World
    requires j <= m < |rounds| && |w.probedAt| == |rounds| == |w.servedAt|
  {
    World(publishedAt, rounds[m].observedAt,
          seq(|rounds|, i requires 0 <= i < |rounds| => if i < j then rounds[i].startedAt else w.probedAt[i]),
          seq(|rounds|, i requires 0 <= i < |rounds| =>
            if i < j then rounds[i].startedAt else if i < m then w.servedAt[i] else rounds[i].observedAt))
  }

  lemma AbsentsBefore(rounds: seq<Round>, initial: Option<Initial>, j: nat)
    requires InOrder(rounds, initial) && j < |rounds| && LastAbsent(rounds, initial, j).Some?
    ensures forall i :: 0 <= i < j ==> rounds[i].startedAt <= LastAbsent(rounds, initial, j).value
    ensures initial.Some? ==> initial.value.absentAt <= LastAbsent(rounds, initial, j).value
  {
    forall i | 0 <= i < j ensures rounds[i].startedAt <= LastAbsent(rounds, initial, j).value {
      if i < j - 1 { assert rounds[i].observedAt <= rounds[j - 1].guardAt; }
    }
    if j > 1 { assert rounds[0].observedAt <= rounds[j - 1].guardAt; }
  }

  lemma LateWorldExplains(
    w: World, late: World, rounds: seq<Round>, deadline: real, initial: Option<Initial>, j: nat, m: nat, publishedAt: real)
    requires Observes(rounds, deadline, initial, j, m) && InOrder(rounds, initial) && Explains(w, rounds, initial, j, m)
    requires LastAbsent(rounds, initial, j).value < publishedAt <= w.publishedAt
    requires late == LateWorld(w, rounds, j, m, publishedAt)
    ensures Explains(late, rounds, initial, j, m)
  {
    AbsentsBefore(rounds, initial, j);
    PublicationBracketed(w, rounds, deadline, initial, j, m);
    forall i | j <= i < m ensures w.publishedAt <= w.servedAt[i] && w.servedAt[i] < rounds[m].observedAt {
      if i > j { assert rounds[j].observedAt <= rounds[i].guardAt; }
    }
    if m > j { assert rounds[j].observedAt <= rounds[m].guardAt; }
    forall i | 0 <= i <= j
      ensures rounds[i].startedAt <= late.probedAt[i] <= rounds[i].presentAt
      ensures rounds[i].probe == Present <==> publishedAt <= late.probedAt[i]
    {
      if i == j { assert w.publishedAt <= w.probedAt[j]; }
    }
  }
}
