/**
 * Where the operations and heartbeats of `lifecycle-events.ts` come from, over the fields of the
 * log rows alone: what is accepted, what each operation and each heartbeat says about the rows.
 */
module LifecycleEvidence {
  import opened Wrappers
  import opened LifecycleEvents

  // ---------- The rows ----------

  /** The row belongs to a delivery that acquired the job. */
  predicate Owned(s: Settings, row: Row) {
    row.deliveryId in s.owners
  }

  predicate NamesTarget(s: Settings, row: Row) {
    row.jobId == Some(s.jobId) || row.videoId == Some(s.videoId)
  }

  /** Nothing in the row names another message, job or video; a lease renewal names them all, and its worker. */
  predicate SameIdentity(s: Settings, row: Row)
    requires Owned(s, row)
  {
    var owner := s.owners[row.deliveryId];
    && row.messageId == owner.messageId
    && row.jobId in {None, Some(s.jobId)} && row.videoId in {None, Some(s.videoId)}
    && (row.kind == LeaseRenewal ==>
          row.jobId.Some? && row.videoId.Some? && row.workerId == owner.workerId && row.attempt == owner.attempt)
  }

  /** Positive times, in a positive cycle; wall-clock and elapsed time agree, and the row was logged no earlier than it happened. */
  predicate WellTimed(s: Settings, row: Row) {
    && row.startedAtMs > 0.0 && row.observedAtMs > 0.0 && row.timestampMs > 0.0
    && 1 <= row.cycle <= MAX_SAFE_INTEGER && row.elapsedMs >= 0.0
    && row.elapsedMs - s.skew <= row.observedAtMs - row.startedAtMs <= row.elapsedMs + s.skew
    && row.timestampMs + s.skew >= row.observedAtMs
    && row.durationMs > 0.0
    && (row.kind == LeaseRenewal ==> row.durationMs == s.leaseMs)
    && (row.kind == VisibilityExtension ==> row.durationMs == s.visibilityMs)
  }

  predicate Genuine(s: Settings, row: Row) {
    Owned(s, row) && row.succeeded && SameIdentity(s, row) && WellTimed(s, row)
  }

  /** An owned row must be genuine, and any other must not name the target. */
  predicate Clean(s: Settings, row: Row) {
    if Owned(s, row) then Genuine(s, row) else !NamesTarget(s, row)
  }

  /** The row's own operation. */
  predicate Reports(row: Row, op: Operation) {
    && op.kind == row.kind && op.messageId == row.messageId && op.deliveryId == row.deliveryId && op.cycle == row.cycle
    && op.startedAtMs == row.startedAtMs && op.observedAtMs == row.observedAtMs && op.durationMs == row.durationMs
  }

  /** The verdict on a row, over its own fields. */
  lemma JudgeIff(s: Settings, row: Row)
    ensures Judge(s, row).Accepted? <==> Genuine(s, row)
    ensures Judge(s, row).Rejected? <==> !Clean(s, row)
    ensures Judge(s, row).Ignored? <==> !Owned(s, row) && !NamesTarget(s, row)
    ensures Judge(s, row).Accepted? ==> Reports(row, Judge(s, row).op)
  {
  }

  function OwnedRows(s: Settings, rows: seq<Row>): seq<Row> {
    if rows == [] then []
    else
      var front, last := OwnedRows(s, rows[..|rows| - 1]), rows[|rows| - 1];
      if Owned(s, last) then front + [last] else front
  }

  lemma {:induction false} OwnedRowsAre(s: Settings, rows: seq<Row>, row: Row)
    ensures row in OwnedRows(s, rows) <==> row in rows && Owned(s, row)
  {
    if rows != [] {
      var n := |rows| - 1;
      OwnedRowsAre(s, rows[..n], row);
      assert rows == rows[..n] + [rows[n]];
    }
  }

  /** The operations are those of the owned rows, one each and in log order. */
  lemma {:induction false} OperationsAreRows(s: Settings, rows: seq<Row>)
    requires forall r :: r in rows ==> Clean(s, r)
    ensures |OperationsOf(s, rows)| == |OwnedRows(s, rows)|
    ensures forall i :: 0 <= i < |OwnedRows(s, rows)| ==> Reports(OwnedRows(s, rows)[i], OperationsOf(s, rows)[i])
  {
    hide Judge, Clean, Reports, Genuine;
    if rows != [] {
      var n := |rows| - 1;
      assert rows[n] in rows;
      OperationsAreRows(s, rows[..n]);
      JudgeIff(s, rows[n]);
      CleanIsGenuine(s, rows[n]);
    }
  }

  lemma CleanIsGenuine(s: Settings, row: Row)
    requires Clean(s, row)
    ensures Genuine(s, row) <==> Owned(s, row)
  {
  }

  /**
   * Provenance: whatever the log holds, the operations are exactly the reports of its genuine rows.
   */
  lemma {:induction false} OperationsAreGenuine(s: Settings, rows: seq<Row>, op: Operation)
    ensures op in OperationsOf(s, rows) <==> exists r :: r in rows && Genuine(s, r) && Reports(r, op)
  {
    hide Judge, Genuine;
    if rows != [] {
      var n := |rows| - 1;
      OperationsAreGenuine(s, rows[..n], op);
      JudgeIff(s, rows[n]);
      assert rows == rows[..n] + [rows[n]];
      if op in OperationsOf(s, rows[..n]) {
        var r :| r in rows[..n] && Genuine(s, r) && Reports(r, op);
        assert r in rows;
      }
    }
  }

  // ---------- When the evidence is usable ----------

  /** No delivery reports two operations of one kind in one cycle. */
  predicate OneEach(owned: seq<Row>) {
    forall i, j :: 0 <= i < j < |owned| ==>
      owned[i].deliveryId != owned[j].deliveryId || owned[i].cycle != owned[j].cycle || owned[i].kind != owned[j].kind
  }

  /** No visibility extension was requested before its cycle's lease renewal was answered, within the skew. */
  predicate LeaseFirst(s: Settings, owned: seq<Row>) {
    forall i, j ::
      (0 <= i < |owned| && 0 <= j < |owned| && owned[i].kind == LeaseRenewal && owned[j].kind == VisibilityExtension
       && owned[i].deliveryId == owned[j].deliveryId && owned[i].cycle == owned[j].cycle) ==>
        owned[j].startedAtMs + s.skew >= owned[i].observedAtMs
  }

  /**
   * Main theorem: the evidence is usable if and only if every row is clean and the owned ones are
   * at most 20000, one of a kind for each delivery and cycle, and in order.
   */
  lemma UsableIff(s: Settings, rows: seq<Row>)
    ensures
      var owned := OwnedRows(s, rows);
      Usable(s, rows) <==>
        s.skew > 0.0 && (forall r :: r in rows ==> Clean(s, r)) && |owned| <= 20000 && OneEach(owned) && LeaseFirst(s, owned)
  {
    hide Judge, Clean, GroupOf, Keys, OperationsOf, OwnedRows, OneEach, LeaseFirst, NoDuplicates, Ordered;
    forall r | r in rows ensures !Judge(s, r).Rejected? <==> Clean(s, r) { JudgeIff(s, r); }
    if forall r :: r in rows ==> Clean(s, r) {
      OperationsAreRows(s, rows);
      var ops, owned := OperationsOf(s, rows), OwnedRows(s, rows);
      OneEachIff(ops, owned);
      if NoDuplicates(ops) { LeaseFirstIff(s, ops, owned); }
    }
  }

  lemma OneEachIff(ops: seq<Operation>, owned: seq<Row>)
    requires |ops| == |owned| && forall i :: 0 <= i < |owned| ==> Reports(owned[i], ops[i])
    ensures NoDuplicates(ops) <==> OneEach(owned)
  {
    if OneEach(owned) {
      forall i, j | 0 <= i < j < |ops| ensures KeyOf(ops[i]) != KeyOf(ops[j]) || ops[i].kind != ops[j].kind {
        assert Reports(owned[i], ops[i]) && Reports(owned[j], ops[j]);
      }
    }
    if NoDuplicates(ops) {
      forall i, j | 0 <= i < j < |owned|
        ensures owned[i].deliveryId != owned[j].deliveryId || owned[i].cycle != owned[j].cycle || owned[i].kind != owned[j].kind
      {
        assert Reports(owned[i], ops[i]) && Reports(owned[j], ops[j]);
      }
    }
  }

  /** Without duplicates an operation is the one its group holds. */
  lemma InItsGroup(ops: seq<Operation>, i: nat)
    requires NoDuplicates(ops) && i < |ops|
    ensures GroupOf(ops, KeyOf(ops[i])).Of(ops[i].kind) == Some(ops[i])
  {
    var found := OperationIn(ops, KeyOf(ops[i]), ops[i].kind);
    assert ops[i] in ops;
    var j :| 0 <= j < |ops| && ops[j] == found.value;
  }

  lemma LeaseFirstIff(s: Settings, ops: seq<Operation>, owned: seq<Row>)
    requires NoDuplicates(ops) && |ops| == |owned| && forall i :: 0 <= i < |owned| ==> Reports(owned[i], ops[i])
    ensures (forall k :: k in Keys(ops) ==> Ordered(s, GroupOf(ops, k))) <==> LeaseFirst(s, owned)
  {
    hide NoDuplicates;
    if LeaseFirst(s, owned) {
      forall k | k in Keys(ops) ensures Ordered(s, GroupOf(ops, k)) {
        var g := GroupOf(ops, k);
        if g.lease.Some? && g.visibility.Some? {
          var i :| 0 <= i < |ops| && ops[i] == g.lease.value;
          var j :| 0 <= j < |ops| && ops[j] == g.visibility.value;
          assert Reports(owned[i], ops[i]) && Reports(owned[j], ops[j]);
        }
      }
    }
    if forall k :: k in Keys(ops) ==> Ordered(s, GroupOf(ops, k)) {
      forall i, j | 0 <= i < |owned| && 0 <= j < |owned|
        && owned[i].kind == LeaseRenewal && owned[j].kind == VisibilityExtension
        && owned[i].deliveryId == owned[j].deliveryId && owned[i].cycle == owned[j].cycle
        ensures owned[j].startedAtMs + s.skew >= owned[i].observedAtMs
      {
        assert Reports(owned[i], ops[i]) && Reports(owned[j], ops[j]);
        InItsGroup(ops, i);
        InItsGroup(ops, j);
        assert KeyOf(ops[i]) in Keys(ops);
      }
    }
  }

  // ---------- What a heartbeat says ----------

  /** The rows of one delivery and cycle. */
  predicate InCycle(h: Heartbeat, row: Row) {
    row.deliveryId == h.deliveryId && row.cycle == h.cycle
  }

  /** What the heartbeat says of one of its rows. */
  predicate Tells(s: Settings, h: Heartbeat, row: Row) {
    var expiry := (if row.startedAtMs <= row.observedAtMs then row.startedAtMs else row.observedAtMs) + row.durationMs - s.skew;
    && h.messageId == row.messageId && h.at >= row.observedAtMs
    && (row.kind == LeaseRenewal ==> h.startedAtMs == row.startedAtMs && h.leaseExpiresAtMs == Some(expiry))
    && (row.kind == VisibilityExtension ==>
          && h.visibilityExpiresAtMs == Some(expiry) && h.visibilityObservedAtMs == row.observedAtMs
          && (h.leaseExpiresAtMs.None? ==> h.startedAtMs == row.startedAtMs))
  }

  ghost predicate HasRow(owned: seq<Row>, h: Heartbeat, kind: OperationKind) {
    exists r :: r in owned && InCycle(h, r) && r.kind == kind
  }

  /** The heartbeat of a delivery's cycle, over its rows: its owner, its expiries, and the latest response. */
  ghost predicate Summarizes(s: Settings, owned: seq<Row>, h: Heartbeat) {
    && h.deliveryId in s.owners
    && h.workerId == s.owners[h.deliveryId].workerId && h.attempt == s.owners[h.deliveryId].attempt
    && (HasRow(owned, h, LeaseRenewal) || HasRow(owned, h, VisibilityExtension))
    && (h.succeeded <==> HasRow(owned, h, LeaseRenewal) && HasRow(owned, h, VisibilityExtension))
    && (h.leaseExpiresAtMs.Some? <==> HasRow(owned, h, LeaseRenewal))
    && (h.visibilityExpiresAtMs.Some? <==> HasRow(owned, h, VisibilityExtension))
    && (h.visibilityExpiresAtMs.None? ==> h.visibilityObservedAtMs == 0.0)
    && (forall r :: r in owned && InCycle(h, r) ==> Tells(s, h, r))
    && exists r :: r in owned && InCycle(h, r) && r.observedAtMs == h.at
  }

  /** Every heartbeat of usable evidence summarizes the rows of its delivery and cycle, and every such row has one. */
  lemma HeartbeatsSummarizeRows(s: Settings, rows: seq<Row>)
    requires Usable(s, rows)
    ensures
      var ops, owned := OperationsOf(s, rows), OwnedRows(s, rows);
      && (forall h :: h in HeartbeatsOf(s, ops, Keys(ops)) ==> Summarizes(s, owned, h))
      && (forall r :: r in owned ==> exists h :: h in HeartbeatsOf(s, ops, Keys(ops)) && InCycle(h, r))
  {
    hide Judge, Clean, GroupOf, Keys, OperationsOf, OwnedRows, NoDuplicates, Ordered, HeartbeatsOf, HeartbeatOf, Summarizes;
    UsableIff(s, rows);
    OperationsAreRows(s, rows);
    var ops, owned := OperationsOf(s, rows), OwnedRows(s, rows);
    var keys := Keys(ops);
    KeysNonEmpty(ops);
    forall r | r in owned ensures Genuine(s, r) {
      OwnedRowsAre(s, rows, r);
      CleanIsGenuine(s, r);
    }
    forall h | h in HeartbeatsOf(s, ops, keys) ensures Summarizes(s, owned, h) {
      HeartbeatMembers(s, ops, keys, h);
      var k :| k in keys && h == HeartbeatOf(s, GroupOf(ops, k));
      GroupSummarizes(s, ops, owned, k);
    }
    forall r | r in owned ensures exists h :: h in HeartbeatsOf(s, ops, keys) && InCycle(h, r) {
      var i :| 0 <= i < |owned| && owned[i] == r;
      HasHeartbeat(s, ops, owned, i);
    }
  }

  lemma HasHeartbeat(s: Settings, ops: seq<Operation>, owned: seq<Row>, i: nat)
    requires NoDuplicates(ops) && |ops| == |owned| && i < |ops| && Reports(owned[i], ops[i])
    ensures forall k :: k in Keys(ops) ==> GroupOf(ops, k).NonEmpty()
    ensures exists h :: h in HeartbeatsOf(s, ops, Keys(ops)) && InCycle(h, owned[i])
  {
    hide HeartbeatsOf, NoDuplicates;
    var k := KeyOf(ops[i]);
    InItsGroup(ops, i);
    KeysNonEmpty(ops);
    assert k in Keys(ops);
    var h := HeartbeatOf(s, GroupOf(ops, k));
    HeartbeatMembers(s, ops, Keys(ops), h);
  }

  lemma GroupSummarizes(s: Settings, ops: seq<Operation>, owned: seq<Row>, k: Key)
    requires NoDuplicates(ops) && |ops| == |owned| && GroupOf(ops, k).NonEmpty()
    requires forall i :: 0 <= i < |owned| ==> Reports(owned[i], ops[i])
    requires forall r :: r in owned ==> Genuine(s, r)
    ensures Summarizes(s, owned, HeartbeatOf(s, GroupOf(ops, k)))
  {
    hide NoDuplicates, WellTimed, GroupOf;
    var g := GroupOf(ops, k);
    var h := HeartbeatOf(s, g);
    var first := GroupRow(s, ops, owned, k);
    assert (h.deliveryId, h.cycle) == k;
    forall r | r in owned && InCycle(h, r) ensures Tells(s, h, r) && g.Of(r.kind).Some? {
      var i :| 0 <= i < |owned| && owned[i] == r;
      assert Reports(owned[i], ops[i]);
      InItsGroup(ops, i);
      assert KeyOf(ops[i]) == k;
      assert Genuine(s, r);
    }
    var r :| r in owned && (r.deliveryId, r.cycle) == k && r.observedAtMs == h.at;
    assert InCycle(h, r);
  }

  /** A row for each operation of the group. */
  lemma GroupRow(s: Settings, ops: seq<Operation>, owned: seq<Row>, k: Key) returns (first: Row)
    requires |ops| == |owned| && GroupOf(ops, k).NonEmpty()
    requires forall i :: 0 <= i < |owned| ==> Reports(owned[i], ops[i])
    requires forall r :: r in owned ==> Genuine(s, r)
    ensures first in owned && Genuine(s, first) && (first.deliveryId, first.cycle) == k && Reports(first, GroupOf(ops, k).First())
    ensures GroupOf(ops, k).lease.Some? ==> HasRow(owned, HeartbeatOf(s, GroupOf(ops, k)), LeaseRenewal)
    ensures GroupOf(ops, k).visibility.Some? ==> HasRow(owned, HeartbeatOf(s, GroupOf(ops, k)), VisibilityExtension)
    ensures exists r :: r in owned && (r.deliveryId, r.cycle) == k && r.observedAtMs == HeartbeatOf(s, GroupOf(ops, k)).at
  {
    hide Genuine, SameIdentity;
    var g := GroupOf(ops, k);
    var h := HeartbeatOf(s, g);
    first := RowOf(ops, owned, g.First());
    if g.lease.Some? {
      var r := RowOf(ops, owned, g.lease.value);
      assert InCycle(h, r) && r.kind == LeaseRenewal;
      GenuineTimes(s, r);
    }
    if g.visibility.Some? {
      var r := RowOf(ops, owned, g.visibility.value);
      assert InCycle(h, r) && r.kind == VisibilityExtension;
      GenuineTimes(s, r);
    }
  }

  lemma GenuineTimes(s: Settings, r: Row)
    requires Genuine(s, r)
    ensures r.observedAtMs > 0.0
  {
  }

  lemma RowOf(ops: seq<Operation>, owned: seq<Row>, op: Operation) returns (r: Row)
    requires |ops| == |owned| && (forall i :: 0 <= i < |owned| ==> Reports(owned[i], ops[i])) && op in ops
    ensures r in owned && Reports(r, op)
  {
    var i :| 0 <= i < |ops| && ops[i] == op;
    r := owned[i];
  }
}
