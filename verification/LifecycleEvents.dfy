/** Pairing of heartbeat operations, `app/frontend/e2e/reliability/lifecycle-events.ts`. */
module LifecycleEvents {
  import opened Wrappers
  import opened ClockModel

  datatype OperationKind = LeaseRenewal | VisibilityExtension

  /** A parsed log row about one renewal operation, spans and fields already merged. */
  datatype Row = Row(
    kind: OperationKind, succeeded: bool,
    deliveryId: string, messageId: string, jobId: Option<string>, videoId: Option<string>,
    workerId: Option<string>, attempt: Option<int>,
    cycle: int, startedAtMs: real, observedAtMs: real, timestampMs: real, durationMs: real, elapsedMs: real)

  /** The `acquired` event of a delivery. */
  datatype Owner = Owner(messageId: string, workerId: Option<string>, attempt: Option<int>)

  datatype Settings = Settings(
    jobId: string, videoId: string, leaseMs: real, visibilityMs: real, skew: real, owners: map<string, Owner>)

  datatype Operation = Operation(
    kind: OperationKind, messageId: string, deliveryId: string, cycle: int,
    startedAtMs: real, observedAtMs: real, durationMs: real)

  datatype Heartbeat = Heartbeat(
    succeeded: bool, workerId: Option<string>, attempt: Option<int>, messageId: string, deliveryId: string, cycle: int,
    startedAtMs: real, at: real, leaseExpiresAtMs: Option<real>, visibilityExpiresAtMs: Option<real>,
    visibilityObservedAtMs: real)

  type Key = (string, int)

  function KeyOf(op: Operation): Key {
    (op.deliveryId, op.cycle)
  }

  const MAX_OPERATIONS: nat := 20000

  /** `Number.MAX_SAFE_INTEGER` */
  const MAX_SAFE_INTEGER := 9007199254740991

  function Abs(x: real): real {
    if x < 0.0 then -x else x
  }

  function Min(a: real, b: real): real {
    if a <= b then a else b
  }

  datatype Verdict = Ignored | Rejected | Accepted(op: Operation)

  /** What the loop does with one row before it groups it. */
  function Judge(s: Settings, row: Row): Verdict {
    if row.deliveryId !in s.owners then
      if row.jobId == Some(s.jobId) || row.videoId == Some(s.videoId) then Rejected else Ignored
    else
      var owner := s.owners[row.deliveryId];
      var configured := if row.kind == LeaseRenewal then s.leaseMs else s.visibilityMs;
      if !row.succeeded || row.messageId != owner.messageId
         || (row.jobId.Some? && row.jobId.value != s.jobId) || (row.videoId.Some? && row.videoId.value != s.videoId) then Rejected
      else if row.kind == LeaseRenewal
              && (row.jobId != Some(s.jobId) || row.videoId != Some(s.videoId)
                  || row.workerId != owner.workerId || row.attempt != owner.attempt) then Rejected
      else if row.startedAtMs <= 0.0 || row.observedAtMs <= 0.0 || row.timestampMs <= 0.0 || row.durationMs <= 0.0 then Rejected
      else if row.cycle < 1 || row.cycle > MAX_SAFE_INTEGER || row.elapsedMs < 0.0
              || Abs(row.observedAtMs - row.startedAtMs - row.elapsedMs) > s.skew
              || row.timestampMs < row.observedAtMs - s.skew || row.durationMs != configured then Rejected
      else
        Accepted(Operation(row.kind, row.messageId, row.deliveryId, row.cycle, row.startedAtMs, row.observedAtMs, row.durationMs))
  }

  // ---------- The declarative reading ----------

  /** The operations of the accepted rows, in log order. */
  function OperationsOf(s: Settings, rows: seq<Row>): seq<Operation> {
    if rows == [] then []
    else
      var front := OperationsOf(s, rows[..|rows| - 1]);
      var v := Judge(s, rows[|rows| - 1]);
      if v.Accepted? then front + [v.op] else front
  }

  /** The operation of a kind in a group, if the group has one. */
  function OperationIn(ops: seq<Operation>, key: Key, kind: OperationKind): (r: Option<Operation>)
    ensures r.Some? ==> r.value in ops && KeyOf(r.value) == key && r.value.kind == kind
    ensures r.None? ==> forall op :: op in ops ==> KeyOf(op) != key || op.kind != kind
  {
    if ops == [] then None
    else
      var last := ops[|ops| - 1];
      if KeyOf(last) == key && last.kind == kind then Some(last) else OperationIn(ops[..|ops| - 1], key, kind)
  }

  datatype Group = Group(lease: Option<Operation>, visibility: Option<Operation>) {
    predicate NonEmpty() {
      lease.Some? || visibility.Some?
    }

    /** The operation that names the group. */
    function First(): Operation
      requires NonEmpty()
    {
      if lease.Some? then lease.value else visibility.value
    }

    function With(op: Operation): Group {
      if op.kind == LeaseRenewal then this.(lease := Some(op)) else this.(visibility := Some(op))
    }

    function Of(kind: OperationKind): Option<Operation> {
      if kind == LeaseRenewal then lease else visibility
    }
  }

  const EMPTY_GROUP := Group(None, None)

  function GroupOf(ops: seq<Operation>, key: Key): Group {
    Group(OperationIn(ops, key, LeaseRenewal), OperationIn(ops, key, VisibilityExtension))
  }

  /** The groups' keys, in the order of their first operation. */
  function Keys(ops: seq<Operation>): (keys: seq<Key>)
    ensures forall k :: k in keys <==> GroupOf(ops, k).NonEmpty()
  {
    if ops == [] then []
    else
      var front, last := ops[..|ops| - 1], ops[|ops| - 1];
      if KeyOf(last) in Keys(front) then Keys(front) else Keys(front) + [KeyOf(last)]
  }

  /** No group holds two operations of one kind. */
  ghost predicate NoDuplicates(ops: seq<Operation>) {
    forall i, j :: 0 <= i < j < |ops| ==> KeyOf(ops[i]) != KeyOf(ops[j]) || ops[i].kind != ops[j].kind
  }

  function ExpiryOf(op: Option<Operation>, skew: real): Option<real> {
    if op.None? then None else Some(Min(op.value.startedAtMs, op.value.observedAtMs) + op.value.durationMs - skew)
  }

  function ObservedOf(op: Option<Operation>): real {
    if op.None? then 0.0 else op.value.observedAtMs
  }

  /** `owners.get(id)`; the operations kept all have an owner. */
  function OwnerOf(s: Settings, deliveryId: string): Owner {
    if deliveryId in s.owners then s.owners[deliveryId] else Owner("", None, None)
  }

  function HeartbeatOf(s: Settings, g: Group): Heartbeat
    requires g.NonEmpty()
  {
    var op := g.First();
    var owner := OwnerOf(s, op.deliveryId);
    var a, b := ObservedOf(g.lease), ObservedOf(g.visibility);
    Heartbeat(g.lease.Some? && g.visibility.Some?, owner.workerId, owner.attempt, op.messageId, op.deliveryId, op.cycle,
              op.startedAtMs, if a >= b then a else b, ExpiryOf(g.lease, s.skew), ExpiryOf(g.visibility, s.skew), b)
  }

  /** The visibility extension of a complete group must not precede its lease renewal. */
  predicate Ordered(s: Settings, g: Group) {
    g.lease.Some? && g.visibility.Some? ==> g.visibility.value.startedAtMs >= g.lease.value.observedAtMs - s.skew
  }

  /** The evidence is usable: nothing rejected, nothing duplicated, bounded, and in order. */
  ghost predicate Usable(s: Settings, rows: seq<Row>) {
    var ops := OperationsOf(s, rows);
    && s.skew > 0.0
    && (forall r :: r in rows ==> !Judge(s, r).Rejected?)
    && NoDuplicates(ops)
    && |ops| <= MAX_OPERATIONS
    && forall k :: k in Keys(ops) ==> Ordered(s, GroupOf(ops, k))
  }

  /** One heartbeat for each group, in order. */
  function HeartbeatsOf(s: Settings, ops: seq<Operation>, keys: seq<Key>): seq<Heartbeat>
    requires forall k :: k in keys ==> GroupOf(ops, k).NonEmpty()
  {
    if keys == [] then []
    else HeartbeatsOf(s, ops, keys[..|keys| - 1]) + [HeartbeatOf(s, GroupOf(ops, keys[|keys| - 1]))]
  }

  // ---------- The loops as written ----------

  lemma GroupGrows(ops: seq<Operation>, op: Operation, key: Key)
    ensures GroupOf(ops + [op], key) == if KeyOf(op) == key then GroupOf(ops, key).With(op) else GroupOf(ops, key)
    ensures Keys(ops + [op]) == if KeyOf(op) in Keys(ops) then Keys(ops) else Keys(ops) + [KeyOf(op)]
  {
    assert (ops + [op])[..|ops|] == ops;
  }

  /** The groups map holds exactly the groups of the operations so far. */
  ghost predicate GroupsMatch(ops: seq<Operation>, groups: map<Key, Group>, order: seq<Key>) {
    && order == Keys(ops)
    && forall k :: if k in groups then k in order && groups[k] == GroupOf(ops, k) else k !in order
  }

  lemma GroupsMatchGrow(ops: seq<Operation>, groups: map<Key, Group>, order: seq<Key>, op: Operation)
    requires GroupsMatch(ops, groups, order)
    ensures
      var key := KeyOf(op);
      var group := if key in groups then groups[key] else EMPTY_GROUP;
      && group == GroupOf(ops, key)
      && GroupsMatch(ops + [op], groups[key := group.With(op)], if key in order then order else order + [key])
  {
    var key := KeyOf(op);
    assert key in order <==> GroupOf(ops, key).NonEmpty();
    forall k ensures GroupOf(ops + [op], k) == if key == k then GroupOf(ops, k).With(op) else GroupOf(ops, k) {
      GroupGrows(ops, op, k);
    }
    GroupGrows(ops, op, key);
  }

  /** The first loop of `lifecycleEvents`: reads the rows, and fails or fills the groups. */
  method GroupOperations(s: Settings, rows: seq<Row>) returns (r: Option<(seq<Operation>, map<Key, Group>, seq<Key>)>)
    ensures r.Some? <==>
              (forall x :: x in rows ==> !Judge(s, x).Rejected?)
              && NoDuplicates(OperationsOf(s, rows)) && |OperationsOf(s, rows)| <= MAX_OPERATIONS
    ensures r.Some? ==> r.value.0 == OperationsOf(s, rows) && GroupsMatch(r.value.0, r.value.1, r.value.2)
  {
    hide GroupsMatch, Keys, GroupOf, Judge;
    var operations: seq<Operation> := [];
    var groups: map<Key, Group> := map[];
    var order: seq<Key> := [];
    assert GroupsMatch(operations, groups, order) by { NoGroups(); }
    for i := 0 to |rows|
      invariant operations == OperationsOf(s, rows[..i]) && NoDuplicates(operations) && |operations| <= MAX_OPERATIONS
      invariant forall k :: 0 <= k < i ==> !Judge(s, rows[k]).Rejected?
      invariant GroupsMatch(operations, groups, order)
    {
      assert rows[..i + 1][..i] == rows[..i];
      OperationsPrefix(s, rows, i + 1);
      var verdict := Judge(s, rows[i]);
      if verdict.Rejected? {
        return None;
      }
      if verdict.Ignored? {
        continue;
      }
      var op := verdict.op;
      var key := KeyOf(op);
      GroupsMatchGrow(operations, groups, order, op);
      var group := if key in groups then groups[key] else EMPTY_GROUP;
      DuplicateIff(operations, op, group);
      if group.Of(op.kind).Some? {
        NoDuplicatesPrefix(OperationsOf(s, rows), |operations| + 1);
        return None;
      }
      groups := groups[key := group.With(op)];
      order := if key in order then order else order + [key];
      operations := operations + [op];
      if |operations| > MAX_OPERATIONS {
        return None;
      }
    }
    assert rows[..|rows|] == rows;
    return Some((operations, groups, order));
  }

  lemma NoGroups()
    ensures GroupsMatch([], map[], [])
  {
  }

  lemma GroupsMatchAt(ops: seq<Operation>, groups: map<Key, Group>, order: seq<Key>, i: nat)
    requires GroupsMatch(ops, groups, order) && i < |order|
    ensures order[i] in groups && groups[order[i]] == GroupOf(ops, order[i]) && groups[order[i]].NonEmpty()
  {
    hide GroupOf, Keys;
    assert order[i] in order;
  }

  lemma KeysNonEmpty(ops: seq<Operation>)
    ensures forall k :: k in Keys(ops) ==> GroupOf(ops, k).NonEmpty()
  {
  }

  lemma HeartbeatsSnoc(s: Settings, ops: seq<Operation>, keys: seq<Key>, i: nat)
    requires i < |keys| && forall k :: k in keys ==> GroupOf(ops, k).NonEmpty()
    ensures forall j: nat, k :: j <= |keys| && k in keys[..j] ==> GroupOf(ops, k).NonEmpty()
    ensures HeartbeatsOf(s, ops, keys[..i + 1]) == HeartbeatsOf(s, ops, keys[..i]) + [HeartbeatOf(s, GroupOf(ops, keys[i]))]
  {
    hide GroupOf, HeartbeatOf;
    assert keys[i] in keys && keys[..i + 1][..i] == keys[..i];
  }

  /** The second loop of `lifecycleEvents`: one heartbeat for each group, unless one is out of order. */
  method PairGroups(s: Settings, ghost operations: seq<Operation>, groups: map<Key, Group>, order: seq<Key>)
    returns (r: Option<seq<Heartbeat>>)
    requires GroupsMatch(operations, groups, order)
    ensures forall k :: k in order ==> GroupOf(operations, k).NonEmpty()
    ensures r.Some? <==> forall k :: k in order ==> Ordered(s, GroupOf(operations, k))
    ensures r.Some? ==> r.value == HeartbeatsOf(s, operations, order)
  {
    hide GroupsMatch, Keys, GroupOf, HeartbeatOf, Ordered;
    assert forall k :: k in order ==> GroupOf(operations, k).NonEmpty() by {
      assert order == Keys(operations) by { GroupsMatchKeys(operations, groups, order); }
      KeysNonEmpty(operations);
    }
    var heartbeats: seq<Heartbeat> := [];
    for i := 0 to |order|
      invariant forall k :: 0 <= k < i ==> Ordered(s, GroupOf(operations, order[k]))
      invariant forall k :: k in order[..i] ==> GroupOf(operations, k).NonEmpty()
      invariant heartbeats == HeartbeatsOf(s, operations, order[..i])
    {
      GroupsMatchAt(operations, groups, order, i);
      HeartbeatsSnoc(s, operations, order, i);
      var group := groups[order[i]];
      OrderedIff(s, group);
      if group.lease.Some? && group.visibility.Some?
         && group.visibility.value.startedAtMs < group.lease.value.observedAtMs - s.skew {
        assert order[i] in order;
        return None;
      }
      heartbeats := heartbeats + [HeartbeatOf(s, group)];
    }
    assert order[..|order|] == order;
    return Some(heartbeats);
  }

  lemma GroupsMatchKeys(ops: seq<Operation>, groups: map<Key, Group>, order: seq<Key>)
    requires GroupsMatch(ops, groups, order)
    ensures order == Keys(ops)
  {
  }

  lemma OrderedIff(s: Settings, g: Group)
    ensures Ordered(s, g) <==> !(g.lease.Some? && g.visibility.Some?
                                 && g.visibility.value.startedAtMs < g.lease.value.observedAtMs - s.skew)
  {
  }

  /** `lifecycleEvents`; `None` where it fails. It fails exactly when the evidence is not usable. */
  method PairOperations(s: Settings, rows: seq<Row>) returns (r: Option<(seq<Operation>, seq<Heartbeat>)>)
    ensures r.Some? <==> Usable(s, rows)
    ensures r.Some? ==> r.value.0 == OperationsOf(s, rows) && r.value.1 == HeartbeatsOf(s, r.value.0, Keys(r.value.0))
  {
    hide GroupsMatch, Keys, GroupOf, Judge, OperationsOf, NoDuplicates, Ordered, HeartbeatsOf;
    if s.skew <= 0.0 {
      return None;
    }
    var grouped := GroupOperations(s, rows);
    if grouped.None? {
      return None;
    }
    var (operations, groups, order) := grouped.value;
    GroupsMatchKeys(operations, groups, order);
    var heartbeats := PairGroups(s, operations, groups, order);
    if heartbeats.None? {
      return None;
    }
    return Some((operations, heartbeats.value));
  }

  lemma {:induction false} OperationsPrefix(s: Settings, rows: seq<Row>, k: nat)
    requires k <= |rows|
    ensures OperationsOf(s, rows[..k]) <= OperationsOf(s, rows)
    decreases |rows|
  {
    if k == |rows| {
      assert rows[..k] == rows;
    } else {
      var front := rows[..|rows| - 1];
      OperationsPrefix(s, front, k);
      assert front[..k] == rows[..k];
    }
  }

  lemma NoDuplicatesPrefix(ops: seq<Operation>, k: nat)
    ensures k <= |ops| && NoDuplicates(ops) ==> NoDuplicates(ops[..k])
  {
  }

  /** A second operation of a kind in a group is a duplicate, and the first is not. */
  lemma DuplicateIff(ops: seq<Operation>, op: Operation, group: Group)
    requires NoDuplicates(ops) && group == GroupOf(ops, KeyOf(op))
    ensures NoDuplicates(ops + [op]) <==> group.Of(op.kind).None?
  {
    var longer := ops + [op];
    if group.Of(op.kind).Some? {
      var i :| 0 <= i < |ops| && ops[i] == group.Of(op.kind).value;
      assert longer[i] == ops[i] && longer[|ops|] == op;
    } else {
      forall i | 0 <= i < |ops| ensures KeyOf(ops[i]) != KeyOf(op) || ops[i].kind != op.kind {
        assert ops[i] in ops;
      }
    }
  }

  // ---------- Conservation ----------

  function Succeeded(heartbeats: seq<Heartbeat>): nat {
    if heartbeats == [] then 0
    else Succeeded(heartbeats[..|heartbeats| - 1]) + if heartbeats[|heartbeats| - 1].succeeded then 1 else 0
  }

  /** The number of operations in the groups of `keys`. */
  function GroupSizes(ops: seq<Operation>, keys: seq<Key>): nat {
    if keys == [] then 0
    else
      var g := GroupOf(ops, keys[|keys| - 1]);
      GroupSizes(ops, keys[..|keys| - 1]) + (if g.lease.Some? then 1 else 0) + (if g.visibility.Some? then 1 else 0)
  }

  lemma {:induction false} SizesGrow(ops: seq<Operation>, op: Operation, keys: seq<Key>)
    requires GroupOf(ops, KeyOf(op)).Of(op.kind).None?
    requires forall i, j :: 0 <= i < j < |keys| ==> keys[i] != keys[j]
    ensures GroupSizes(ops + [op], keys) == GroupSizes(ops, keys) + if KeyOf(op) in keys then 1 else 0
  {
    if keys != [] {
      var n := |keys| - 1;
      SizesGrow(ops, op, keys[..n]);
      GroupGrows(ops, op, keys[n]);
      assert KeyOf(op) in keys <==> KeyOf(op) in keys[..n] || KeyOf(op) == keys[n];
      if KeyOf(op) == keys[n] { assert KeyOf(op) !in keys[..n]; }
    }
  }

  lemma {:induction false} KeysDistinct(ops: seq<Operation>)
    ensures forall i, j :: 0 <= i < j < |Keys(ops)| ==> Keys(ops)[i] != Keys(ops)[j]
  {
    if ops != [] { KeysDistinct(ops[..|ops| - 1]); }
  }

  lemma {:induction false} SizesAddUp(ops: seq<Operation>)
    requires NoDuplicates(ops)
    ensures GroupSizes(ops, Keys(ops)) == |ops|
  {
    if ops == [] {
      hide NoDuplicates, GroupOf;
      assert Keys(ops) == [];
    } else {
      hide *;
      var n := |ops| - 1;
      assert ops[..n] + [ops[n]] == ops;
      NoDuplicatesPrefix(ops, n);
      SizesAddUp(ops[..n]);
      SizesStep(ops[..n], ops[n]);
    }
  }

  lemma SizesStep(front: seq<Operation>, op: Operation)
    requires NoDuplicates(front + [op])
    ensures GroupSizes(front + [op], Keys(front + [op])) == GroupSizes(front, Keys(front)) + 1
  {
    hide NoDuplicates, Keys, GroupOf;
    var ops, key, keys := front + [op], KeyOf(op), Keys(front);
    assert ops[..|front|] == front;
    NoDuplicatesPrefix(ops, |front|);
    DuplicateIff(front, op, GroupOf(front, key));
    KeysDistinct(front);
    GroupGrows(front, op, key);
    SizesGrow(front, op, keys);
    if key !in keys {
      assert (keys + [key])[..|keys|] == keys;
      assert !GroupOf(front, key).NonEmpty();
    }
  }

  lemma {:induction false} SizesCount(s: Settings, ops: seq<Operation>, keys: seq<Key>)
    requires forall k :: k in keys ==> GroupOf(ops, k).NonEmpty()
    ensures |HeartbeatsOf(s, ops, keys)| == |keys|
    ensures GroupSizes(ops, keys) == |keys| + Succeeded(HeartbeatsOf(s, ops, keys))
  {
    if keys != [] {
      var n := |keys| - 1;
      SizesCount(s, ops, keys[..n]);
      assert keys[n] in keys;
      var hs := HeartbeatsOf(s, ops, keys);
      assert hs[..n] == HeartbeatsOf(s, ops, keys[..n]);
    }
  }

  /** Every operation is in exactly one heartbeat: two in each that succeeded, one in each incomplete one. */
  lemma OperationsConserved(s: Settings, rows: seq<Row>)
    requires Usable(s, rows)
    ensures
      var ops := OperationsOf(s, rows);
      var heartbeats := HeartbeatsOf(s, ops, Keys(ops));
      |ops| == 2 * Succeeded(heartbeats) + (|heartbeats| - Succeeded(heartbeats))
  {
    var ops := OperationsOf(s, rows);
    SizesAddUp(ops);
    SizesCount(s, ops, Keys(ops));
  }

  // ---------- Interleaving ----------

  /** The two logs hold the same rows, however interleaved. */
  ghost predicate SameRows(a: seq<Row>, b: seq<Row>) {
    multiset(a) == multiset(b)
  }

  lemma DropOne<T>(a: seq<T>, b: seq<T>, k: nat)
    requires multiset(a) == multiset(b) && |a| > 0 && k < |b| && b[k] == a[|a| - 1]
    ensures multiset(a[..|a| - 1]) == multiset(b[..k] + b[k + 1..])
    ensures b == b[..k] + [b[k]] + b[k + 1..]
  {
    var n := |a| - 1;
    assert a == a[..n] + [a[n]];
    assert b == b[..k] + [b[k]] + b[k + 1..];
    assert multiset(b[..k] + [b[k]] + b[k + 1..]) == multiset(b[..k]) + multiset{b[k]} + multiset(b[k + 1..]);
    assert multiset(b[..k] + b[k + 1..]) == multiset(b[..k]) + multiset(b[k + 1..]);
    assert multiset(a[..n]) + multiset{a[n]} == multiset(b[..k] + b[k + 1..]) + multiset{a[n]};
    assert multiset(a[..n]) == multiset(a) - multiset{a[n]};
  }

  lemma FindIn<T>(a: seq<T>, b: seq<T>) returns (k: nat)
    requires multiset(a) == multiset(b) && |a| > 0
    ensures k < |b| && b[k] == a[|a| - 1]
  {
    assert a[|a| - 1] in multiset(a);
    assert a[|a| - 1] in multiset(b);
    assert a[|a| - 1] in b;
    k :| 0 <= k < |b| && b[k] == a[|a| - 1];
  }

  lemma {:induction false} OperationsMultiset(s: Settings, a: seq<Row>, b: seq<Row>)
    requires SameRows(a, b)
    ensures multiset(OperationsOf(s, a)) == multiset(OperationsOf(s, b))
  {
    if a == [] {
      assert |multiset(b)| == |b| == 0;
    } else {
      var n := |a| - 1;
      var row := a[n];
      var k := FindIn(a, b);
      DropOne(a, b, k);
      var rest := b[..k] + b[k + 1..];
      OperationsMultiset(s, a[..n], rest);
      OperationsAppend(s, b[..k], b[k + 1..]);
      OperationsAppend(s, b[..k] + [row], b[k + 1..]);
      assert (b[..k] + [row])[..k] == b[..k];
    }
  }

  lemma {:induction false} OperationsAppend(s: Settings, a: seq<Row>, b: seq<Row>)
    ensures OperationsOf(s, a + b) == OperationsOf(s, a) + OperationsOf(s, b)
  {
    if b == [] {
      assert a + b == a;
    } else {
      assert (a + b)[..|a + b| - 1] == a + b[..|b| - 1];
      OperationsAppend(s, a, b[..|b| - 1]);
    }
  }

  /** How many operations of a kind a group has. */
  function Count(ops: seq<Operation>, key: Key, kind: OperationKind): nat {
    if ops == [] then 0
    else Count(ops[..|ops| - 1], key, kind) + if KeyOf(ops[|ops| - 1]) == key && ops[|ops| - 1].kind == kind then 1 else 0
  }

  lemma {:induction false} CountAppend(a: seq<Operation>, b: seq<Operation>, key: Key, kind: OperationKind)
    ensures Count(a + b, key, kind) == Count(a, key, kind) + Count(b, key, kind)
  {
    if b == [] {
      assert a + b == a;
    } else {
      assert (a + b)[..|a + b| - 1] == a + b[..|b| - 1];
      CountAppend(a, b[..|b| - 1], key, kind);
    }
  }

  lemma {:induction false} CountMultiset(a: seq<Operation>, b: seq<Operation>, key: Key, kind: OperationKind)
    requires multiset(a) == multiset(b)
    ensures Count(a, key, kind) == Count(b, key, kind)
  {
    if a == [] {
      assert |multiset(b)| == |b| == 0;
    } else {
      var n := |a| - 1;
      var op := a[n];
      var k := FindIn(a, b);
      DropOne(a, b, k);
      var rest := b[..k] + b[k + 1..];
      CountMultiset(a[..n], rest, key, kind);
      CountAppend(b[..k], b[k + 1..], key, kind);
      CountAppend(b[..k] + [op], b[k + 1..], key, kind);
      assert (b[..k] + [op])[..k] == b[..k];
    }
  }

  lemma {:induction false} NoDuplicatesIffCounts(ops: seq<Operation>)
    ensures NoDuplicates(ops) <==> forall key, kind :: Count(ops, key, kind) <= 1
  {
    if ops != [] {
      var n := |ops| - 1;
      var front, op := ops[..n], ops[n];
      assert ops == front + [op];
      NoDuplicatesIffCounts(front);
      CountIn(front, KeyOf(op), op.kind);
      NoDuplicatesPrefix(ops, n);
      if NoDuplicates(front) {
        DuplicateIff(front, op, GroupOf(front, KeyOf(op)));
        forall key, kind | NoDuplicates(ops) ensures Count(ops, key, kind) <= 1 {
          assert Count(front, key, kind) <= 1;
        }
        assert Count(ops, KeyOf(op), op.kind) == Count(front, KeyOf(op), op.kind) + 1;
      } else {
        var key, kind :| Count(front, key, kind) > 1;
        assert Count(ops, key, kind) > 1;
      }
    }
  }

  lemma {:induction false} CountIn(ops: seq<Operation>, key: Key, kind: OperationKind)
    ensures OperationIn(ops, key, kind).Some? <==> Count(ops, key, kind) > 0
  {
    if ops != [] { CountIn(ops[..|ops| - 1], key, kind); }
  }

  /** Without duplicates a group's operation does not depend on the order of the log. */
  lemma SameGroups(a: seq<Operation>, b: seq<Operation>, key: Key)
    requires multiset(a) == multiset(b) && NoDuplicates(a)
    ensures GroupOf(a, key) == GroupOf(b, key)
  {
    SameMember(a, b, key, LeaseRenewal);
    SameMember(a, b, key, VisibilityExtension);
  }

  lemma SameMember(a: seq<Operation>, b: seq<Operation>, key: Key, kind: OperationKind)
    requires multiset(a) == multiset(b) && NoDuplicates(a)
    ensures OperationIn(a, key, kind) == OperationIn(b, key, kind)
  {
    forall x ensures x in a <==> x in b {
      assert x in a <==> x in multiset(a);
      assert x in b <==> x in multiset(b);
    }
    var p, q := OperationIn(a, key, kind), OperationIn(b, key, kind);
    if p.Some? && q.Some? {
      var i :| 0 <= i < |a| && a[i] == p.value;
      var j :| 0 <= j < |a| && a[j] == q.value;
    }
  }

  /**
   * Main theorem: whether the evidence is usable, and the set of heartbeats paired from it,
   * do not depend on how the log lines of the operations are interleaved.
   */
  lemma PairingIgnoresInterleaving(s: Settings, a: seq<Row>, b: seq<Row>)
    requires SameRows(a, b)
    ensures Usable(s, a) <==> Usable(s, b)
    ensures Usable(s, a) ==>
              var x, y := OperationsOf(s, a), OperationsOf(s, b);
              && multiset(x) == multiset(y)
              && forall h :: h in HeartbeatsOf(s, x, Keys(x)) <==> h in HeartbeatsOf(s, y, Keys(y))
  {
    if Usable(s, b) { UsableIgnoresInterleaving(s, b, a); }
    if Usable(s, a) {
      UsableIgnoresInterleaving(s, a, b);
      OperationsMultiset(s, a, b);
      var x, y := OperationsOf(s, a), OperationsOf(s, b);
      forall k ensures GroupOf(x, k) == GroupOf(y, k) { SameGroups(x, y, k); }
      forall h ensures h in HeartbeatsOf(s, x, Keys(x)) <==> h in HeartbeatsOf(s, y, Keys(y)) {
        HeartbeatMembers(s, x, Keys(x), h);
        HeartbeatMembers(s, y, Keys(y), h);
      }
    }
  }

  lemma UsableIgnoresInterleaving(s: Settings, a: seq<Row>, b: seq<Row>)
    requires SameRows(a, b) && Usable(s, a)
    ensures Usable(s, b)
  {
    OperationsMultiset(s, a, b);
    var x, y := OperationsOf(s, a), OperationsOf(s, b);
    assert |multiset(x)| == |x| && |multiset(y)| == |y|;
    forall r | r in b ensures !Judge(s, r).Rejected? {
      assert r in multiset(b) && r in multiset(a) && r in a;
    }
    NoDuplicatesIffCounts(x);
    NoDuplicatesIffCounts(y);
    forall key, kind ensures Count(y, key, kind) <= 1 { CountMultiset(x, y, key, kind); }
    forall k | k in Keys(y) ensures Ordered(s, GroupOf(y, k)) {
      SameGroups(x, y, k);
      assert k in Keys(x);
    }
  }

  lemma {:induction false} HeartbeatMembers(s: Settings, ops: seq<Operation>, keys: seq<Key>, h: Heartbeat)
    requires forall k :: k in keys ==> GroupOf(ops, k).NonEmpty()
    ensures h in HeartbeatsOf(s, ops, keys) <==> exists k :: k in keys && h == HeartbeatOf(s, GroupOf(ops, k))
  {
    if keys != [] {
      var n := |keys| - 1;
      HeartbeatMembers(s, ops, keys[..n], h);
      assert keys[n] in keys && keys == keys[..n] + [keys[n]];
    }
  }

  // ---------- The reported expiry ----------

  /** The service granted the operation between the worker's request and response. */
  ghost predicate Granted(service: Clock, worker: Clock, skew: real, op: Operation, request: Instant, grant: Instant) {
    && request <= grant
    && worker(request) == op.startedAtMs
    && ReadingsAgree(service, worker, request, skew)
    && NeverBack(service)
  }

  /**
   * Each reported expiry is a lower bound on the expiry the service set, for any two clocks within
   * the skew at the request, even if the worker's clock stepped back before the response.
   */
  lemma ReportedExpiryIsLowerBound(
    service: Clock, worker: Clock, s: Settings, g: Group, op: Operation, request: Instant, grant: Instant)
    requires g.NonEmpty() && Granted(service, worker, s.skew, op, request, grant)
    ensures g.lease == Some(op) ==> HeartbeatOf(s, g).leaseExpiresAtMs.value <= service(grant) + op.durationMs
    ensures g.visibility == Some(op) ==> HeartbeatOf(s, g).visibilityExpiresAtMs.value <= service(grant) + op.durationMs
  {
    assert service(request) <= service(grant);
  }

  /** Some service, within the skew of the worker's clock, set an expiry earlier than `later`. */
  ghost predicate MayExpireBefore(op: Operation, skew: real, later: real) {
    exists service: Clock, worker: Clock, request, grant ::
      Granted(service, worker, skew, op, request, grant) && service(grant) + op.durationMs < later
  }

  /**
   * How tight the reported bound is: exactly the later ones than the request's own time allows
   * are too late for some service. The reported bound is that one unless the worker's clock
   * stepped back during the operation, and then falls short of it by that step.
   */
  lemma NoLaterExpiryIsSafe(s: Settings, op: Operation, later: real)
    requires s.skew > 0.0
    ensures MayExpireBefore(op, s.skew, later) <==> later > op.startedAtMs + op.durationMs - s.skew
    ensures op.startedAtMs + op.durationMs - s.skew - ExpiryOf(Some(op), s.skew).value
            == if op.observedAtMs < op.startedAtMs then op.startedAtMs - op.observedAtMs else 0.0
  {
    var skew := s.skew;
    if later > op.startedAtMs + op.durationMs - skew {
      var worker: Clock := t => t;
      var service: Clock := t => t - skew;
      assert Granted(service, worker, skew, op, op.startedAtMs, op.startedAtMs);
      assert service(op.startedAtMs) + op.durationMs < later;
    }
    if MayExpireBefore(op, skew, later) {
      var service: Clock, worker: Clock, request, grant :|
        Granted(service, worker, skew, op, request, grant) && service(grant) + op.durationMs < later;
      assert service(request) <= service(grant);
    }
  }
}
