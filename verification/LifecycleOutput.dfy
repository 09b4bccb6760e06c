/**
 * The publication oracle: `app/frontend/e2e/reliability/lifecycle-driver.ts` (lines 62-118) and the
 * acknowledgement check of `duplicate-driver.ts` (lines 76-84).
 */
module LifecycleOutput {
  import opened Wrappers
  import opened PyText

  /** The event outcomes the oracle distinguishes; `Other` covers every other string. */
  datatype Outcome =
    | DownloadStarted | SourceDownloaded | EncodeStarted | EncodeFinished
    | SegmentUploadStarted | SegmentPublished | ManifestUploadStarted | ManifestPublished
    | Completed | Deleted | Other(name: string)

  datatype Event = Event(
    at: real, outcome: Outcome, messageId: string, deliveryId: string, workerId: Option<string>, attempt: Option<int>)

  /** In `sideEffects`, or `completed`. */
  predicate IsWork(o: Outcome) {
    !o.Deleted? && !o.Other?
  }

  /** The owner delivery's work, in log order. */
  function Work(events: seq<Event>, deliveryId: string): seq<Event> {
    if events == [] then []
    else
      var front, e := Work(events[..|events| - 1], deliveryId), events[|events| - 1];
      if e.deliveryId == deliveryId && IsWork(e.outcome) then front + [e] else front
  }

  /** Event `e` is media work of delivery `d`, outcome by outcome. */
  predicate IsWorkOf(e: Event, d: string) {
    && e.deliveryId == d
    && e.outcome in {DownloadStarted, SourceDownloaded, EncodeStarted, EncodeFinished, SegmentUploadStarted, SegmentPublished,
                     ManifestUploadStarted, ManifestPublished, Completed}
  }

  /** The positions of a delivery's work, from the first. */
  function WorkPositions(events: seq<Event>, d: string): seq<nat> {
    if events == [] then []
    else
      var n := |events| - 1;
      WorkPositions(events[..n], d) + if IsWorkOf(events[n], d) then [n] else []
  }

  lemma {:induction false} PositionsAre(events: seq<Event>, d: string)
    ensures forall i: nat :: i in WorkPositions(events, d) <==> i < |events| && IsWorkOf(events[i], d)
    ensures forall m: nat, n: nat :: m < n < |WorkPositions(events, d)| ==> WorkPositions(events, d)[m] < WorkPositions(events, d)[n]
  {
    hide IsWorkOf;
    if events != [] {
      var n := |events| - 1;
      var before := WorkPositions(events[..n], d);
      PositionsAre(events[..n], d);
      forall m: nat | m < |before| ensures before[m] < n { assert before[m] in before; }
    }
  }

  /**
   * The owner's trace keeps exactly the positions of the delivery's work, each once and in log
   * order, whatever other deliveries do in between.
   */
  lemma {:induction false} WorkKeeps(events: seq<Event>, d: string)
    ensures
      var work, kept := Work(events, d), WorkPositions(events, d);
      && |work| == |kept|
      && (forall m: nat :: m < |kept| ==> kept[m] < |events| && IsWorkOf(events[kept[m]], d) && work[m] == events[kept[m]])
      && (forall m: nat, n: nat :: m < n < |kept| ==> kept[m] < kept[n])
      && (forall i: nat :: i < |events| && IsWorkOf(events[i], d) ==> i in kept)
  {
    hide IsWorkOf;
    PositionsAre(events, d);
    var kept := WorkPositions(events, d);
    forall m: nat | m < |kept| ensures kept[m] < |events| && IsWorkOf(events[kept[m]], d) { assert kept[m] in kept; }
    if events != [] {
      var n := |events| - 1;
      WorkKeeps(events[..n], d);
      WorkIs(events[n], d);
    }
  }

  lemma WorkIs(e: Event, d: string)
    ensures IsWorkOf(e, d) <==> e.deliveryId == d && IsWork(e.outcome)
  {
  }

  /** Work is read off the parts of a log. */
  lemma {:induction false} WorkOfParts(a: seq<Event>, b: seq<Event>, d: string)
    ensures Work(a + b, d) == Work(a, d) + Work(b, d)
  {
    if b == [] {
      assert a + b == a;
    } else {
      assert (a + b)[..|a + b| - 1] == a + b[..|b| - 1];
      WorkOfParts(a, b[..|b| - 1], d);
    }
  }

  // ---------- Acknowledgement ----------

  function OfMessage(events: seq<Event>, id: string): seq<Event> {
    if events == [] then []
    else
      var front, e := OfMessage(events[..|events| - 1], id), events[|events| - 1];
      if e.messageId == id then front + [e] else front
  }

  function OfDelivery(events: seq<Event>, id: string): seq<Event> {
    if events == [] then []
    else
      var front, e := OfDelivery(events[..|events| - 1], id), events[|events| - 1];
      if e.deliveryId == id then front + [e] else front
  }

  /** The distinct deliveries, in the order of their first event. */
  function Deliveries(events: seq<Event>): seq<string> {
    if events == [] then []
    else
      var front, e := Deliveries(events[..|events| - 1]), events[|events| - 1];
      if e.deliveryId in front then front else front + [e.deliveryId]
  }

  /** `acknowledged`: the last event of the message's newest delivery is its deletion. */
  predicate Acknowledged(events: seq<Event>, id: string) {
    var own := OfMessage(events, id);
    var deliveries := Deliveries(own);
    && deliveries != []
    && var last := OfDelivery(own, deliveries[|deliveries| - 1]);
       last != [] && last[|last| - 1].outcome == Deleted
  }

  predicate Belongs(e: Event, id: string, delivery: string) {
    e.messageId == id && e.deliveryId == delivery
  }

  /** Event `i` is the first of its delivery of the message. */
  ghost predicate FirstAt(events: seq<Event>, id: string, i: nat) {
    && i < |events| && events[i].messageId == id
    && forall m :: 0 <= m < i ==> !Belongs(events[m], id, events[i].deliveryId)
  }

  /** Event `i` starts the message's newest delivery. */
  ghost predicate NewestAt(events: seq<Event>, id: string, i: nat) {
    FirstAt(events, id, i) && forall m: nat :: i < m < |events| ==> !FirstAt(events, id, m)
  }

  /** Event `j` is the last of a delivery of the message. */
  ghost predicate LastAt(events: seq<Event>, id: string, delivery: string, j: nat) {
    && j < |events| && Belongs(events[j], id, delivery)
    && forall m :: j < m < |events| ==> !Belongs(events[m], id, delivery)
  }

  ghost predicate Occurs(events: seq<Event>, id: string, delivery: string) {
    exists i :: 0 <= i < |events| && Belongs(events[i], id, delivery)
  }

  lemma OccursSnoc(events: seq<Event>, id: string, delivery: string)
    requires events != []
    ensures Occurs(events, id, delivery) <==>
            Occurs(events[..|events| - 1], id, delivery) || Belongs(events[|events| - 1], id, delivery)
  {
    hide Belongs;
    var front := events[..|events| - 1];
    assert forall i :: 0 <= i < |front| ==> front[i] == events[i];
    if Occurs(front, id, delivery) {
      var i :| 0 <= i < |front| && Belongs(front[i], id, delivery);
      assert Belongs(events[i], id, delivery);
    }
  }

  lemma OwnDeliveriesSnoc(events: seq<Event>, id: string)
    requires events != []
    ensures
      var front, e := OfMessage(events[..|events| - 1], id), events[|events| - 1];
      Deliveries(OfMessage(events, id)) ==
        if e.messageId != id || e.deliveryId in Deliveries(front) then Deliveries(front) else Deliveries(front) + [e.deliveryId]
  {
    var front, e := OfMessage(events[..|events| - 1], id), events[|events| - 1];
    assert (front + [e])[..|front|] == front;
  }

  lemma {:induction false} DeliveryMembers(events: seq<Event>, id: string, d: string)
    ensures d in Deliveries(OfMessage(events, id)) <==> Occurs(events, id, d)
  {
    if events == [] {
    } else {
      hide Deliveries, OfMessage, Occurs;
      DeliveryMembers(events[..|events| - 1], id, d);
      OwnDeliveriesSnoc(events, id);
      OccursSnoc(events, id, d);
    }
  }

  lemma FirstAtFront(events: seq<Event>, id: string, i: nat)
    requires events != [] && i < |events| - 1
    ensures FirstAt(events[..|events| - 1], id, i) <==> FirstAt(events, id, i)
  {
    var front := events[..|events| - 1];
    assert forall m :: 0 <= m <= i ==> front[m] == events[m];
  }

  /** The last of the distinct deliveries is the one whose first event comes last. */
  lemma {:induction false} NewestDelivery(events: seq<Event>, id: string) returns (i: nat)
    requires Deliveries(OfMessage(events, id)) != []
    ensures i < |events| && NewestAt(events, id, i)
    ensures var ds := Deliveries(OfMessage(events, id)); events[i].deliveryId == ds[|ds| - 1]
    decreases |events|
  {
    var n := |events| - 1;
    var front, e := events[..n], events[n];
    OwnDeliveriesSnoc(events, id);
    DeliveryMembers(front, id, e.deliveryId);
    hide Deliveries, OfMessage;
    hide FirstAt, NewestAt, Occurs;
    if e.messageId == id && e.deliveryId !in Deliveries(OfMessage(front, id)) {
      i := n;
      LastIsNewest(events, id);
    } else {
      i := NewestDelivery(front, id);
      NewestStays(events, id, i);
    }
  }

  lemma LastIsNewest(events: seq<Event>, id: string)
    requires events != []
    requires var e := events[|events| - 1]; e.messageId == id && !Occurs(events[..|events| - 1], id, e.deliveryId)
    ensures NewestAt(events, id, |events| - 1)
  {
    assert forall m :: 0 <= m < |events| - 1 ==> events[..|events| - 1][m] == events[m];
  }

  lemma NewestStays(events: seq<Event>, id: string, i: nat)
    requires events != []
    requires var e := events[|events| - 1]; e.messageId != id || Occurs(events[..|events| - 1], id, e.deliveryId)
    requires NewestAt(events[..|events| - 1], id, i)
    ensures i < |events| - 1 && NewestAt(events, id, i)
  {
    var n := |events| - 1;
    FirstAtFront(events, id, i);
    NotFirstAgain(events, id);
    forall m: nat | i < m < |events| ensures !FirstAt(events, id, m) {
      if m < n { FirstAtFront(events, id, m); }
    }
  }

  lemma NotFirstAgain(events: seq<Event>, id: string)
    requires events != []
    requires var e := events[|events| - 1]; e.messageId != id || Occurs(events[..|events| - 1], id, e.deliveryId)
    ensures !FirstAt(events, id, |events| - 1)
  {
    var n := |events| - 1;
    if events[n].messageId == id {
      var m :| 0 <= m < n && Belongs(events[..n][m], id, events[n].deliveryId);
      assert Belongs(events[m], id, events[n].deliveryId);
    }
  }

  lemma {:induction false} LastOfDelivery(events: seq<Event>, id: string, d: string) returns (j: nat)
    requires d in Deliveries(OfMessage(events, id))
    ensures LastAt(events, id, d, j)
    ensures var own := OfDelivery(OfMessage(events, id), d); own != [] && own[|own| - 1] == events[j]
    decreases |events|
  {
    DeliveryMembers(events, id, d);
    OccursSnoc(events, id, d);
    var n := |events| - 1;
    var front, e := events[..n], events[n];
    var own := OfMessage(front, id);
    if e.messageId == id { assert (own + [e])[..|own|] == own; }
    if Belongs(e, id, d) {
      j := n;
    } else {
      DeliveryMembers(front, id, d);
      hide Deliveries;
      j := LastOfDelivery(front, id, d);
      assert forall m :: 0 <= m < n ==> front[m] == events[m];
    }
  }

  /** `acknowledged` read off the log: the newest delivery's last event is a deletion. */
  lemma AcknowledgedIff(events: seq<Event>, id: string)
    ensures Acknowledged(events, id) <==>
            exists i: nat, j: nat :: i < |events| && j < |events| && NewestAt(events, id, i) && LastAt(events, id, events[i].deliveryId, j)
                                     && events[j].outcome == Deleted
  {
    hide NewestAt, LastAt, Deliveries, OfMessage, OfDelivery;
    var ds := Deliveries(OfMessage(events, id));
    if ds != [] {
      var newest := NewestDelivery(events, id);
      var last := LastOfDelivery(events, id, ds[|ds| - 1]);
      assert newest < |events| && last < |events| by { NewestInside(events, id, newest, ds[|ds| - 1], last); }
      forall i: nat, j: nat | i < |events| && j < |events| && NewestAt(events, id, i) && LastAt(events, id, events[i].deliveryId, j)
        ensures i == newest && j == last {
        NewestIsUnique(events, id, i, newest);
        LastIsUnique(events, id, events[i].deliveryId, j, last);
      }
    } else {
      forall i: nat ensures !NewestAt(events, id, i) { NoneIsNewest(events, id, i); }
    }
  }

  lemma NewestInside(events: seq<Event>, id: string, i: nat, d: string, j: nat)
    requires NewestAt(events, id, i) && LastAt(events, id, d, j)
    ensures i < |events| && j < |events|
  {
  }

  lemma NoneIsNewest(events: seq<Event>, id: string, i: nat)
    requires Deliveries(OfMessage(events, id)) == []
    ensures !NewestAt(events, id, i)
  {
    hide Deliveries, OfMessage;
    if i < |events| {
      DeliveryMembers(events, id, events[i].deliveryId);
    }
  }

  lemma LastIsUnique(events: seq<Event>, id: string, d: string, i: nat, k: nat)
    requires LastAt(events, id, d, i) && LastAt(events, id, d, k)
    ensures i == k
  {
  }

  lemma NewestIsUnique(events: seq<Event>, id: string, i: nat, k: nat)
    requires NewestAt(events, id, i) && NewestAt(events, id, k)
    ensures i == k
  {
    assert FirstAt(events, id, i) && FirstAt(events, id, k);
  }

  // ---------- The accepted traces ----------

  const OPENING := [DownloadStarted, SourceDownloaded, EncodeStarted, EncodeFinished]
  const ONCE := [DownloadStarted, SourceDownloaded, EncodeStarted, EncodeFinished, Completed]

  /** Download, encode, `k` segments started and published in turn, the manifest, completion. */
  function ShapeOf(k: nat, i: nat): Outcome
    requires i < 2 * k + 7
  {
    if i == 0 then DownloadStarted
    else if i == 1 then SourceDownloaded
    else if i == 2 then EncodeStarted
    else if i == 3 then EncodeFinished
    else if i < 4 + 2 * k then (if i % 2 == 0 then SegmentUploadStarted else SegmentPublished)
    else if i == 4 + 2 * k then ManifestUploadStarted
    else if i == 5 + 2 * k then ManifestPublished
    else Completed
  }

  ghost predicate Shape(work: seq<Event>, k: nat) {
    k >= 1 && |work| == 2 * k + 7 && forall i :: 0 <= i < |work| ==> work[i].outcome == ShapeOf(k, i)
  }

  predicate SameOwner(e: Event, owner: Event) {
    e.workerId == owner.workerId && e.attempt == owner.attempt && e.messageId == owner.messageId
  }

  lemma SameOwnerIs(owner: Event)
    ensures forall e :: SameOwner(e, owner) <==>
              !(e.workerId != owner.workerId || e.attempt != owner.attempt || e.messageId != owner.messageId)
  {
  }

  ghost predicate InTime(work: seq<Event>, owner: Event) {
    && (work != [] ==> owner.at <= work[0].at)
    && forall i, j :: 0 <= i < j < |work| ==> work[i].at <= work[j].at
  }

  /** A complete publication of `k` segments by one owner, in order, finally acknowledged. */
  ghost predicate Publishes(events: seq<Event>, owner: Event, k: nat) {
    var work := Work(events, owner.deliveryId);
    && Shape(work, k)
    && (forall e :: e in work ==> SameOwner(e, owner))
    && InTime(work, owner)
    && Acknowledged(events, owner.messageId)
  }

  // ---------- The object keys ----------

  function PadStart5(s: string): string
    decreases 5 - |s|
  {
    if |s| < 5 then PadStart5("0" + s) else s
  }

  function SegmentKey(prefix: string, n: nat): string {
    prefix + "hls/" + ("segment-" + PadStart5(Decimal(n)) + ".ts")
  }

  function ManifestKey(prefix: string): string {
    prefix + "hls/" + "index.m3u8"
  }

  /** The keys of segments 0 up to `k`, then the manifest. */
  function SegmentKeys(prefix: string, k: nat): (keys: seq<string>)
    ensures |keys| == k && forall i: nat :: i < k ==> keys[i] == SegmentKey(prefix, i)
  {
    if k == 0 then [] else SegmentKeys(prefix, k - 1) + [SegmentKey(prefix, k - 1)]
  }

  function PublishedKeys(prefix: string, k: nat): seq<string> {
    SegmentKeys(prefix, k) + [ManifestKey(prefix)]
  }

  lemma {:induction false} PaddedValue(s: string)
    ensures DigitsValue(PadStart5(s)) == DigitsValue(s)
    decreases 5 - |s|
  {
    if |s| < 5 {
      LeadingZero(s);
      PaddedValue("0" + s);
    }
  }

  /** Padding puts zeros in front until there are five characters. */
  lemma {:induction false} PaddedIs(s: string)
    ensures
      var p := PadStart5(s);
      && |p| == (if |s| < 5 then 5 else |s|)
      && p[|p| - |s|..] == s
      && forall i :: 0 <= i < |p| - |s| ==> p[i] == '0'
    decreases 5 - |s|
  {
    if |s| < 5 {
      PaddedIs("0" + s);
      var p := PadStart5(s);
      assert p[|p| - |s| - 1..] == "0" + s;
      assert p[|p| - |s|..] == p[|p| - |s| - 1..][1..];
      assert p[|p| - |s| - 1] == '0';
    }
  }

  lemma {:induction false} LeadingZero(s: string)
    ensures DigitsValue("0" + s) == DigitsValue(s)
  {
    if s == "" {
      assert ("0" + s)[..0] == "";
    } else {
      LeadingZero(s[..|s| - 1]);
      assert ("0" + s)[..|s|] == "0" + s[..|s| - 1];
    }
  }

  lemma Cancel(a: string, x: string, y: string, b: string)
    requires a + (x + b) == a + (y + b)
    ensures x == y
  {
    assert (a + (x + b))[|a|..] == x + b && (a + (y + b))[|a|..] == y + b;
    assert (x + b)[..|x|] == x && (y + b)[..|y|] == y;
  }

  /** The keys are distinct: the number can be read back from a segment's key, and no segment is the manifest. */
  lemma KeysAreDistinct(prefix: string, k: nat)
    ensures var keys := PublishedKeys(prefix, k);
            forall i, j :: 0 <= i < j < |keys| ==> keys[i] != keys[j]
  {
    var keys := PublishedKeys(prefix, k);
    forall i: nat, j: nat | i < j < |keys| ensures keys[i] != keys[j] {
      if j == k { SegmentIsNotManifest(prefix, i); } else { SegmentKeysDiffer(prefix, i, j); }
    }
  }

  lemma SegmentIsNotManifest(prefix: string, n: nat)
    ensures SegmentKey(prefix, n) != ManifestKey(prefix)
  {
    var p := prefix + "hls/";
    assert SegmentKey(prefix, n)[|p|] == 's' && ManifestKey(prefix)[|p|] == 'i';
  }

  lemma SegmentKeysDiffer(prefix: string, i: nat, j: nat)
    requires i != j
    ensures SegmentKey(prefix, i) != SegmentKey(prefix, j)
  {
    var p, a, b := prefix + "hls/", PadStart5(Decimal(i)), PadStart5(Decimal(j));
    if SegmentKey(prefix, i) == SegmentKey(prefix, j) {
      assert p + ("segment-" + a + ".ts") == (p + "segment-") + (a + ".ts");
      assert p + ("segment-" + b + ".ts") == (p + "segment-") + (b + ".ts");
      Cancel(p + "segment-", a, b, ".ts");
      PaddedValue(Decimal(i));
      PaddedValue(Decimal(j));
      DigitsOfDecimal(i);
      DigitsOfDecimal(j);
    }
  }

  lemma FewDigits(n: nat)
    requires n < 100000
    ensures |Decimal(n)| <= 5
  {
    if n >= 10 {
      if n >= 100 {
        if n >= 1000 {
          if n >= 10000 { assert |Decimal(n / 10000)| == 1; }
          assert n / 1000 == (n / 100) / 10;
          assert |Decimal(n / 1000)| <= 2;
        }
        assert n / 100 == (n / 10) / 10;
        assert |Decimal(n / 100)| <= 3;
      }
      assert |Decimal(n / 10)| <= 4;
    }
  }

  /** The number in a segment's key has five digits, as long as five suffice. */
  lemma SegmentKeysAreEven(prefix: string, n: nat)
    requires n < 100000
    ensures |SegmentKey(prefix, n)| == |prefix| + |"hls/segment-00000.ts"|
  {
    FewDigits(n);
    PaddedIs(Decimal(n));
  }

  // ---------- The oracle as written ----------

  function Count(work: seq<Event>, o: Outcome): nat {
    if work == [] then 0 else Count(work[..|work| - 1], o) + if work[|work| - 1].outcome == o then 1 else 0
  }

  lemma {:induction false} CountNone(work: seq<Event>, o: Outcome)
    requires forall i :: 0 <= i < |work| ==> work[i].outcome != o
    ensures Count(work, o) == 0
  {
    if work != [] { CountNone(work[..|work| - 1], o); }
  }

  lemma {:induction false} CountOnce(work: seq<Event>, o: Outcome, p: nat)
    requires p < |work| && forall i :: 0 <= i < |work| ==> (work[i].outcome == o <==> i == p)
    ensures Count(work, o) == 1
  {
    if p == |work| - 1 { CountNone(work[..p], o); } else { CountOnce(work[..|work| - 1], o, p); }
  }

  /** The outcomes that must be counted once do occur once in a trace of the right shape. */
  lemma ShapeCounts(work: seq<Event>, k: nat, c: nat)
    requires Shape(work, k) && c < 5
    ensures Count(work, ONCE[c]) == 1
  {
    CountOnce(work, ONCE[c], if c < 4 then c else 2 * k + 6);
  }

  /** What the loop requires of the pair of uploads at `i`. */
  predicate PairFits(uploads: seq<Event>, i: nat)
    requires i + 1 < |uploads|
  {
    if i == |uploads| - 2 then uploads[i].outcome == ManifestUploadStarted && uploads[i + 1].outcome == ManifestPublished
    else uploads[i].outcome == SegmentUploadStarted && uploads[i + 1].outcome == SegmentPublished
  }

  ghost predicate Opens(work: seq<Event>) {
    && (forall i :: 0 <= i < 4 && i < |work| ==> work[i].outcome == OPENING[i])
    && work != [] && work[|work| - 1].outcome == Completed
  }

  /** The order checks and the pair loop together pin the shape. */
  lemma ShapeIff(work: seq<Event>, k: nat)
    ensures Shape(work, k) <==>
            && Opens(work) && |work| == 2 * k + 7 && k >= 1
            && PairsFit(work[4..|work| - 1])
  {
    if Opens(work) && |work| == 2 * k + 7 && k >= 1 {
      var uploads := work[4..|work| - 1];
      if PairsFit(uploads) {
        forall i | 0 <= i < |work| ensures work[i].outcome == ShapeOf(k, i) {
          if 4 <= i < |work| - 1 {
            assert PairFits(uploads, 2 * ((i - 4) / 2));
            assert work[i] == uploads[i - 4];
          }
        }
      }
    }
    if Shape(work, k) {
      var uploads := work[4..|work| - 1];
      forall i | 0 <= i < |work| ensures work[i].outcome == ShapeOf(k, i) {}
      forall p: nat | 2 * p < |uploads| ensures PairFits(uploads, 2 * p) {
        assert uploads[2 * p] == work[4 + 2 * p] && uploads[2 * p + 1] == work[5 + 2 * p];
      }
    }
  }

  /** The timestamp check at index `i`: not before the previous event, or the owner's acquisition. */
  predicate NotEarlier(work: seq<Event>, owner: Event, i: nat)
    requires i < |work|
  {
    (if i == 0 then owner.at else work[i - 1].at) <= work[i].at
  }

  ghost predicate NeverEarlier(work: seq<Event>, owner: Event) {
    forall i: nat :: i < |work| ==> NotEarlier(work, owner, i)
  }

  ghost predicate PairsFit(uploads: seq<Event>) {
    |uploads| % 2 == 0 && forall p: nat :: 2 * p < |uploads| ==> PairFits(uploads, 2 * p)
  }

  ghost predicate OnceEach(work: seq<Event>) {
    forall c: nat :: c < 5 ==> Count(work, ONCE[c]) == 1
  }

  lemma ShapeOnceEach(work: seq<Event>, k: nat)
    requires Shape(work, k)
    ensures OnceEach(work)
  {
    hide Shape, Count;
    forall c: nat | c < 5 ensures Count(work, ONCE[c]) == 1 { ShapeCounts(work, k, c); }
  }

  lemma AdjacentOrder(work: seq<Event>, owner: Event)
    ensures InTime(work, owner) <==> NeverEarlier(work, owner)
  {
    if NeverEarlier(work, owner) {
      forall m | 0 < m < |work| ensures work[m - 1].at <= work[m].at { assert NotEarlier(work, owner, m); }
      forall i, j | 0 <= i < j < |work| ensures work[i].at <= work[j].at { AdjacentRun(work, i, j); }
      if work != [] { assert NotEarlier(work, owner, 0); }
    }
  }

  lemma {:induction false} AdjacentRun(work: seq<Event>, i: nat, j: nat)
    requires i <= j < |work| && forall m :: 0 < m < |work| ==> work[m - 1].at <= work[m].at
    ensures work[i].at <= work[j].at
    decreases j
  {
    if i < j { AdjacentRun(work, i, j - 1); }
  }

  /** The counting loop: each outcome of `ONCE` occurs exactly once. */
  method CountsAreOne(work: seq<Event>) returns (ok: bool)
    ensures ok <==> OnceEach(work)
  {
    for c := 0 to 5
      invariant forall d: nat :: d < c ==> Count(work, ONCE[d]) == 1
    {
      if Count(work, ONCE[c]) != 1 {
        return false;
      }
    }
    return true;
  }

  /** The loop over the uploads, two events at a time. */
  method CollectKeys(uploads: seq<Event>, prefix: string) returns (r: Option<seq<string>>)
    requires |uploads| >= 4 && |uploads| % 2 == 0
    ensures r.Some? <==> PairsFit(uploads)
    ensures r.Some? ==> r.value == PublishedKeys(prefix, |uploads| / 2 - 1)
  {
    hide PairFits, SegmentKeys, PublishedKeys;
    ghost var segments: nat := |uploads| / 2 - 1;
    var keys: seq<string> := [];
    var i := 0;
    ghost var pairs: nat := 0;
    assert keys == SegmentKeys(prefix, 0) by { NoKeys(prefix); }
    while i < |uploads|
      invariant 0 <= i == 2 * pairs <= |uploads|
      invariant forall p: nat :: p < pairs ==> PairFits(uploads, 2 * p)
      invariant keys == if pairs <= segments then SegmentKeys(prefix, pairs) else PublishedKeys(prefix, segments)
    {
      var last := i == |uploads| - 2;
      PairCase(uploads, i);
      if uploads[i].outcome != (if last then ManifestUploadStarted else SegmentUploadStarted)
         || uploads[i + 1].outcome != (if last then ManifestPublished else SegmentPublished) {
        assert !PairFits(uploads, 2 * pairs);
        return None;
      }
      assert i / 2 == pairs;
      KeysGrow(prefix, pairs);
      keys := keys + [if last then ManifestKey(prefix) else SegmentKey(prefix, i / 2)];
      i := i + 2;
      pairs := pairs + 1;
    }
    return Some(keys);
  }

  /**
   * `lifecycleOutput`; `None` where it fails. It succeeds exactly on a complete publication, and
   * then returns one key for each published segment, in order, and the manifest's key last.
   */
  method DeriveKeys(events: seq<Event>, prefix: string, owner: Event) returns (r: Option<seq<string>>)
    ensures r.Some? <==> exists k: nat :: Publishes(events, owner, k)
    ensures forall k: nat :: Publishes(events, owner, k) ==> r == Some(PublishedKeys(prefix, k))
  {
    hide Acknowledged, Work, OnceEach, PublishedKeys, PairsFit, NotEarlier, Opens, SameOwner, Publishes;
    var work := Work(events, owner.deliveryId);
    forall k: nat { PublishesIff(events, owner, k); }
    assert forall e :: SameOwner(e, owner) <==>
      !(e.workerId != owner.workerId || e.attempt != owner.attempt || e.messageId != owner.messageId) by { SameOwnerIs(owner); }
    if exists e :: e in work && (e.workerId != owner.workerId || e.attempt != owner.attempt || e.messageId != owner.messageId) {
      return None;
    }
    var counted := CountsAreOne(work);
    if !counted {
      return None;
    }
    OpensIff(work);
    if (exists i :: 0 <= i < 4 && i < |work| && work[i].outcome != OPENING[i])
       || work == [] || work[|work| - 1].outcome != Completed {
      return None;
    }
    if exists i :: 0 <= i < |work| && !NotEarlier(work, owner, i) {
      return None;
    }
    OpenWorkIsLong(work);
    var uploads := work[4..|work| - 1];
    if |uploads| < 4 || |uploads| % 2 != 0 {
      return None;
    }
    var keys := CollectKeys(uploads, prefix);
    if keys.None? || !Acknowledged(events, owner.messageId) {
      return None;
    }
    assert Publishes(events, owner, |uploads| / 2 - 1);
    return keys;
  }

  lemma {:induction false} MessageOfParts(a: seq<Event>, b: seq<Event>, id: string)
    ensures OfMessage(a + b, id) == OfMessage(a, id) + OfMessage(b, id)
  {
    if b == [] {
      assert a + b == a;
    } else {
      assert (a + b)[..|a + b| - 1] == a + b[..|b| - 1];
      MessageOfParts(a, b[..|b| - 1], id);
    }
  }

  /**
   * What another delivery does, anywhere in the log, leaves the owner's trace alone; if it is about
   * another message too, it changes neither the verdict nor the keys.
   */
  lemma OthersAreIgnored(a: seq<Event>, e: Event, b: seq<Event>, owner: Event, k: nat)
    requires e.deliveryId != owner.deliveryId
    ensures Work(a + [e] + b, owner.deliveryId) == Work(a + b, owner.deliveryId)
    ensures e.messageId != owner.messageId ==> (Publishes(a + [e] + b, owner, k) <==> Publishes(a + b, owner, k))
  {
    hide *;
    var log, rest := a + [e] + b, a + b;
    WorkOfParts(a, [e], owner.deliveryId);
    WorkOfParts(a + [e], b, owner.deliveryId);
    WorkOfParts(a, b, owner.deliveryId);
    OneOther(e, owner.deliveryId, owner.messageId);
    assert Work(a, owner.deliveryId) + [] == Work(a, owner.deliveryId);
    if e.messageId != owner.messageId {
      MessageOfParts(a, [e], owner.messageId);
      MessageOfParts(a + [e], b, owner.messageId);
      MessageOfParts(a, b, owner.messageId);
      assert OfMessage(a, owner.messageId) + [] == OfMessage(a, owner.messageId);
      SameVerdict(log, rest, owner, k);
    }
  }

  lemma OneOther(e: Event, d: string, id: string)
    requires e.deliveryId != d
    ensures Work([e], d) == [] && (e.messageId != id ==> OfMessage([e], id) == [])
  {
    assert [e][..0] == [];
  }

  lemma SameVerdict(a: seq<Event>, b: seq<Event>, owner: Event, k: nat)
    requires Work(a, owner.deliveryId) == Work(b, owner.deliveryId) && OfMessage(a, owner.messageId) == OfMessage(b, owner.messageId)
    ensures Publishes(a, owner, k) <==> Publishes(b, owner, k)
  {
    hide Work, OfMessage, Deliveries, OfDelivery, Shape, InTime;
  }

  /** A complete publication in terms of the checks the oracle makes. */
  lemma PublishesIff(events: seq<Event>, owner: Event, k: nat)
    ensures
      var work := Work(events, owner.deliveryId);
      Publishes(events, owner, k) <==>
        && (forall e :: e in work ==> SameOwner(e, owner))
        && OnceEach(work)
        && Opens(work)
        && NeverEarlier(work, owner)
        && |work| == 2 * k + 7 && k >= 1
        && PairsFit(work[4..|work| - 1])
        && Acknowledged(events, owner.messageId)
  {
    hide InTime, Acknowledged, Work, PairsFit, NeverEarlier, OnceEach, Opens, SameOwner, Shape;
    var work := Work(events, owner.deliveryId);
    ShapeIff(work, k);
    AdjacentOrder(work, owner);
    if Shape(work, k) { ShapeOnceEach(work, k); }
  }

  lemma OpensIff(work: seq<Event>)
    ensures Opens(work) <==>
            !((exists i :: 0 <= i < 4 && i < |work| && work[i].outcome != OPENING[i])
              || work == [] || work[|work| - 1].outcome != Completed)
  {
  }

  lemma OpenWorkIsLong(work: seq<Event>)
    requires Opens(work)
    ensures |work| >= 5
  {
  }

  lemma NoKeys(prefix: string)
    ensures SegmentKeys(prefix, 0) == []
  {
  }

  lemma PairCase(uploads: seq<Event>, i: nat)
    requires i + 1 < |uploads|
    ensures PairFits(uploads, i) <==>
            var last := i == |uploads| - 2;
            && uploads[i].outcome == (if last then ManifestUploadStarted else SegmentUploadStarted)
            && uploads[i + 1].outcome == (if last then ManifestPublished else SegmentPublished)
  {
  }

  lemma KeysGrow(prefix: string, k: nat)
    ensures SegmentKeys(prefix, k + 1) == SegmentKeys(prefix, k) + [SegmentKey(prefix, k)]
    ensures PublishedKeys(prefix, k) == SegmentKeys(prefix, k) + [ManifestKey(prefix)]
  {
  }
}
