/**
 * The cached next deadline of kern_timeout.c (cc_next_gen, cc_next_none,
 * cc_next_time): kept exact or early for the callouts tickless idle must honour.
 */
module CalloutCache {
  import opened Words
  import opened Queues
  import opened CalloutWheel
  import opened CalloutRuns

  const NO_NEXT: int := 0x3fff_ffff

  /** struct callout_cpu with its cache, and the global deferrable policy and generation. */
  datatype Cpu = Cpu(w: Wheel, nextGen: nat, nextNone: bool, nextTime: int, policy: bool, gen: nat)

  /** callout_next_honoured. */
  predicate Honoured(policy: bool, c: Callout) { !policy || !c.deferrable }

  /** id is parked in some bucket and tickless idle must wake for it. */
  ghost predicate ParkedHonoured(k: Cpu, id: Id) {
    id in k.w.co && Honoured(k.policy, k.w.co[id]) && exists b :: InBucket(k.w, b, id)
  }

  ghost predicate Earliest(k: Cpu, none: bool, t: int) {
    forall id :: ParkedHonoured(k, id) ==> !none && t <= k.w.co[id].time
  }

  /** A cache carrying the current generation is exact or early. */
  ghost predicate CacheOk(k: Cpu) {
    && k.nextGen <= k.gen && 1 <= k.gen
    && (k.nextGen == k.gen ==> Earliest(k, k.nextNone, k.nextTime) && (!k.nextNone ==> k.nextTime - k.w.ticks < TWO31))
  }

  ghost predicate CpuInv(k: Cpu) { Inv(k.w) && CacheOk(k) }

  // ------------------------------------------------------------- operations

  /** callout_next_note for callout c. */
  function Note(k: Cpu, c: Callout): Cpu {
    if k.nextGen != k.gen || !Honoured(k.policy, c) then k
    else if k.nextNone || Int32(c.time - k.nextTime) < 0 then k.(nextNone := false, nextTime := c.time)
    else k
  }

  /** A pass of the callout_softclock loop: a callout that is parked is noted. */
  function SoftPass(k: Cpu): Cpu
    requires |k.w.buckets| == BUCKETS && k.w.todo != [] && k.w.todo[0] in k.w.co
  {
    var k' := k.(w := SoftStep(k.w));
    if RunsNext(k.w) then k' else Note(k', k.w.co[k.w.todo[0]])
  }

  /** callout_setdeferrable. */
  function SetDeferrable(k: Cpu, id: Id, on: bool): Cpu
    requires id in k.w.co
  {
    var w' := k.w.(co := k.w.co[id := k.w.co[id].(deferrable := on)]);
    if on then k.(w := w') else k.(w := w', nextGen := 0)
  }

  /** sysctl_kern_callout_deferrable as one step; CalloutPolicy splits it. */
  function SetPolicy(k: Cpu, on: bool): Cpu { k.(policy := on, gen := k.gen + 1) }

  /** What the scan loops of callout_next_ticks carry. */
  datatype Scan = Scan(none: bool, best: int, earliest: int)

  function ScanOne(k: Cpu, acc: Scan, id: Id): Scan {
    if id !in k.w.co || !Honoured(k.policy, k.w.co[id]) then acc
    else
      var delta := Int32(k.w.co[id].time - k.w.ticks);
      if acc.none || delta < acc.best then Scan(false, delta, k.w.co[id].time) else acc
  }

  /** The inner loop, over one bucket. */
  function ScanQueue(k: Cpu, acc: Scan, q: seq<Id>): Scan {
    if q == [] then acc else ScanOne(k, ScanQueue(k, acc, q[..|q| - 1]), q[|q| - 1])
  }

  /** The outer loop, over the first n buckets. */
  function ScanBuckets(k: Cpu, n: nat): Scan
    requires n <= |k.w.buckets|
  {
    if n == 0 then Scan(true, NO_NEXT, 0) else ScanQueue(k, ScanBuckets(k, n - 1), k.w.buckets[n - 1])
  }

  /** callout_next_ticks: the answer, and the state it leaves. */
  function NextTicks(k: Cpu): (r: (int, Cpu)) {
    if k.w.todo != [] then (0, k)
    else if k.nextGen == k.gen && k.nextNone then (NO_NEXT, k)
    else if k.nextGen == k.gen && Int32(k.nextTime - k.w.ticks) > 0 then (Int32(k.nextTime - k.w.ticks), k)
    else
      var s := ScanBuckets(k, |k.w.buckets|);
      (if s.best < 0 then 0 else s.best, k.(nextGen := k.gen, nextNone := s.none, nextTime := s.earliest))
  }

  // ----------------------------------------------------- the scan is a minimum

  /** acc is the minimum over the honoured callouts of a set of identities. */
  ghost predicate MinOver(k: Cpu, acc: Scan, ids: set<Id>) {
    && (forall id :: id in ids && id in k.w.co && Honoured(k.policy, k.w.co[id]) ==>
          !acc.none && acc.earliest <= k.w.co[id].time)
    && (acc.none ==> acc.best == NO_NEXT)
    && (!acc.none ==> exists id :: id in ids && Attains(k, acc, id))
  }

  predicate Attains(k: Cpu, acc: Scan, id: Id) {
    && id in k.w.co && Honoured(k.policy, k.w.co[id])
    && acc.earliest == k.w.co[id].time && acc.best == acc.earliest - k.w.ticks
  }

  /** The callouts of these queues are due within 2^31 ticks, so Int32 compares them truly. */
  ghost predicate Near(k: Cpu, q: seq<Id>) {
    forall id :: id in q && id in k.w.co ==> 0 < k.w.co[id].time - k.w.ticks < TWO31
  }

  lemma {:induction false} ScanQueueIsMin(k: Cpu, acc: Scan, q: seq<Id>, ids: set<Id>)
    requires MinOver(k, acc, ids) && Near(k, q)
    ensures MinOver(k, ScanQueue(k, acc, q), ids + set id | id in q)
  {
    if q == [] {
      assert ids + Elems(q) == ids;
    } else {
      var q', x := q[..|q| - 1], q[|q| - 1];
      ScanQueueIsMin(k, acc, q', ids);
      assert q == q' + [x];
      var s := ScanQueue(k, acc, q');
      var all := ids + Elems(q);
      var before := ids + Elems(q');
      assert all == before + {x};
      if !s.none {
        var id :| id in before && Attains(k, s, id);
        assert id in all;
      }
      assert x in all;
    }
  }

  function Parked(k: Cpu, n: nat): set<Id>
    requires n <= |k.w.buckets|
  {
    if n == 0 then {} else Parked(k, n - 1) + Elems(k.w.buckets[n - 1])
  }

  lemma ParkedIsAll(k: Cpu, n: nat, id: Id)
    requires n <= |k.w.buckets|
    ensures id in Parked(k, n) <==> exists b :: 0 <= b < n && InBucket(k.w, b, id)
  {
    if n != 0 {
      ParkedIsAll(k, n - 1, id);
      assert id in k.w.buckets[n - 1] <==> InBucket(k.w, n - 1, id);
    }
  }

  lemma {:induction false} ScanBucketsIsMin(k: Cpu, n: nat)
    requires Inv(k.w) && n <= BUCKETS
    ensures MinOver(k, ScanBuckets(k, n), Parked(k, n))
  {
    if n == 0 {
    } else {
      ScanBucketsIsMin(k, n - 1);
      var q := k.w.buckets[n - 1];
      forall id | id in q && id in k.w.co ensures 0 < k.w.co[id].time - k.w.ticks < TWO31 {
        assert InBucket(k.w, n - 1, id);
        assert Pending(k.w, id);
        NextMoveIsNext(n - 1, k.w.ticks);
      }
      ScanQueueIsMin(k, ScanBuckets(k, n - 1), q, Parked(k, n - 1));
    }
  }

  // ------------------------------------------------------- the answer is safe

  /** The cached deadline has not been left behind by 2^31 ticks or more. */
  ghost predicate CacheFresh(k: Cpu) {
    k.nextGen == k.gen && !k.nextNone ==> k.w.ticks - k.nextTime <= TWO31
  }

  /** The rescan records the true earliest honoured deadline. */
  lemma RescanIsExact(k: Cpu)
    requires Inv(k.w)
    ensures var s := ScanBuckets(k, BUCKETS);
      && Earliest(k, s.none, s.earliest)
      && (s.none ==> s.best == NO_NEXT)
      && (!s.none ==> 0 < s.best < TWO31 && s.best == s.earliest - k.w.ticks
                      && exists id :: ParkedHonoured(k, id) && k.w.co[id].time == s.earliest)
  {
    ScanBucketsIsMin(k, BUCKETS);
    var s := ScanBuckets(k, BUCKETS);
    forall id | ParkedHonoured(k, id) ensures !s.none && s.earliest <= k.w.co[id].time {
      ParkedIsAll(k, BUCKETS, id);
    }
    if !s.none {
      var id :| id in Parked(k, BUCKETS) && Attains(k, s, id);
      ParkedIsAll(k, BUCKETS, id);
      assert ParkedHonoured(k, id);
      ParkedIsAhead(k.w, id);
    }
  }

  lemma ParkedIsAhead(w: Wheel, id: Id)
    requires Inv(w) && exists b :: InBucket(w, b, id)
    ensures id in w.co && 0 < w.co[id].time - w.ticks < TWO31
  {
    var b :| InBucket(w, b, id);
    assert Pending(w, id);
    NextMoveIsNext(b, w.ticks);
  }

  /**
   * callout_next_ticks never answers more ticks than any honoured callout has left,
   * answers 0 when the worklist holds anything, and NO_NEXT or more only if nothing nearer is honoured.
   */
  lemma AnswerIsSafe(k: Cpu)
    requires CpuInv(k) && CacheFresh(k)
    ensures k.w.todo != [] ==> NextTicks(k).0 == 0
    ensures forall id :: ParkedHonoured(k, id) ==> NextTicks(k).0 <= k.w.co[id].time - k.w.ticks
    ensures k.w.todo == [] ==> NextTicks(k).0 > 0
    ensures CpuInv(NextTicks(k).1) && CacheFresh(NextTicks(k).1)
  {
    var (answer, k') := NextTicks(k);
    RescanIsExact(k);
    assert |k.w.buckets| == BUCKETS;
    forall id | ParkedHonoured(k, id) ensures answer <= k.w.co[id].time - k.w.ticks {
      ParkedIsAhead(k.w, id);
    }
    assert forall id :: ParkedHonoured(k', id) <==> ParkedHonoured(k, id);
  }

  /** Something is honoured, or the cache will not be used, or what it says is no longer than CALLOUT_NO_NEXT. */
  ghost predicate WithinScan(k: Cpu) {
    (exists id :: ParkedHonoured(k, id)) || k.nextGen != k.gen || k.nextNone || k.nextTime - k.w.ticks <= NO_NEXT
  }

  /** The answer is never more than a full scan would give, exactly in these cases. */
  lemma AnswerWithinScanIff(k: Cpu)
    requires CpuInv(k) && CacheFresh(k) && k.w.todo == []
    ensures |k.w.buckets| == BUCKETS
    ensures NextTicks(k).0 <= ScanBuckets(k, BUCKETS).best <==> WithinScan(k)
  {
    RescanIsExact(k);
    AnswerIsSafe(k);
  }

  // ------------------------------------------------- what keeps it that way

  /** The deadline being parked is less than 2^31 ticks after the cached one. */
  predicate NoteWindow(k: Cpu, c: Callout) {
    k.nextGen == k.gen && Honoured(k.policy, c) && !k.nextNone ==> c.time - k.nextTime < TWO31
  }

  predicate ParksNext(k: Cpu) {
    k.w.todo != [] && k.w.todo[0] in k.w.co && !RunsNext(k.w)
  }

  /** Which callouts are parked after a pass that parks the head of the worklist. */
  lemma PassParks(k: Cpu, id: Id)
    requires |k.w.buckets| == BUCKETS && ParksNext(k)
    ensures ParkedHonoured(SoftPass(k), id) <==>
      ParkedHonoured(k, id) || (id == k.w.todo[0] && Honoured(k.policy, k.w.co[id]))
  {
    var k' := SoftPass(k);
    var x := k.w.todo[0];
    var b := Bucket(Int32(k.w.co[x].time - k.w.ticks), k.w.co[x].time);
    assert k'.w.buckets[b] == k.w.buckets[b] + [x];
    if ParkedHonoured(k, id) {
      var b' :| InBucket(k.w, b', id);
      assert InBucket(k'.w, b', id);
    }
    if id == x { assert InBucket(k'.w, b, id); }
    if ParkedHonoured(k', id) && id != x {
      var b' :| InBucket(k'.w, b', id);
      assert InBucket(k.w, b', id);
    }
  }

  /**
   * Parking keeps the cache exact or early precisely when the new deadline is within 2^31 ticks
   * of the cached one, or is itself no later than every honoured one.
   */
  lemma NoteKeepsCacheIff(k: Cpu)
    requires CpuInv(k) && CacheFresh(k) && InWindow(k.w) && ParksNext(k)
    ensures CacheOk(SoftPass(k)) <==>
      || NoteWindow(k, k.w.co[k.w.todo[0]])
      || forall id :: ParkedHonoured(k, id) ==> k.w.co[k.w.todo[0]].time <= k.w.co[id].time
  {
    var x := k.w.todo[0];
    var c := k.w.co[x];
    var k' := SoftPass(k);
    assert x in k.w.todo;
    assert Pending(k.w, x);
    forall id ensures ParkedHonoured(k', id) <==> ParkedHonoured(k, id) || (id == x && Honoured(k.policy, c)) {
      PassParks(k, id);
    }
    assert k'.w.co == k.w.co;
    if k.nextGen == k.gen && !NoteWindow(k, c) {
      assert Int32(c.time - k.nextTime) < 0;
      assert k'.nextTime == c.time;
    }
  }

  // -------------------------------------------------------- every operation

  datatype CpuOp =
    | WheelOp(op: Op)               // schedule, stop, hardclock, softclock pass
    | SetDeferrableOp(id: Id, on: bool)
    | SetPolicyOp(on: bool)
    | NextTicksOp

  predicate CpuEnabled(k: Cpu, op: CpuOp) {
    match op
    case WheelOp(o) => Enabled(k.w, o)
    case SetDeferrableOp(id, _) => id in k.w.co
    case SetPolicyOp(_) => true
    case NextTicksOp => true
  }

  function CpuStep(k: Cpu, op: CpuOp): Cpu
    requires |k.w.buckets| == BUCKETS && (forall id :: id in k.w.todo ==> id in k.w.co) && CpuEnabled(k, op)
  {
    match op
    case WheelOp(OpSoftStep) => SoftPass(k)
    case WheelOp(o) => k.(w := Step(k.w, o))
    case SetDeferrableOp(id, on) => SetDeferrable(k, id, on)
    case SetPolicyOp(on) => SetPolicy(k, on)
    case NextTicksOp => NextTicks(k).1
  }

  /** What a state and its next operation need of each other; CalloutIdle derives it from the pace of a run. */
  ghost predicate TimeBound(k: Cpu, op: CpuOp) {
    && InWindow(k.w) && CacheFresh(k)
    && (op == WheelOp(OpSoftStep) && ParksNext(k) ==> NoteWindow(k, k.w.co[k.w.todo[0]]))
  }

  lemma RemovingKeepsEarliest(k: Cpu, k': Cpu)
    requires k'.policy == k.policy
    requires forall id :: ParkedHonoured(k', id) ==> ParkedHonoured(k, id) && k'.w.co[id].time >= k.w.co[id].time
    ensures Earliest(k, k.nextNone, k.nextTime) ==> Earliest(k', k.nextNone, k.nextTime)
  {
  }

  /** Scheduling, stopping and the tick never add a parked callout nor bring one forward. */
  lemma WheelOpParks(k: Cpu, o: Op, id: Id)
    requires Good(k.w) && Enabled(k.w, o) && o != OpSoftStep
    requires forall x :: x in k.w.todo ==> x in k.w.co
    requires ParkedHonoured(k.(w := Step(k.w, o)), id)
    ensures ParkedHonoured(k, id) && Step(k.w, o).co[id].time >= k.w.co[id].time
  {
    var w' := Step(k.w, o);
    var b :| InBucket(w', b, id);
    match o {
      case OpSchedule(x, to) =>
        assert InBucket(k.w, b, id);
        assert Pending(k.w, id);
        NextMoveIsNext(b, k.w.ticks);
      case OpStop(x) => assert InBucket(k.w, b, id);
      case OpHardclock =>
        HardclockEmpties(k.w);
        assert InBucket(k.w, b, id);
    }
  }

  lemma CpuStepKeepsInv(k: Cpu, op: CpuOp)
    requires CpuInv(k) && CpuEnabled(k, op) && TimeBound(k, op)
    ensures forall id :: id in k.w.todo ==> id in k.w.co
    ensures CpuInv(CpuStep(k, op))
  {
    forall id | id in k.w.todo ensures id in k.w.co { assert Pending(k.w, id); }
    match op {
      case WheelOp(o) =>
        StepKeepsInv(k.w, o);
        if o == OpSoftStep {
          SoftPassKeepsCache(k);
        } else {
          var k' := k.(w := Step(k.w, o));
          forall id | ParkedHonoured(k', id)
            ensures ParkedHonoured(k, id) && k'.w.co[id].time >= k.w.co[id].time
          {
            WheelOpParks(k, o, id);
          }
          RemovingKeepsEarliest(k, k');
          if o == OpHardclock { HardclockEmpties(k.w); }
        }
      case SetDeferrableOp(id, on) =>
        SetDeferrableKeepsInv(k, id, on);
      case SetPolicyOp(on) =>
      case NextTicksOp => AnswerIsSafe(k);
    }
  }

  lemma SoftPassKeepsCache(k: Cpu)
    requires CpuInv(k) && TimeBound(k, WheelOp(OpSoftStep)) && k.w.todo != []
    requires forall id :: id in k.w.todo ==> id in k.w.co
    ensures CacheOk(SoftPass(k))
  {
    if RunsNext(k.w) {
      var k' := SoftPass(k);
      assert Pending(k.w, k.w.todo[0]);
      forall id | ParkedHonoured(k', id)
        ensures ParkedHonoured(k, id) && k'.w.co[id].time >= k.w.co[id].time
      {
        var b :| InBucket(k'.w, b, id);
        assert InBucket(k.w, b, id);
      }
      RemovingKeepsEarliest(k, k');
    } else {
      NoteKeepsCacheIff(k);
    }
  }

  lemma SetDeferrablePlaces(k: Cpu, id: Id, on: bool)
    requires Placed(k.w) && id in k.w.co
    ensures Placed(SetDeferrable(k, id, on).w)
  {
    var k' := SetDeferrable(k, id, on);
    forall b, x | InBucket(k'.w, b, x) ensures InBucket(k.w, b, x) && Pending(k'.w, x) && x !in k'.w.todo {
      assert InBucket(k.w, b, x);
      assert Pending(k.w, x);
    }
    forall x | x in k'.w.todo ensures Pending(k'.w, x) { assert Pending(k.w, x); }
    forall x | Pending(k'.w, x) ensures Queued(k'.w, x) {
      assert Pending(k.w, x);
      assert Queued(k.w, x);
      if x !in k.w.todo {
        var b :| InBucket(k.w, b, x);
        assert InBucket(k'.w, b, x);
      }
    }
    Replaced(k.w, k'.w);
  }

  lemma SetDeferrableKeepsInv(k: Cpu, id: Id, on: bool)
    requires CpuInv(k) && id in k.w.co
    ensures CpuInv(SetDeferrable(k, id, on))
  {
    var k' := SetDeferrable(k, id, on);
    SetDeferrablePlaces(k, id, on);
    forall b, x | InBucket(k'.w, b, x) && x in k'.w.co ensures NextMove(b, k'.w.ticks) <= k'.w.co[x].time {
      assert InBucket(k.w, b, x);
    }
    assert Ahead(k'.w) by {
      forall x | Pending(k'.w, x) ensures k'.w.co[x].time - k'.w.ticks < TWO31 && !k'.w.co[x].fired {
        assert Pending(k.w, x);
      }
    }
    if on {
      forall x | ParkedHonoured(k', x) ensures ParkedHonoured(k, x) && k'.w.co[x].time >= k.w.co[x].time {
        var b :| InBucket(k'.w, b, x);
        assert InBucket(k.w, b, x);
      }
      RemovingKeepsEarliest(k, k');
    }
  }

  /** No cache yet: cc_next_gen is 0, the value no policy generation takes. */
  predicate CpuIdle(k: Cpu) { Idle(k.w) && k.nextGen == 0 && 1 <= k.gen }
}
