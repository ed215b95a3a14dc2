/**
 * Whole runs of a CPU's callouts and its idle entries: how long timeouts and how rare idle entries may be for
 * every answer of callout_next_ticks to be safe, and a run just beyond that.
 */
module CalloutIdle {
  import opened Words
  import opened Queues
  import opened CalloutWheel
  import opened CalloutRuns
  import opened CalloutCache

  ghost predicate CpuRun(ks: seq<Cpu>, ops: seq<CpuOp>) {
    && |ks| == |ops| + 1
    && (forall i :: 0 <= i < |ks| ==> |ks[i].w.buckets| == BUCKETS && (forall id :: id in ks[i].w.todo ==> id in ks[i].w.co))
    && (forall i :: 0 <= i < |ops| ==> CpuEnabled(ks[i], ops[i]) && ks[i + 1] == CpuStep(ks[i], ops[i]))
  }

  /** An idle entry that finds the worklist drained notes the tick. */
  function NextIdle(k: Cpu, op: CpuOp, idle: int): int { if op == NextTicksOp && k.w.todo == [] then k.w.ticks else idle }

  /** The tick of the last such idle entry before state i, or of the start. */
  function LastIdle(ks: seq<Cpu>, ops: seq<CpuOp>, i: nat): int
    requires i <= |ops| && |ks| == |ops| + 1
  {
    if i == 0 then ks[0].w.ticks else NextIdle(ks[i - 1], ops[i - 1], LastIdle(ks, ops, i - 1))
  }

  predicate ShortEnough(op: CpuOp, limit: nat) { op.WheelOp? && op.op.OpSchedule? ==> op.op.to <= limit }

  /** No timeout is longer than limit, and no more than gap ticks pass between idle entries that find the worklist drained. */
  ghost predicate Paced(ks: seq<Cpu>, ops: seq<CpuOp>, gap: nat, limit: nat)
    requires |ks| == |ops| + 1
  {
    && (forall i :: 0 <= i < |ops| ==> ShortEnough(ops[i], limit))
    && (forall i :: 0 <= i < |ks| ==> ks[i].w.ticks - LastIdle(ks, ops, i) <= gap)
  }

  // ---------------------------------------------------------------- invariant

  /** Since the last idle entry: nothing pending is older than it, and a valid cached deadline is after it. */
  ghost predicate PacedInv(k: Cpu, idle: int, limit: nat) {
    && CpuInv(k) && idle <= k.w.ticks
    && (forall id :: Pending(k.w, id) ==> idle <= k.w.co[id].time <= k.w.ticks + limit)
    && (k.nextGen == k.gen && !k.nextNone ==> idle < k.nextTime <= k.w.ticks + limit)
  }

  /** The pace gives what the operations need: the live window, a fresh cache, and parked deadlines that compare truly. */
  lemma PaceBounds(k: Cpu, op: CpuOp, idle: int, gap: nat, limit: nat)
    requires PacedInv(k, idle, limit) && k.w.ticks - idle <= gap && gap + limit <= TWO31
    ensures TimeBound(k, op)
  {
    if ParksNext(k) {
      assert k.w.todo[0] in k.w.todo;
      assert Pending(k.w, k.w.todo[0]);
    }
  }

  lemma PacedStepKeeps(k: Cpu, op: CpuOp, idle: int, gap: nat, limit: nat)
    requires PacedInv(k, idle, limit) && CpuEnabled(k, op) && ShortEnough(op, limit)
    requires k.w.ticks - idle <= gap && gap + limit <= TWO31
    ensures forall id :: id in k.w.todo ==> id in k.w.co
    ensures PacedInv(CpuStep(k, op), NextIdle(k, op, idle), limit)
  {
    PaceBounds(k, op, idle, gap, limit);
    CpuStepKeepsInv(k, op);
    PendingPaced(k, op, idle, limit);
    CachePaced(k, op, idle, limit);
  }

  lemma PendingPaced(k: Cpu, op: CpuOp, idle: int, limit: nat)
    requires PacedInv(k, idle, limit) && CpuEnabled(k, op) && ShortEnough(op, limit) && TimeBound(k, op)
    requires forall id :: id in k.w.todo ==> id in k.w.co
    ensures var k' := CpuStep(k, op); var idle' := NextIdle(k, op, idle);
      && idle' <= k'.w.ticks
      && forall id :: Pending(k'.w, id) ==> idle' <= k'.w.co[id].time <= k'.w.ticks + limit
  {
    var k' := CpuStep(k, op);
    assert k'.w.ticks >= k.w.ticks by { PendingFrom(k, op, 0); }
    forall id | Pending(k'.w, id)
      ensures NextIdle(k, op, idle) <= k'.w.co[id].time <= k'.w.ticks + limit
    {
      PendingFrom(k, op, id);
      if op == NextTicksOp && k.w.todo == [] { DrainedMeansNoneDue(k.w, id); }
    }
  }

  /** What is pending was so before, with the same time, or has just been scheduled. */
  lemma PendingFrom(k: Cpu, op: CpuOp, id: Id)
    requires |k.w.buckets| == BUCKETS && (forall x :: x in k.w.todo ==> x in k.w.co) && CpuEnabled(k, op)
    ensures CpuStep(k, op).w.ticks == k.w.ticks + if op == WheelOp(OpHardclock) then 1 else 0
    ensures Pending(CpuStep(k, op).w, id) ==>
      if op.WheelOp? && op.op.OpSchedule? && op.op.id == id then CpuStep(k, op).w.co[id].time == k.w.ticks + op.op.to
      else Pending(k.w, id) && CpuStep(k, op).w.co[id].time == k.w.co[id].time
  {
    if op == WheelOp(OpHardclock) { HardclockEmpties(k.w); }
  }

  lemma CachePaced(k: Cpu, op: CpuOp, idle: int, limit: nat)
    requires PacedInv(k, idle, limit) && CpuEnabled(k, op) && TimeBound(k, op)
    requires forall id :: id in k.w.todo ==> id in k.w.co
    ensures var k' := CpuStep(k, op); k'.nextGen == k'.gen && !k'.nextNone ==> NextIdle(k, op, idle) < k'.nextTime <= k'.w.ticks + limit
  {
    if op == WheelOp(OpHardclock) {
      HardclockEmpties(k.w);
    } else if op == WheelOp(OpSoftStep) {
      assert k.w.todo[0] in k.w.todo;
      assert Pending(k.w, k.w.todo[0]);
    } else if op == NextTicksOp {
      RescanIsExact(k);
      if !ScanBuckets(k, BUCKETS).none {
        var id :| ParkedHonoured(k, id) && k.w.co[id].time == ScanBuckets(k, BUCKETS).earliest;
        var b :| InBucket(k.w, b, id);
        assert Pending(k.w, id);
      }
    }
  }

  lemma {:induction false} PacedAt(ks: seq<Cpu>, ops: seq<CpuOp>, gap: nat, limit: nat, i: nat)
    requires CpuRun(ks, ops) && CpuIdle(ks[0]) && Paced(ks, ops, gap, limit) && gap + limit <= TWO31 && i <= |ops|
    ensures PacedInv(ks[i], LastIdle(ks, ops, i), limit)
  {
    if i > 0 {
      PacedAt(ks, ops, gap, limit, i - 1);
      hide PacedInv, CpuStep, CpuEnabled, CpuIdle, NextIdle, ShortEnough;
      assert ks[i - 1 + 1] == CpuStep(ks[i - 1], ops[i - 1]);
      PacedStepKeeps(ks[i - 1], ops[i - 1], LastIdle(ks, ops, i - 1), gap, limit);
    }
  }

  /** At every idle entry of the run the answer is no more ticks than any honoured callout has left. */
  ghost predicate Safe(ks: seq<Cpu>, ops: seq<CpuOp>)
    requires |ks| == |ops| + 1
  {
    && (forall i, id :: 0 <= i < |ops| && ops[i] == NextTicksOp && ParkedHonoured(ks[i], id) ==>
          NextTicks(ks[i]).0 <= ks[i].w.co[id].time - ks[i].w.ticks)
    && (forall i :: 0 <= i < |ops| && ops[i] == NextTicksOp && ks[i].w.todo != [] ==> NextTicks(ks[i]).0 == 0)
  }

  /** At every drained idle entry of the run the answer is no more than a full scan would give. */
  ghost predicate NeverMoreThanScan(ks: seq<Cpu>, ops: seq<CpuOp>)
    requires |ks| == |ops| + 1
  {
    forall i :: 0 <= i < |ops| && ops[i] == NextTicksOp && ks[i].w.todo == [] && |ks[i].w.buckets| == BUCKETS ==>
      NextTicks(ks[i]).0 <= ScanBuckets(ks[i], BUCKETS).best
  }

  /**
   * Over every run of scheduling, stopping, ticking, draining, marking, policy changes and idle entries from an
   * idle CPU, each idle entry is answered with no more ticks than any honoured callout has left, provided that the
   * longest timeout and the longest time between drained idle entries together stay within 2^31 ticks. And it is
   * answered with no more than a full scan would give exactly where WithinScan holds.
   */
  lemma EveryIdleEntryIsSafe(ks: seq<Cpu>, ops: seq<CpuOp>, gap: nat, limit: nat)
    requires CpuRun(ks, ops) && CpuIdle(ks[0]) && Paced(ks, ops, gap, limit) && gap + limit <= TWO31
    ensures forall i :: 0 <= i < |ks| ==> CpuInv(ks[i])
    ensures Safe(ks, ops)
    ensures forall i :: 0 <= i < |ops| && ops[i] == NextTicksOp && ks[i].w.todo == [] ==>
      (NextTicks(ks[i]).0 <= ScanBuckets(ks[i], BUCKETS).best <==> WithinScan(ks[i]))
    ensures limit <= NO_NEXT ==> NeverMoreThanScan(ks, ops)
  {
    hide NextTicks, CpuStep, CpuEnabled, CpuIdle, NextIdle, ShortEnough, LastIdle, ScanBuckets;
    forall i | 0 <= i < |ks| ensures CpuInv(ks[i]) {
      PacedAt(ks, ops, gap, limit, i);
    }
    forall i | 0 <= i < |ops|
      ensures forall id :: ParkedHonoured(ks[i], id) ==> NextTicks(ks[i]).0 <= ks[i].w.co[id].time - ks[i].w.ticks
      ensures ks[i].w.todo != [] ==> NextTicks(ks[i]).0 == 0
      ensures ks[i].w.todo == [] ==> (NextTicks(ks[i]).0 <= ScanBuckets(ks[i], BUCKETS).best <==> WithinScan(ks[i]))
      ensures limit <= NO_NEXT ==> WithinScan(ks[i])
    {
      PacedAt(ks, ops, gap, limit, i);
      PaceBounds(ks[i], NextTicksOp, LastIdle(ks, ops, i), gap, limit);
      AnswerIsSafe(ks[i]);
      if ks[i].w.todo == [] { AnswerWithinScanIff(ks[i]); }
    }
  }

  // ----------------------------------------------- the bounds cannot be relaxed

  const OFF: Callout := Callout(0, false, false, false, false)

  function On(time: int): Callout { OFF.(time := time, pending := true) }

  function Empty(): seq<seq<Id>> { seq(BUCKETS, _ => []) }

  function At(ticks: int, todo: seq<Id>, buckets: seq<seq<Id>>, c1: Callout, c2: Callout, c3: Callout, nextGen: nat, nextTime: int): Cpu {
    Cpu(Wheel(ticks, todo, buckets, map[1 := c1, 2 := c2, 3 := c3]), nextGen, false, nextTime, true, 1)
  }

  predicate Shaped(k: Cpu) { |k.w.buckets| == BUCKETS && forall id :: id in k.w.todo ==> id in k.w.co }

  /** From an idle CPU: callout 3 is scheduled, parked, cached by an idle entry, and stopped. */
  function Head(to: int, i: nat): Cpu {
    if i == 0 then At(0, [], Empty(), OFF, OFF, OFF, 0, 0)
    else if i == 1 then At(0, [3], Empty(), OFF, OFF, On(to), 0, 0)
    else if i == 2 then At(0, [], Empty()[Bucket(to, to) := [3]], OFF, OFF, On(to), 0, 0)
    else if i == 3 then At(0, [], Empty()[Bucket(to, to) := [3]], OFF, OFF, On(to), 1, to)
    else At(0, [], Empty(), OFF, OFF, On(to).(pending := false), 1, to)
  }

  function HeadOp(to: int, i: nat): CpuOp {
    if i == 0 then WheelOp(OpSchedule(3, to)) else if i == 1 then WheelOp(OpSoftStep) else if i == 2 then NextTicksOp else WheelOp(OpStop(3))
  }

  lemma HeadShaped(to: int, i: nat)
    requires 0 < to < TWO31
    ensures Shaped(Head(to, i)) && (i < 4 ==> CpuEnabled(Head(to, i), HeadOp(to, i)))
  {
    hide Bucket;
  }

  lemma HeadStarts(to: int)
    requires 0 < to < TWO31
    ensures Shaped(Head(to, 0)) && Shaped(Head(to, 1)) && CpuIdle(Head(to, 0)) && Inv(Head(to, 0).w)
    ensures CpuStep(Head(to, 0), HeadOp(to, 0)) == Head(to, 1) && CpuStep(Head(to, 1), HeadOp(to, 1)) == Head(to, 2)
  {
    hide Bucket;
    HeadShaped(to, 0);
    HeadShaped(to, 1);
    var b := Bucket(to, to);
    assert Empty()[b] + [3] == [3] && [3][1..] == [];
  }

  lemma HeadInv(to: int)
    requires 0 < to < TWO31
    ensures Inv(Head(to, 2).w)
  {
    HeadStarts(to);
    HeadShaped(to, 0);
    var w0, w1 := Head(to, 0).w, Head(to, 1).w;
    assert Good(w0) && InWindow(w1) && w1.todo != [];
    assert w1 == Step(w0, OpSchedule(3, to)) && Head(to, 2).w == Step(w1, OpSoftStep);
    hide Inv, Head, Step;
    StepKeepsInv(w0, OpSchedule(3, to));
    StepKeepsInv(w1, OpSoftStep);
  }

  lemma HeadParks(to: int, id: Id)
    requires 0 < to < TWO31
    ensures ParkedHonoured(Head(to, 2), id) <==> id == 3
  {
    hide Bucket;
    var k, b := Head(to, 2), Bucket(to, to);
    assert InBucket(k.w, b, 3);
    assert forall c, x :: InBucket(k.w, c, x) ==> x == 3;
  }

  lemma HeadCaches(to: int)
    requires 0 < to < TWO31
    ensures Shaped(Head(to, 2)) && CpuStep(Head(to, 2), HeadOp(to, 2)) == Head(to, 3)
  {
    var k := Head(to, 2);
    HeadShaped(to, 2);
    HeadInv(to);
    forall id ensures ParkedHonoured(k, id) <==> id == 3 { HeadParks(to, id); }
    assert k.w.co[3].time == to && k.w.ticks == 0 && k.w.todo == [] && k.nextGen == 0 && k.gen == 1;
    assert Head(to, 3) == k.(nextGen := 1, nextTime := to) && !k.nextNone;
    hide Head, Inv, ParkedHonoured, ScanBuckets;
    RescanIsExact(k);
  }

  lemma HeadStops(to: int)
    requires 0 < to < TWO31
    ensures Shaped(Head(to, 3)) && CpuStep(Head(to, 3), HeadOp(to, 3)) == Head(to, 4) && Inv(Head(to, 4).w)
  {
    hide Bucket;
    HeadShaped(to, 3);
    var w := Head(to, 3).w;
    assert w == Head(to, 2).w;
    assert Without([3], 3) == [];
    assert Unlink(w, 3).buckets == Empty();
    assert Stop(w, 3) == Head(to, 4).w;
    HeadInv(to);
    hide Inv, Head;
    StopKeepsInv(w, 3);
  }

  lemma HeadStep(to: int, i: nat)
    requires 0 < to < TWO31 && i < 4
    ensures Shaped(Head(to, i)) && CpuEnabled(Head(to, i), HeadOp(to, i)) && Head(to, i + 1) == CpuStep(Head(to, i), HeadOp(to, i))
  {
    HeadShaped(to, i);
    if i < 2 { HeadStarts(to); } else if i == 2 { HeadCaches(to); } else { HeadStops(to); }
    hide Head, CpuStep, CpuEnabled, Shaped, Inv;
  }

  lemma {:induction false} IdleAtZero(ks: seq<Cpu>, ops: seq<CpuOp>, i: nat)
    requires |ks| == |ops| + 1 && i <= |ops| && ks[0].w.ticks == 0
    requires forall j :: 0 <= j < i && ops[j] == NextTicksOp ==> ks[j].w.ticks == 0
    ensures LastIdle(ks, ops, i) == 0
  {
    if i > 0 { IdleAtZero(ks, ops, i - 1); }
  }

  // -------------------------------------- one tick more, and the cache is late

  /** Callout 3 is cached for tick 1 and stopped; gap ticks later callout 1 is scheduled for 1 tick and callout 2 for limit. */
  function LateState(gap: nat, limit: int, i: nat): Cpu {
    var gone := On(1).(pending := false);
    var one := Empty()[Bucket(1, gap + 1) := [1]];
    var two := Bucket(limit, gap + limit);
    if i < 4 then Head(1, i)
    else if i <= gap + 4 then At(i - 4, [], Empty(), OFF, OFF, gone, 1, 1)
    else if i == gap + 5 then At(gap, [1], Empty(), On(gap + 1), OFF, gone, 1, 1)
    else if i == gap + 6 then At(gap, [1, 2], Empty(), On(gap + 1), On(gap + limit), gone, 1, 1)
    else if i == gap + 7 then At(gap, [2], one, On(gap + 1), On(gap + limit), gone, 1, 1)
    else At(gap, [], one[two := one[two] + [2]], On(gap + 1), On(gap + limit), gone, 1, gap + limit)
  }

  function LateOp(gap: nat, limit: int, i: nat): CpuOp {
    if i < 4 then HeadOp(1, i)
    else if i < gap + 4 then WheelOp(OpHardclock)
    else if i == gap + 4 then WheelOp(OpSchedule(1, 1))
    else if i == gap + 5 then WheelOp(OpSchedule(2, limit))
    else if i < gap + 8 then WheelOp(OpSoftStep)
    else NextTicksOp
  }

  lemma LateShaped(gap: nat, limit: int, i: nat)
    requires 2 <= gap && 2 <= limit && gap + limit == TWO31 + 1
    ensures var k := LateState(gap, limit, i);
      && Shaped(k) && CpuEnabled(k, LateOp(gap, limit, i)) && ShortEnough(LateOp(gap, limit, i), limit)
      && 0 <= k.w.ticks <= gap && (LateOp(gap, limit, i) == NextTicksOp && i < gap + 8 ==> k.w.ticks == 0)
  {
    HeadShaped(1, i);
    hide Bucket;
  }

  /** A tick on an empty wheel only moves the clock. */
  lemma EmptyTick(gap: nat, limit: int, i: nat)
    requires 4 <= i < gap + 4
    ensures Shaped(LateState(gap, limit, i))
    ensures CpuStep(LateState(gap, limit, i), WheelOp(OpHardclock)) == LateState(gap, limit, i + 1)
  {
    hide Bucket, MaskWheel;
    var k := LateState(gap, limit, i);
    assert k.w.buckets == Empty() && k.w.todo == [];
    var w := k.w.(ticks := k.w.ticks + 1);
    assert forall level: nat :: level < 4 ==> MoveBucket(w, level) == w by { EmptyMoves(w); }
    hide MoveBucket;
  }

  lemma EmptyMoves(w: Wheel)
    requires w.buckets == Empty() && w.todo == []
    ensures forall level: nat :: level < 4 ==> MoveBucket(w, level) == w
  {
    forall level: nat | level < 4 ensures MoveBucket(w, level) == w {
      var i := MaskWheel(level, w.ticks) + level * WHEELSIZE;
      assert w.buckets[i := []] == w.buckets && [] + w.buckets[i] == w.todo;
    }
  }

  lemma LateSchedules(gap: nat, limit: int)
    requires 2 <= gap && 2 <= limit && gap + limit == TWO31 + 1
    ensures Shaped(LateState(gap, limit, gap + 4)) && Shaped(LateState(gap, limit, gap + 5))
    ensures CpuStep(LateState(gap, limit, gap + 4), WheelOp(OpSchedule(1, 1))) == LateState(gap, limit, gap + 5)
    ensures CpuStep(LateState(gap, limit, gap + 5), WheelOp(OpSchedule(2, limit))) == LateState(gap, limit, gap + 6)
  {
    hide Bucket;
    LateShaped(gap, limit, gap + 4);
    LateShaped(gap, limit, gap + 5);
    assert [] + [1] == [1] && [1] + [2] == [1, 2];
  }

  /** The short timeout is parked after the cached deadline; the long one compares as earlier and replaces it. */
  lemma LateParks(gap: nat, limit: int)
    requires 2 <= gap && 2 <= limit && gap + limit == TWO31 + 1
    ensures Shaped(LateState(gap, limit, gap + 6)) && Shaped(LateState(gap, limit, gap + 7))
    ensures CpuStep(LateState(gap, limit, gap + 6), WheelOp(OpSoftStep)) == LateState(gap, limit, gap + 7)
    ensures CpuStep(LateState(gap, limit, gap + 7), WheelOp(OpSoftStep)) == LateState(gap, limit, gap + 8)
  {
    hide Bucket;
    LateShaped(gap, limit, gap + 6);
    LateShaped(gap, limit, gap + 7);
    var b := Bucket(1, gap + 1);
    assert Empty()[b] + [1] == [1] && [1, 2][1..] == [2] && [2][1..] == [];
  }

  lemma LateStep(gap: nat, limit: int, i: nat)
    requires 2 <= gap && 2 <= limit && gap + limit == TWO31 + 1 && i < gap + 8
    ensures Shaped(LateState(gap, limit, i)) && CpuEnabled(LateState(gap, limit, i), LateOp(gap, limit, i))
    ensures LateState(gap, limit, i + 1) == CpuStep(LateState(gap, limit, i), LateOp(gap, limit, i))
  {
    LateShaped(gap, limit, i);
    assert LateState(gap, limit, 4) == Head(1, 4);
    if i < 4 { HeadStep(1, i); } else if i < gap + 4 { EmptyTick(gap, limit, i); }
    else if i < gap + 6 { LateSchedules(gap, limit); } else { LateParks(gap, limit); }
    hide Head, CpuStep, CpuEnabled, Shaped, Empty, Bucket;
  }

  /** The idle entry at the end is told to sleep past the callout that has one tick left. */
  lemma LateAnswer(gap: nat, limit: int)
    requires 2 <= gap && 2 <= limit && gap + limit == TWO31 + 1
    ensures var k := LateState(gap, limit, gap + 8); ParkedHonoured(k, 1) && k.w.co[1].time - k.w.ticks == 1 && NextTicks(k).0 == limit
  {
    hide Bucket;
    var k := LateState(gap, limit, gap + 8);
    assert InBucket(k.w, Bucket(1, gap + 1), 1);
    hide ScanBuckets;
  }

  function LateKs(gap: nat, limit: int): seq<Cpu> {
    seq(gap + 9, i requires 0 <= i < gap + 9 => LateState(gap, limit, i)) + [NextTicks(LateState(gap, limit, gap + 8)).1]
  }

  function LateOps(gap: nat, limit: int): seq<CpuOp> { seq(gap + 9, i requires 0 <= i < gap + 9 => LateOp(gap, limit, i)) }

  lemma LateRun(gap: nat, limit: nat)
    requires 2 <= gap && 2 <= limit && gap + limit == TWO31 + 1
    ensures CpuRun(LateKs(gap, limit), LateOps(gap, limit))
  {
    hide LateState, CpuEnabled, ShortEnough, NextTicks;
    var ks, ops := LateKs(gap, limit), LateOps(gap, limit);
    forall i | 0 <= i < gap + 9 ensures Shaped(ks[i]) { LateShaped(gap, limit, i); }
    LateShaped(gap, limit, gap + 8);
    NextTicksShape(LateState(gap, limit, gap + 8));
    forall i | 0 <= i < gap + 9 ensures CpuEnabled(ks[i], ops[i]) && ks[i + 1] == CpuStep(ks[i], ops[i]) {
      LateShaped(gap, limit, i);
      if i < gap + 8 { LateStep(gap, limit, i); }
    }
  }

  lemma NextTicksShape(k: Cpu)
    ensures NextTicks(k).1.w == k.w
  {
    hide ScanBuckets;
  }

  lemma LatePaced(gap: nat, limit: nat)
    requires 2 <= gap && 2 <= limit && gap + limit == TWO31 + 1
    ensures Paced(LateKs(gap, limit), LateOps(gap, limit), gap, limit)
  {
    var ks, ops := LateKs(gap, limit), LateOps(gap, limit);
    assert LateState(gap, limit, 0).w.ticks == 0;
    NextTicksShape(LateState(gap, limit, gap + 8));
    hide LateState, LateOp, ShortEnough, LastIdle, NextTicks;
    forall i | 0 <= i < gap + 9 ensures ShortEnough(ops[i], limit) && (ops[i] == NextTicksOp && i < gap + 8 ==> ks[i].w.ticks == 0) { LateShaped(gap, limit, i); }
    forall i | 0 <= i < |ks| ensures ks[i].w.ticks - LastIdle(ks, ops, i) <= gap {
      LateShaped(gap, limit, if i < gap + 9 then i else gap + 8);
      LateLastIdle(gap, limit, ks, ops, i);
    }
  }

  lemma LateLastIdle(gap: nat, limit: nat, ks: seq<Cpu>, ops: seq<CpuOp>, i: nat)
    requires |ops| == gap + 9 && |ks| == gap + 10 && i < |ks| && ks[0].w.ticks == 0 && 0 <= ks[gap + 8].w.ticks
    requires forall j :: 0 <= j < gap + 8 && ops[j] == NextTicksOp ==> ks[j].w.ticks == 0
    ensures LastIdle(ks, ops, i) >= 0
  {
    if i < gap + 9 { IdleAtZero(ks, ops, i); } else { IdleAtZero(ks, ops, gap + 8); }
  }

  /**
   * One tick more makes the cache late, however it is divided: for all gap and limit of at least 2 with
   * gap + limit == 2^31 + 1 this run from an idle CPU keeps to them, and its last idle entry is answered limit ticks
   * while a callout has one left.
   */
  lemma LongTimeoutMakesCacheLate(gap: nat, limit: nat)
    requires 2 <= gap && 2 <= limit && gap + limit == TWO31 + 1
    ensures var ks, ops := LateKs(gap, limit), LateOps(gap, limit);
      |ks| == |ops| + 1 && PacedRun(ks, ops, gap, limit) && !Safe(ks, ops)
  {
    LateRun(gap, limit);
    LatePaced(gap, limit);
    HeadStarts(1);
    LateIs(gap, limit);
    LateUnsafe(gap, limit);
    hide CpuRun, Paced, CpuIdle, LateKs, LateOps, Safe, Head, Inv;
  }

  lemma LateIs(gap: nat, limit: int)
    ensures |LateKs(gap, limit)| == gap + 10 && |LateOps(gap, limit)| == gap + 9
    ensures LateKs(gap, limit)[0] == Head(1, 0) && LateKs(gap, limit)[gap + 8] == LateState(gap, limit, gap + 8)
    ensures LateOps(gap, limit)[gap + 8] == NextTicksOp
  {
    hide NextTicks, Head;
  }

  lemma LateUnsafe(gap: nat, limit: int)
    requires 2 <= gap && 2 <= limit && gap + limit == TWO31 + 1
    ensures |LateKs(gap, limit)| == |LateOps(gap, limit)| + 1 && !Safe(LateKs(gap, limit), LateOps(gap, limit))
  {
    LateAnswer(gap, limit);
    LateIs(gap, limit);
    hide LateKs, LateOps, LateState, NextTicks, Head;
    assert ParkedHonoured(LateKs(gap, limit)[gap + 8], 1);
  }

  /** A run from an idle CPU that keeps to gap and limit. */
  ghost predicate PacedRun(ks: seq<Cpu>, ops: seq<CpuOp>, gap: nat, limit: nat)
    requires |ks| == |ops| + 1
  {
    CpuRun(ks, ops) && CpuIdle(ks[0]) && Paced(ks, ops, gap, limit)
  }

  /** Every such run is safe. */
  ghost predicate SafePace(gap: nat, limit: nat) {
    forall ks, ops :: |ks| == |ops| + 1 && PacedRun(ks, ops, gap, limit) ==> Safe(ks, ops)
  }

  lemma PacedMore(ks: seq<Cpu>, ops: seq<CpuOp>, g: nat, l: nat, gap: nat, limit: nat)
    requires |ks| == |ops| + 1 && PacedRun(ks, ops, g, l) && g <= gap && l <= limit
    ensures PacedRun(ks, ops, gap, limit)
  {
    hide LastIdle, CpuRun, CpuIdle, ShortEnough;
    forall i | 0 <= i < |ops| ensures ShortEnough(ops[i], limit) { LooserLimit(ops[i], l, limit); }
  }

  lemma LooserLimit(op: CpuOp, l: nat, limit: nat)
    requires ShortEnough(op, l) && l <= limit
    ensures ShortEnough(op, limit)
  {
  }

  /** The bound is exact. */
  lemma PaceBoundIsExact(gap: nat, limit: nat)
    requires 2 <= gap && 2 <= limit
    ensures SafePace(gap, limit) <==> gap + limit <= TWO31
  {
    hide Safe, Paced, CpuRun, CpuIdle;
    if gap + limit <= TWO31 {
      forall ks, ops | |ks| == |ops| + 1 && PacedRun(ks, ops, gap, limit) ensures Safe(ks, ops) {
        EveryIdleEntryIsSafe(ks, ops, gap, limit);
      }
    } else {
      var g := if gap < TWO31 then gap else TWO31 - 1;
      var l := TWO31 + 1 - g;
      LongTimeoutMakesCacheLate(g, l);
      PacedMore(LateKs(g, l), LateOps(g, l), g, l, gap, limit);
    }
  }

  // ------------------------------------ an answer of more than a full scan's

  const FAR: int := NO_NEXT + 1

  function FarKs(): seq<Cpu> { seq(5, i requires 0 <= i < 5 => Head(FAR, i)) + [NextTicks(Head(FAR, 4)).1] }

  function FarOps(): seq<CpuOp> { seq(5, i requires 0 <= i < 5 => if i < 4 then HeadOp(FAR, i) else NextTicksOp) }

  /** The cached deadline is that of a callout since stopped: the answer is what it had left, but nothing is parked. */
  lemma FarAnswer()
    ensures |Head(FAR, 4).w.buckets| == BUCKETS && Head(FAR, 4).w.todo == []
    ensures NextTicks(Head(FAR, 4)).0 == FAR && ScanBuckets(Head(FAR, 4), BUCKETS).best == NO_NEXT
  {
    var k := Head(FAR, 4);
    HeadStops(FAR);
    assert forall b, x :: !InBucket(k.w, b, x);
    assert k.w.buckets == Empty() && k.w.todo == [] && k.nextGen == k.gen && !k.nextNone && k.nextTime == FAR && k.w.ticks == 0;
    hide Head, Inv, ScanBuckets, Empty, InBucket;
    RescanIsExact(k);
    assert Int32(FAR) == FAR;
  }

  lemma FarTicks(i: nat)
    requires i < 6
    ensures Shaped(FarKs()[i]) && FarKs()[i].w.ticks == 0
    ensures i < 5 ==> CpuEnabled(FarKs()[i], FarOps()[i]) && ShortEnough(FarOps()[i], FAR)
  {
    HeadShaped(FAR, if i < 5 then i else 4);
    NextTicksShape(Head(FAR, 4));
  }

  lemma FarSteps()
    ensures CpuRun(FarKs(), FarOps())
  {
    hide Head, CpuEnabled, NextTicks, Inv, Shaped;
    var ks, ops := FarKs(), FarOps();
    forall i | 0 <= i < 6 ensures |ks[i].w.buckets| == BUCKETS && forall id :: id in ks[i].w.todo ==> id in ks[i].w.co { FarTicks(i); ShapedIs(ks[i]); }
    forall i | 0 <= i < 5 ensures CpuEnabled(ks[i], ops[i]) && ks[i + 1] == CpuStep(ks[i], ops[i]) {
      FarTicks(i);
      if i < 4 { HeadStep(FAR, i); }
    }
  }

  lemma ShapedIs(k: Cpu)
    requires Shaped(k)
    ensures |k.w.buckets| == BUCKETS && forall id :: id in k.w.todo ==> id in k.w.co
  {
  }

  lemma FarRun()
    ensures PacedRun(FarKs(), FarOps(), 0, FAR)
  {
    hide Head, CpuEnabled, NextTicks, Inv, Shaped, CpuRun, CpuIdle, CpuStep, ShortEnough, LastIdle;
    var ks, ops := FarKs(), FarOps();
    FarSteps();
    HeadStarts(FAR);
    forall i | 0 <= i < 6 ensures ks[i].w.ticks == 0 && (i < 5 ==> ShortEnough(ops[i], FAR)) { FarTicks(i); }
    forall i | 0 <= i < 6 ensures ks[i].w.ticks - LastIdle(ks, ops, i) <= 0 { IdleAtZero(ks, ops, i); }
  }

  /** Every run that keeps to gap and limit answers no more than a full scan. */
  ghost predicate ScanPace(gap: nat, limit: nat) {
    forall ks, ops :: |ks| == |ops| + 1 && PacedRun(ks, ops, gap, limit) ==> NeverMoreThanScan(ks, ops)
  }

  /**
   * An exact or early cache should never answer more than a full scan. That holds of every run if and only if no
   * timeout is longer than CALLOUT_NO_NEXT: a longer one, scheduled, cached and stopped, leaves an answer of more.
   */
  lemma ScanBoundIsExact(gap: nat, limit: nat)
    requires gap + limit <= TWO31
    ensures ScanPace(gap, limit) <==> limit <= NO_NEXT
  {
    hide NeverMoreThanScan, Paced, CpuRun, CpuIdle;
    if limit <= NO_NEXT {
      forall ks, ops | |ks| == |ops| + 1 && PacedRun(ks, ops, gap, limit) ensures NeverMoreThanScan(ks, ops) {
        EveryIdleEntryIsSafe(ks, ops, gap, limit);
      }
    } else {
      FarRun();
      PacedMore(FarKs(), FarOps(), 0, FAR, gap, limit);
      FarBreaks();
    }
  }

  lemma FarBreaks()
    ensures !NeverMoreThanScan(FarKs(), FarOps())
  {
    FarAnswer();
    var ks, ops := FarKs(), FarOps();
    hide Head, NextTicks, ScanBuckets;
    assert ks[4] == Head(FAR, 4) && ops[4] == NextTicksOp;
  }
}
