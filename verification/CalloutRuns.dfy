/**
 * Every operation keeps the wheel's invariant, and every run of operations on
 * the wheel is a run of a plain set of (callout, time) pairs.
 */
module CalloutRuns {
  import opened Words
  import opened Queues
  import opened CalloutWheel

  // --------------------------------------------------- each step keeps Inv

  lemma UnlinkPlaces(w: Wheel, id: Id)
    requires Placed(w)
    ensures var u := Unlink(w, id);
      && |u.buckets| == BUCKETS && NoDups(u.todo)
      && (forall b :: 0 <= b < BUCKETS ==> NoDups(u.buckets[b]))
      && (forall b, x :: InBucket(u, b, x) <==> InBucket(w, b, x) && x != id)
  {
    WithoutNoDups(w.todo, id);
    forall b | 0 <= b < BUCKETS ensures NoDups(Without(w.buckets[b], id)) {
      WithoutNoDups(w.buckets[b], id);
    }
  }

  /**
   * Reshuffling: if the queues of s are duplicate-free, its buckets hold nothing new, and
   * everything pending is queued, then s is well placed.
   */
  lemma Replaced(w: Wheel, s: Wheel)
    requires Placed(w)
    requires |s.buckets| == BUCKETS && NoDups(s.todo) && forall b :: 0 <= b < BUCKETS ==> NoDups(s.buckets[b])
    requires forall b, x :: InBucket(s, b, x) ==> InBucket(w, b, x) && Pending(s, x) && x !in s.todo
    requires forall x :: x in s.todo ==> Pending(s, x)
    requires forall x :: Pending(s, x) ==> Queued(s, x)
    ensures Placed(s)
  {
  }

  /** Scheduling keeps every callout on exactly one queue. */
  lemma SchedulePlaces(w: Wheel, id: Id, abs: int)
    requires Placed(w) && id in w.co
    ensures Placed(Schedule(w, id, abs))
  {
    var c := w.co[id];
    var s := Schedule(w, id, abs);
    if c.pending && Int32(abs - c.time) < 0 {
      UnlinkPlaces(w, id);
      NoDupsConcat(Unlink(w, id).todo, [id]);
      assert forall b :: InBucket(s, b, id) <==> InBucket(Unlink(w, id), b, id);
    } else if !c.pending {
      NoDupsConcat(w.todo, [id]);
    }
    forall b, x | InBucket(s, b, x) ensures InBucket(w, b, x) && Pending(s, x) && x !in s.todo {
      assert InBucket(w, b, x);
    }
    forall x | x in s.todo ensures Pending(s, x) {
      if x != id { assert x in w.todo; }
    }
    forall x | Pending(s, x) ensures Queued(s, x) {
      SchedulePlacesOne(w, id, abs, x);
    }
    Replaced(w, s);
  }

  lemma SchedulePlacesOne(w: Wheel, id: Id, abs: int, x: Id)
    requires Placed(w) && id in w.co && Pending(Schedule(w, id, abs), x)
    ensures Queued(Schedule(w, id, abs), x)
  {
    var s := Schedule(w, id, abs);
    if x in s.todo {
    } else {
      assert Pending(w, x);
      assert Queued(w, x);
      if x !in w.todo {
        var b :| InBucket(w, b, x);
        assert InBucket(s, b, x);
      }
    }
  }

  /** Scheduling keeps the invariant: postponing in place leaves a bucket that still moves in time. */
  lemma ScheduleKeepsInv(w: Wheel, id: Id, abs: int)
    requires Inv(w) && id in w.co
    requires w.ticks <= abs < w.ticks + TWO31
    ensures Inv(Schedule(w, id, abs))
  {
    var s := Schedule(w, id, abs);
    SchedulePlaces(w, id, abs);
    forall b, x | InBucket(s, b, x) && x in s.co ensures NextMove(b, s.ticks) <= s.co[x].time {
      NextMoveIsNext(b, w.ticks);
      assert InBucket(w, b, x);
    }
    forall x | Pending(s, x) ensures s.co[x].time - s.ticks < TWO31 && !s.co[x].fired {
      if x != id { assert Pending(w, x); }
    }
  }

  lemma StopPlaces(w: Wheel, id: Id)
    requires Placed(w) && id in w.co
    ensures Placed(Stop(w, id))
  {
    UnlinkPlaces(w, id);
    var s := Stop(w, id);
    forall b, x | InBucket(s, b, x) ensures InBucket(w, b, x) && Pending(s, x) && x !in s.todo {
      assert InBucket(w, b, x);
      assert Pending(w, x);
    }
    forall x | x in s.todo ensures Pending(s, x) {
      assert Pending(w, x);
    }
    forall x | Pending(s, x) ensures Queued(s, x) {
      StopPlacesOne(w, id, x);
    }
    Replaced(w, s);
  }

  lemma StopKeepsInv(w: Wheel, id: Id)
    requires Inv(w) && id in w.co
    ensures Inv(Stop(w, id))
  {
    StopPlaces(w, id);
    var s := Stop(w, id);
    forall b, x | InBucket(s, b, x) && x in s.co ensures NextMove(b, s.ticks) <= s.co[x].time {
      assert InBucket(w, b, x);
    }
    forall x | Pending(s, x) ensures s.co[x].time - s.ticks < TWO31 && !s.co[x].fired {
      assert Pending(w, x);
    }
  }

  lemma StopPlacesOne(w: Wheel, id: Id, x: Id)
    requires Placed(w) && id in w.co && Pending(Stop(w, id), x)
    ensures Queued(Stop(w, id), x)
  {
    var s := Stop(w, id);
    assert Pending(w, x) && x != id;
    assert Queued(w, x);
    if x !in w.todo {
      var b :| InBucket(w, b, x);
      assert InBucket(s, b, x);
    }
  }

  lemma MoveBucketPlaces(w: Wheel, level: nat)
    requires Placed(w) && level < 4
    ensures Placed(MoveBucket(w, level))
  {
    var i := MaskWheel(level, w.ticks) + level * WHEELSIZE;
    var s := MoveBucket(w, level);
    assert forall x :: x in w.buckets[i] <==> InBucket(w, i, x);
    NoDupsConcat(w.todo, w.buckets[i]);
    forall b, x | InBucket(s, b, x) ensures InBucket(w, b, x) && Pending(s, x) && x !in s.todo {
      assert InBucket(w, b, x);
      assert !InBucket(w, i, x);
      assert Pending(w, x);
    }
    forall x | x in s.todo ensures Pending(s, x) {
      assert x in w.todo || InBucket(w, i, x);
      assert Pending(w, x);
    }
    forall x | Pending(s, x) ensures Queued(s, x) {
      assert Pending(w, x);
      assert Queued(w, x);
      if x !in w.todo {
        var b :| InBucket(w, b, x);
        if b != i { assert InBucket(s, b, x); }
      }
    }
    Replaced(w, s);
  }

  /** A tick empties exactly the buckets that MovesAt names, and changes no callout. */
  lemma HardclockEmpties(w: Wheel)
    requires |w.buckets| == BUCKETS
    ensures var s := Hardclock(w);
      && s.ticks == w.ticks + 1 && s.co == w.co && |s.buckets| == BUCKETS
      && forall b :: 0 <= b < BUCKETS ==> s.buckets[b] == if MovesAt(b, s.ticks) then [] else w.buckets[b]
  {
    var t := w.ticks + 1;
    var s := Hardclock(w);
    forall b | 0 <= b < BUCKETS ensures s.buckets[b] == if MovesAt(b, t) then [] else w.buckets[b] {
      LowLevelsZero(t);
    }
  }

  /** The nested tests of callout_hardclock say when t is a multiple of each level's grain. */
  lemma LowLevelsZero(t: int)
    ensures MaskWheel(0, t) == 0 <==> t % TWO8 == 0
    ensures MaskWheel(0, t) == 0 && MaskWheel(1, t) == 0 <==> t % TWO16 == 0
    ensures MaskWheel(0, t) == 0 && MaskWheel(1, t) == 0 && MaskWheel(2, t) == 0 <==> t % TWO24 == 0
  {
    var a := t / TWO8;
    assert t == 256 * a + t % 256;
    var b := t / TWO16;
    DivModUnique(a, 256, b, (t - 65536 * b - t % 256) / 256);
    var c := t / TWO24;
    DivModUnique(b, 256, c, (t / 65536) - 256 * c);
  }

  lemma HardclockPlaces(w: Wheel)
    requires Placed(w)
    ensures Placed(Hardclock(w))
  {
    var w0 := w.(ticks := w.ticks + 1);
    ClockPlaces(w, w0);
    MoveBucketPlaces(w0, 0);
    var w1 := MoveBucket(w0, 0);
    MoveBucketPlaces(w1, 1);
    var w2 := MoveBucket(w1, 1);
    MoveBucketPlaces(w2, 2);
    MoveBucketPlaces(MoveBucket(w2, 2), 3);
  }

  lemma ClockPlaces(w: Wheel, w': Wheel)
    requires Placed(w) && w' == w.(ticks := w'.ticks)
    ensures Placed(w')
  {
    forall b, x | InBucket(w', b, x) ensures InBucket(w, b, x) && Pending(w', x) && x !in w'.todo {
      assert InBucket(w, b, x);
      assert Pending(w, x);
    }
    forall x | Pending(w', x) ensures Queued(w', x) {
      assert Pending(w, x);
      assert Queued(w, x);
      if x !in w.todo {
        var b :| InBucket(w, b, x);
        assert InBucket(w', b, x);
      }
    }
    forall x | x in w'.todo ensures Pending(w', x) { assert Pending(w, x); }
    Replaced(w, w');
  }

  lemma HardclockKeepsInv(w: Wheel)
    requires Inv(w)
    ensures Inv(Hardclock(w))
  {
    HardclockPlaces(w);
    HardclockEmpties(w);
    var s := Hardclock(w);
    forall b, x | InBucket(s, b, x) && x in s.co ensures NextMove(b, s.ticks) <= s.co[x].time {
      NextMoveStep(b, w.ticks);
      assert InBucket(w, b, x);
    }
    forall x | Pending(s, x) ensures s.co[x].time - s.ticks < TWO31 && !s.co[x].fired {
      assert Pending(w, x);
    }
  }

  /** What a pass that parks adds to the buckets. */
  lemma SoftStepParks(w: Wheel, b: int, x: Id)
    requires |w.buckets| == BUCKETS && w.todo != [] && w.todo[0] in w.co
    ensures var c := w.co[w.todo[0]];
      InBucket(SoftStep(w), b, x) <==>
        || InBucket(w, b, x)
        || (x == w.todo[0] && !RunsNext(w) && b == Bucket(Int32(c.time - w.ticks), c.time))
  {
  }

  lemma SoftStepPlaces(w: Wheel)
    requires Placed(w) && w.todo != []
    ensures w.todo[0] in w.co
    ensures Placed(SoftStep(w))
  {
    var id := w.todo[0];
    assert id in w.todo;
    assert Pending(w, id);
    var s := SoftStep(w);
    assert w.todo == [id] + w.todo[1..];
    assert id !in w.todo[1..];
    assert forall x :: x in s.todo <==> x in w.todo && x != id;
    forall b, x | InBucket(s, b, x) ensures InBucket(w, b, x) || x == id
                                    ensures Pending(s, x) && x !in s.todo {
      SoftStepParks(w, b, x);
      if InBucket(w, b, x) { assert Pending(w, x) && x !in w.todo; }
    }
    forall b, b', x | InBucket(s, b, x) && InBucket(s, b', x) ensures b == b' {
      SoftStepParks(w, b, x);
      SoftStepParks(w, b', x);
    }
    forall b | 0 <= b < BUCKETS ensures NoDups(s.buckets[b]) {
      assert !InBucket(w, b, id);
      NoDupsConcat(w.buckets[b], [id]);
    }
    forall x | x in s.todo ensures Pending(s, x) {
      assert Pending(w, x);
    }
    forall x | Pending(s, x) ensures Queued(s, x) {
      SoftStepQueues(w, x);
    }
  }

  lemma SoftStepKeepsInv(w: Wheel)
    requires Inv(w) && InWindow(w) && w.todo != []
    ensures w.todo[0] in w.co
    ensures Inv(SoftStep(w))
  {
    var id := w.todo[0];
    assert id in w.todo;
    assert Pending(w, id);
    var c := w.co[id];
    var s := SoftStep(w);
    SoftStepPlaces(w);
    forall b, x | InBucket(s, b, x) && x in s.co ensures NextMove(b, s.ticks) <= s.co[x].time {
      SoftStepParks(w, b, x);
      if InBucket(w, b, x) {
        assert x !in w.todo;
      } else {
        BucketIsTimely(w.ticks, c.time - w.ticks);
      }
    }
    forall x | Pending(s, x) ensures s.co[x].time - s.ticks < TWO31 && !s.co[x].fired {
      assert Pending(w, x);
    }
  }

  lemma SoftStepQueues(w: Wheel, x: Id)
    requires Placed(w) && w.todo != [] && w.todo[0] in w.co
    requires Pending(SoftStep(w), x)
    ensures Queued(SoftStep(w), x)
  {
    var id := w.todo[0];
    var s := SoftStep(w);
    assert Pending(w, x);
    assert Queued(w, x);
    if x == id {
      var c := w.co[id];
      var b := Bucket(Int32(c.time - w.ticks), c.time);
      SoftStepParks(w, b, x);
      assert InBucket(s, b, x);
    } else if x !in w.todo {
      var b :| InBucket(w, b, x);
      SoftStepParks(w, b, x);
      assert InBucket(s, b, x);
    } else {
      assert w.todo == [id] + w.todo[1..];
    }
  }

  // ------------------------------------------- the abstract timer facility

  /** The pending callouts and their times: all a caller of callout(9) can observe of the wheel. */
  function Due(w: Wheel): (m: map<Id, int>) {
    map id | id in w.co && w.co[id].pending :: w.co[id].time
  }

  datatype Op = OpSchedule(id: Id, to: int) | OpStop(id: Id) | OpHardclock | OpSoftStep

  /** What a caller may ask: schedule with a delay below 2^31, stop; the softclock runs while there is work. */
  predicate Enabled(w: Wheel, op: Op) {
    match op
    case OpSchedule(id, to) => id in w.co && 0 <= to < TWO31
    case OpStop(id) => id in w.co
    case OpHardclock => true
    case OpSoftStep => w.todo != []
  }

  function Step(w: Wheel, op: Op): (s: Wheel)
    requires |w.buckets| == BUCKETS && (forall id :: id in w.todo ==> id in w.co) && Enabled(w, op)
  {
    match op
    case OpSchedule(id, to) => Schedule(w, id, w.ticks + to)
    case OpStop(id) => Stop(w, id)
    case OpHardclock => Hardclock(w)
    case OpSoftStep => SoftStep(w)
  }

  /** The reference facility: a clock, and a map from pending callouts to times. */
  datatype Timers = Timers(now: int, due: map<Id, int>)

  /** The reference step. A pass of the softclock may change nothing, or run one callout that is due. */
  ghost predicate TimersStep(a: Timers, op: Op, a': Timers) {
    match op
    case OpSchedule(id, to) => a' == a.(due := a.due[id := a.now + to])
    case OpStop(id) => a' == a.(due := a.due - {id})
    case OpHardclock => a' == a.(now := a.now + 1)
    case OpSoftStep => a' == a || exists id :: id in a.due && a.due[id] <= a.now && a' == a.(due := a.due - {id})
  }

  function Abstract(w: Wheel): Timers { Timers(w.ticks, Due(w)) }

  ghost predicate Good(w: Wheel) { Inv(w) && InWindow(w) }

  lemma StepKeepsInv(w: Wheel, op: Op)
    requires Good(w) && Enabled(w, op)
    ensures forall id :: id in w.todo ==> id in w.co
    ensures Inv(Step(w, op))
  {
    forall id | id in w.todo ensures id in w.co { assert Pending(w, id); }
    match op
    case OpSchedule(id, to) => ScheduleKeepsInv(w, id, w.ticks + to);
    case OpStop(id) => StopKeepsInv(w, id);
    case OpHardclock => HardclockKeepsInv(w);
    case OpSoftStep => SoftStepKeepsInv(w);
  }

  lemma ScheduleRefines(w: Wheel, id: Id, abs: int)
    requires id in w.co
    ensures Due(Schedule(w, id, abs)) == Due(w)[id := abs] && Schedule(w, id, abs).ticks == w.ticks
  {
  }

  lemma StopRefines(w: Wheel, id: Id)
    requires id in w.co
    ensures Due(Stop(w, id)) == Due(w) - {id} && Stop(w, id).ticks == w.ticks
  {
  }

  /** A pass of the softclock parks, changing nothing observable, or runs a callout whose time has come. */
  lemma SoftStepRefines(w: Wheel)
    requires Good(w) && w.todo != []
    ensures w.todo[0] in Due(w) && SoftStep(w).ticks == w.ticks
    ensures RunsNext(w) <==> Due(w)[w.todo[0]] <= w.ticks
    ensures Due(SoftStep(w)) == if RunsNext(w) then Due(w) - {w.todo[0]} else Due(w)
  {
    var id := w.todo[0];
    assert id in w.todo;
    assert Pending(w, id);
  }

  /** The wheel refines the map of times: each operation is the reference step. */
  lemma StepRefines(w: Wheel, op: Op)
    requires Good(w) && Enabled(w, op)
    requires forall id :: id in w.todo ==> id in w.co
    ensures TimersStep(Abstract(w), op, Abstract(Step(w, op)))
  {
    match op
    case OpSchedule(id, to) => ScheduleRefines(w, id, w.ticks + to);
    case OpStop(id) => StopRefines(w, id);
    case OpHardclock => HardclockEmpties(w);
    case OpSoftStep => SoftStepRefines(w);
  }

  /** Nothing is late: when the worklist is empty, no pending callout's time has come. */
  lemma DrainedMeansNoneDue(w: Wheel, id: Id)
    requires Inv(w) && w.todo == [] && Pending(w, id)
    ensures w.ticks < w.co[id].time
  {
    assert Queued(w, id);
    var b :| InBucket(w, b, id);
    NextMoveIsNext(b, w.ticks);
  }

  // --------------------------------------------------------------- all runs

  /** ws is a run of ops: each state follows from the one before, and stays in the live window. */
  ghost predicate Run(ws: seq<Wheel>, ops: seq<Op>) {
    && |ws| == |ops| + 1
    && (forall i :: 0 <= i < |ws| ==> |ws[i].buckets| == BUCKETS && (forall id :: id in ws[i].todo ==> id in ws[i].co))
    && (forall i :: 0 <= i < |ws| ==> InWindow(ws[i]))
    && (forall i :: 0 <= i < |ops| ==> Enabled(ws[i], ops[i]) && ws[i + 1] == Step(ws[i], ops[i]))
  }

  /** An idle wheel: what callout_startup builds. */
  predicate Idle(w: Wheel) {
    && |w.buckets| == BUCKETS && w.todo == []
    && (forall b :: 0 <= b < BUCKETS ==> w.buckets[b] == [])
    && (forall id :: id in w.co ==> !w.co[id].pending)
  }

  /**
   * Over every run from an idle wheel: the invariant holds in every state, and
   * the run is step by step a run of the reference facility, so no pending callout is lost or
   * duplicated and none runs before its time.
   */
  lemma {:induction false} EveryRunRefines(ws: seq<Wheel>, ops: seq<Op>)
    requires Run(ws, ops) && Idle(ws[0])
    ensures forall i :: 0 <= i < |ws| ==> Inv(ws[i])
    ensures forall i :: 0 <= i < |ops| ==> TimersStep(Abstract(ws[i]), ops[i], Abstract(ws[i + 1]))
    decreases |ops|
  {
    if ops == [] {
      assert Inv(ws[0]);
    } else {
      hide Inv, Abstract, Step, TimersStep, Enabled, InWindow, Idle;
      var n := |ops| - 1;
      assert ops[..n] + [ops[n]] == ops;
      EveryRunRefines(ws[..n + 1], ops[..n]);
      assert Inv(ws[..n + 1][n]);
      StepKeepsInv(ws[n], ops[n]);
      StepRefines(ws[n], ops[n]);
      forall i | 0 <= i < |ops| ensures TimersStep(Abstract(ws[i]), ops[i], Abstract(ws[i + 1])) {
        if i < n {
          assert ws[..n + 1][i] == ws[i] && ops[..n][i] == ops[i] && ws[..n + 1][i + 1] == ws[i + 1];
        }
      }
    }
  }
}
