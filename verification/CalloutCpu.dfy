/** struct callout_cpu as kern_timeout.c updates it, through its links: one method per lock-held region. */
module CalloutCpu {
  import opened Options
  import opened Words
  import opened Queues
  import opened Circq
  import opened CalloutWheel
  import opened CalloutRuns
  import opened CalloutCache
  import opened CalloutCoalesce
  import CQ = CalloutQueues

  /** The queues of a wheel: the worklist, then the buckets. */
  function QueuesOf(w: Wheel): seq<seq<Id>> { [w.todo] + w.buckets }

  /** A pending callout is on some queue, and any other on none. */
  lemma OnQueue(w: Wheel, qs: seq<seq<Id>>, id: Id) returns (i: nat)
    requires Placed(w) && qs == QueuesOf(w) && Pending(w, id)
    ensures i < |qs| && id in qs[i]
  {
    assert Queued(w, id);
    if id in w.todo {
      i := 0;
    } else {
      var b :| InBucket(w, b, id);
      i := b + 1;
    }
  }

  lemma OnNoQueue(w: Wheel, id: Id, j: nat)
    requires Placed(w) && !Pending(w, id) && j < |QueuesOf(w)|
    ensures id !in QueuesOf(w)[j]
  {
    assert j > 0 && id in w.buckets[j - 1] ==> InBucket(w, j - 1, id);
  }

  class CalloutCpu {
    var ticks: int
    const queues: CQ.CalloutQueues
    var co: map<Id, Callout>
    var nextGen: nat
    var nextNone: bool
    var nextTime: int

    ghost function TheWheel(): Wheel
      reads this, queues
    {
      Wheel(ticks, if queues.qs == [] then [] else queues.qs[0], if queues.qs == [] then [] else queues.qs[1..], co)
    }

    /** The links stand for the queues, and every pending callout is on exactly one. */
    ghost predicate Valid()
      reads this, queues, queues.links
    {
      queues.Valid() && Placed(TheWheel())
    }

    /** The state as a value, under the global deferrable policy and generation. */
    ghost function Model(policy: bool, gen: nat): Cpu
      reads this, queues
    {
      Cpu(TheWheel(), nextGen, nextNone, nextTime, policy, gen)
    }

    constructor (callouts: map<Id, Callout>)
      requires forall id :: id in callouts ==> !callouts[id].pending
      ensures Valid() && fresh(queues) && fresh(queues.links)
      ensures forall policy, gen: nat :: 1 <= gen ==> CpuIdle(Model(policy, gen))
      ensures co == callouts && ticks == 0
    {
      ticks, co := 0, callouts;
      queues := new CQ.CalloutQueues();
      nextGen, nextNone, nextTime := 0, false, 0;
    }

    /** The worklist gets a callout that is on no queue. */
    method ToWorklist(id: Id)
      requires queues.Valid() && forall j :: 0 <= j < CQ.HEADS ==> id !in queues.qs[j]
      modifies queues, queues.links
      ensures queues.Valid() && TheWheel() == old(TheWheel()).(todo := old(TheWheel()).todo + [id])
    {
      queues.Insert(id, 0);
      assert queues.qs[1..] == old(queues.qs)[1..];
    }

    /** CIRCQ_REMOVE from whichever queue the callout is on. */
    method Unlink(id: Id, ghost i: nat)
      requires queues.Valid() && i < CQ.HEADS && id in queues.qs[i]
      modifies queues, queues.links
      ensures queues.Valid() && TheWheel() == CalloutWheel.Unlink(old(TheWheel()), id)
      ensures forall j :: 0 <= j < CQ.HEADS ==> id !in queues.qs[j]
    {
      queues.Remove(id, i);
      assert TheWheel().buckets == CalloutWheel.Unlink(old(TheWheel()), id).buckets;
    }

    /** callout_schedule_locked on the callout's own CPU. */
    method ScheduleLocked(id: Id, to: int, g: Governor, f: Flags, global: int)
      requires Valid() && id in co && 0 <= to
      modifies this, queues, queues.links
      ensures Valid()
      ensures forall policy, gen :: Model(policy, gen) == old(Model(policy, gen)).(
        w := ScheduleSlack(old(Model(policy, gen)).w, id, g, f, to, global))
    {
      hide Placed, Deadline;
      ghost var w := TheWheel();
      SchedulePlaces(w, id, Deadline(g, f, to, global, ticks));
      assert queues.qs == QueuesOf(w);
      var c := co[id];
      var abs := Deadline(g, f, to, global, ticks);
      co := co[id := c.(time := abs, fired := false, invoking := false, pending := true)];
      if c.pending {
        if Int32(abs - c.time) < 0 {
          ghost var i := OnQueue(w, queues.qs, id);
          Unlink(id, i);
          ToWorklist(id);
        }
      } else {
        forall j | 0 <= j < CQ.HEADS ensures id !in queues.qs[j] { OnNoQueue(w, id, j); }
        ToWorklist(id);
      }
    }

    /** callout_stop: true if the callout had fired. */
    method Stop(id: Id) returns (expired: bool)
      requires Valid() && id in co
      modifies this, queues, queues.links
      ensures Valid()
      ensures expired == old(co[id].fired)
      ensures forall policy, gen :: Model(policy, gen) == old(Model(policy, gen)).(
        w := CalloutWheel.Stop(old(Model(policy, gen)).w, id))
    {
      hide Placed;
      ghost var w := TheWheel();
      StopPlaces(w, id);
      assert queues.qs == QueuesOf(w);
      var c := co[id];
      if c.pending {
        ghost var i := OnQueue(w, queues.qs, id);
        Unlink(id, i);
      }
      expired := c.fired;
      co := co[id := c.(pending := false, fired := false)];
    }

    /** MOVEBUCKET. */
    method MoveBucket(level: nat)
      requires Valid() && level < 4
      modifies queues, queues.links
      ensures Valid() && TheWheel() == CalloutWheel.MoveBucket(old(TheWheel()), level)
    {
      hide Placed;
      ghost var w := TheWheel();
      assert |w.buckets| == BUCKETS;
      MoveBucketPlaces(w, level);
      var i := MaskWheel(level, ticks) + level * WHEELSIZE;
      queues.Move(i + 1);
      assert TheWheel().buckets == w.buckets[i := []];
    }

    /** callout_hardclock: true if there is softclock work. */
    method Hardclock() returns (needSoftclock: bool)
      requires Valid()
      modifies this, queues, queues.links
      ensures Valid()
      ensures needSoftclock == (TheWheel().todo != [])
      ensures forall policy, gen :: Model(policy, gen) == old(Model(policy, gen)).(
        w := CalloutWheel.Hardclock(old(Model(policy, gen)).w))
    {
      hide Placed, CalloutWheel.MoveBucket, MaskWheel;
      ghost var w := TheWheel();
      ticks := ticks + 1;
      ClockPlaces(w, TheWheel());
      MoveBucket(0);
      if MaskWheel(0, ticks) == 0 {
        MoveBucket(1);
        if MaskWheel(1, ticks) == 0 {
          MoveBucket(2);
          if MaskWheel(2, ticks) == 0 {
            MoveBucket(3);
          }
        }
      }
      var first := queues.After(0, 0, 0);
      needSoftclock := first.Some?;
    }

    /** callout_next_note. */
    method NextNote(c: Callout, policy: bool, gen: nat)
      modifies this`nextNone, this`nextTime
      ensures Model(policy, gen) == Note(old(Model(policy, gen)), c)
    {
      if nextGen != gen || !Honoured(policy, c) {
        return;
      }
      if nextNone || Int32(c.time - nextTime) < 0 {
        nextNone := false;
        nextTime := c.time;
      }
    }

    /** The first callout of the worklist leaves it. */
    method TakeFirst() returns (id: Id)
      requires Valid() && TheWheel().todo != []
      modifies queues, queues.links
      ensures queues.Valid() && id == old(TheWheel().todo)[0] && TheWheel() == old(TheWheel()).(todo := old(TheWheel()).todo[1..])
      ensures forall j :: 0 <= j < CQ.HEADS ==> id !in queues.qs[j]
    {
      ghost var w := TheWheel();
      var first := queues.After(0, 0, 0);
      id := first.value;
      assert id in w.todo;
      HeadGone(w, id);
      hide Placed;
      Unlink(id, 0);
    }

    /** A callout that is on no queue is parked in bucket b. */
    method Park(id: Id, b: nat)
      requires queues.Valid() && b < BUCKETS && forall j :: 0 <= j < CQ.HEADS ==> id !in queues.qs[j]
      modifies queues, queues.links
      ensures queues.Valid() && |old(TheWheel()).buckets| == BUCKETS
      ensures TheWheel() == old(TheWheel()).(buckets := old(TheWheel()).buckets[b := old(TheWheel()).buckets[b] + [id]])
    {
      queues.Insert(id, b + 1);
      assert TheWheel().buckets == old(TheWheel()).buckets[b := old(TheWheel()).buckets[b] + [id]];
    }

    /** One pass of the callout_softclock loop; ran is the callout to invoke, if any. */
    method SoftclockPass(policy: bool, gen: nat) returns (ran: Option<Id>)
      requires Valid() && TheWheel().todo != []
      modifies this, queues, queues.links
      ensures Valid() && old(TheWheel().todo)[0] in old(co)
      ensures Model(policy, gen) == SoftPass(old(Model(policy, gen)))
      ensures ran == if old(RunsNext(TheWheel())) then Some(old(TheWheel().todo[0])) else None
    {
      hide Placed, Bucket, CQ.Disjoint;
      ghost var w := TheWheel();
      SoftStepPlaces(w);
      var id := TakeFirst();
      var c := co[id];
      var delta := Int32(c.time - ticks);
      if delta > 0 {
        Park(id, Bucket(delta, c.time));
        assert TheWheel() == SoftStep(w);
        NextNote(c, policy, gen);
        return None;
      }
      co := co[id := c.(pending := false, fired := true, invoking := true)];
      return Some(id);
    }

    /** callout_setdeferrable. */
    method SetDeferrable(id: Id, on: bool)
      requires Valid() && id in co
      modifies this`co, this`nextGen
      ensures Valid()
      ensures forall policy, gen :: Model(policy, gen) == CalloutCache.SetDeferrable(old(Model(policy, gen)), id, on)
    {
      hide Placed;
      SetDeferrablePlaces(Model(true, 0), id, on);
      if on {
        co := co[id := co[id].(deferrable := true)];
      } else {
        co := co[id := co[id].(deferrable := false)];
        nextGen := 0;
      }
    }

    /** The inner scan loop of callout_next_ticks, along one bucket's links. */
    method ScanBucket(policy: bool, ghost k: Cpu, i: nat, acc: Scan) returns (acc': Scan)
      requires Valid() && i < BUCKETS && k.w == TheWheel() && k.policy == policy
      ensures acc' == ScanQueue(k, acc, k.w.buckets[i])
    {
      ghost var q := k.w.buckets[i];
      assert q == queues.qs[i + 1];
      acc' := acc;
      ghost var j := 0;
      var node := i + 1;
      var next := queues.After(i + 1, node, j);
      while next.Some?
        invariant j <= |q| && node == Cycle(i + 1, CQ.Nodes(q))[j] && next == (if j < |q| then Some(q[j]) else None)
        invariant acc' == ScanQueue(k, acc, q[..j])
        decreases |q| - j
      {
        assert q[..j + 1][..|q[..j + 1]| - 1] == q[..j];
        var id := next.value;
        assert InBucket(k.w, i, id);
        var c := co[id];
        if Honoured(policy, c) {
          var delta := Int32(c.time - ticks);
          if acc'.none || delta < acc'.best { acc' := Scan(false, delta, c.time); }
        }
        node := CQ.NodeOf(id);
        j := j + 1;
        next := queues.After(i + 1, node, j);
      }
      assert q[..j] == q;
    }

    /** callout_next_ticks, with its scan of every bucket. */
    method NextTicks(policy: bool, gen: nat) returns (best: int)
      requires Valid()
      modifies this`nextGen, this`nextNone, this`nextTime
      ensures (best, Model(policy, gen)) == CalloutCache.NextTicks(old(Model(policy, gen)))
    {
      ghost var k := Model(policy, gen);
      var first := queues.After(0, 0, 0);
      if first.Some? {
        return 0;
      }
      if nextGen == gen {
        if nextNone {
          return NO_NEXT;
        }
        var delta := Int32(nextTime - ticks);
        if delta > 0 {
          return delta;
        }
      }
      var acc := Scan(true, NO_NEXT, 0);
      assert |k.w.buckets| == BUCKETS;
      hide Placed, ScanQueue;
      for i := 0 to BUCKETS
        invariant acc == ScanBuckets(k, i)
      {
        acc := ScanBucket(policy, k, i, acc);
      }
      nextGen, nextNone, nextTime := gen, acc.none, acc.earliest;
      best := if acc.best < 0 then 0 else acc.best;
    }
  }

  lemma HeadGone(w: Wheel, id: Id)
    requires NoDups(w.todo) && w.todo != [] && id == w.todo[0] && forall b :: !InBucket(w, b, id)
    ensures Unlink(w, id) == w.(todo := w.todo[1..])
  {
    assert id !in w.todo[1..];
    forall b | 0 <= b < |w.buckets| ensures Without(w.buckets[b], id) == w.buckets[b] { assert !InBucket(w, b, id); }
  }
}
