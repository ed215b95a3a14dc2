/**
 * The hierarchical timing wheel of kern_timeout.c: four levels of 256 buckets,
 * a worklist, and callouts postponed in place.
 *
 * Ticks are unbounded here; every comparison the kernel makes on its 32-bit
 * counters is written with Int32, so the wrap-around is explicit.
 */
module CalloutWheel {
  import opened Words
  import opened Queues

  type Id = nat

  const BUCKETS: nat := 1024
  const WHEELSIZE: nat := 256

  datatype Callout = Callout(time: int, pending: bool, fired: bool, invoking: bool, deferrable: bool)

  /** The wheel part of struct callout_cpu, with the callouts it may hold. */
  datatype Wheel = Wheel(ticks: int, todo: seq<Id>, buckets: seq<seq<Id>>, co: map<Id, Callout>)

  // ---------------------------------------------------------------- buckets

  /** Ticks covered by one bucket of a level: 1 << (level * WHEELBITS). */
  function Grain(level: int): (g: int)
    ensures g > 0
  {
    if level == 0 then 1 else if level == 1 then TWO8 else if level == 2 then TWO16 else TWO24
  }

  /** MASKWHEEL. */
  function MaskWheel(level: int, time: int): (m: nat)
    ensures m < WHEELSIZE
  {
    (time / Grain(level)) % 256
  }

  /** BUCKET. */
  function Bucket(rel: int, abs: int): (b: nat)
    ensures b < BUCKETS
  {
    if rel <= TWO16 then
      if rel <= TWO8 then MaskWheel(0, abs) else MaskWheel(1, abs) + WHEELSIZE
    else
      if rel <= TWO24 then MaskWheel(2, abs) + 2 * WHEELSIZE else MaskWheel(3, abs) + 3 * WHEELSIZE
  }

  /** Does callout_hardclock empty bucket b when the tick count reaches t? */
  predicate MovesAt(b: int, t: int) {
    t % Grain(b / 256) == 0 && MaskWheel(b / 256, t) == b % 256
  }

  /** The first tick after `now` at which bucket b is emptied. */
  function NextMove(b: int, now: int): int {
    now + 1 + ((b % 256) * Grain(b / 256) - (now + 1)) % (256 * Grain(b / 256))
  }

  /** NextMove is what its name says: a move tick, after now, with none in between. */
  lemma NextMoveIsNext(b: nat, now: int)
    requires b < BUCKETS
    ensures now < NextMove(b, now)
    ensures MovesAt(b, NextMove(b, now))
    ensures forall t :: now < t < NextMove(b, now) ==> !MovesAt(b, t)
  {
    var g, slot := Grain(b / 256), b % 256;
    var n := NextMove(b, now);
    var p := 256 * g;
    var x := slot * g - (now + 1);
    assert x == p * (x / p) + x % p;
    DivModUnique(slot * g - n, p, x / p, 0);
    MoveTickForm(g, slot, n);
    forall t | now < t < n ensures !MovesAt(b, t) {
      DivModUnique(slot * g - t, p, x / p, n - t);
      MoveTickForm(g, slot, t);
    }
  }

  /** A bucket's move ticks are one residue class. */
  lemma MoveTickForm(g: int, slot: int, t: int)
    requires g > 0 && 0 <= slot < 256
    ensures (t % g == 0 && (t / g) % 256 == slot) <==> (slot * g - t) % (256 * g) == 0
  {
    if t % g == 0 && (t / g) % 256 == slot {
      MoveTickDivides(g, slot, t, (t / g) / 256);
    }
    if (slot * g - t) % (256 * g) == 0 {
      DivisibleMoves(g, slot, t, (slot * g - t) / (256 * g));
    }
  }

  lemma MoveTickDivides(g: int, slot: int, t: int, k: int)
    requires g > 0 && t % g == 0 && t / g == 256 * k + slot
    ensures (slot * g - t) % (256 * g) == 0
  {
    assert t == g * (256 * k + slot);
    assert g * (256 * k + slot) == g * (256 * k) + g * slot;
    assert g * (256 * k) == (256 * g) * k;
    assert slot * g - t == (256 * g) * (-k) + 0;
    DivModUnique(slot * g - t, 256 * g, -k, 0);
  }

  lemma DivisibleMoves(g: int, slot: int, t: int, j: int)
    requires g > 0 && 0 <= slot < 256 && slot * g - t == (256 * g) * j
    ensures t % g == 0 && (t / g) % 256 == slot
  {
    assert (256 * g) * j == g * (256 * j);
    assert g * (slot - 256 * j) == g * slot - g * (256 * j);
    DivModUnique(t, g, slot - 256 * j, 0);
  }

  /** Where BUCKET puts a callout due in rel ticks, its next move is after now and not after its time. */
  lemma BucketIsTimely(now: int, rel: int)
    requires 0 < rel < TWO31
    ensures now < NextMove(Bucket(rel, now + rel), now) <= now + rel
  {
    var time := now + rel;
    var b := Bucket(rel, time);
    var level := b / 256;
    var g := Grain(level);
    assert b % 256 == (time / g) % 256;
    assert g < rel <= 256 * g || (level == 0 && 0 < rel <= 256);
    RoundedDownMove(g, now, time);
    NextMoveOf(g, b % 256, (time / g) / 256, now, g * (time / g));
  }

  /** The move tick of a bucket is the time rounded down to the level's grain: after now, not after time. */
  lemma RoundedDownMove(g: int, now: int, time: int)
    requires g > 0 && (g < time - now || (g == 1 && now < time))
    ensures now < g * (time / g) <= time
  {
  }

  lemma NextMoveOf(g: int, slot: int, k: int, now: int, m: int)
    requires g > 0 && m == g * (256 * k + slot) && now < m <= now + 256 * g
    ensures now + 1 + (slot * g - (now + 1)) % (256 * g) == m
  {
    assert g * (256 * k + slot) == (256 * g) * k + slot * g;
    DivModUnique(slot * g - (now + 1), 256 * g, -k, m - now - 1);
  }

  /** A tick that does not empty bucket b leaves its next move tick alone. */
  lemma NextMoveStep(b: nat, now: int)
    requires b < BUCKETS
    requires !MovesAt(b, now + 1)
    ensures NextMove(b, now + 1) == NextMove(b, now)
  {
    NextMoveIsNext(b, now);
    NextMoveIsNext(b, now + 1);
    var n, n' := NextMove(b, now), NextMove(b, now + 1);
    assert now + 1 < n;
    assert !(n < n') && !(n' < n);
  }

  // ------------------------------------------------------------- operations

  /** CIRCQ_REMOVE: unlink id from whichever queue it is on. */
  function Unlink(w: Wheel, id: Id): Wheel {
    w.(todo := Without(w.todo, id),
       buckets := seq(|w.buckets|, b requires 0 <= b < |w.buckets| => Without(w.buckets[b], id)))
  }

  /**
   * callout_schedule_locked for a callout of this CPU: abs is the requested time.
   * A pending callout moves to the worklist only if it was moved earlier.
   */
  function Schedule(w: Wheel, id: Id, abs: int): Wheel
    requires id in w.co
  {
    var c := w.co[id];
    var w' := w.(co := w.co[id := c.(time := abs, fired := false, invoking := false, pending := true)]);
    if c.pending then
      if Int32(abs - c.time) < 0 then
        var u := Unlink(w', id);
        u.(todo := u.todo + [id])
      else w'
    else w'.(todo := w'.todo + [id])
  }

  /** callout_stop, and the lock-held part of callout_halt. */
  function Stop(w: Wheel, id: Id): Wheel
    requires id in w.co
  {
    var c := w.co[id];
    var u := if c.pending then Unlink(w, id) else w;
    u.(co := u.co[id := c.(pending := false, fired := false)])
  }

  /** MOVEBUCKET: append a level's current bucket to the worklist. */
  function MoveBucket(w: Wheel, level: nat): Wheel
    requires level < 4 && |w.buckets| == BUCKETS
  {
    var i := MaskWheel(level, w.ticks) + level * WHEELSIZE;
    w.(todo := w.todo + w.buckets[i], buckets := w.buckets[i := []])
  }

  /** callout_hardclock. */
  function Hardclock(w: Wheel): Wheel
    requires |w.buckets| == BUCKETS
  {
    var t := w.ticks + 1;
    var w0 := MoveBucket(w.(ticks := t), 0);
    if MaskWheel(0, t) != 0 then w0 else
      var w1 := MoveBucket(w0, 1);
      if MaskWheel(1, t) != 0 then w1 else
        var w2 := MoveBucket(w1, 2);
        if MaskWheel(2, t) != 0 then w2 else MoveBucket(w2, 3)
  }

  /** Will the next pass of the callout_softclock loop run its callout, rather than park it? */
  predicate RunsNext(w: Wheel)
    requires w.todo != [] && w.todo[0] in w.co
  {
    Int32(w.co[w.todo[0]].time - w.ticks) <= 0
  }

  /** One lock-held pass of the callout_softclock loop: run the first callout, or park it in its bucket. */
  function SoftStep(w: Wheel): Wheel
    requires |w.buckets| == BUCKETS
    requires w.todo != [] && w.todo[0] in w.co
  {
    var id := w.todo[0];
    var c := w.co[id];
    var delta := Int32(c.time - w.ticks);
    if delta > 0 then
      var b := Bucket(delta, c.time);
      w.(todo := w.todo[1..], buckets := w.buckets[b := w.buckets[b] + [id]])
    else
      w.(todo := w.todo[1..], co := w.co[id := c.(pending := false, fired := true, invoking := true)])
  }

  // -------------------------------------------------------------- invariant

  predicate Pending(w: Wheel, id: Id) { id in w.co && w.co[id].pending }

  predicate InBucket(w: Wheel, b: int, id: Id) { 0 <= b < |w.buckets| && id in w.buckets[b] }

  ghost predicate Queued(w: Wheel, id: Id) {
    id in w.todo || exists b :: InBucket(w, b, id)
  }

  /** Every queue is duplicate-free, no callout is on two queues, and the queued callouts are the pending ones. */
  ghost predicate Placed(w: Wheel) {
    && |w.buckets| == BUCKETS
    && NoDups(w.todo)
    && (forall b :: 0 <= b < BUCKETS ==> NoDups(w.buckets[b]))
    && (forall b, b', id :: InBucket(w, b, id) && InBucket(w, b', id) ==> b == b')
    && (forall b, id :: InBucket(w, b, id) ==> Pending(w, id) && id !in w.todo)
    && (forall id :: id in w.todo ==> Pending(w, id))
    && (forall id :: Pending(w, id) ==> Queued(w, id))
  }

  /** A parked callout's bucket moves after now and not after the callout's time. */
  ghost predicate Timely(w: Wheel) {
    forall b, id :: InBucket(w, b, id) && id in w.co ==> NextMove(b, w.ticks) <= w.co[id].time
  }

  /** No pending callout is 2^31 ticks or more ahead, and a pending callout has not fired. */
  ghost predicate Ahead(w: Wheel) {
    forall id :: Pending(w, id) ==> w.co[id].time - w.ticks < TWO31 && !w.co[id].fired
  }

  ghost predicate Inv(w: Wheel) { Placed(w) && Timely(w) && Ahead(w) }

  /** The live window: no callout has waited on the worklist for more than 2^31 ticks. */
  ghost predicate InWindow(w: Wheel) {
    forall id :: Pending(w, id) ==> w.ticks - w.co[id].time <= TWO31
  }
}
