/** lpsched_coalesce of kern_timeout.c: delaying long, slack-tolerant callouts onto a shared grid. */
module CalloutCoalesce {
  import opened Words
  import opened CalloutWheel
  import opened CalloutRuns

  /** lpsched_enabled and lpsched_coalesce_ms != 0, and the grid in ticks. */
  datatype Governor = Governor(on: bool, grid: int)

  /** CALLOUT_PRECISE and CALLOUT_SLACK. */
  datatype Flags = Flags(precise: bool, slack: bool)

  /** How far the deadline of a to-tick timeout is moved back; global is getticks(). */
  function Delay(g: Governor, f: Flags, to: int, global: int): int {
    if !g.on || to == 0 || f.precise || !f.slack || g.grid <= 1 || to < 2 * g.grid then 0
    else
      var rem := Wrap32(global + to) % g.grid;
      if rem != 0 then g.grid - rem else 0
  }

  /** The timeouts that are put on the grid. */
  predicate Relaxed(g: Governor, f: Flags, to: int) { g.on && !f.precise && f.slack && 1 < g.grid && 2 * g.grid <= to }

  /** A deadline is never moved forward, is moved by less than half the request, and lands on the grid. */
  lemma DelayIsBounded(g: Governor, f: Flags, to: int, global: int)
    requires 0 <= to
    ensures var d := Delay(g, f, to, global);
      && 0 <= d && 2 * d <= to
      && (Relaxed(g, f, to) ==> (Wrap32(global + to) + d) % g.grid == 0)
  {
    if Relaxed(g, f, to) {
      var t := Wrap32(global + to);
      var q := t / g.grid;
      assert t == g.grid * q + t % g.grid;
      if t % g.grid != 0 {
        DivModUnique(t + (g.grid - t % g.grid), g.grid, q + 1, 0);
      }
    }
  }

  /**
   * The deadline is off the grid and so little past its last point that the next one is 2^31 ticks or more from
   * now. A request of at most 2^31 ticks less the grid never is.
   */
  predicate Overshoots(g: Governor, f: Flags, to: int, global: int) {
    Relaxed(g, f, to) && 0 < Wrap32(global + to) % g.grid <= to + g.grid - TWO31
  }

  /** The deadline that callout_schedule_locked stores on a CPU whose tick count is now. */
  function Deadline(g: Governor, f: Flags, to: int, global: int, now: int): int { now + to + Delay(g, f, to, global) }

  /** The stored deadline compares as future, and truly so, if and only if the request does not overshoot. */
  lemma StaysInFutureIff(g: Governor, f: Flags, to: int, global: int, now: int)
    requires 0 < to < TWO31
    ensures var left := Int32(Deadline(g, f, to, global, now) - now);
      && (left > 0 <==> !Overshoots(g, f, to, global))
      && (left > 0 ==> to <= left <= to + to / 2)
  {
    DelayIsBounded(g, f, to, global);
    var d := Delay(g, f, to, global);
    assert Deadline(g, f, to, global, now) - now == to + d < TWO32;
  }

  // ------------------------------------------------------------ on the wheel

  /** callout_schedule_locked with its coalescing. */
  function ScheduleSlack(w: Wheel, id: Id, g: Governor, f: Flags, to: int, global: int): Wheel
    requires id in w.co
  {
    Schedule(w, id, Deadline(g, f, to, global, w.ticks))
  }

  /** Scheduling keeps the wheel's invariant if and only if the request does not overshoot. */
  lemma SlackKeepsInvIff(w: Wheel, id: Id, g: Governor, f: Flags, to: int, global: int)
    requires Inv(w) && id in w.co && 0 <= to < TWO31
    ensures Inv(ScheduleSlack(w, id, g, f, to, global)) <==> !Overshoots(g, f, to, global)
  {
    var s := ScheduleSlack(w, id, g, f, to, global);
    DelayIsBounded(g, f, to, global);
    if Overshoots(g, f, to, global) {
      assert Pending(s, id);
    } else {
      assert to + Delay(g, f, to, global) < TWO31;
      ScheduleKeepsInv(w, id, Deadline(g, f, to, global, w.ticks));
    }
  }

  /**
   * What a run does then. On a drained wheel the next softclock pass runs the callout, the whole timeout too early,
   * if and only if the request overshoots; and that is no step of the reference facility.
   */
  lemma OvershootRunsAtOnceIff(w: Wheel, id: Id, g: Governor, f: Flags, to: int, global: int)
    requires Inv(w) && w.todo == [] && id in w.co && !w.co[id].pending && 0 < to < TWO31
    ensures var s := ScheduleSlack(w, id, g, f, to, global);
      && s.todo == [id] && |s.buckets| == BUCKETS
      && (RunsNext(s) <==> Overshoots(g, f, to, global))
      && (RunsNext(s) ==> SoftStep(s).co[id].fired && SoftStep(s).ticks == w.ticks)
      && (TimersStep(Abstract(s), OpSoftStep, Abstract(SoftStep(s))) <==> !Overshoots(g, f, to, global))
  {
    var s := ScheduleSlack(w, id, g, f, to, global);
    StaysInFutureIff(g, f, to, global, w.ticks);
    DelayIsBounded(g, f, to, global);
    var due := Due(s);
    assert id in due && due[id] > w.ticks;
    if Overshoots(g, f, to, global) {
      assert id !in Due(SoftStep(s));
      forall x | x in due && due[x] <= w.ticks ensures Due(SoftStep(s)) != due - {x} { assert id in due - {x}; }
    } else {
      assert Due(SoftStep(s)) == due;
    }
  }

  /** A 2^31 - 1 tick timeout with slack, on a ten-tick grid, overshoots. */
  lemma LongSlackTimeoutRunsAtOnce()
    ensures Overshoots(Governor(true, 10), Flags(false, true), TWO31 - 1, 0)
    ensures var d := Delay(Governor(true, 10), Flags(false, true), TWO31 - 1, 0); Int32(TWO31 - 1 + d) <= 0
  {
  }

  // --------------------------------------------------------------------- runs

  datatype SlackOp = Slack(id: Id, g: Governor, f: Flags, to: int, global: int) | Plain(op: Op)

  predicate SlackEnabled(w: Wheel, o: SlackOp) {
    match o
    case Slack(id, _, _, to, _) => id in w.co && 0 <= to < TWO31
    case Plain(op) => Enabled(w, op)
  }

  function SlackStep(w: Wheel, o: SlackOp): Wheel
    requires |w.buckets| == BUCKETS && (forall id :: id in w.todo ==> id in w.co) && SlackEnabled(w, o)
  {
    match o
    case Slack(id, g, f, to, global) => ScheduleSlack(w, id, g, f, to, global)
    case Plain(op) => Step(w, op)
  }

  ghost predicate SlackRun(ws: seq<Wheel>, ops: seq<SlackOp>) {
    && |ws| == |ops| + 1
    && (forall i :: 0 <= i < |ws| ==> |ws[i].buckets| == BUCKETS && (forall id :: id in ws[i].todo ==> id in ws[i].co))
    && (forall i :: 0 <= i < |ws| ==> InWindow(ws[i]))
    && (forall i :: 0 <= i < |ops| ==> SlackEnabled(ws[i], ops[i]) && ws[i + 1] == SlackStep(ws[i], ops[i]))
  }

  /** The plain operation that a coalesced one amounts to. */
  function Effective(o: SlackOp): Op {
    match o
    case Slack(id, g, f, to, global) => OpSchedule(id, to + Delay(g, f, to, global))
    case Plain(op) => op
  }

  predicate Fits(o: SlackOp) { o.Slack? ==> !Overshoots(o.g, o.f, o.to, o.global) }

  lemma EffectiveIs(w: Wheel, o: SlackOp)
    requires |w.buckets| == BUCKETS && (forall id :: id in w.todo ==> id in w.co) && SlackEnabled(w, o) && Fits(o)
    ensures Enabled(w, Effective(o)) && SlackStep(w, o) == Step(w, Effective(o))
    ensures o.Slack? ==> o.to <= Effective(o).to <= o.to + o.to / 2
  {
    if o.Slack? { DelayIsBounded(o.g, o.f, o.to, o.global); }
  }

  /**
   * Every run with coalescing in which no request overshoots is a run of the reference facility in which each
   * request is made for its own time or up to half as long again, and so nothing runs before its time.
   */
  lemma EverySlackRunRefines(ws: seq<Wheel>, ops: seq<SlackOp>)
    requires SlackRun(ws, ops) && Idle(ws[0]) && forall i :: 0 <= i < |ops| ==> Fits(ops[i])
    ensures forall i :: 0 <= i < |ops| ==> TimersStep(Abstract(ws[i]), Effective(ops[i]), Abstract(ws[i + 1]))
    ensures forall i :: 0 <= i < |ops| && ops[i].Slack? ==> ops[i].to <= Effective(ops[i]).to <= ops[i].to + ops[i].to / 2
  {
    hide SlackEnabled, SlackStep, Delay, Fits, Enabled, Step, TimersStep, Abstract, InWindow, Idle;
    var plain := seq(|ops|, i requires 0 <= i < |ops| => Effective(ops[i]));
    forall i | 0 <= i < |ops|
      ensures Enabled(ws[i], plain[i]) && ws[i + 1] == Step(ws[i], plain[i])
      ensures ops[i].Slack? ==> ops[i].to <= Effective(ops[i]).to <= ops[i].to + ops[i].to / 2
    {
      EffectiveIs(ws[i], ops[i]);
    }
    EveryRunRefines(ws, plain);
    forall i | 0 <= i < |ops| ensures TimersStep(Abstract(ws[i]), Effective(ops[i]), Abstract(ws[i + 1])) {
      assert plain[i] == Effective(ops[i]);
    }
  }
}
