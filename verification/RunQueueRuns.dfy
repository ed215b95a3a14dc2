/** All CPUs' run queues over every sequence of steps, and the wait budget that keeps packing from stranding work. */
module RunQueueRuns {
  import opened Words
  import opened RunQueue

  /** `joined` is when each LWP last joined a run queue; `now` is the cycle counter. */
  datatype State = State(lwps: map<Id, Lwp>, cpus: seq<Spc>, joined: map<Id, int>, now: int)

  datatype Step =
    | Wake(x: Id, head: bool)                    // setrunnable and the like
    | Take(x: Id)                                // picked to run, or taken off
    | ChangePri(x: Id, pri: int, head: bool)     // sched_changepri
    | LendPri(x: Id, pri: int, head: bool)       // sched_lendpri
    | Steal(x: Id, to: nat, head: bool)          // sched_catchlwp
    | Adjust(x: Id, l: Lwp)                      // anything done to an LWP that is on no queue
    | Tick(d: nat)

  predicate Known(s: State, x: Id) { x in s.lwps && s.lwps[x].cpu < |s.cpus| && PrioOk(s.lwps[x]) && Shaped(s.cpus[s.lwps[x].cpu]) }

  function WithPri(l: Lwp, pri: int): Lwp { l.(pri := pri) }

  function WithLent(l: Lwp, pri: int): Lwp { l.(inherited := pri, aux := Max(pri, l.protect)) }

  /** A step may happen if the LWP is in the state its code demands; priorities stay below PRI_COUNT. */
  predicate Enabled(s: State, step: Step) {
    match step
    case Wake(x, _) => Known(s, x) && !s.lwps[x].queued
    case Take(x) => Known(s, x) && s.lwps[x].queued
    case ChangePri(x, pri, _) => Known(s, x) && PrioOk(WithPri(s.lwps[x], pri))
    case LendPri(x, pri, _) => Known(s, x) && PrioOk(WithLent(s.lwps[x], pri))
    case Steal(x, to, _) => Known(s, x) && s.lwps[x].queued && !s.lwps[x].bound && to < |s.cpus| && Shaped(s.cpus[to])
    case Adjust(x, l) => Known(s, x) && !s.lwps[x].queued && !l.queued && l.cpu < |s.cpus| && PrioOk(l)
    case Tick(_) => true
  }

  function Enq(s: State, x: Id, head: bool): State
    requires Known(s, x)
  {
    var l := s.lwps[x];
    s.(lwps := SetQueued(s.lwps, x, true), cpus := s.cpus[l.cpu := Enqueue(s.cpus[l.cpu], x, l, head, s.now)], joined := s.joined[x := s.now])
  }

  function Deq(s: State, x: Id): State
    requires Known(s, x)
  {
    var l := s.lwps[x];
    s.(lwps := SetQueued(s.lwps, x, false), cpus := s.cpus[l.cpu := Dequeue(s.cpus[l.cpu], x, l)])
  }

  /** Take x off its queue, change it, and put it on the queue it now belongs to. */
  function Requeue(s: State, x: Id, l: Lwp, head: bool): State
    requires Known(s, x) && l.cpu < |s.cpus| && PrioOk(l) && Shaped(s.cpus[l.cpu])
  {
    var d := Deq(s, x);
    Enq(d.(lwps := d.lwps[x := l.(queued := false)]), x, head)
  }

  function Next(s: State, step: Step): State
    requires Enabled(s, step)
  {
    match step
    case Wake(x, head) => Enq(s, x, head)
    case Take(x) => Deq(s, x)
    case ChangePri(x, pri, head) =>
      var l := WithPri(s.lwps[x], pri);
      if s.lwps[x].queued then Requeue(s, x, l, head) else s.(lwps := s.lwps[x := l])
    case LendPri(x, pri, head) =>
      var l := WithLent(s.lwps[x], pri);
      if s.lwps[x].queued then Requeue(s, x, l, head) else s.(lwps := s.lwps[x := l])
    case Steal(x, to, head) => Requeue(s, x, s.lwps[x].(cpu := to), head)
    case Adjust(x, l) => s.(lwps := s.lwps[x := l])
    case Tick(d) => s.(now := s.now + d)
  }

  // ---------------------------------------------------------------- invariant

  ghost predicate CpuOk(s: State, c: nat)
    requires c < |s.cpus|
  {
    && SpcOk(s.cpus[c], c, s.lwps)
    && (s.cpus[c].since != 0 <==> s.cpus[c].count != 0)
    && s.cpus[c].since <= s.now
  }

  /** A queue has held work since no later than any LWP on it joined. */
  ghost predicate SinceOk(s: State, x: Id)
    requires x in s.lwps
  {
    s.lwps[x].queued ==> x in s.joined && s.lwps[x].cpu < |s.cpus| && s.cpus[s.lwps[x].cpu].since <= s.joined[x] <= s.now
  }

  ghost predicate Inv(s: State) {
    && s.now > 0
    && (forall c :: 0 <= c < |s.cpus| ==> CpuOk(s, c))
    && (forall x :: x in s.lwps ==> s.lwps[x].cpu < |s.cpus| && PrioOk(s.lwps[x]) && SinceOk(s, x))
  }

  /** Every queued LWP is on exactly one queue: that of its CPU and its effective priority. */
  lemma OnExactlyOneQueue(s: State, x: Id, c: nat, p: nat)
    requires Inv(s) && x in s.lwps && c < |s.cpus| && p < PRI_COUNT
    ensures Shaped(s.cpus[c])
    ensures x in s.cpus[c].queue[p] <==> s.lwps[x].queued && c == s.lwps[x].cpu && p == Eprio(s.lwps[x])
  {
    assert CpuOk(s, c);
    assert Filed(s.cpus[c], c, s.lwps, p);
  }

  lemma CountOf(s: State, c: nat)
    requires c < |s.cpus| && SpcOk(s.cpus[c], c, s.lwps) && s.cpus[c].count == 0
    ensures forall x :: x in s.lwps && s.lwps[x].queued && PrioOk(s.lwps[x]) ==> s.lwps[x].cpu != c
  {
    TotalNonNegative(s.cpus[c].queue, s.lwps, true, 0);
    forall x | x in s.lwps && s.lwps[x].queued && PrioOk(s.lwps[x]) ensures s.lwps[x].cpu != c {
      assert Filed(s.cpus[c], c, s.lwps, Eprio(s.lwps[x]));
    }
  }

  lemma CountNonNegative(s: State, c: nat)
    requires c < |s.cpus| && SpcOk(s.cpus[c], c, s.lwps)
    ensures s.cpus[c].count >= 0
  {
    TotalNonNegative(s.cpus[c].queue, s.lwps, true, 0);
  }

  lemma EnqKeeps(s: State, x: Id, head: bool)
    requires Inv(s) && Known(s, x) && !s.lwps[x].queued
    ensures Inv(Enq(s, x, head))
  {
    hide SpcOk, Enqueue, PrioOk;
    var s' := Enq(s, x, head);
    var c := s.lwps[x].cpu;
    assert CpuOk(s, c);
    CountNonNegative(s, c);
    EnqueueFields(s.cpus[c], x, s.lwps[x], head, s.now);
    EnqueueKeeps(s.cpus[c], c, s.lwps, x, head, s.now);
    forall d | 0 <= d < |s'.cpus| ensures CpuOk(s', d) {
      assert CpuOk(s, d);
      if d != c { OthersKeep(s.cpus[d], d, s.lwps, s'.lwps, x); }
    }
    if s.cpus[c].count == 0 { CountOf(s, c); }
    forall y | y in s'.lwps ensures s'.lwps[y].cpu < |s'.cpus| && PrioOk(s'.lwps[y]) && SinceOk(s', y) {
      SamePrio(s.lwps[y], s'.lwps[y]);
      assert SinceOk(s, y);
    }
  }

  lemma SamePrio(l: Lwp, l': Lwp)
    requires PrioOk(l) && l' == l.(queued := l'.queued)
    ensures PrioOk(l')
  {
  }

  lemma EnqueueFields(s: Spc, x: Id, l: Lwp, head: bool, now: int)
    requires Shaped(s) && PrioOk(l)
    ensures var s' := Enqueue(s, x, l, head, now); s'.count == s.count + 1 && s'.since == if s.count == 0 then now else s.since
  {
  }

  lemma DequeueFields(s: Spc, x: Id, l: Lwp)
    requires Shaped(s) && PrioOk(l)
    ensures var s' := Dequeue(s, x, l); s'.count == s.count - 1 && s'.since == if s.count == 1 then 0 else s.since
  {
  }

  lemma DeqKeeps(s: State, x: Id)
    requires Inv(s) && Known(s, x) && s.lwps[x].queued
    ensures Inv(Deq(s, x))
  {
    hide SpcOk, Dequeue, PrioOk;
    var s' := Deq(s, x);
    var c := s.lwps[x].cpu;
    assert CpuOk(s, c);
    if s.cpus[c].count == 0 { CountOf(s, c); }
    DequeueFields(s.cpus[c], x, s.lwps[x]);
    DequeueKeeps(s.cpus[c], c, s.lwps, x);
    forall d | 0 <= d < |s'.cpus| ensures CpuOk(s', d) {
      assert CpuOk(s, d);
      if d != c { OthersKeep(s.cpus[d], d, s.lwps, s'.lwps, x); }
    }
    if s.cpus[c].count == 1 { CountOf(s', c); }
    forall y | y in s'.lwps ensures s'.lwps[y].cpu < |s'.cpus| && PrioOk(s'.lwps[y]) && SinceOk(s', y) {
      SamePrio(s.lwps[y], s'.lwps[y]);
      assert SinceOk(s, y);
    }
  }

  /** What is on no queue may change at will. */
  lemma AdjustKeeps(s: State, x: Id, l: Lwp)
    requires Inv(s) && x in s.lwps && !s.lwps[x].queued && !l.queued && l.cpu < |s.cpus| && PrioOk(l)
    ensures Inv(s.(lwps := s.lwps[x := l]))
  {
    hide SpcOk, PrioOk;
    var s' := s.(lwps := s.lwps[x := l]);
    forall d | 0 <= d < |s'.cpus| ensures CpuOk(s', d) {
      assert CpuOk(s, d);
      OthersKeep(s.cpus[d], d, s.lwps, s'.lwps, x);
    }
    forall y | y in s'.lwps ensures s'.lwps[y].cpu < |s'.cpus| && PrioOk(s'.lwps[y]) && SinceOk(s', y) {
      assert y != x ==> SinceOk(s, y);
    }
  }

  lemma ShapedCpu(s: State, c: nat)
    requires Inv(s) && c < |s.cpus|
    ensures Shaped(s.cpus[c])
  {
    assert CpuOk(s, c);
  }

  lemma RequeueKeeps(s: State, x: Id, l: Lwp, head: bool)
    requires Inv(s) && Known(s, x) && s.lwps[x].queued && l.cpu < |s.cpus| && PrioOk(l) && Shaped(s.cpus[l.cpu])
    ensures Inv(Requeue(s, x, l, head))
  {
    hide SpcOk, Dequeue, Enqueue, PrioOk, Inv;
    DeqKeeps(s, x);
    var d := Deq(s, x);
    SamePrio(l, l.(queued := false));
    AdjustKeeps(d, x, l.(queued := false));
    var e := d.(lwps := d.lwps[x := l.(queued := false)]);
    ShapedCpu(e, l.cpu);
    EnqKeeps(e, x, head);
  }

  lemma TickKeeps(s: State, d: nat)
    requires Inv(s)
    ensures Inv(s.(now := s.now + d))
  {
    hide SpcOk, PrioOk;
    var s' := s.(now := s.now + d);
    forall c | 0 <= c < |s'.cpus| ensures CpuOk(s', c) { assert CpuOk(s, c); }
    forall y | y in s'.lwps ensures SinceOk(s', y) { assert SinceOk(s, y); }
  }

  lemma StepKeepsInv(s: State, step: Step)
    requires Inv(s) && Enabled(s, step)
    ensures Inv(Next(s, step))
  {
    hide Inv, Enq, Deq, Requeue;
    match step
    case Wake(x, head) => EnqKeeps(s, x, head);
    case Take(x) => DeqKeeps(s, x);
    case ChangePri(x, pri, head) =>
      if s.lwps[x].queued { RequeueKeeps(s, x, WithPri(s.lwps[x], pri), head); }
      else { AdjustKeeps(s, x, WithPri(s.lwps[x], pri)); }
    case LendPri(x, pri, head) =>
      if s.lwps[x].queued { RequeueKeeps(s, x, WithLent(s.lwps[x], pri), head); }
      else { AdjustKeeps(s, x, WithLent(s.lwps[x], pri)); }
    case Steal(x, to, head) => RequeueKeeps(s, x, s.lwps[x].(cpu := to), head);
    case Adjust(x, l) => AdjustKeeps(s, x, l);
    case Tick(d) => TickKeeps(s, d);
  }

  ghost predicate Run(trace: seq<State>, steps: seq<Step>) {
    && |trace| == |steps| + 1 && Inv(trace[0])
    && forall i :: 0 <= i < |steps| ==> Enabled(trace[i], steps[i]) && trace[i + 1] == Next(trace[i], steps[i])
  }

  /** Queues, bitmaps, maxima, counts and wait stamps agree at every point of every run. */
  lemma {:induction false} EveryRunKeepsInv(trace: seq<State>, steps: seq<Step>, k: nat)
    requires Run(trace, steps) && k < |trace|
    ensures Inv(trace[k])
  {
    hide Inv, Enabled, Next;
    if k > 0 {
      EveryRunKeepsInv(trace, steps, k - 1);
      assert trace[k - 1 + 1] == Next(trace[k - 1], steps[k - 1]);
      StepKeepsInv(trace[k - 1], steps[k - 1]);
    }
  }

  /** An idle boot state: nobody queued. */
  lemma BootInv(s: State)
    requires s.now > 0 && (forall x :: x in s.lwps ==> !s.lwps[x].queued && s.lwps[x].cpu < |s.cpus| && PrioOk(s.lwps[x]))
    requires forall c :: 0 <= c < |s.cpus| ==>
      s.cpus[c] == Spc(seq(PRI_COUNT, i => []), seq(WORDS, i => {}), 0, 0, 0, 0)
    ensures Inv(s)
  {
    forall c | 0 <= c < |s.cpus| ensures CpuOk(s, c) {
      EmptyTotal(s.cpus[c].queue, s.lwps, true, 0);
      EmptyTotal(s.cpus[c].queue, s.lwps, false, 0);
    }
  }

  lemma {:induction false} EmptyTotal(queue: seq<seq<Id>>, lwps: map<Id, Lwp>, all: bool, p: nat)
    requires p <= |queue| && forall k :: 0 <= k < |queue| ==> queue[k] == []
    ensures Total(queue, lwps, all, p) == 0
    decreases |queue| - p
  {
    if p < |queue| { EmptyTotal(queue, lwps, all, p + 1); }
  }

  // -------------------------------------------------------- stealing thresholds

  /** lpsched_us. */
  function Micros(from: int, to: int, mhz: int): int
    requires mhz > 0
  {
    if to > from then (to - from) / mhz else 0
  }

  /** lpsched_queue_overdue. */
  predicate Overdue(c: Spc, now: int, mhz: int, budget: int)
    requires mhz > 0
  {
    c.since != 0 && Micros(c.since, now, mhz) > budget
  }

  /** The tunables: stock threshold, packing level (0 is off), cycles per microsecond, wait budget in microseconds. */
  datatype Tunables = Tunables(minCatch: nat, pack: nat, mhz: int, budget: int)

  /** More backlog is demanded only of a timeshare queue within its budget, by a stealer whose whole core is asleep. */
  predicate HeldBack(t: Tunables, remote: Spc, now: int, siblings: seq<bool>)
    requires t.mhz > 0
  {
    && t.pack > 0 && remote.maxpri <= MAXPRI_USER && !Overdue(remote, now, t.mhz, t.budget)
    && forall i :: 0 <= i < |siblings| ==> siblings[i]
  }

  /** lpsched_min_catch, with accounting on; siblings says of each SMT sibling of the stealer whether it is idle. */
  method MinCatch(t: Tunables, remote: Spc, now: int, siblings: seq<bool>) returns (threshold: nat)
    requires t.mhz > 0
    ensures threshold == if HeldBack(t, remote, now, siblings) then t.minCatch + t.pack else t.minCatch
  {
    if t.pack == 0 || remote.maxpri > MAXPRI_USER { return t.minCatch; }
    if Overdue(remote, now, t.mhz, t.budget) { return t.minCatch; }
    var i := 0;
    while i < |siblings|
      invariant i <= |siblings| && forall j :: 0 <= j < i ==> siblings[j]
    {
      if !siblings[i] { return t.minCatch; }
      i := i + 1;
    }
    return t.minCatch + t.pack;
  }

  lemma DivMono(a: int, b: int, d: int)
    requires d > 0 && a <= b
    ensures a / d <= b / d
  {
    assert a == d * (a / d) + a % d && b == d * (b / d) + b % d;
    if a / d > b / d { MulMono(d, b / d + 1, a / d); }
  }

  /** Once an LWP has been on a queue past the budget, the queue is overdue. */
  lemma WaitersMakeOverdue(s: State, x: Id, mhz: int, budget: int)
    requires Inv(s) && x in s.lwps && s.lwps[x].queued && x in s.joined && mhz > 0 && budget >= 0
    requires Micros(s.joined[x], s.now, mhz) > budget
    ensures s.lwps[x].cpu < |s.cpus| && Overdue(s.cpus[s.lwps[x].cpu], s.now, mhz, budget)
  {
    var c := s.lwps[x].cpu;
    assert CpuOk(s, c) && SinceOk(s, x);
    if s.cpus[c].count == 0 { CountOf(s, c); }
    DivMono(s.now - s.joined[x], s.now - s.cpus[c].since, mhz);
  }

  /** At any point of any run, no stealer is held back from a queue with such an LWP. */
  lemma NeverStranded(trace: seq<State>, steps: seq<Step>, k: nat, x: Id, t: Tunables, siblings: seq<bool>)
    requires Run(trace, steps) && k < |trace| && t.mhz > 0 && t.budget >= 0
    requires x in trace[k].lwps && trace[k].lwps[x].queued && x in trace[k].joined
    requires Micros(trace[k].joined[x], trace[k].now, t.mhz) > t.budget
    ensures trace[k].lwps[x].cpu < |trace[k].cpus|
    ensures !HeldBack(t, trace[k].cpus[trace[k].lwps[x].cpu], trace[k].now, siblings)
  {
    EveryRunKeepsInv(trace, steps, k);
    WaitersMakeOverdue(trace[k], x, t.mhz, t.budget);
  }

  lemma RequeueSince(s: State, x: Id, l: Lwp, head: bool)
    requires Inv(s) && Known(s, x) && s.lwps[x].queued && l.cpu == s.lwps[x].cpu && PrioOk(l)
    ensures var c := l.cpu; Requeue(s, x, l, head).cpus[c].since == if s.cpus[c].count == 1 then s.now else s.cpus[c].since
  {
    hide Inv, Dequeue, Enqueue, PrioOk;
    var c := l.cpu;
    DequeueFields(s.cpus[c], x, s.lwps[x]);
    var d := Deq(s, x);
    var e := d.(lwps := d.lwps[x := l.(queued := false)]);
    DeqKeeps(s, x);
    ShapedCpu(d, c);
    SamePrio(l, e.lwps[x]);
    EnqueueFields(e.cpus[c], x, e.lwps[x], head, s.now);
  }

  /**
   * But joining is not waiting: a change or lend of priority of an LWP that is alone on its CPU's queues starts the
   * budget over, and one of an LWP that is not alone leaves it alone.
   */
  lemma RequeueRestartsBudget(s: State, step: Step)
    requires Inv(s) && (step.ChangePri? || step.LendPri?) && Enabled(s, step) && s.lwps[step.x].queued
    ensures var s' := Next(s, step); var c := s.lwps[step.x].cpu;
      s'.cpus[c].since == if s.cpus[c].count == 1 then s.now else s.cpus[c].since
  {
    hide Inv, Requeue, PrioOk;
    var l := s.lwps[step.x];
    RequeueSince(s, step.x, if step.ChangePri? then WithPri(l, step.pri) else WithLent(l, step.pri), step.head);
  }
}
