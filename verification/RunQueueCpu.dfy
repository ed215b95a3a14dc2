/** The run queue of one CPU as the kernel updates it, and the searches that place and steal LWPs. */
module RunQueueCpu {
  import opened Options
  import opened Queues
  import opened RunQueue
  import opened RunQueueRuns

  /** Why an LWP goes to the head of its queue when it was preempted. */
  datatype Class = Other | Fifo | RoundRobin

  /** The position POSIX wants: ranFor are the ticks since a round-robin LWP began its slice. */
  predicate AtHead(preempting: bool, cls: Class, ranFor: int, rrticks: int) {
    preempting && (cls == Fifo || (cls == RoundRobin && ranFor < rrticks))
  }

  class SchedState {
    const queue: array<seq<Id>>
    const bitmap: array<set<int>>
    var count: int
    var mcount: int
    var maxpri: int
    var since: int

    ghost predicate Valid()
      reads this, queue, bitmap
    {
      queue.Length == PRI_COUNT && bitmap.Length == WORDS
    }

    ghost function Model(): Spc
      reads this, queue, bitmap
    {
      Spc(queue[..], bitmap[..], count, mcount, maxpri, since)
    }

    constructor ()
      ensures Valid() && fresh(queue) && fresh(bitmap)
      ensures Model() == Spc(seq(PRI_COUNT, i => []), seq(WORDS, i => {}), 0, 0, 0, 0)
    {
      queue := new seq<Id>[PRI_COUNT](i => []);
      bitmap := new set<int>[WORDS](i => {});
      count, mcount, maxpri, since := 0, 0, 0, 0;
      new;
      assert queue[..] == seq(PRI_COUNT, i => []);
      assert bitmap[..] == seq(WORDS, i => {});
    }

    /** sched_enqueue. */
    method Enqueue(x: Id, l: Lwp, preempting: bool, cls: Class, ranFor: int, rrticks: int, now: int)
      requires Valid() && PrioOk(l)
      modifies this, queue, bitmap
      ensures Valid() && Model() == RunQueue.Enqueue(old(Model()), x, l, AtHead(preempting, cls, ranFor, rrticks), now)
    {
      hide Eprio;
      var eprio := Eprio(l);
      if queue[eprio] == [] {
        var i := Word(eprio);
        bitmap[i] := bitmap[i] + {Bit(eprio)};
      }
      Link(x, eprio, preempting, cls, ranFor, rrticks);
      if count == 0 { since := now; }
      count := count + 1;
      if !l.bound { mcount := mcount + 1; }
      if eprio > maxpri { maxpri := eprio; }
    }

    /** At the head or the tail of its queue, as POSIX wants. */
    method Link(x: Id, eprio: nat, preempting: bool, cls: Class, ranFor: int, rrticks: int)
      requires eprio < queue.Length
      modifies queue
      ensures queue[..] == old(queue[..])[eprio := if AtHead(preempting, cls, ranFor, rrticks) then [x] + old(queue[eprio]) else old(queue[eprio]) + [x]]
    {
      if preempting {
        match cls {
          case Other => queue[eprio] := queue[eprio] + [x];
          case Fifo => queue[eprio] := [x] + queue[eprio];
          case RoundRobin =>
            if ranFor >= rrticks { queue[eprio] := queue[eprio] + [x]; } else { queue[eprio] := [x] + queue[eprio]; }
        }
      } else {
        queue[eprio] := queue[eprio] + [x];
      }
    }

    /** sched_dequeue, with its search for the new maximum. */
    method Dequeue(x: Id, l: Lwp)
      requires Valid() && PrioOk(l)
      modifies this, queue, bitmap
      ensures Valid() && Model() == RunQueue.Dequeue(old(Model()), x, l)
    {
      hide Highest, LowestBit;
      var eprio := Eprio(l);
      count := count - 1;
      if count == 0 { since := 0; }
      if !l.bound { mcount := mcount - 1; }
      queue[eprio] := Without(queue[eprio], x);
      if queue[eprio] == [] {
        var i := Word(eprio);
        bitmap[i] := bitmap[i] - {Bit(eprio)};
        if eprio != maxpri { return; }
        maxpri := FindHighest(i);
      }
    }

    /** The loop down the words. */
    method FindHighest(from: nat) returns (p: int)
      requires Valid() && from < WORDS
      ensures p == Highest(bitmap[..], from)
    {
      var i := from;
      while true
        invariant 0 <= i <= from && Highest(bitmap[..], i) == Highest(bitmap[..], from)
        decreases i
      {
        if bitmap[i] != {} {
          var q := FindFirstSet(bitmap[i]);
          return i * 32 + (32 - q);
        }
        if i == 0 { return 0; }
        i := i - 1;
      }
    }

    /** ffs. */
    static method FindFirstSet(w: set<int>) returns (q: int)
      requires w != {}
      ensures q == Ffs(w)
    {
      var b := 0;
      while b < 32 && b !in w
        invariant 0 <= b <= 32 && LowestBit(w, b) == LowestBit(w, 0)
      {
        b := b + 1;
      }
      return b + 1;
    }

    /** sched_nextlwp: the first LWP of the highest priority that has one, and nobody only if a thread migrates or nobody is queued. */
    method NextLwp(migrating: bool, ghost c: nat, ghost lwps: map<Id, Lwp>) returns (next: Option<Id>)
      requires Valid() && SpcOk(Model(), c, lwps)
      ensures next.None? <==> migrating || forall x :: x in lwps && lwps[x].queued && lwps[x].cpu == c ==> !PrioOk(lwps[x])
      ensures next.Some? ==> (
        && next.value in lwps && lwps[next.value].queued && lwps[next.value].cpu == c
        && forall x :: x in lwps && lwps[x].queued && lwps[x].cpu == c && PrioOk(lwps[x]) ==> Eprio(lwps[x]) <= Eprio(lwps[next.value]))
    {
      hide Eprio, WordOk, Marked;
      ghost var s := Model();
      assert MaxOk(s);
      TotalNonNegative(s.queue, lwps, true, 0);
      forall x | x in lwps && lwps[x].queued && lwps[x].cpu == c && PrioOk(lwps[x])
        ensures Eprio(lwps[x]) <= s.maxpri && s.queue[Eprio(lwps[x])] != []
      {
        assert Filed(s, c, lwps, Eprio(lwps[x]));
      }
      if migrating { return None; }
      if count == 0 { return None; }
      SomebodyAtMax(s, c, lwps);
      assert Filed(s, c, lwps, s.maxpri);
      next := Some(queue[maxpri][0]);
      assert queue[maxpri][0] in s.queue[s.maxpri];
    }

    /**
     * sched_catchlwp up to the move: the first LWP of the highest priority that may go. threshold is 1 for a
     * better stealer, else what lpsched_min_catch says; movable says who may migrate to it and is not cache hot.
     */
    method CatchLwp(threshold: int, samePset: bool, movable: set<Id>) returns (l: Option<Id>)
      requires Valid() && 0 <= maxpri < PRI_COUNT
      ensures l.Some? ==> mcount >= threshold && samePset && l.value in queue[maxpri] && l.value in movable
      ensures l.Some? ==> exists i :: 0 <= i < |queue[maxpri]| && queue[maxpri][i] == l.value && forall j :: 0 <= j < i ==> queue[maxpri][j] !in movable
      ensures l.None? <==> mcount < threshold || !samePset || forall x :: x in queue[maxpri] ==> x !in movable
    {
      if mcount < threshold || !samePset { return None; }
      var q := queue[maxpri];
      var i := 0;
      while i < |q|
        invariant i <= |q| && forall j :: 0 <= j < i ==> q[j] !in movable
      {
        if q[i] in movable { return Some(q[i]); }
        i := i + 1;
      }
      return None;
    }
  }

  lemma SomebodyAtMax(s: Spc, c: nat, lwps: map<Id, Lwp>)
    requires SpcOk(s, c, lwps) && s.count != 0
    ensures s.queue[s.maxpri] != []
  {
    if s.queue[s.maxpri] == [] {
      forall p | 0 <= p < PRI_COUNT ensures s.queue[p] == [] { }
      EmptyTotal(s.queue, lwps, true, 0);
    }
  }

  // ---------------------------------------------------------------- packing

  const IDLE_SHALLOW: int := 1

  /** An SMT sibling: idle, or running focused or realtime work. */
  datatype Sibling = Sibling(idle: bool, critical: bool)

  /** A sibling that is awake with focused or realtime work. */
  predicate Guarded(siblings: seq<Sibling>, n: nat)
    requires n <= |siblings|
  {
    exists i :: 0 <= i < n && !siblings[i].idle && siblings[i].critical
  }

  predicate Awake(siblings: seq<Sibling>) { exists i :: 0 <= i < |siblings| && !siblings[i].idle }

  /** lpsched_wake_cost: free beside a running sibling, unless accounting is on and that one must not be disturbed. */
  method WakeCost(accounting: bool, siblings: seq<Sibling>, depth: int) returns (cost: int)
    ensures cost == if accounting && Guarded(siblings, |siblings|) then 1 + IDLE_SHALLOW else if Awake(siblings) then 0 else 1 + depth
  {
    cost := -1;
    var i := 0;
    while i < |siblings|
      invariant i <= |siblings| && !(accounting && Guarded(siblings, i))
      invariant cost == if Awake(siblings[..i]) then 0 else -1
    {
      if !siblings[i].idle {
        if accounting && siblings[i].critical { return 1 + IDLE_SHALLOW; }
        cost := 0;
        assert siblings[..i + 1][i] == siblings[i];
      }
      assert siblings[..i + 1] == siblings[..i] + [siblings[i]];
      i := i + 1;
    }
    assert siblings[..i] == siblings;
    if cost != 0 { cost := 1 + depth; }
  }

  /** What lpsched_pack_pick looks at in a CPU; cost is its wake cost. */
  datatype Cpu = Cpu(migratable: bool, idle: bool, cost: int, count: int, curpri: int, critical: bool, burst: int)

  predicate Wakeable(c: Cpu) { c.migratable && c.idle }

  /** Running timeshare work alone; with accounting on, not focused and with bursts known to end within the budget. */
  predicate Joinable(c: Cpu, accounting: bool, budget: int) {
    && c.migratable && !c.idle && c.count == 0 && c.curpri <= MAXPRI_USER
    && (accounting ==> !c.critical && 0 < c.burst <= budget)
  }

  /** i is a wakeable CPU of least cost among the first n. */
  predicate Cheapest(cpus: seq<Cpu>, n: nat, i: nat)
    requires n <= |cpus|
  {
    i < n && Wakeable(cpus[i]) && forall j :: 0 <= j < n && Wakeable(cpus[j]) ==> cpus[i].cost <= cpus[j].cost
  }

  /**
   * lpsched_pack_pick over the CPUs in ring order: a CPU that costs nothing to wake; else, from level 2 on, a
   * running CPU that may be joined; else the cheapest to wake, the LWP's own CPU if that is as cheap.
   */
  method PackPick(cpus: seq<Cpu>, home: nat, pack: nat, accounting: bool, budget: int) returns (best: Option<nat>)
    requires forall i :: 0 <= i < |cpus| ==> cpus[i].cost >= 0
    ensures best.Some? ==> best.value < |cpus| && (Cheapest(cpus, |cpus|, best.value) || (pack >= 2 && Joinable(cpus[best.value], accounting, budget)))
    ensures best.Some? && !cpus[best.value].idle ==> forall j :: 0 <= j < |cpus| && Wakeable(cpus[j]) ==> cpus[j].cost > 0
    ensures best.None? ==> forall j :: 0 <= j < |cpus| ==> !Wakeable(cpus[j]) && (pack >= 2 ==> !Joinable(cpus[j], accounting, budget))
    ensures best.Some? && cpus[best.value].idle && cpus[best.value].cost > 0 && pack >= 2 ==>
      forall j :: 0 <= j < |cpus| ==> !Joinable(cpus[j], accounting, budget)
    ensures best.Some? && cpus[best.value].idle && home < |cpus| && Wakeable(cpus[home]) && cpus[home].cost == cpus[best.value].cost ==>
      best.value == home
  {
    best := CheapestIdle(cpus, home);
    if best.Some? && cpus[best.value].cost == 0 { return; }
    if pack >= 2 {
      var i := 0;
      while i < |cpus|
        invariant i <= |cpus| && forall j :: 0 <= j < i ==> !Joinable(cpus[j], accounting, budget)
      {
        if Joinable(cpus[i], accounting, budget) { return Some(i); }
        i := i + 1;
      }
    }
  }

  method CheapestIdle(cpus: seq<Cpu>, home: nat) returns (best: Option<nat>)
    ensures best.Some? ==> Cheapest(cpus, |cpus|, best.value)
    ensures best.None? ==> forall j :: 0 <= j < |cpus| ==> !Wakeable(cpus[j])
    ensures best.Some? && home < |cpus| && Wakeable(cpus[home]) && cpus[home].cost == cpus[best.value].cost ==> best.value == home
  {
    best := None;
    var i := 0;
    while i < |cpus|
      invariant i <= |cpus| && (best.Some? ==> Cheapest(cpus, i, best.value))
      invariant best.None? ==> forall j :: 0 <= j < i ==> !Wakeable(cpus[j])
      invariant best.Some? && home < i && Wakeable(cpus[home]) && cpus[home].cost == cpus[best.value].cost ==> best.value == home
    {
      if Wakeable(cpus[i]) {
        if best.None? || cpus[i].cost < cpus[best.value].cost || (cpus[i].cost == cpus[best.value].cost && i == home) {
          best := Some(i);
        }
      }
      i := i + 1;
    }
  }
}
