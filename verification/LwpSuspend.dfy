/**
 * Suspending and continuing the LWPs of a process (kern_lwp.c, kern_synch.c), without debugger suspension.
 * Regions under p_lock and the LWP's lock are one step; lwp_userret's unlocked read of l_flag is a step of its own.
 */
module LwpSuspend {

  type Id = nat

  datatype Stat = Idl | Run | OnProc | Sleep | Stop | Suspended | Zomb

  /** Where an LWP is: after lwp_userret's unlocked read that saw LW_WSUSPEND, about to call mi_switch having given up the CPU, or elsewhere. */
  datatype Place = Elsewhere | SawSuspend | Leaving

  /** wchan: on a sleep queue; sintr: LW_SINTR; running: LP_RUNNING; reboot: LW_WREBOOT; exiting: LW_WEXIT or LW_WCORE. */
  datatype Lwp = Lwp(stat: Stat, wsuspend: bool, wchan: bool, sintr: bool, running: bool, reboot: bool, exiting: bool, place: Place)

  datatype State = State(lwps: map<Id, Lwp>, nrlwps: int)

  datatype Step =
    | Suspend(cur: Id, t: Id)      // lwp_suspend
    | Continue(t: Id)              // lwp_continue
    | ReadFlag(l: Id)              // lwp_userret: the unlocked read
    | Recheck(l: Id)               // lwp_userret: under the locks
    | Leave(l: Id)                 // mi_switch after a suspension, block or stop
    | Dispatch(l: Id)              // picked by the scheduler
    | Yield(l: Id)                 // mi_switch of a running LWP
    | Block(l: Id, sintr: bool)    // onto a sleep queue
    | Wake(l: Id)                  // off it again
    | StopOne(l: Id)               // stopped by a signal
    | Unstop(l: Id)                // lwp_unstop
    | Create(cur: Id, l: Id)       // lwp_create in the same process
    | StartUp(l: Id, suspended: bool, stopping: bool)  // lwp_start
    | Reboot(l: Id)                // suspendsched
    | MarkExiting(l: Id)           // LW_WEXIT or LW_WCORE is set
    | Exit(l: Id)                  // lwp_exit

  /** The states that p_nrlwps counts; lwp_create counts an idle newborn too. */
  predicate Counts(l: Lwp) { l.stat == Run || l.stat == OnProc || l.stat == Sleep || l.stat == Idl }

  /** The states in which setrunnable does not panic. */
  predicate CanSetRunnable(l: Lwp) { l.stat == Stop || l.stat == Suspended || (l.stat == Sleep && l.wchan) || l.stat == Idl }

  /** setrunnable: what becomes of the LWP, and by how much p_nrlwps grows. */
  function SetRunnable(l: Lwp): Lwp
    requires CanSetRunnable(l)
  {
    l.(wsuspend := if l.stat == Suspended then false else l.wsuspend, wchan := false, stat := if l.running then OnProc else Run)
  }

  function Growth(l: Lwp): int { if l.stat == Stop || l.stat == Suspended then 1 else 0 }

  function Put(s: State, x: Id, l: Lwp, by': int): State { State(s.lwps[x := l], s.nrlwps + by') }

  function MadeRunnable(s: State, x: Id): State
    requires x in s.lwps && CanSetRunnable(s.lwps[x])
  {
    Put(s, x, SetRunnable(s.lwps[x]), Growth(s.lwps[x]))
  }

  predicate Enabled(s: State, step: Step) {
    match step
    case Suspend(cur, t) => cur in s.lwps && t in s.lwps && (cur == t ==> s.lwps[t].stat == OnProc)
    case Continue(t) => t in s.lwps
    case ReadFlag(l) => l in s.lwps && s.lwps[l].stat == OnProc && s.lwps[l].place == Elsewhere
    case Recheck(l) => l in s.lwps && s.lwps[l].stat == OnProc && s.lwps[l].place == SawSuspend
    case Leave(l) => l in s.lwps && s.lwps[l].place == Leaving && s.lwps[l].running
    case Dispatch(l) => l in s.lwps && s.lwps[l].stat == Run
    case Yield(l) => l in s.lwps && s.lwps[l].stat == OnProc && s.lwps[l].place != Leaving
    case Block(l, _) => l in s.lwps && s.lwps[l].stat == OnProc && s.lwps[l].place == Elsewhere
    case Wake(l) => l in s.lwps && s.lwps[l].stat == Sleep
    case StopOne(l) => l in s.lwps && (s.lwps[l].stat == Sleep || (s.lwps[l].stat == OnProc && s.lwps[l].place == Elsewhere))
    case Unstop(l) => l in s.lwps && s.lwps[l].stat == Stop
    case Create(cur, l) => cur in s.lwps && l !in s.lwps
    case StartUp(l, _, _) => l in s.lwps && s.lwps[l].stat == Idl
    case Reboot(l) => l in s.lwps
    case MarkExiting(l) => l in s.lwps
    case Exit(l) => l in s.lwps && s.lwps[l].stat == OnProc && s.lwps[l].place == Elsewhere
  }

  /** lwp_suspend; a sleeping LWP has a wait channel, as LwpOk says. */
  function SuspendLwp(s: State, cur: Id, t: Id): State
    requires cur in s.lwps && t in s.lwps
  {
    var l := s.lwps[t];
    if s.lwps[cur].exiting then s
    else match l.stat
      case Run => Put(s, t, l.(wsuspend := true), 0)
      case OnProc => Put(s, t, l.(wsuspend := true), 0)
      case Sleep =>
        var s1 := Put(s, t, l.(wsuspend := true), 0);
        if l.sintr && l.wchan then MadeRunnable(s1, t) else s1
      case Suspended => s
      case Stop => MadeRunnable(Put(s, t, l.(wsuspend := true), 0), t)
      case Idl => s
      case Zomb => s
  }

  /** lwp_continue. */
  function ContinueLwp(s: State, t: Id): State
    requires t in s.lwps
  {
    var l := s.lwps[t];
    if l.reboot then s
    else
      var s1 := Put(s, t, l.(wsuspend := false), 0);
      if l.stat == Suspended then MadeRunnable(s1, t) else s1
  }

  /** The region of suspendsched for one LWP. */
  function RebootLwp(s: State, t: Id): State
    requires t in s.lwps
  {
    var l := s.lwps[t];
    var s1 := Put(s, t, l.(wsuspend := true, reboot := true), 0);
    if l.stat == Sleep && l.sintr && l.wchan then MadeRunnable(s1, t) else s1
  }

  /** A new LWP: LW_WREBOOT and, within the process, LW_WEXIT and LW_WCORE are copied. */
  function Newborn(reboot: bool, exiting: bool): Lwp { Lwp(Idl, false, false, false, false, reboot, exiting, Elsewhere) }

  function Next(s: State, step: Step): State
    requires Enabled(s, step)
  {
    match step
    case Suspend(cur, t) => SuspendLwp(s, cur, t)
    case Continue(t) => ContinueLwp(s, t)
    case ReadFlag(l) => if s.lwps[l].wsuspend then Put(s, l, s.lwps[l].(place := SawSuspend), 0) else s
    case Recheck(l) =>
      if !s.lwps[l].wsuspend then Put(s, l, s.lwps[l].(place := Elsewhere), 0)
      else Put(s, l, s.lwps[l].(stat := Suspended, place := Leaving), -1)
    case Leave(l) =>
      // An LWP made runnable again in the meantime is OnProc and merely yields.
      Put(s, l, s.lwps[l].(place := Elsewhere, running := false, stat := if s.lwps[l].stat == OnProc then Run else s.lwps[l].stat), 0)
    case Dispatch(l) => Put(s, l, s.lwps[l].(stat := OnProc, running := true), 0)
    case Yield(l) => Put(s, l, s.lwps[l].(stat := Run, running := false), 0)
    case Block(l, sintr) => Put(s, l, s.lwps[l].(stat := Sleep, wchan := true, sintr := sintr, place := Leaving), 0)
    case Wake(l) => Put(s, l, s.lwps[l].(stat := if s.lwps[l].running then OnProc else Run, wchan := false), 0)
    case StopOne(l) => Put(s, l, s.lwps[l].(stat := Stop, place := if s.lwps[l].running then Leaving else Elsewhere), -1)
    case Unstop(l) =>
      if !s.lwps[l].wchan || s.lwps[l].sintr then MadeRunnable(s, l) else Put(s, l, s.lwps[l].(stat := Sleep), 1)
    case Create(cur, l) => Put(s, l, Newborn(s.lwps[cur].reboot, s.lwps[cur].exiting), 1)
    case StartUp(l, suspended, stopping) =>
      var l1 := s.lwps[l].(wsuspend := s.lwps[l].wsuspend || suspended);
      if stopping then Put(s, l, l1.(stat := Stop), -1) else MadeRunnable(Put(s, l, l1, 0), l)
    case Reboot(l) => RebootLwp(s, l)
    case MarkExiting(l) => Put(s, l, s.lwps[l].(exiting := true), 0)
    case Exit(l) => Put(s, l, s.lwps[l].(stat := Zomb, running := false), -1)
  }

  // ---------------------------------------------------------------- invariant

  ghost function Counting(s: State): set<Id> { set x | x in s.lwps && Counts(s.lwps[x]) }

  /** Suspended only if asked to; on a sleep queue while sleeping; running flag and place agree with the state. */
  predicate LwpOk(l: Lwp) {
    && (l.stat == Suspended ==> l.wsuspend)
    && (l.stat == Sleep ==> l.wchan)
    && (l.stat == OnProc ==> l.running)
    && (l.stat == Run || l.stat == Idl ==> !l.running && l.place != Leaving)
    && (l.place == Leaving ==> l.running && (l.stat == Suspended || l.stat == OnProc || l.stat == Sleep || l.stat == Stop))
    && (l.place == SawSuspend ==> l.stat == OnProc || l.stat == Run)
    && (l.stat == Idl || l.stat == Run || l.stat == OnProc ==> !l.wchan)
    && (l.running ==> l.stat == OnProc || l.place == Leaving)
  }

  ghost predicate Inv(s: State) { s.nrlwps == |Counting(s)| && forall x :: x in s.lwps ==> LwpOk(s.lwps[x]) }

  /** The counting LWPs other than x, and x if it counts. */
  lemma CountingSplit(s: State, x: Id)
    ensures Counting(s) == if x in s.lwps && Counts(s.lwps[x]) then (Counting(s) - {x}) + {x} else Counting(s) - {x}
    ensures |Counting(s)| == |Counting(s) - {x}| + if x in s.lwps && Counts(s.lwps[x]) then 1 else 0
  {
  }

  /** Changing one LWP changes the count by the difference. */
  lemma PutCounts(s: State, x: Id, l: Lwp, d: int)
    requires Inv(s) && LwpOk(l)
    requires d == (if Counts(l) then 1 else 0) - (if x in s.lwps && Counts(s.lwps[x]) then 1 else 0)
    ensures Inv(Put(s, x, l, d))
  {
    hide Counts, LwpOk;
    var s' := Put(s, x, l, d);
    assert Counting(s') - {x} == Counting(s) - {x};
    hide Counting;
    CountingSplit(s, x);
    CountingSplit(s', x);
  }

  /** setrunnable is only called where it does not panic, and keeps the count. */
  lemma SetRunnableKeeps(s: State, x: Id)
    requires Inv(s) && x in s.lwps && CanSetRunnable(s.lwps[x])
    ensures Inv(MadeRunnable(s, x))
  {
    assert LwpOk(s.lwps[x]);
    PutCounts(s, x, SetRunnable(s.lwps[x]), Growth(s.lwps[x]));
  }

  lemma SuspendKeeps(s: State, cur: Id, t: Id)
    requires Inv(s) && Enabled(s, Suspend(cur, t))
    ensures Inv(SuspendLwp(s, cur, t))
  {
    hide Counting;
    var l := s.lwps[t];
    assert LwpOk(l);
    PutCounts(s, t, l.(wsuspend := true), 0);
    var s1 := Put(s, t, l.(wsuspend := true), 0);
    if CanSetRunnable(s1.lwps[t]) { SetRunnableKeeps(s1, t); }
  }

  lemma ContinueKeeps(s: State, t: Id)
    requires Inv(s) && t in s.lwps
    ensures Inv(ContinueLwp(s, t))
  {
    hide Counting;
    var l := s.lwps[t];
    assert LwpOk(l);
    if l.stat == Suspended {
      SetRunnableKeeps(s, t);
      assert ContinueLwp(s, t) == if l.reboot then s else MadeRunnable(s, t);
    } else {
      PutCounts(s, t, l.(wsuspend := false), 0);
    }
  }

  lemma RebootKeeps(s: State, t: Id)
    requires Inv(s) && t in s.lwps
    ensures Inv(RebootLwp(s, t))
  {
    hide Counting;
    var l := s.lwps[t];
    assert LwpOk(l);
    PutCounts(s, t, l.(wsuspend := true, reboot := true), 0);
    var s1 := Put(s, t, l.(wsuspend := true, reboot := true), 0);
    if CanSetRunnable(s1.lwps[t]) { SetRunnableKeeps(s1, t); }
  }

  lemma StartKeeps(s: State, x: Id, suspended: bool, stopping: bool)
    requires Inv(s) && Enabled(s, StartUp(x, suspended, stopping))
    ensures Inv(Next(s, StartUp(x, suspended, stopping)))
  {
    hide Counting;
    var l := s.lwps[x];
    assert LwpOk(l);
    var l1 := l.(wsuspend := l.wsuspend || suspended);
    PutCounts(s, x, l1, 0);
    if stopping { PutCounts(s, x, l1.(stat := Stop), -1); } else { SetRunnableKeeps(Put(s, x, l1, 0), x); }
  }

  lemma StepKeepsInv(s: State, step: Step)
    requires Inv(s) && Enabled(s, step)
    ensures Inv(Next(s, step))
  {
    hide Counting, Inv;
    match step
    case Suspend(cur, t) => SuspendKeeps(s, cur, t);
    case Continue(t) => ContinueKeeps(s, t);
    case StartUp(l, suspended, stopping) => StartKeeps(s, l, suspended, stopping);
    case Unstop(l) =>
      AllOk(s, l);
      if !s.lwps[l].wchan || s.lwps[l].sintr { SetRunnableKeeps(s, l); } else { PutCounts(s, l, s.lwps[l].(stat := Sleep), 1); }
    case Create(cur, l) => PutCounts(s, l, Newborn(s.lwps[cur].reboot, s.lwps[cur].exiting), 1);
    case ReadFlag(l) => AllOk(s, l); PutCounts(s, l, Next(s, step).lwps[l], 0);
    case Recheck(l) => AllOk(s, l); PutCounts(s, l, Next(s, step).lwps[l], if s.lwps[l].wsuspend then -1 else 0);
    case Leave(l) => AllOk(s, l); PutCounts(s, l, Next(s, step).lwps[l], 0);
    case Dispatch(l) => AllOk(s, l); PutCounts(s, l, Next(s, step).lwps[l], 0);
    case Yield(l) => AllOk(s, l); PutCounts(s, l, Next(s, step).lwps[l], 0);
    case Block(l, _) => AllOk(s, l); PutCounts(s, l, Next(s, step).lwps[l], 0);
    case Wake(l) => AllOk(s, l); PutCounts(s, l, Next(s, step).lwps[l], 0);
    case StopOne(l) => AllOk(s, l); PutCounts(s, l, Next(s, step).lwps[l], -1);
    case Reboot(l) => RebootKeeps(s, l);
    case MarkExiting(l) => AllOk(s, l); PutCounts(s, l, Next(s, step).lwps[l], 0);
    case Exit(l) => AllOk(s, l); PutCounts(s, l, Next(s, step).lwps[l], -1);
  }

  lemma AllOk(s: State, x: Id)
    requires Inv(s) && x in s.lwps
    ensures LwpOk(s.lwps[x])
  {
  }

  // --------------------------------------------------------------------- runs

  /** A process as fork makes it: one new LWP, held for reboot if its parent is. */
  predicate Forked(s: State, first: Id, reboot: bool) { s == State(map[first := Newborn(reboot, false)], 1) }

  lemma ForkedInv(s: State, first: Id, reboot: bool)
    requires Forked(s, first, reboot)
    ensures Inv(s)
  {
    assert Counting(s) == {first};
  }

  ghost predicate Trace(trace: seq<State>, steps: seq<Step>) {
    && |trace| == |steps| + 1 && Inv(trace[0])
    && forall i :: 0 <= i < |steps| ==> Enabled(trace[i], steps[i]) && trace[i + 1] == Next(trace[i], steps[i])
  }

  /** In every reachable state a suspended LWP has LW_WSUSPEND set, and p_nrlwps is the number of LWPs that count. */
  lemma {:induction false} EveryRunKeepsInv(trace: seq<State>, steps: seq<Step>, k: nat)
    requires Trace(trace, steps) && k < |trace|
    ensures Inv(trace[k])
  {
    hide Inv, Enabled, Next;
    if k > 0 {
      EveryRunKeepsInv(trace, steps, k - 1);
      assert trace[k - 1 + 1] == Next(trace[k - 1], steps[k - 1]);
      StepKeepsInv(trace[k - 1], steps[k - 1]);
    }
  }

  /** A step that asks for t to be suspended. */
  predicate Asks(step: Step, t: Id) {
    (step.Suspend? && step.t == t) || (step.StartUp? && step.l == t && step.suspended) || (step.Reboot? && step.l == t)
  }

  lemma QuietStep(s: State, step: Step, t: Id)
    requires Inv(s) && Enabled(s, step) && t in s.lwps && !s.lwps[t].wsuspend && !Asks(step, t)
    ensures t in Next(s, step).lwps && !Next(s, step).lwps[t].wsuspend
  {
  }

  /** What lwp_continue leaves: a suspension, asked for or carried out, if and only if the LWP is held for reboot. */
  lemma ContinueResumes(s: State, t: Id)
    requires Inv(s) && t in s.lwps
    ensures var l, l' := s.lwps[t], ContinueLwp(s, t).lwps[t];
      && (l'.stat == Suspended <==> l.stat == Suspended && l.reboot)
      && (l'.wsuspend <==> l.wsuspend && l.reboot)
  {
  }

  lemma {:induction false} StaysQuiet(trace: seq<State>, steps: seq<Step>, t: Id, j: nat, k: nat)
    requires Trace(trace, steps) && j <= k < |trace| && t in trace[j].lwps && !trace[j].lwps[t].wsuspend
    requires forall i :: j <= i < k ==> !Asks(steps[i], t)
    ensures t in trace[k].lwps && !trace[k].lwps[t].wsuspend
    decreases k - j
  {
    hide Inv, Next, Enabled;
    if j < k {
      StaysQuiet(trace, steps, t, j, k - 1);
      EveryRunKeepsInv(trace, steps, k - 1);
      assert trace[k - 1 + 1] == Next(trace[k - 1], steps[k - 1]);
      QuietStep(trace[k - 1], steps[k - 1], t);
    }
  }

  /**
   * The last request wins: after a continue of an LWP that is not both asked to suspend and held for reboot, as
   * long as nobody, suspendsched included, asks again, it is not suspended at any later point, wherever it was
   * in lwp_userret. ContinueIsLost shows that the condition is needed.
   */
  lemma LastContinueWins(trace: seq<State>, steps: seq<Step>, t: Id, j: nat, k: nat)
    requires Trace(trace, steps) && j < k < |trace| && steps[j] == Continue(t)
    requires !(trace[j].lwps[t].wsuspend && trace[j].lwps[t].reboot)
    requires forall i :: j < i < k ==> !Asks(steps[i], t)
    ensures t in trace[k].lwps && trace[k].lwps[t].stat != Suspended
  {
    EveryRunKeepsInv(trace, steps, j);
    ContinueResumes(trace[j], t);
    assert trace[j + 1] == Next(trace[j], steps[j]);
    StaysQuiet(trace, steps, t, j + 1, k);
    EveryRunKeepsInv(trace, steps, k);
    AllOk(trace[k], t);
  }

  // ------------------------------------------ when a continue is lost

  /** A run of steps in which nobody asks for t to be suspended. */
  ghost predicate QuietRun(s: State, steps: seq<Step>, t: Id)
    decreases |steps|
  {
    steps == [] || (Enabled(s, steps[0]) && !Asks(steps[0], t) && QuietRun(Next(s, steps[0]), steps[1..], t))
  }

  ghost function After(s: State, steps: seq<Step>, t: Id): State
    requires QuietRun(s, steps, t)
    decreases |steps|
  {
    if steps == [] then s else After(Next(s, steps[0]), steps[1..], t)
  }

  lemma QuietCons(s: State, step: Step, rest: seq<Step>, t: Id)
    requires Enabled(s, step) && !Asks(step, t) && QuietRun(Next(s, step), rest, t)
    ensures QuietRun(s, [step] + rest, t) && After(s, [step] + rest, t) == After(Next(s, step), rest, t)
  {
    assert ([step] + rest)[1..] == rest;
  }

  /** How far an LWP is from suspending itself. */
  function Distance(l: Lwp): nat {
    match l.stat
    case Suspended => 0
    case OnProc => if l.place == SawSuspend then 1 else if l.place == Elsewhere then 2 else 4
    case Run => 3
    case Sleep => 5
    case Stop => 6
    case Idl => 7
    case Zomb => 8
  }

  /** The next step on the way there. */
  function Towards(s: State, t: Id): Step
    requires t in s.lwps
  {
    var l := s.lwps[t];
    match l.stat
    case OnProc => if l.place == SawSuspend then Recheck(t) else if l.place == Elsewhere then ReadFlag(t) else Leave(t)
    case Run => Dispatch(t)
    case Sleep => Wake(t)
    case Stop => Unstop(t)
    case Idl => StartUp(t, false, false)
    case Suspended => Dispatch(t)
    case Zomb => Dispatch(t)
  }

  lemma TowardsIsNearer(s: State, t: Id)
    requires Inv(s) && t in s.lwps && s.lwps[t].wsuspend && s.lwps[t].stat != Zomb && s.lwps[t].stat != Suspended
    ensures var step := Towards(s, t); Enabled(s, step) && !Asks(step, t) && Inv(Next(s, step))
    ensures var l' := Next(s, Towards(s, t)).lwps[t];
      l'.wsuspend && l'.stat != Zomb && Distance(l') < Distance(s.lwps[t]) && l'.reboot == s.lwps[t].reboot
  {
    AllOk(s, t);
    StepKeepsInv(s, Towards(s, t));
  }

  /** An LWP flagged for suspension that has not exited can come to be suspended without anybody asking again. */
  lemma {:induction false} FlaggedCanSuspend(s: State, t: Id) returns (steps: seq<Step>)
    requires Inv(s) && t in s.lwps && s.lwps[t].wsuspend && s.lwps[t].stat != Zomb
    ensures QuietRun(s, steps, t) && t in After(s, steps, t).lwps && After(s, steps, t).lwps[t].stat == Suspended
    decreases Distance(s.lwps[t])
  {
    if s.lwps[t].stat == Suspended {
      steps := [];
    } else {
      TowardsIsNearer(s, t);
      var step := Towards(s, t);
      hide Inv, Next, Enabled, Asks, Towards;
      var rest := FlaggedCanSuspend(Next(s, step), t);
      QuietCons(s, step, rest, t);
      steps := [step] + rest;
    }
  }

  /**
   * The exception is real, for every LWP that was asked to suspend and is held for reboot, as suspendsched leaves
   * each of them: after lwp_continue there is a run in which nobody asks again and which ends with it suspended.
   */
  lemma ContinueIsLost(s: State, t: Id) returns (steps: seq<Step>)
    requires Inv(s) && t in s.lwps && s.lwps[t].wsuspend && s.lwps[t].reboot && s.lwps[t].stat != Zomb
    ensures QuietRun(s, [Continue(t)] + steps, t)
    ensures var s' := After(s, [Continue(t)] + steps, t); t in s'.lwps && s'.lwps[t].stat == Suspended
  {
    steps := FlaggedCanSuspend(s, t);
    assert Next(s, Continue(t)) == s;
    QuietCons(s, Continue(t), steps, t);
  }

  /** What suspendsched makes of an LWP: held for reboot, asked to suspend, and not in an interruptible sleep. */
  function Held(l: Lwp): (l': Lwp)
    ensures l'.wsuspend && l'.reboot && !(LwpOk(l) && l'.stat == Sleep && l'.sintr) && (l'.stat == Zomb <==> l.stat == Zomb)
  {
    var l1 := l.(wsuspend := true, reboot := true);
    if l.stat == Sleep && l.sintr && l.wchan then SetRunnable(l1) else l1
  }

  lemma RebootHolds(s: State, t: Id)
    requires t in s.lwps
    ensures RebootLwp(s, t) == State(s.lwps[t := Held(s.lwps[t])], s.nrlwps)
  {
    assert s.lwps[t := s.lwps[t].(wsuspend := true, reboot := true)][t := Held(s.lwps[t])] == s.lwps[t := Held(s.lwps[t])];
  }
}
