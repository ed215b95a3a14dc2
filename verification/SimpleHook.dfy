/**
 * Simple hook lists (kern_hook.c): one thread runs the hooks with the list lock dropped around each callback, while
 * others establish and disestablish hooks. Each region under a lock is one step, or several.
 */
module SimpleHook {
  import opened Options
  import opened Queues

  type Hook = nat
  type Lwp = nat

  /** Where the running thread is: between callbacks at a node or past the last, in a callback, or about to broadcast. */
  datatype Runner = Idle | At(lwp: Lwp, cursor: Option<Hook>) | In(lwp: Lwp, hd: Hook) | Broadcasting(lwp: Lwp, hd: Hook)

  /** A thread in simplehook_disestablish: holding its own lock on the way to cv_wait, in cv_wait, or woken. */
  datatype Waiter = Entering(h: Hook) | Waiting(h: Hook) | Woken(h: Hook)

  /**
   * `live` are the nodes whose function is set; `freed` those given back; `start` the live nodes when the run began
   * and `ran` the callbacks it made; `gone` the hooks whose removal has returned to another thread than the runner.
   */
  datatype State = State(list: seq<Hook>, live: set<Hook>, freed: set<Hook>, runner: Runner, cvlock: bool,
                         waiters: map<Lwp, Waiter>, start: set<Hook>, ran: seq<Hook>, gone: set<Hook>)

  datatype Step =
    | Establish(h: Hook)
    | Begin(l: Lwp)                                   // simplehook_dohooks enters
    | Advance                                         // skip a removed node, or start its callback
    | Return                                          // the callback is over
    | Broadcast                                       // after taking the waiter's lock
    | Sweep                                           // free what was removed meanwhile
    | Disestablish(t: Lwp, h: Hook, locked: bool)
    | EnterWait(t: Lwp)                               // cv_wait releases the waiter's lock
    | Resume(t: Lwp)                                  // the woken thread returns

  predicate Enabled(s: State, step: Step) {
    match step
    case Establish(h) => h !in s.list && h !in s.freed && h !in s.live && h !in s.gone && h !in s.start
    case Begin(_) => s.runner.Idle?
    case Advance => s.runner.At? && s.runner.cursor.Some?
    case Return => s.runner.In?
    case Broadcast => s.runner.Broadcasting? && forall t :: t in s.waiters ==> !s.waiters[t].Entering?
    case Sweep => s.runner.At? && s.runner.cursor.None?
    case Disestablish(t, h, _) => h in s.list && h in s.live && t !in s.waiters
    case EnterWait(t) => t in s.waiters && s.waiters[t].Entering?
    case Resume(t) => t in s.waiters && s.waiters[t].Woken?
  }

  function After(list: seq<Hook>, h: Hook): Option<Hook> {
    if list == [] then None
    else if list[0] == h then (if |list| > 1 then Some(list[1]) else None)
    else After(list[1..], h)
  }

  function First(list: seq<Hook>): Option<Hook> { if list == [] then None else Some(list[0]) }

  function Live(list: seq<Hook>, live: set<Hook>): seq<Hook> {
    if list == [] then [] else (if list[0] in live then [list[0]] else []) + Live(list[1..], live)
  }

  /** cv_broadcast. */
  function WakeAll(waiters: map<Lwp, Waiter>): map<Lwp, Waiter> {
    map t | t in waiters :: if waiters[t].Waiting? then Woken(waiters[t].h) else waiters[t]
  }

  function Next(s: State, step: Step): State
    requires Enabled(s, step)
  {
    match step
    case Establish(h) => s.(list := [h] + s.list, live := s.live + {h})
    case Begin(l) => s.(runner := At(l, First(s.list)), start := (set h | h in s.list && h in s.live), ran := [])
    case Advance =>
      var hd := s.runner.cursor.value;
      if hd !in s.live then s.(runner := At(s.runner.lwp, After(s.list, hd)))
      else s.(runner := In(s.runner.lwp, hd), ran := s.ran + [hd], cvlock := false)
    case Return =>
      var hd := s.runner.hd;
      if hd in s.live then s.(runner := At(s.runner.lwp, After(s.list, hd)))
      else if s.cvlock then s.(runner := Broadcasting(s.runner.lwp, hd))
      else s.(runner := At(s.runner.lwp, After(s.list, hd)), waiters := WakeAll(s.waiters))
    case Broadcast => s.(runner := At(s.runner.lwp, After(s.list, s.runner.hd)), waiters := WakeAll(s.waiters))
    case Sweep =>
      s.(list := Live(s.list, s.live), freed := s.freed + (set h | h in s.list && h !in s.live), runner := Runner.Idle)
    case Disestablish(t, h, locked) =>
      if s.runner.Idle? then s.(list := Without(s.list, h), live := s.live - {h}, freed := s.freed + {h}, gone := s.gone + {h})
      else if s.runner.In? && s.runner.hd == h && s.runner.lwp != t then
        s.(live := s.live - {h}, cvlock := s.cvlock || locked, waiters := s.waiters[t := if locked then Entering(h) else Waiting(h)])
      else s.(live := s.live - {h}, gone := if s.runner.lwp == t then s.gone else s.gone + {h})
    case EnterWait(t) => s.(waiters := s.waiters[t := Waiting(s.waiters[t].h)])
    case Resume(t) => s.(waiters := s.waiters - {t}, gone := s.gone + {s.waiters[t].h})
  }

  // ---------------------------------------------------------------- invariant

  /** The hook whose callback may be running. */
  predicate Running(s: State, h: Hook) { s.runner.In? && s.runner.hd == h }

  /** A thread in the handshake waits for a removed hook, and somebody will still wake it unless it was woken already. */
  predicate WaiterOk(s: State, w: Waiter) {
    && w.h !in s.live && (w.h in s.list || w.h in s.freed)
    && (match w
        case Entering(h) => s.cvlock && ((s.runner.In? && s.runner.hd == h) || (s.runner.Broadcasting? && s.runner.hd == h))
        case Waiting(h) => (s.runner.In? && s.runner.hd == h) || (s.runner.Broadcasting? && s.runner.hd == h)
        case Woken(h) => !Running(s, h))
  }

  /** The nodes from c on. */
  function From(list: seq<Hook>, c: Option<Hook>): seq<Hook> {
    if list == [] || c.None? then []
    else if list[0] == c.value then list
    else From(list[1..], c)
  }

  /** The nodes the walk has still to come to. */
  function Todo(s: State): seq<Hook> {
    match s.runner
    case Idle => []
    case At(_, c) => From(s.list, c)
    case In(_, hd) => From(s.list, After(s.list, hd))
    case Broadcasting(_, hd) => From(s.list, After(s.list, hd))
  }

  /** A hook that was there at the start is still to come, or ran, or was removed. */
  ghost predicate Turn(s: State, h: Hook) { h in s.start ==> h in s.list && (h in Todo(s) || h in s.ran || h !in s.live) }

  /** The run so far: no hook twice, none that came later, and none that is still to come. */
  ghost predicate Walking(s: State) {
    && (match s.runner
        case Idle => true
        case At(_, c) => c.Some? ==> c.value in s.list
        case In(_, hd) => hd in s.list && hd in s.ran
        case Broadcasting(_, hd) => hd in s.list && hd in s.ran && hd !in s.live)
    && NoDups(s.ran)
    && (forall h :: h in s.ran ==> h in s.start && h !in Todo(s))
    && (!s.runner.Idle? ==> forall h :: Turn(s, h))
    && (forall h :: h in Todo(s) && h in s.live ==> h in s.start)
  }

  ghost predicate Listed(s: State) {
    && NoDups(s.list)
    && (forall h :: h in s.list ==> h !in s.freed)
    && (forall h :: h in s.live ==> h in s.list)
    && (s.runner.Idle? ==> forall h :: h in s.list ==> h in s.live)
    && (forall h :: h in s.gone ==> h !in s.live && !Running(s, h))
  }

  ghost predicate Inv(s: State) {
    Listed(s) && Walking(s) && forall t :: t in s.waiters ==> WaiterOk(s, s.waiters[t])
  }

  // ------------------------------------------------------------- list lemmas

  lemma {:induction false} FromMembers(list: seq<Hook>, c: Option<Hook>)
    requires NoDups(list)
    ensures NoDups(From(list, c)) && (forall h :: h in From(list, c) ==> h in list)
    ensures c.Some? && c.value in list ==> From(list, c) != [] && From(list, c)[0] == c.value
  {
    if list != [] { FromMembers(list[1..], c); }
  }

  /** Stepping to the next node drops the first of what is to come. */
  lemma {:induction false} FromAfter(list: seq<Hook>, h: Hook)
    requires NoDups(list) && h in list
    ensures From(list, Some(h)) != [] && From(list, Some(h))[0] == h && From(list, After(list, h)) == From(list, Some(h))[1..]
    ensures After(list, h).Some? ==> After(list, h).value in list
    ensures h !in From(list, After(list, h))
  {
    if list[0] == h {
      if |list| > 1 {
        assert From(list, Some(list[1])) == From(list[1..], Some(list[1])) == list[1..];
        assert h !in list[1..];
      }
    } else {
      FromAfter(list[1..], h);
      if After(list, h).Some? { assert After(list, h).value in list[1..] && list[0] !in list[1..]; }
    }
  }

  /** A node put at the head is behind the walk. */
  lemma FromHead(h: Hook, list: seq<Hook>, c: Option<Hook>)
    requires h !in list && (c.Some? ==> c.value in list)
    ensures From([h] + list, c) == From(list, c)
  {
    assert ([h] + list)[1..] == list;
  }

  lemma AfterHead(h: Hook, list: seq<Hook>, x: Hook)
    requires h !in list && x in list
    ensures After([h] + list, x) == After(list, x)
  {
    assert ([h] + list)[1..] == list;
  }

  lemma {:induction false} LiveMembers(list: seq<Hook>, live: set<Hook>)
    requires NoDups(list)
    ensures NoDups(Live(list, live)) && forall h :: h in Live(list, live) <==> h in list && h in live
  {
    if list != [] {
      LiveMembers(list[1..], live);
      assert list[0] !in list[1..];
      NoDupsConcat([list[0]], Live(list[1..], live));
    }
  }

  // ------------------------------------------------------------------- steps

  lemma EstablishKeeps(s: State, h: Hook)
    requires Inv(s) && Enabled(s, Establish(h))
    ensures Inv(Next(s, Establish(h)))
  {
    hide From, After;
    var s' := Next(s, Establish(h));
    NoDupsConcat([h], s.list);
    SameTodo(s, h);
    FromIn(s);
    forall x ensures Turn(s', x) || s.runner.Idle? { assert s.runner.Idle? || Turn(s, x); }
    forall t | t in s'.waiters ensures WaiterOk(s', s'.waiters[t]) { assert WaiterOk(s, s.waiters[t]); }
  }

  lemma FromIn(s: State)
    requires NoDups(s.list)
    ensures forall x :: x in Todo(s) ==> x in s.list
  {
    match s.runner
    case Idle =>
    case At(_, c) => FromMembers(s.list, c);
    case In(_, hd) => FromMembers(s.list, After(s.list, hd));
    case Broadcasting(_, hd) => FromMembers(s.list, After(s.list, hd));
  }

  lemma SameTodo(s: State, h: Hook)
    requires NoDups(s.list) && h !in s.list && Walking(s)
    ensures Todo(s.(list := [h] + s.list, live := s.live + {h})) == Todo(s)
  {
    match s.runner
    case Idle =>
    case At(_, c) => FromHead(h, s.list, c);
    case In(_, hd) =>
      AfterHead(h, s.list, hd);
      FromAfter(s.list, hd);
      FromHead(h, s.list, After(s.list, hd));
    case Broadcasting(_, hd) =>
      AfterHead(h, s.list, hd);
      FromAfter(s.list, hd);
      FromHead(h, s.list, After(s.list, hd));
  }

  lemma BeginKeeps(s: State, l: Lwp)
    requires Inv(s) && Enabled(s, Begin(l))
    ensures Inv(Next(s, Begin(l)))
  {
    var s' := Next(s, Begin(l));
    assert From(s.list, First(s.list)) == s.list;
    forall t | t in s'.waiters ensures WaiterOk(s', s'.waiters[t]) { assert WaiterOk(s, s.waiters[t]); }
  }

  lemma AdvanceKeeps(s: State)
    requires Inv(s) && Enabled(s, Advance)
    ensures Inv(Next(s, Advance))
  {
    hide From, After;
    var s' := Next(s, Advance);
    var hd := s.runner.cursor.value;
    FromAfter(s.list, hd);
    FromMembers(s.list, Some(hd));
    assert Todo(s) == [hd] + Todo(s');
    assert hd in Todo(s);
    if hd in s.live { NoDupsConcat(s.ran, [hd]); }
    forall x ensures Turn(s', x) { assert Turn(s, x); }
    forall t | t in s'.waiters ensures WaiterOk(s', s'.waiters[t]) { assert WaiterOk(s, s.waiters[t]); }
  }

  lemma ReturnKeeps(s: State)
    requires Inv(s) && Enabled(s, Return)
    ensures Inv(Next(s, Return))
  {
    hide From, After;
    var s' := Next(s, Return);
    FromAfter(s.list, s.runner.hd);
    assert Todo(s') == Todo(s);
    forall x ensures Turn(s', x) { assert Turn(s, x); }
    forall t | t in s'.waiters ensures WaiterOk(s', s'.waiters[t]) { assert WaiterOk(s, s.waiters[t]); }
  }

  lemma BroadcastKeeps(s: State)
    requires Inv(s) && Enabled(s, Broadcast)
    ensures Inv(Next(s, Broadcast))
  {
    hide From, After;
    var s' := Next(s, Broadcast);
    FromAfter(s.list, s.runner.hd);
    assert Todo(s') == Todo(s);
    forall x ensures Turn(s', x) { assert Turn(s, x); }
    forall t | t in s'.waiters ensures WaiterOk(s', s'.waiters[t]) { assert WaiterOk(s, s.waiters[t]); }
  }

  lemma SweepKeeps(s: State)
    requires Inv(s) && Enabled(s, Sweep)
    ensures Inv(Next(s, Sweep))
  {
    var s' := Next(s, Sweep);
    LiveMembers(s.list, s.live);
    forall t | t in s'.waiters ensures WaiterOk(s', s'.waiters[t]) { assert WaiterOk(s, s.waiters[t]); }
  }

  /** Removal while nobody walks the list. */
  lemma RemoveKeeps(s: State, t: Lwp, h: Hook, locked: bool)
    requires Inv(s) && Enabled(s, Disestablish(t, h, locked)) && s.runner.Idle?
    ensures Inv(Next(s, Disestablish(t, h, locked)))
  {
    var s' := Next(s, Disestablish(t, h, locked));
    WithoutNoDups(s.list, h);
    forall u | u in s'.waiters ensures WaiterOk(s', s'.waiters[u]) { assert WaiterOk(s, s.waiters[u]); }
  }

  lemma DisestablishKeeps(s: State, t: Lwp, h: Hook, locked: bool)
    requires Inv(s) && Enabled(s, Disestablish(t, h, locked))
    ensures Inv(Next(s, Disestablish(t, h, locked)))
  {
    if s.runner.Idle? {
      RemoveKeeps(s, t, h, locked);
    } else {
      hide From, After, Without;
      var s' := Next(s, Disestablish(t, h, locked));
      assert Todo(s') == Todo(s);
      hide Todo;
      forall x ensures Turn(s', x) { assert Turn(s, x); }
      forall u | u in s'.waiters ensures WaiterOk(s', s'.waiters[u]) { assert u != t ==> WaiterOk(s, s.waiters[u]); }
    }
  }

  lemma WaitKeeps(s: State, step: Step)
    requires Inv(s) && Enabled(s, step) && (step.EnterWait? || step.Resume?)
    ensures Inv(Next(s, step))
  {
    hide From, After;
    var s' := Next(s, step);
    assert WaiterOk(s, s.waiters[step.t]);
    if !s.runner.Idle? { forall x ensures Turn(s', x) { assert Turn(s, x); } }
    forall u | u in s'.waiters ensures WaiterOk(s', s'.waiters[u]) { assert WaiterOk(s, s.waiters[u]); }
  }

  lemma StepKeepsInv(s: State, step: Step)
    requires Inv(s) && Enabled(s, step)
    ensures Inv(Next(s, step))
  {
    hide Inv, Next;
    match step
    case Establish(h) => EstablishKeeps(s, h);
    case Begin(l) => BeginKeeps(s, l);
    case Advance => AdvanceKeeps(s);
    case Return => ReturnKeeps(s);
    case Broadcast => BroadcastKeeps(s);
    case Sweep => SweepKeeps(s);
    case Disestablish(t, h, locked) => DisestablishKeeps(s, t, h, locked);
    case EnterWait(t) => WaitKeeps(s, step);
    case Resume(t) => WaitKeeps(s, step);
  }

  // --------------------------------------------------------------------- runs

  ghost predicate Trace(trace: seq<State>, steps: seq<Step>) {
    && |trace| == |steps| + 1 && Inv(trace[0])
    && forall i :: 0 <= i < |steps| ==> Enabled(trace[i], steps[i]) && trace[i + 1] == Next(trace[i], steps[i])
  }

  lemma {:induction false} EveryRunKeepsInv(trace: seq<State>, steps: seq<Step>, k: nat)
    requires Trace(trace, steps) && k < |trace|
    ensures Inv(trace[k])
  {
    hide Inv, Enabled, Next;
    if k > 0 {
      EveryRunKeepsInv(trace, steps, k - 1);
      assert trace[k - 1 + 1] == Next(trace[k - 1], steps[k - 1]);
      StepKeepsInv(trace[k - 1], steps[k - 1]);
    }
  }

  /** An empty list that nobody runs. */
  predicate Fresh(s: State) { s == State([], {}, {}, Runner.Idle, s.cvlock, map[], {}, [], {}) }

  lemma FreshInv(s: State)
    requires Fresh(s)
    ensures Inv(s)
  {
  }

  // ------------------------------------------------- every hook has its turn

  /** The walk comes to hook h: its callback is made if it is still there, and it is skipped if not. */
  predicate ComesTo(s: State, step: Step, h: Hook) { step == Advance && s.runner.At? && s.runner.cursor == Some(h) }

  /** During a run the hooks to come are taken from the front, one by one, and nothing is freed. */
  lemma WalkStep(s: State, step: Step)
    requires Inv(s) && Enabled(s, step) && !s.runner.Idle? && step != Sweep
    ensures var s' := Next(s, step);
      && !s'.runner.Idle? && s'.start == s.start && s'.freed == s.freed
      && (if step == Advance then
            && Todo(s) == [s.runner.cursor.value] + Todo(s')
            && s'.ran == s.ran + if s.runner.cursor.value in s.live then [s.runner.cursor.value] else []
          else Todo(s') == Todo(s) && s'.ran == s.ran)
  {
    hide From, After;
    match step
    case Establish(h) => SameTodo(s, h);
    case Advance =>
      FromAfter(s.list, s.runner.cursor.value);
    case Return => FromAfter(s.list, s.runner.hd);
    case Broadcast => FromAfter(s.list, s.runner.hd);
    case _ =>
  }

  lemma TodoNoDups(s: State)
    requires Inv(s)
    ensures NoDups(Todo(s))
  {
    match s.runner
    case Idle =>
    case At(_, c) => FromMembers(s.list, c);
    case In(_, hd) => FromMembers(s.list, After(s.list, hd));
    case Broadcasting(_, hd) => FromMembers(s.list, After(s.list, hd));
  }

  /** Whether or not the walk comes to h now decides whether h is still to come, and whether it has run. */
  lemma TurnStep(s: State, step: Step, h: Hook)
    requires Inv(s) && Enabled(s, step) && !s.runner.Idle? && step != Sweep
    ensures ComesTo(s, step, h) ==> h in Todo(s)
    ensures h in Todo(Next(s, step)) <==> h in Todo(s) && !ComesTo(s, step, h)
    ensures h in Next(s, step).ran <==> h in s.ran || (ComesTo(s, step, h) && h in s.live)
  {
    WalkStep(s, step);
    TodoNoDups(s);
    if step == Advance { HeadIsOut(s.runner.cursor.value, Todo(Next(s, step))); }
    hide Inv, Next, Todo;
  }

  lemma HeadIsOut(h: Hook, q: seq<Hook>)
    requires NoDups([h] + q)
    ensures h !in q
  {
    assert forall i :: 0 <= i < |q| ==> ([h] + q)[i + 1] == q[i] && ([h] + q)[0] == h;
  }

  /** Between i and k the hooks are being run. */
  ghost predicate During(trace: seq<State>, steps: seq<Step>, i: nat, k: nat) {
    Trace(trace, steps) && i <= k < |trace| && !trace[i].runner.Idle? && forall j :: i <= j < k ==> steps[j] != Sweep
  }

  /** A hook that is not to come any more keeps its fate. */
  lemma {:induction false} TurnIsOver(trace: seq<State>, steps: seq<Step>, i: nat, k: nat, h: Hook)
    requires During(trace, steps, i, k) && h !in Todo(trace[i])
    ensures !trace[k].runner.Idle? && trace[k].start == trace[i].start && trace[k].freed == trace[i].freed
    ensures h in trace[k].ran <==> h in trace[i].ran
    ensures forall j :: i <= j < k ==> !ComesTo(trace[j], steps[j], h)
    decreases k - i
  {
    hide Inv, Next, Enabled, Todo, ComesTo;
    if i < k {
      EveryRunKeepsInv(trace, steps, i);
      WalkStep(trace[i], steps[i]);
      TurnStep(trace[i], steps[i], h);
      TurnIsOver(trace, steps, i + 1, k, h);
    }
  }

  lemma {:induction false} TurnComes(trace: seq<State>, steps: seq<Step>, i: nat, k: nat, h: Hook) returns (m: nat)
    requires During(trace, steps, i, k) && h in Todo(trace[i]) && Todo(trace[k]) == []
    ensures i <= m < k && ComesTo(trace[m], steps[m], h) && trace[k].freed == trace[i].freed && trace[k].start == trace[i].start
    ensures forall j :: i <= j < k && ComesTo(trace[j], steps[j], h) ==> j == m
    ensures h in trace[k].ran <==> h in trace[i].ran || h in trace[m].live
    decreases k - i
  {
    hide Inv, Next, Enabled, Todo, ComesTo;
    assert i < k;
    EveryRunKeepsInv(trace, steps, i);
    WalkStep(trace[i], steps[i]);
    TurnStep(trace[i], steps[i], h);
    if ComesTo(trace[i], steps[i], h) {
      m := i;
      TurnIsOver(trace, steps, i + 1, k, h);
    } else {
      m := TurnComes(trace, steps, i + 1, k, h);
    }
  }

  lemma RunBegins(s: State, l: Lwp, h: Hook)
    requires Inv(s) && Enabled(s, Begin(l))
    ensures var s' := Next(s, Begin(l)); s'.freed == s.freed && s'.ran == [] && (h in s'.start <==> h in Todo(s'))
  {
    assert From(s.list, First(s.list)) == s.list;
  }

  /**
   * A run of the hooks, from Begin to Sweep. Each hook that was there at its start has exactly one turn, and runs,
   * once, if and only if it has not been removed by then; no other hook runs; and nothing is freed.
   */
  lemma RunIsComplete(trace: seq<State>, steps: seq<Step>, b: nat, k: nat, h: Hook) returns (m: nat)
    requires Trace(trace, steps) && b < k < |steps| && steps[b].Begin? && steps[k] == Sweep
    requires forall j :: b < j < k ==> steps[j] != Sweep
    ensures NoDups(trace[k].ran) && trace[k].freed == trace[b].freed
    ensures h !in trace[b + 1].start ==> h !in trace[k].ran
    ensures h in trace[b + 1].start ==>
      && b < m < k && ComesTo(trace[m], steps[m], h)
      && (forall j :: b < j < k && ComesTo(trace[j], steps[j], h) ==> j == m)
      && (h in trace[k].ran <==> h in trace[m].live)
  {
    EveryRunKeepsInv(trace, steps, b);
    EveryRunKeepsInv(trace, steps, k);
    assert Enabled(trace[b], steps[b]) && trace[b + 1] == Next(trace[b], steps[b]) && Enabled(trace[k], steps[k]);
    RunBegins(trace[b], steps[b].l, h);
    assert !trace[b + 1].runner.Idle?;
    assert Todo(trace[k]) == [];
    assert NoDups(trace[k].ran);
    hide Inv, Next, Todo, ComesTo;
    assert During(trace, steps, b + 1, k);
    if h in trace[b + 1].start {
      m := TurnComes(trace, steps, b + 1, k, h);
    } else {
      TurnIsOver(trace, steps, b + 1, k, h);
      m := b;
    }
  }

  /** No node is freed while the hooks are being run. */
  lemma NothingFreedInWalk(s: State, step: Step)
    requires Inv(s) && Enabled(s, step) && !s.runner.Idle? && step != Sweep
    ensures Next(s, step).freed == s.freed && forall h :: h in s.list ==> h in Next(s, step).list
  {
  }

  lemma GoneStep(s: State, step: Step, h: Hook)
    requires Inv(s) && Enabled(s, step) && h in s.gone
    ensures h in Next(s, step).gone
  {
  }

  /** Once a removal has returned to another thread, the callback is not running and never runs again. */
  lemma {:induction false} GoneForGood(trace: seq<State>, steps: seq<Step>, j: nat, k: nat, h: Hook)
    requires Trace(trace, steps) && j <= k < |trace| && h in trace[j].gone
    ensures h in trace[k].gone && !Running(trace[k], h) && h !in trace[k].live
    decreases k - j
  {
    hide Enabled, Next, Walking;
    EveryRunKeepsInv(trace, steps, k);
    if j < k {
      GoneForGood(trace, steps, j, k - 1, h);
      EveryRunKeepsInv(trace, steps, k - 1);
      assert trace[k - 1 + 1] == Next(trace[k - 1], steps[k - 1]);
      GoneStep(trace[k - 1], steps[k - 1], h);
    }
  }

  /** No wakeup is lost: a thread in the handshake is woken already, or the runner is still in or just behind its hook. */
  lemma NoLostWakeup(trace: seq<State>, steps: seq<Step>, k: nat, t: Lwp)
    requires Trace(trace, steps) && k < |trace| && t in trace[k].waiters
    ensures trace[k].waiters[t].Woken? ||
      ((trace[k].runner.In? || trace[k].runner.Broadcasting?) && trace[k].runner.hd == trace[k].waiters[t].h)
  {
    EveryRunKeepsInv(trace, steps, k);
    assert WaiterOk(trace[k], trace[k].waiters[t]);
  }
}
