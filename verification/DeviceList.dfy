/**
 * The device list under attach, detach and garbage collection with any number of walks open; each region under
 * alldevs_lock is one step.
 */
module DeviceList {
  import opened Words
  import opened Queues
  import opened DeviceWalk

  /**
   * `writers` are the attach and detach operations that hold alldevs_nwrite; `got` is what each open walk has
   * returned and `want` what it had to return when it began.
   */
  datatype State = State(list: seq<Dev>, info: map<Dev, Info>, gen: nat, nread: int, nwrite: int, garbage: bool,
                         writers: set<nat>, walks: map<nat, Walk>, got: map<nat, seq<Dev>>, want: map<nat, seq<Dev>>)

  datatype Step =
    | Attach(d: Dev, depth: nat)               // config_devlink
    | WriterEnter(op: nat)                     // config_makeroom, config_detach_enter
    | WriterExit(op: nat)                      // an attach, or a detach that failed
    | Detached(op: nat, d: Dev)                // the tail of config_detach_release
    | Collect                                  // config_collect_garbage
    | Init(id: nat, rw: bool, mode: Mode)      // deviter_init
    | Walked(id: nat)                          // deviter_next
    | Release(id: nat)                         // deviter_release

  predicate Enabled(s: State, step: Step) {
    match step
    case Attach(d, _) => d !in s.info
    case WriterEnter(op) => op !in s.writers
    case WriterExit(op) => op in s.writers
    case Detached(op, d) => op in s.writers && d in s.list && d in s.info
    case Collect => true
    case Init(id, _, _) => id !in s.walks
    case Walked(id) => id in s.walks && id in s.got && id in s.want && WalkOk(s.list, s.walks[id])
    case Release(id) => id in s.walks
  }

  /** The first loop of deviter_init. */
  function Deepest(list: seq<Dev>, info: map<Dev, Info>, gen: nat): int {
    if list == [] then 0
    else Max(if Visits(info, list[0], gen) then DepthOf(info, list[0]) else 0, Deepest(list[1..], info, gen))
  }

  function NewWalk(s: State, rw: bool, mode: Mode): Walk {
    var deepest := Deepest(s.list, s.info, s.gen);
    Walk(s.gen, rw, mode, Start(s.list, rw), if mode == LeavesFirst then deepest else 0, if mode == RootFirst then deepest else 0)
  }

  /** The devices that are not marked deleted. */
  function Kept(list: seq<Dev>, info: map<Dev, Info>): seq<Dev> {
    if list == [] then []
    else (if list[0] in info && info[list[0]].delGen != 0 then [] else [list[0]]) + Kept(list[1..], info)
  }

  /** Unlink what is marked, if nobody is in the list. */
  function Collected(s: State): State {
    if s.nwrite == 0 && s.nread == 0 && s.garbage then s.(list := Kept(s.list, s.info), garbage := false) else s
  }

  function Next(s: State, step: Step): State
    requires Enabled(s, step)
  {
    match step
    case Attach(d, depth) => s.(list := s.list + [d], info := s.info[d := Info(s.gen, 0, depth)])
    case WriterEnter(op) => s.(nwrite := s.nwrite + 1, writers := s.writers + {op})
    case WriterExit(op) => s.(nwrite := s.nwrite - 1, writers := s.writers - {op})
    case Detached(op, d) =>
      var s1 := s.(nwrite := s.nwrite - 1, writers := s.writers - {op});
      if s.info[d].delGen != 0 then s1
      else if s1.nwrite == 0 && s1.nread == 0 then s1.(list := Without(s1.list, d))
      else s1.(info := s.info[d := s.info[d].(delGen := s.gen)], garbage := true)
    case Collect => Collected(s)
    case Init(id, rw, mode) =>
      var w := NewWalk(s, rw, mode);
      s.(gen := s.gen + 1, nread := if rw then s.nread else s.nread + 1, nwrite := if rw then s.nwrite + 1 else s.nwrite,
         walks := s.walks[id := w], got := s.got[id := []], want := s.want[id := if WalkOk(s.list, w) then Rest(s.list, s.info, w) else []])
    case Walked(id) =>
      var (d, w) := DeviceWalk.Next(s.list, s.info, s.walks[id]);
      s.(walks := s.walks[id := w], got := if d.Some? then s.got[id := s.got[id] + [d.value]] else s.got)
    case Release(id) =>
      s.(nread := if s.walks[id].rw then s.nread else s.nread - 1, nwrite := if s.walks[id].rw then s.nwrite - 1 else s.nwrite,
         walks := s.walks - {id}, got := s.got - {id}, want := s.want - {id})
  }

  // ---------------------------------------------------------------- invariant

  function Openers(s: State, rw: bool): set<nat> { set id | id in s.walks && s.walks[id].rw == rw }

  /** Every open walk and every writer is counted, so nobody unlinks under them. */
  predicate Counted(s: State) { s.nread == |Openers(s, false)| && s.nwrite == |Openers(s, true)| + |s.writers| }

  /** What a walk has returned and what it has still to return make up what it had to return. */
  ghost predicate Progress(s: State, id: nat)
    requires id in s.walks
  {
    && id in s.got && id in s.want && WalkOk(s.list, s.walks[id]) && s.walks[id].gen < s.gen
    && s.want[id] == s.got[id] + Rest(s.list, s.info, s.walks[id])
  }

  ghost predicate Inv(s: State) {
    && NoDups(s.list) && s.gen >= 1 && Counted(s)
    && (forall d :: d in s.list ==> d in s.info)
    && (forall d :: d in s.info ==> s.info[d].addGen <= s.gen && s.info[d].delGen <= s.gen)
    && (forall id :: id in s.walks ==> Progress(s, id))
  }

  lemma OpenMeansCounted(s: State)
    requires Counted(s) && s.nread == 0 && s.nwrite == 0
    ensures s.walks == map[] && s.writers == {}
  {
    assert Openers(s, false) == {} && Openers(s, true) == {};
    assert forall id :: id in s.walks ==> id in Openers(s, s.walks[id].rw);
  }

  lemma {:induction false} DeepestCovers(list: seq<Dev>, info: map<Dev, Info>, gen: nat)
    ensures Covers(list, info, gen, Deepest(list, info, gen))
  {
    if list != [] { DeepestCovers(list[1..], info, gen); }
  }

  lemma {:induction false} KeptKeeps(list: seq<Dev>, info: map<Dev, Info>)
    requires NoDups(list)
    ensures NoDups(Kept(list, info)) && forall d :: d in Kept(list, info) ==> d in list
    ensures forall d :: d in list && !(d in info && info[d].delGen != 0) ==> d in Kept(list, info)
  {
    if list != [] {
      KeptKeeps(list[1..], info);
      assert list[0] !in list[1..];
      NoDupsConcat([list[0]], Kept(list[1..], info));
    }
  }

  /** Every open walk goes on unharmed by changes it does not see. */
  lemma ProgressKept(s: State, s': State, id: nat)
    requires id in s.walks && Progress(s, id) && Unseen(s.list, s.info, s'.list, s'.info, s.walks[id].gen)
    requires id in s'.walks && s'.walks[id] == s.walks[id] && id in s'.got && id in s'.want
    requires s'.got[id] == s.got[id] && s'.want[id] == s.want[id] && s'.gen >= s.gen
    ensures Progress(s', id)
  {
    RestUnseen(s.list, s.info, s'.list, s'.info, s.walks[id]);
  }

  lemma AttachKeeps(s: State, d: Dev, depth: nat)
    requires Inv(s) && Enabled(s, Attach(d, depth))
    ensures Inv(Next(s, Attach(d, depth)))
  {
    hide Rest;
    var s' := Next(s, Attach(d, depth));
    NoDupsConcat(s.list, [d]);
    assert Openers(s', true) == Openers(s, true) && Openers(s', false) == Openers(s, false);
    forall id | id in s'.walks ensures Progress(s', id) {
      assert Progress(s, id);
      ProgressKept(s, s', id);
    }
  }

  /** The counts after a step that leaves the walks alone. */
  lemma SameOpeners(s: State, s': State)
    requires s'.walks == s.walks
    ensures Openers(s', true) == Openers(s, true) && Openers(s', false) == Openers(s, false)
  {
  }

  lemma DetachedKeeps(s: State, op: nat, d: Dev)
    requires Inv(s) && Enabled(s, Detached(op, d))
    ensures Inv(Next(s, Detached(op, d)))
  {
    hide Rest, Openers;
    var s1 := s.(nwrite := s.nwrite - 1, writers := s.writers - {op});
    WriterKeeps(s, s1);
    if s.info[d].delGen == 0 {
      if s1.nwrite == 0 && s1.nread == 0 { UnlinkKeeps(s1, d); } else { MarkKeeps(s1, d); }
    }
  }

  lemma UnlinkKeeps(s: State, d: Dev)
    requires Inv(s) && s.nwrite == 0 && s.nread == 0
    ensures Inv(s.(list := Without(s.list, d)))
  {
    hide Rest;
    var s' := s.(list := Without(s.list, d));
    SameOpeners(s, s');
    OpenMeansCounted(s);
    WithoutNoDups(s.list, d);
  }

  lemma MarkKeeps(s: State, d: Dev)
    requires Inv(s) && d in s.info && s.info[d].delGen == 0
    ensures Inv(s.(info := s.info[d := s.info[d].(delGen := s.gen)], garbage := true))
  {
    hide Rest, Openers;
    var s' := s.(info := s.info[d := s.info[d].(delGen := s.gen)], garbage := true);
    SameOpeners(s, s');
    forall id | id in s'.walks ensures Progress(s', id) {
      assert Progress(s, id);
      ProgressKept(s, s', id);
    }
  }

  lemma InitKeeps(s: State, id: nat, rw: bool, mode: Mode)
    requires Inv(s) && Enabled(s, Init(id, rw, mode))
    ensures Inv(Next(s, Init(id, rw, mode)))
  {
    hide Rest, Openers;
    var s' := Next(s, Init(id, rw, mode));
    var w := NewWalk(s, rw, mode);
    hide NewWalk, Deepest;
    assert WalkOk(s.list, w) && w.rw == rw && w.gen == s.gen by { NewWalkFields(s, rw, mode); }
    MoreOpeners(s, s', id, w);
    assert s'.want[id] == [] + Rest(s.list, s.info, w);
    forall j | j in s'.walks ensures Progress(s', j) { assert j != id ==> Progress(s, j); }
  }

  lemma NewWalkFields(s: State, rw: bool, mode: Mode)
    ensures var w := NewWalk(s, rw, mode); WalkOk(s.list, w) && w.rw == rw && w.gen == s.gen
  {
  }

  lemma MoreOpeners(s: State, s': State, id: nat, w: Walk)
    requires id !in s.walks && s'.walks == s.walks[id := w]
    ensures |Openers(s', w.rw)| == |Openers(s, w.rw)| + 1 && |Openers(s', !w.rw)| == |Openers(s, !w.rw)|
  {
    assert Openers(s', w.rw) == Openers(s, w.rw) + {id} && Openers(s', !w.rw) == Openers(s, !w.rw);
  }

  lemma WalkedKeeps(s: State, id: nat)
    requires Inv(s) && Enabled(s, Walked(id))
    ensures Inv(Next(s, Walked(id)))
  {
    hide Rest, DeviceWalk.Next;
    var s' := Next(s, Walked(id));
    NextTakesFirst(s.list, s.info, s.walks[id]);
    assert Progress(s, id);
    var (d, w) := DeviceWalk.Next(s.list, s.info, s.walks[id]);
    if d.Some? {
      var rest := Rest(s.list, s.info, w);
      assert s.got[id] + ([d.value] + rest) == (s.got[id] + [d.value]) + rest;
    }
    assert Openers(s', true) == Openers(s, true) && Openers(s', false) == Openers(s, false);
    forall j | j in s'.walks ensures Progress(s', j) { assert Progress(s, j); }
  }

  lemma ReleaseKeeps(s: State, id: nat)
    requires Inv(s) && Enabled(s, Release(id))
    ensures Inv(Next(s, Release(id)))
  {
    hide Rest;
    var s' := Next(s, Release(id));
    var rw := s.walks[id].rw;
    assert Openers(s', rw) == Openers(s, rw) - {id} && Openers(s', !rw) == Openers(s, !rw);
    assert id in Openers(s, rw);
    forall j | j in s'.walks ensures Progress(s', j) { assert Progress(s, j); }
  }

  lemma WriterKeeps(s: State, s': State)
    requires Inv(s) && s' == s.(nwrite := s'.nwrite, writers := s'.writers) && s'.nwrite - |s'.writers| == s.nwrite - |s.writers|
    ensures Inv(s')
  {
    hide Rest;
    assert Openers(s', true) == Openers(s, true) && Openers(s', false) == Openers(s, false);
    forall j | j in s'.walks ensures Progress(s', j) { assert Progress(s, j); }
  }

  lemma CollectKeeps(s: State)
    requires Inv(s)
    ensures Inv(Collected(s))
  {
    if s.nwrite == 0 && s.nread == 0 && s.garbage {
      OpenMeansCounted(s);
      KeptKeeps(s.list, s.info);
      var s' := Collected(s);
      assert Openers(s', true) == Openers(s, true) && Openers(s', false) == Openers(s, false);
    }
  }

  lemma StepKeepsInv(s: State, step: Step)
    requires Inv(s) && Enabled(s, step)
    ensures Inv(Next(s, step))
  {
    hide Inv;
    match step
    case Attach(d, depth) => AttachKeeps(s, d, depth);
    case WriterEnter(op) => WriterKeeps(s, Next(s, step));
    case WriterExit(op) => WriterKeeps(s, Next(s, step));
    case Detached(op, d) => DetachedKeeps(s, op, d);
    case Collect => CollectKeeps(s);
    case Init(id, rw, mode) => InitKeeps(s, id, rw, mode);
    case Walked(id) => WalkedKeeps(s, id);
    case Release(id) => ReleaseKeeps(s, id);
  }

  // --------------------------------------------------------------------- runs

  ghost predicate Run(trace: seq<State>, steps: seq<Step>) {
    && |trace| == |steps| + 1 && Inv(trace[0])
    && forall i :: 0 <= i < |steps| ==> Enabled(trace[i], steps[i]) && trace[i + 1] == Next(trace[i], steps[i])
  }

  /** No device and no walk yet. */
  predicate Booted(s: State) { s == State([], map[], 1, 0, 0, s.garbage, {}, map[], map[], map[]) }

  lemma BootedInv(s: State)
    requires Booted(s)
    ensures Inv(s)
  {
    assert Openers(s, true) == {} && Openers(s, false) == {};
  }

  lemma {:induction false} EveryRunKeepsInv(trace: seq<State>, steps: seq<Step>, k: nat)
    requires Run(trace, steps) && k < |trace|
    ensures Inv(trace[k])
  {
    hide Inv, Enabled, Next;
    if k > 0 {
      EveryRunKeepsInv(trace, steps, k - 1);
      assert trace[k - 1 + 1] == Next(trace[k - 1], steps[k - 1]);
      StepKeepsInv(trace[k - 1], steps[k - 1]);
    }
  }

  /** No device leaves the list while a walk is open. */
  lemma NothingLeaves(s: State, step: Step, id: nat)
    requires Inv(s) && Enabled(s, step) && id in s.walks
    ensures s.list <= Next(s, step).list
  {
    assert Counted(s);
    if s.nread == 0 && s.nwrite == 0 { OpenMeansCounted(s); }
    match step
    case Detached(op, d) =>
      DetachedKeeps(s, op, d);
      var s' := Next(s, step);
      if s'.nread == 0 && s'.nwrite == 0 { OpenMeansCounted(s'); }
    case _ =>
  }

  /** The walk that begins with step Init has to return exactly the devices that exist then, in the order asked for. */
  lemma WantIsExistence(s: State, id: nat, rw: bool, mode: Mode)
    requires Inv(s) && Enabled(s, Init(id, rw, mode))
    ensures var s' := Next(s, Init(id, rw, mode)); var want := s'.want[id];
      && NoDups(want) && (forall d :: d in want <==> d in s.list && Visits(s.info, d, s.gen))
      && (mode == LeavesFirst ==> Sorted(want, s.info, true)) && (mode == RootFirst ==> Sorted(want, s.info, false))
  {
    DeepestCovers(s.list, s.info, s.gen);
    FreshIsComplete(s.list, s.info, NewWalk(s, rw, mode));
  }

  /** The obligation of a walk does not change while it is open. */
  lemma {:induction false} WantIsKept(trace: seq<State>, steps: seq<Step>, j: nat, k: nat, id: nat)
    requires Run(trace, steps) && j <= k < |trace| && (forall i :: j <= i <= k ==> id in trace[i].walks)
    requires forall i :: j <= i <= k ==> id in trace[i].want
    ensures trace[k].want[id] == trace[j].want[id]
    decreases k - j
  {
    hide Inv, Enabled, Next;
    if j < k {
      WantIsKept(trace, steps, j, k - 1, id);
      assert trace[k - 1 + 1] == Next(trace[k - 1], steps[k - 1]);
      WantStep(trace[k - 1], steps[k - 1], id);
    }
  }

  lemma WantStep(s: State, step: Step, id: nat)
    requires Enabled(s, step) && id in s.walks && id in s.want && id in Next(s, step).walks && id in Next(s, step).want
    ensures Next(s, step).want[id] == s.want[id]
  {
    hide Rest, DeviceWalk.Next, NewWalk, Kept;
  }

  /**
   * Whatever attaches, detaches and collections come between its steps: a walk returns devices that existed at its
   * generation, each once and in order; and when it returns NULL it has returned them all.
   */
  lemma WalkReturnsAll(trace: seq<State>, steps: seq<Step>, j: nat, k: nat, id: nat, rw: bool, mode: Mode)
    requires Run(trace, steps) && j < k < |trace| && steps[j] == Init(id, rw, mode)
    requires forall i :: j < i <= k ==> id in trace[i].walks
    ensures id in trace[k].got && id in trace[k].want && trace[k].got[id] <= trace[k].want[id]
    ensures forall d :: d in trace[k].want[id] <==> d in trace[j].list && Visits(trace[j].info, d, trace[j].gen)
    ensures NoDups(trace[k].want[id])
    ensures mode == LeavesFirst ==> Sorted(trace[k].want[id], trace[j].info, true)
    ensures mode == RootFirst ==> Sorted(trace[k].want[id], trace[j].info, false)
    ensures WalkOk(trace[k].list, trace[k].walks[id])
    ensures DeviceWalk.Next(trace[k].list, trace[k].info, trace[k].walks[id]).0.None? ==> trace[k].got[id] == trace[k].want[id]
  {
    hide Rest, DeviceWalk.Next, Sorted, Visits;
    EveryRunKeepsInv(trace, steps, j);
    EveryRunKeepsInv(trace, steps, k);
    forall i | j < i <= k ensures id in trace[i].want {
      EveryRunKeepsInv(trace, steps, i);
      assert Progress(trace[i], id);
    }
    WantIsExistence(trace[j], id, rw, mode);
    WantIsKept(trace, steps, j + 1, k, id);
    assert Progress(trace[k], id);
    NextTakesFirst(trace[k].list, trace[k].info, trace[k].walks[id]);
  }
}
