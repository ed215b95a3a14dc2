/**
 * The admission gate of vfs_s2idle.c and the mount list of vfs_mount.c with its marker iterators, as one
 * state machine over the steps of all LWPs; each region under a mutex is one step.
 */
module MountGate {
  import opened Options
  import opened Queues
  import opened S2idleChain

  type Lwp = nat

  /** SIZE_MAX. */
  const LIMIT: nat := 0xffff_ffff_ffff_ffff

  datatype Entry = M(mount: Mount) | Marker(id: nat)

  /**
   * `active` has one element per mount operation under way, by LWP; `seen` gives for each open iterator the
   * mounts it has come to; `born` are all mounts that were ever on the list.
   */
  datatype State = State(owner: Option<Lwp>, mountops: nat, active: multiset<Lwp>, list: seq<Entry>, born: set<Mount>, seen: map<nat, seq<Mount>>)

  datatype Step =
    | MountEnter(l: Lwp)
    | MountExit(l: Lwp)
    | BarrierEnter(l: Lwp)
    | BarrierExit(l: Lwp)
    | Append(l: Lwp, m: Mount)
    | Remove(l: Lwp, m: Mount)
    | IterInit(id: nat)
    | IterAdvance(id: nat)
    | IterDestroy(id: nat)

  /** The mount list is changed only inside a mount operation; exits match entries; a new mount is a new structure. */
  predicate Enabled(s: State, step: Step) {
    match step
    case MountEnter(_) => true
    case MountExit(l) => l in s.active
    case BarrierEnter(_) => true
    case BarrierExit(l) => s.owner == Some(l)
    case Append(l, m) => l in s.active && m !in s.born
    case Remove(l, m) => l in s.active && M(m) in s.list
    case IterInit(id) => id !in s.seen
    case IterAdvance(id) => id in s.seen && Marker(id) in s.list
    case IterDestroy(id) => id in s.seen
  }

  function IndexOf(q: seq<Entry>, e: Entry): (i: nat)
    requires e in q
    ensures i < |q| && q[i] == e
  {
    if q[0] == e then 0 else 1 + IndexOf(q[1..], e)
  }

  function Swap(q: seq<Entry>, i: nat): seq<Entry>
    requires i + 1 < |q|
  {
    q[i := q[i + 1]][i + 1 := q[i]]
  }

  function Next(s: State, step: Step): State
    requires Enabled(s, step)
  {
    match step
    case MountEnter(l) =>
      if s.owner.Some? || s.mountops == LIMIT then s else s.(mountops := s.mountops + 1, active := s.active + multiset{l})
    case MountExit(l) => s.(mountops := if s.mountops > 0 then s.mountops - 1 else LIMIT, active := s.active - multiset{l})
    case BarrierEnter(l) => if s.owner.Some? || s.mountops != 0 then s else s.(owner := Some(l))
    case BarrierExit(l) => s.(owner := None)
    case Append(_, m) => s.(list := s.list + [M(m)], born := s.born + {m})
    case Remove(_, m) => s.(list := Without(s.list, M(m)))
    case IterInit(id) => s.(list := [Marker(id)] + s.list, seen := s.seen[id := []])
    case IterAdvance(id) =>
      var i := IndexOf(s.list, Marker(id));
      if i + 1 == |s.list| then s
      else s.(list := Swap(s.list, i),
              seen := if s.list[i + 1].M? then s.seen[id := s.seen[id] + [s.list[i + 1].mount]] else s.seen)
    case IterDestroy(id) => s.(list := Without(s.list, Marker(id)), seen := s.seen - {id})
  }

  // ------------------------------------------------------------- invariants

  /** While the barrier has an owner no mount operation is under way, and the count is right. */
  predicate Excluded(s: State) { s.mountops == |s.active| && (s.owner.Some? ==> s.mountops == 0) }

  ghost predicate Before(q: seq<Entry>, a: Entry, b: Entry) { exists i, j :: 0 <= i < j < |q| && q[i] == a && q[j] == b }

  /** An iterator has come to exactly those mounts of the list that are before its marker. */
  ghost predicate Passed(s: State, id: nat, m: Mount)
    requires id in s.seen
  {
    M(m) in s.list ==> (m in s.seen[id] <==> Before(s.list, M(m), Marker(id)))
  }

  ghost predicate ListOk(s: State) {
    && NoDups(s.list)
    && (forall m :: M(m) in s.list ==> m in s.born)
    && (forall id :: Marker(id) in s.list <==> id in s.seen)
    && (forall id :: id in s.seen ==> NoDups(s.seen[id]) && forall m :: m in s.seen[id] ==> m in s.born)
    && (forall id, m :: id in s.seen ==> Passed(s, id, m))
  }

  ghost predicate Inv(s: State) { Excluded(s) && ListOk(s) }

  lemma ExcludedStep(s: State, step: Step)
    requires Excluded(s) && Enabled(s, step)
    ensures Excluded(Next(s, step))
  {
  }

  /** The exits' assertions hold: the barrier is free, and the count is not zero. */
  lemma ExitsAreSafe(s: State, step: Step)
    requires Excluded(s) && Enabled(s, step)
    ensures step.MountExit? ==> s.owner.None? && s.mountops != 0
    ensures step.BarrierExit? ==> s.mountops == 0
  {
  }

  lemma BeforeAppend(q: seq<Entry>, x: Entry, a: Entry, b: Entry)
    requires x !in q && b in q
    ensures Before(q + [x], a, b) <==> Before(q, a, b)
  {
    var q' := q + [x];
    if Before(q, a, b) {
      var i, j :| 0 <= i < j < |q| && q[i] == a && q[j] == b;
      assert q'[i] == a && q'[j] == b;
    }
    if Before(q', a, b) {
      var i, j :| 0 <= i < j < |q'| && q'[i] == a && q'[j] == b;
      assert j < |q|;
      assert q[i] == a && q[j] == b;
    }
  }

  lemma {:induction false} BeforeWithout(q: seq<Entry>, x: Entry, a: Entry, b: Entry)
    requires a != x && b != x
    ensures Before(Without(q, x), a, b) <==> Before(q, a, b)
  {
    if q != [] {
      BeforeWithout(q[1..], x, a, b);
      BeforeHead(q[0], q[1..], a, b);
      assert q == [q[0]] + q[1..];
      if q[0] != x { BeforeHead(q[0], Without(q[1..], x), a, b); }
    }
  }

  lemma BeforeHead(x: Entry, q: seq<Entry>, a: Entry, b: Entry)
    ensures Before([x] + q, a, b) <==> (x == a && b in q) || Before(q, a, b)
  {
    var q' := [x] + q;
    if Before(q', a, b) {
      var i, j :| 0 <= i < j < |q'| && q'[i] == a && q'[j] == b;
      assert q[j - 1] == b;
      if i > 0 { assert q[i - 1] == a; }
    }
    if x == a && b in q {
      var j :| 0 <= j < |q| && q[j] == b;
      assert q'[0] == a && q'[j + 1] == b;
    }
    if Before(q, a, b) {
      var i, j :| 0 <= i < j < |q| && q[i] == a && q[j] == b;
      assert q'[i + 1] == a && q'[j + 1] == b;
    }
  }

  /** Exchanging two neighbours changes the order of those two only. */
  lemma BeforeSwap(q: seq<Entry>, k: nat, a: Entry, b: Entry)
    requires NoDups(q) && k + 1 < |q|
    ensures Before(Swap(q, k), a, b) <==>
      (a == q[k + 1] && b == q[k]) || (Before(q, a, b) && !(a == q[k] && b == q[k + 1]))
  {
    var q' := Swap(q, k);
    SwapNoDups(q, k);
    if Before(q', a, b) {
      assert Swap(q', k) == q;
      BeforeSwapOnce(q', k, a, b);
    }
    if Before(q, a, b) { BeforeSwapOnce(q, k, a, b); }
    if a == q[k + 1] && b == q[k] { assert q'[k] == a && q'[k + 1] == b; }
  }

  lemma BeforeSwapOnce(q: seq<Entry>, k: nat, a: Entry, b: Entry)
    requires NoDups(q) && k + 1 < |q| && Before(q, a, b)
    ensures (a == q[k] && b == q[k + 1] && !Before(Swap(q, k), a, b)) || (Before(Swap(q, k), a, b) && !(a == q[k] && b == q[k + 1]))
  {
    var q' := Swap(q, k);
    var i, j :| 0 <= i < j < |q| && q[i] == a && q[j] == b;
    if a == q[k] && b == q[k + 1] {
      SwapNoDups(q, k);
      BackwardsNot(q', k);
    } else {
      assert q'[Swapped(k, i)] == a && q'[Swapped(k, j)] == b && Swapped(k, i) < Swapped(k, j);
    }
  }

  lemma SwapNoDups(q: seq<Entry>, k: nat)
    requires NoDups(q) && k + 1 < |q|
    ensures NoDups(Swap(q, k))
  {
    var q' := Swap(q, k);
    assert forall i :: 0 <= i < |q| ==> q'[i] == q[Swapped(k, i)];
  }

  function Swapped(k: nat, i: int): int { if i == k then k + 1 else if i == k + 1 then k else i }

  lemma AppendKeepsList(s: State, l: Lwp, m: Mount)
    requires ListOk(s) && Enabled(s, Append(l, m))
    ensures ListOk(Next(s, Append(l, m)))
  {
    var s' := Next(s, Append(l, m));
    assert M(m) !in s.list;
    NoDupsConcat(s.list, [M(m)]);
    forall id, n | id in s.seen ensures Passed(s', id, n) {
      assert Passed(s, id, n);
      BeforeAppend(s.list, M(m), M(n), Marker(id));
      if n == m { NotBefore(s.list, M(m), Marker(id)); }
    }
  }

  lemma NotBefore(q: seq<Entry>, a: Entry, b: Entry)
    requires a !in q
    ensures !Before(q, a, b)
  {
  }

  lemma RemoveKeepsList(s: State, x: Entry)
    requires ListOk(s) && x in s.list
    ensures ListOk(if x.M? then s.(list := Without(s.list, x)) else s.(list := Without(s.list, x), seen := s.seen - {x.id}))
  {
    var s' := if x.M? then s.(list := Without(s.list, x)) else s.(list := Without(s.list, x), seen := s.seen - {x.id});
    WithoutNoDups(s.list, x);
    forall id, m | id in s'.seen ensures Passed(s', id, m) {
      assert Passed(s, id, m);
      if M(m) != x { BeforeWithout(s.list, x, M(m), Marker(id)); }
    }
  }

  lemma InitKeepsList(s: State, id: nat)
    requires ListOk(s) && Enabled(s, IterInit(id))
    ensures ListOk(Next(s, IterInit(id)))
  {
    var s' := Next(s, IterInit(id));
    NoDupsConcat([Marker(id)], s.list);
    forall d, m | d in s'.seen ensures Passed(s', d, m) {
      BeforeHead(Marker(id), s.list, M(m), Marker(d));
      if d == id { NotBefore2(s.list, M(m), Marker(id)); } else { assert Passed(s, d, m); }
    }
  }

  lemma NotBefore2(q: seq<Entry>, a: Entry, b: Entry)
    requires b !in q
    ensures !Before(q, a, b)
  {
  }

  lemma AdvanceKeepsList(s: State, id: nat)
    requires ListOk(s) && Enabled(s, IterAdvance(id))
    ensures ListOk(Next(s, IterAdvance(id)))
  {
    hide Before;
    var s' := Next(s, IterAdvance(id));
    var k := IndexOf(s.list, Marker(id));
    if k + 1 < |s.list| {
      var e := s.list[k + 1];
      forall x ensures x in s'.list <==> x in s.list { SwapMembers(s.list, k, x); }
      SwapNoDups(s.list, k);
      if e.M? {
        assert e in s.list && Passed(s, id, e.mount);
        BackwardsNot(s.list, k);
        NoDupsConcat(s.seen[id], [e.mount]);
      }
      forall d, m | d in s'.seen ensures Passed(s', d, m) {
        assert Passed(s, d, m);
        BeforeSwap(s.list, k, M(m), Marker(d));
      }
    }
  }

  lemma SwapMembers(q: seq<Entry>, k: nat, x: Entry)
    requires k + 1 < |q|
    ensures x in Swap(q, k) <==> x in q
  {
    var q' := Swap(q, k);
    if x in q {
      var i :| 0 <= i < |q| && q[i] == x;
      assert q'[Swapped(k, i)] == x;
    }
  }

  lemma BackwardsNot(q: seq<Entry>, k: nat)
    requires NoDups(q) && k + 1 < |q|
    ensures !Before(q, q[k + 1], q[k])
  {
  }

  lemma StepKeepsInv(s: State, step: Step)
    requires Inv(s) && Enabled(s, step)
    ensures Inv(Next(s, step))
  {
    hide ListOk, Passed, Before;
    ExcludedStep(s, step);
    match step
    case MountEnter(l) => SameList(s, Next(s, step));
    case MountExit(l) => SameList(s, Next(s, step));
    case BarrierEnter(l) => SameList(s, Next(s, step));
    case BarrierExit(l) => SameList(s, Next(s, step));
    case Append(l, m) => AppendKeepsList(s, l, m);
    case Remove(l, m) => RemoveKeepsList(s, M(m));
    case IterInit(id) => InitKeepsList(s, id);
    case IterAdvance(id) => AdvanceKeepsList(s, id);
    case IterDestroy(id) =>
      MarkerListed(s, id);
      RemoveKeepsList(s, Marker(id));
  }

  lemma SameList(s: State, s': State)
    requires ListOk(s) && s'.list == s.list && s'.born == s.born && s'.seen == s.seen
    ensures ListOk(s')
  {
    forall id, m | id in s'.seen ensures Passed(s', id, m) { assert Passed(s, id, m); }
  }

  lemma MarkerListed(s: State, id: nat)
    requires ListOk(s) && id in s.seen
    ensures Marker(id) in s.list
  {
  }

  // ------------------------------------------------------------------- runs

  /** No mount, no operation, no iterator yet. */
  predicate Booted(s: State) { s == State(None, 0, multiset{}, [], {}, map[]) }

  lemma BootedInv(s: State)
    requires Booted(s)
    ensures Inv(s)
  {
  }

  ghost predicate Run(trace: seq<State>, steps: seq<Step>) {
    && |trace| == |steps| + 1 && Inv(trace[0])
    && forall i :: 0 <= i < |steps| ==> Enabled(trace[i], steps[i]) && trace[i + 1] == Next(trace[i], steps[i])
  }

  lemma {:induction false} EveryRunKeepsInv(trace: seq<State>, steps: seq<Step>, k: nat)
    requires Run(trace, steps) && k < |trace|
    ensures Inv(trace[k])
  {
    if k > 0 {
      EveryRunKeepsInv(trace, steps, k - 1);
      assert trace[k - 1 + 1] == Next(trace[k - 1], steps[k - 1]);
      StepKeepsInv(trace[k - 1], steps[k - 1]);
    }
  }

  /** The mounts on the list, in order. */
  function Mounts(q: seq<Entry>): seq<Mount> {
    if q == [] then [] else (if q[0].M? then [q[0].mount] else []) + Mounts(q[1..])
  }

  lemma {:induction false} MountsConcat(a: seq<Entry>, b: seq<Entry>)
    ensures Mounts(a + b) == Mounts(a) + Mounts(b)
  {
    if a == [] {
      assert a + b == b;
    } else {
      assert (a + b)[0] == a[0] && (a + b)[1..] == a[1..] + b;
      MountsConcat(a[1..], b);
    }
  }

  lemma {:induction false} MountsWithoutMarker(q: seq<Entry>, id: nat)
    ensures Mounts(Without(q, Marker(id))) == Mounts(q)
  {
    if q != [] {
      MountsWithoutMarker(q[1..], id);
      if q[0] != Marker(id) {
        var r := [q[0]] + Without(q[1..], Marker(id));
        assert r[1..] == Without(q[1..], Marker(id));
      }
    }
  }

  lemma {:induction false} MountsSwap(q: seq<Entry>, k: nat)
    requires k + 1 < |q| && q[k].Marker?
    ensures Mounts(Swap(q, k)) == Mounts(q)
    decreases k
  {
    var q' := Swap(q, k);
    if k == 0 {
      assert q[1..][1..] == q[2..] && q'[1..][1..] == q[2..];
    } else {
      assert q'[0] == q[0] && q'[1..] == Swap(q[1..], k - 1);
      MountsSwap(q[1..], k - 1);
    }
  }

  lemma OwnedStep(s: State, step: Step)
    requires Inv(s) && Enabled(s, step) && s.owner.Some?
    ensures Mounts(Next(s, step).list) == Mounts(s.list)
  {
    match step
    case MountEnter(_) =>
    case MountExit(_) =>
    case BarrierEnter(_) =>
    case BarrierExit(_) =>
    case Append(_, _) =>
    case Remove(_, _) =>
    case IterInit(id) => MountsConcat([Marker(id)], s.list);
    case IterAdvance(id) =>
      var i := IndexOf(s.list, Marker(id));
      if i + 1 < |s.list| { MountsSwap(s.list, i); }
    case IterDestroy(id) => MountsWithoutMarker(s.list, id);
  }

  /** As long as the barrier is held, whatever the other LWPs do, the mounts on the list and their order stay the same. */
  lemma {:induction false} BarrierFreezesTheList(trace: seq<State>, steps: seq<Step>, j: nat, k: nat)
    requires Run(trace, steps) && j <= k < |trace| && forall i :: j <= i < k ==> trace[i].owner.Some?
    ensures Mounts(trace[k].list) == Mounts(trace[j].list)
    decreases k - j
  {
    hide Inv, Next, Enabled, Mounts;
    if j < k {
      BarrierFreezesTheList(trace, steps, j, k - 1);
      EveryRunKeepsInv(trace, steps, k - 1);
      assert trace[k - 1 + 1] == Next(trace[k - 1], steps[k - 1]);
      OwnedStep(trace[k - 1], steps[k - 1]);
    }
  }

  /** An iterator whose marker is last has come to every mount on the list, and to none twice. */
  lemma EndMeansAllSeen(trace: seq<State>, steps: seq<Step>, k: nat, id: nat, m: Mount)
    requires Run(trace, steps) && k < |trace|
    requires id in trace[k].seen && trace[k].list != [] && trace[k].list[|trace[k].list| - 1] == Marker(id)
    ensures NoDups(trace[k].seen[id])
    ensures M(m) in trace[k].list ==> m in trace[k].seen[id]
  {
    var s := trace[k];
    EveryRunKeepsInv(trace, steps, k);
    assert Passed(s, id, m);
    if M(m) in s.list {
      var i :| 0 <= i < |s.list| && s.list[i] == M(m);
      assert i < |s.list| - 1;
      assert Before(s.list, M(m), Marker(id));
    }
  }
}
