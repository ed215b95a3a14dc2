/** Walks over the device list (subr_autoconf.c): what a walk still has to return, and that it returns just that. */
module DeviceWalk {
  import opened Options
  import opened Queues

  type Dev = nat

  datatype Info = Info(addGen: nat, delGen: nat, depth: nat)

  datatype Mode = AnyOrder | LeavesFirst | RootFirst

  /** deviter_t; prev is the cursor, as an index into the list. */
  datatype Walk = Walk(gen: nat, rw: bool, mode: Mode, prev: Option<nat>, cur: int, max: int)

  /** device_exists_at. */
  predicate ExistsAt(i: Info, gen: nat) { (i.delGen == 0 || i.delGen > gen) && i.addGen <= gen }

  predicate Visits(info: map<Dev, Info>, d: Dev, gen: nat) { d in info && ExistsAt(info[d], gen) }

  /** deviter_reinit: writers start at the end, so that what they detach is behind them. */
  function Start(list: seq<Dev>, rw: bool): Option<nat> {
    if list == [] then None else if rw then Some(|list| - 1) else Some(0)
  }

  function Onward(list: seq<Dev>, rw: bool, i: nat): Option<nat> {
    if rw then (if i == 0 then None else Some(i - 1)) else (if i + 1 >= |list| then None else Some(i + 1))
  }

  /** How far the cursor still has to go. */
  function Left(list: seq<Dev>, rw: bool, prev: Option<nat>): nat {
    match prev
    case None => 0
    case Some(i) => if rw then i + 1 else if i < |list| then |list| - i else 0
  }

  predicate CursorOk(list: seq<Dev>, prev: Option<nat>) { prev.Some? ==> prev.value < |list| }

  /** deviter_next1: the next device that the walk visits, and the cursor after it. */
  function Next1(list: seq<Dev>, info: map<Dev, Info>, gen: nat, rw: bool, prev: Option<nat>): (Option<Dev>, Option<nat>)
    requires CursorOk(list, prev)
    decreases Left(list, rw, prev)
  {
    match prev
    case None => (None, None)
    case Some(i) =>
      if Visits(info, list[i], gen) then (Some(list[i]), Onward(list, rw, i))
      else Next1(list, info, gen, rw, Onward(list, rw, i))
  }

  /** The depth of a device on the list. */
  function DepthOf(info: map<Dev, Info>, d: Dev): int { if d in info then info[d].depth else 0 }

  predicate WalkOk(list: seq<Dev>, w: Walk) { CursorOk(list, w.prev) }

  lemma {:induction false} Next1Shrinks(list: seq<Dev>, info: map<Dev, Info>, gen: nat, rw: bool, prev: Option<nat>)
    requires CursorOk(list, prev)
    ensures CursorOk(list, Next1(list, info, gen, rw, prev).1)
    ensures Next1(list, info, gen, rw, prev).0.Some? ==> Left(list, rw, Next1(list, info, gen, rw, prev).1) < Left(list, rw, prev)
    decreases Left(list, rw, prev)
  {
    if prev.Some? && !Visits(info, list[prev.value], gen) { Next1Shrinks(list, info, gen, rw, Onward(list, rw, prev.value)); }
  }

  /** How many passes are left after this one. */
  function Passes(w: Walk): nat {
    match w.mode
    case AnyOrder => 0
    case LeavesFirst => if w.cur >= 0 then w.cur + 1 else 0
    case RootFirst => if w.cur <= w.max then w.max - w.cur + 1 else 0
  }

  function NextPass(list: seq<Dev>, w: Walk): Walk {
    w.(cur := if w.mode == LeavesFirst then w.cur - 1 else w.cur + 1, prev := Start(list, w.rw))
  }

  /** deviter_next. */
  function Next(list: seq<Dev>, info: map<Dev, Info>, w: Walk): (Option<Dev>, Walk)
    requires WalkOk(list, w)
    decreases Passes(w), Left(list, w.rw, w.prev)
  {
    var (d, p) := Next1(list, info, w.gen, w.rw, w.prev);
    Next1Shrinks(list, info, w.gen, w.rw, w.prev);
    if w.mode == AnyOrder then (d, w.(prev := p))
    else if Passes(w) == 0 then (None, w)
    else if d.None? then Next(list, info, NextPass(list, w))
    else if DepthOf(info, d.value) == w.cur then (d, w.(prev := p))
    else Next(list, info, w.(prev := p))
  }

  // ----------------------------------------------------------- what is to come

  /** The devices the cursor still comes to in this pass. */
  function Rest1(list: seq<Dev>, info: map<Dev, Info>, gen: nat, rw: bool, prev: Option<nat>): seq<Dev>
    requires CursorOk(list, prev)
    decreases Left(list, rw, prev)
  {
    match prev
    case None => []
    case Some(i) => (if Visits(info, list[i], gen) then [list[i]] else []) + Rest1(list, info, gen, rw, Onward(list, rw, i))
  }

  function AtDepth(q: seq<Dev>, info: map<Dev, Info>, k: int): seq<Dev> {
    if q == [] then [] else (if DepthOf(info, q[0]) == k then [q[0]] else []) + AtDepth(q[1..], info, k)
  }

  /** The passes for depths k down to 0. */
  function Downward(all: seq<Dev>, info: map<Dev, Info>, k: int): seq<Dev>
    decreases if k >= 0 then k + 1 else 0
  {
    if k < 0 then [] else AtDepth(all, info, k) + Downward(all, info, k - 1)
  }

  /** The passes for depths k up to max. */
  function Upward(all: seq<Dev>, info: map<Dev, Info>, k: int, max: int): seq<Dev>
    decreases if k <= max then max - k + 1 else 0
  {
    if k > max then [] else AtDepth(all, info, k) + Upward(all, info, k + 1, max)
  }

  function All(list: seq<Dev>, info: map<Dev, Info>, w: Walk): seq<Dev> {
    Rest1(list, info, w.gen, w.rw, Start(list, w.rw))
  }

  /** Everything the walk has still to return, in order. */
  function Rest(list: seq<Dev>, info: map<Dev, Info>, w: Walk): seq<Dev>
    requires WalkOk(list, w)
  {
    var here := Rest1(list, info, w.gen, w.rw, w.prev);
    match w.mode
    case AnyOrder => here
    case LeavesFirst => if w.cur < 0 then [] else AtDepth(here, info, w.cur) + Downward(All(list, info, w), info, w.cur - 1)
    case RootFirst => if w.cur > w.max then [] else AtDepth(here, info, w.cur) + Upward(All(list, info, w), info, w.cur + 1, w.max)
  }

  lemma {:induction false} Next1Rest(list: seq<Dev>, info: map<Dev, Info>, gen: nat, rw: bool, prev: Option<nat>)
    requires CursorOk(list, prev)
    ensures var (d, p) := Next1(list, info, gen, rw, prev);
      CursorOk(list, p) && Rest1(list, info, gen, rw, prev) == if d.None? then [] else [d.value] + Rest1(list, info, gen, rw, p)
    decreases Left(list, rw, prev)
  {
    if prev.Some? && !Visits(info, list[prev.value], gen) {
      Next1Rest(list, info, gen, rw, Onward(list, rw, prev.value));
    }
  }

  lemma AtDepthCons(d: Dev, q: seq<Dev>, info: map<Dev, Info>, k: int)
    ensures AtDepth([d] + q, info, k) == (if DepthOf(info, d) == k then [d] else []) + AtDepth(q, info, k)
  {
    assert ([d] + q)[1..] == q;
  }

  lemma PassRest(list: seq<Dev>, info: map<Dev, Info>, w: Walk)
    requires WalkOk(list, w) && w.mode != AnyOrder && Passes(w) > 0 && Rest1(list, info, w.gen, w.rw, w.prev) == []
    ensures Rest(list, info, w) == Rest(list, info, NextPass(list, w))
  {
    hide Rest1;
    assert AtDepth([], info, w.cur) == [];
  }

  lemma StepRest(list: seq<Dev>, info: map<Dev, Info>, w: Walk, d: Dev, p: Option<nat>)
    requires WalkOk(list, w) && CursorOk(list, p) && w.mode != AnyOrder && Passes(w) > 0
    requires Rest1(list, info, w.gen, w.rw, w.prev) == [d] + Rest1(list, info, w.gen, w.rw, p)
    ensures Rest(list, info, w) == (if DepthOf(info, d) == w.cur then [d] else []) + Rest(list, info, w.(prev := p))
  {
    hide Rest1, AtDepth, Downward, Upward;
    AtDepthCons(d, Rest1(list, info, w.gen, w.rw, p), info, w.cur);
  }

  /** deviter_next returns the first of what is to come, and NULL exactly when nothing is. */
  lemma {:induction false} NextTakesFirst(list: seq<Dev>, info: map<Dev, Info>, w: Walk)
    requires WalkOk(list, w)
    ensures var (d, w') := Next(list, info, w);
      && WalkOk(list, w') && w' == w.(prev := w'.prev, cur := w'.cur)
      && Rest(list, info, w) == (if d.None? then [] else [d.value] + Rest(list, info, w'))
      && (d.None? ==> Rest(list, info, w') == [])
    decreases Passes(w), Left(list, w.rw, w.prev)
  {
    hide Rest1, AtDepth, Downward, Upward, Next1;
    var (d, p) := Next1(list, info, w.gen, w.rw, w.prev);
    Next1Rest(list, info, w.gen, w.rw, w.prev);
    Next1Shrinks(list, info, w.gen, w.rw, w.prev);
    if w.mode == AnyOrder {
      if d.None? { AtTheEnd(list, info, w.gen, w.rw, w.prev); }
    } else if Passes(w) == 0 {
    } else if d.None? {
      PassRest(list, info, w);
      NextTakesFirst(list, info, NextPass(list, w));
    } else {
      StepRest(list, info, w, d.value, p);
      if DepthOf(info, d.value) != w.cur { NextTakesFirst(list, info, w.(prev := p)); }
    }
  }

  lemma {:induction false} AtTheEnd(list: seq<Dev>, info: map<Dev, Info>, gen: nat, rw: bool, prev: Option<nat>)
    requires CursorOk(list, prev) && Next1(list, info, gen, rw, prev).0.None?
    ensures Next1(list, info, gen, rw, prev).1.None? && Rest1(list, info, gen, rw, None) == []
    decreases Left(list, rw, prev)
  {
    if prev.Some? { AtTheEnd(list, info, gen, rw, Onward(list, rw, prev.value)); }
  }

  // ----------------------------------------- attaching and detaching under a walk

  /** Changes that a walk of generation gen does not see: new devices at the end, and marks of deletion. */
  ghost predicate Unseen(list: seq<Dev>, info: map<Dev, Info>, list': seq<Dev>, info': map<Dev, Info>, gen: nat) {
    && list <= list'
    && (forall d :: d in list ==> (Visits(info', d, gen) <==> Visits(info, d, gen)) && DepthOf(info', d) == DepthOf(info, d))
    && (forall i :: |list| <= i < |list'| ==> !Visits(info', list'[i], gen))
  }

  lemma {:induction false} Rest1Unseen(list: seq<Dev>, info: map<Dev, Info>, list': seq<Dev>, info': map<Dev, Info>, gen: nat, rw: bool, prev: Option<nat>)
    requires Unseen(list, info, list', info', gen) && CursorOk(list', prev) && (rw ==> CursorOk(list, prev))
    ensures Rest1(list', info', gen, rw, prev) == if CursorOk(list, prev) then Rest1(list, info, gen, rw, prev) else []
    decreases Left(list', rw, prev)
  {
    if prev.Some? {
      var i := prev.value;
      if i < |list| { assert list'[i] == list[i] && list[i] in list; }
      Rest1Unseen(list, info, list', info', gen, rw, Onward(list', rw, i));
    }
  }

  /** A writer's new pass starts behind the newcomers. */
  lemma {:induction false} BackToOld(list: seq<Dev>, info: map<Dev, Info>, list': seq<Dev>, info': map<Dev, Info>, gen: nat, i: nat)
    requires Unseen(list, info, list', info', gen) && |list| <= i + 1 <= |list'|
    ensures Rest1(list', info', gen, true, Some(i)) == Rest1(list, info, gen, true, Start(list, true))
    decreases i
  {
    if i + 1 == |list| {
      Rest1Unseen(list, info, list', info', gen, true, Some(i));
    } else if i > 0 {
      BackToOld(list, info, list', info', gen, i - 1);
    } else {
      assert list == [];
      assert Rest1(list', info', gen, true, None) == [];
    }
  }

  lemma AllUnseen(list: seq<Dev>, info: map<Dev, Info>, list': seq<Dev>, info': map<Dev, Info>, w: Walk)
    requires Unseen(list, info, list', info', w.gen)
    ensures All(list', info', w) == All(list, info, w)
  {
    hide Rest1;
    if w.rw {
      if list' != [] { BackToOld(list, info, list', info', w.gen, |list'| - 1); }
      else { EmptyRest(info, w.gen, true); EmptyRest(info', w.gen, true); }
    } else {
      Rest1Unseen(list, info, list', info', w.gen, false, Start(list', false));
      if list == [] && list' != [] { EmptyRest(info, w.gen, false); }
    }
  }

  lemma EmptyRest(info: map<Dev, Info>, gen: nat, rw: bool)
    ensures Rest1([], info, gen, rw, None) == []
  {
  }

  lemma {:induction false} AtDepthFrame(q: seq<Dev>, info: map<Dev, Info>, info': map<Dev, Info>, k: int)
    requires forall d :: d in q ==> DepthOf(info', d) == DepthOf(info, d)
    ensures AtDepth(q, info', k) == AtDepth(q, info, k)
  {
    if q != [] { AtDepthFrame(q[1..], info, info', k); }
  }

  lemma {:induction false} DownwardFrame(q: seq<Dev>, info: map<Dev, Info>, info': map<Dev, Info>, k: int)
    requires forall d :: d in q ==> DepthOf(info', d) == DepthOf(info, d)
    ensures Downward(q, info', k) == Downward(q, info, k)
    decreases if k >= 0 then k + 1 else 0
  {
    if k >= 0 {
      AtDepthFrame(q, info, info', k);
      DownwardFrame(q, info, info', k - 1);
    }
  }

  lemma {:induction false} UpwardFrame(q: seq<Dev>, info: map<Dev, Info>, info': map<Dev, Info>, k: int, max: int)
    requires forall d :: d in q ==> DepthOf(info', d) == DepthOf(info, d)
    ensures Upward(q, info', k, max) == Upward(q, info, k, max)
    decreases if k <= max then max - k + 1 else 0
  {
    if k <= max {
      AtDepthFrame(q, info, info', k);
      UpwardFrame(q, info, info', k + 1, max);
    }
  }

  lemma {:induction false} RestMembers(list: seq<Dev>, info: map<Dev, Info>, gen: nat, rw: bool, prev: Option<nat>)
    requires CursorOk(list, prev)
    ensures forall d :: d in Rest1(list, info, gen, rw, prev) ==> d in list && Visits(info, d, gen)
    decreases Left(list, rw, prev)
  {
    if prev.Some? {
      assert list[prev.value] in list;
      RestMembers(list, info, gen, rw, Onward(list, rw, prev.value));
    }
  }

  /** What a walk has still to return is not changed by devices that come or go. */
  lemma RestUnseen(list: seq<Dev>, info: map<Dev, Info>, list': seq<Dev>, info': map<Dev, Info>, w: Walk)
    requires Unseen(list, info, list', info', w.gen) && WalkOk(list, w)
    ensures WalkOk(list', w) && Rest(list', info', w) == Rest(list, info, w)
  {
    hide Rest1, AtDepth, Downward, Upward, All;
    Rest1Unseen(list, info, list', info', w.gen, w.rw, w.prev);
    AllUnseen(list, info, list', info', w);
    var here, all := Rest1(list, info, w.gen, w.rw, w.prev), All(list, info, w);
    RestMembers(list, info, w.gen, w.rw, w.prev);
    AllMembers(list, info, w);
    AtDepthFrame(here, info, info', w.cur);
    DownwardFrame(all, info, info', w.cur - 1);
    UpwardFrame(all, info, info', w.cur + 1, w.max);
  }

  lemma AllMembers(list: seq<Dev>, info: map<Dev, Info>, w: Walk)
    ensures forall d :: d in All(list, info, w) ==> d in list && Visits(info, d, w.gen)
  {
    RestMembers(list, info, w.gen, w.rw, Start(list, w.rw));
  }

  // --------------------------------------------------------- a whole walk

  lemma {:induction false} Rest1Complete(list: seq<Dev>, info: map<Dev, Info>, gen: nat, rw: bool, prev: Option<nat>, i: nat)
    requires CursorOk(list, prev) && i < |list| && Visits(info, list[i], gen)
    requires prev.Some? && (if rw then i <= prev.value else prev.value <= i)
    ensures list[i] in Rest1(list, info, gen, rw, prev)
    decreases Left(list, rw, prev)
  {
    if i != prev.value { Rest1Complete(list, info, gen, rw, Onward(list, rw, prev.value), i); }
  }

  lemma {:induction false} Rest1NoDups(list: seq<Dev>, info: map<Dev, Info>, gen: nat, rw: bool, prev: Option<nat>)
    requires CursorOk(list, prev) && NoDups(list)
    ensures NoDups(Rest1(list, info, gen, rw, prev))
    ensures forall d :: d in Rest1(list, info, gen, rw, prev) ==>
      prev.Some? && exists i :: 0 <= i < |list| && list[i] == d && (if rw then i <= prev.value else prev.value <= i)
    decreases Left(list, rw, prev)
  {
    if prev.Some? {
      var p := Onward(list, rw, prev.value);
      Rest1NoDups(list, info, gen, rw, p);
      var r := Rest1(list, info, gen, rw, p);
      assert list[prev.value] !in r;
      NoDupsConcat([list[prev.value]], r);
    }
  }

  /** All visible devices of the list, each once. */
  lemma AllIsAll(list: seq<Dev>, info: map<Dev, Info>, w: Walk)
    requires NoDups(list)
    ensures NoDups(All(list, info, w))
    ensures forall d :: d in All(list, info, w) <==> d in list && Visits(info, d, w.gen)
  {
    hide Rest1;
    AllMembers(list, info, w);
    Rest1NoDups(list, info, w.gen, w.rw, Start(list, w.rw));
    forall d | d in list && Visits(info, d, w.gen) ensures d in All(list, info, w) {
      var i :| 0 <= i < |list| && list[i] == d;
      Rest1Complete(list, info, w.gen, w.rw, Start(list, w.rw), i);
    }
  }

  lemma {:induction false} AtDepthMeans(q: seq<Dev>, info: map<Dev, Info>, k: int)
    requires NoDups(q)
    ensures NoDups(AtDepth(q, info, k))
    ensures forall d :: d in AtDepth(q, info, k) <==> d in q && DepthOf(info, d) == k
  {
    if q != [] {
      AtDepthMeans(q[1..], info, k);
      assert q[0] !in q[1..];
      assert forall d :: d in q <==> d == q[0] || d in q[1..];
      NoDupsConcat([q[0]], AtDepth(q[1..], info, k));
    }
  }

  /** By depth, deepest first or shallowest first. */
  ghost predicate Sorted(q: seq<Dev>, info: map<Dev, Info>, down: bool) {
    forall i, j :: 0 <= i < j < |q| ==> if down then DepthOf(info, q[i]) >= DepthOf(info, q[j]) else DepthOf(info, q[i]) <= DepthOf(info, q[j])
  }

  lemma JoinSorted(a: seq<Dev>, b: seq<Dev>, info: map<Dev, Info>, k: int, down: bool)
    requires NoDups(a) && NoDups(b) && Sorted(b, info, down) && (forall d :: d in a ==> DepthOf(info, d) == k)
    requires forall d :: d in b ==> if down then DepthOf(info, d) < k else DepthOf(info, d) > k
    ensures NoDups(a + b) && Sorted(a + b, info, down)
  {
    NoDupsConcat(a, b);
    var c := a + b;
    forall i, j | 0 <= i < j < |c| ensures if down then DepthOf(info, c[i]) >= DepthOf(info, c[j]) else DepthOf(info, c[i]) <= DepthOf(info, c[j]) {
      if i < |a| { assert c[i] in a; }
      if j < |a| { assert c[j] in a; } else { assert c[j] == b[j - |a|] && b[j - |a|] in b; }
      if i >= |a| { assert c[i] == b[i - |a|]; }
    }
  }

  lemma {:induction false} DownwardMeans(q: seq<Dev>, info: map<Dev, Info>, k: int)
    requires NoDups(q)
    ensures NoDups(Downward(q, info, k)) && Sorted(Downward(q, info, k), info, true)
    ensures forall d :: d in Downward(q, info, k) <==> d in q && 0 <= DepthOf(info, d) <= k
    decreases if k >= 0 then k + 1 else 0
  {
    hide AtDepth;
    if k >= 0 {
      AtDepthMeans(q, info, k);
      DownwardMeans(q, info, k - 1);
      JoinSorted(AtDepth(q, info, k), Downward(q, info, k - 1), info, k, true);
    }
  }

  lemma {:induction false} UpwardMeans(q: seq<Dev>, info: map<Dev, Info>, k: int, max: int)
    requires NoDups(q)
    ensures NoDups(Upward(q, info, k, max)) && Sorted(Upward(q, info, k, max), info, false)
    ensures forall d :: d in Upward(q, info, k, max) <==> d in q && k <= DepthOf(info, d) <= max
    decreases if k <= max then max - k + 1 else 0
  {
    hide AtDepth;
    if k <= max {
      AtDepthMeans(q, info, k);
      UpwardMeans(q, info, k + 1, max);
      JoinSorted(AtDepth(q, info, k), Upward(q, info, k + 1, max), info, k, false);
    }
  }

  /** The bound of the passes covers every visible device. */
  ghost predicate Covers(list: seq<Dev>, info: map<Dev, Info>, gen: nat, bound: int) {
    bound >= 0 && forall d :: d in list && Visits(info, d, gen) ==> DepthOf(info, d) <= bound
  }

  /** deviter_init: cursor at the start; for ordered walks, the deepest visible device. */
  ghost predicate Fresh(list: seq<Dev>, info: map<Dev, Info>, w: Walk) {
    && w.prev == Start(list, w.rw)
    && (w.mode == LeavesFirst ==> Covers(list, info, w.gen, w.cur))
    && (w.mode == RootFirst ==> w.cur == 0 && Covers(list, info, w.gen, w.max))
  }

  /** A fresh walk has to return each device that exists at its generation, once, in the order asked for. */
  lemma FreshIsComplete(list: seq<Dev>, info: map<Dev, Info>, w: Walk)
    requires NoDups(list) && Fresh(list, info, w)
    ensures WalkOk(list, w) && NoDups(Rest(list, info, w))
    ensures forall d :: d in Rest(list, info, w) <==> d in list && Visits(info, d, w.gen)
    ensures w.mode == LeavesFirst ==> Sorted(Rest(list, info, w), info, true)
    ensures w.mode == RootFirst ==> Sorted(Rest(list, info, w), info, false)
  {
    hide AtDepth;
    AllIsAll(list, info, w);
    var all := All(list, info, w);
    if w.mode == LeavesFirst {
      DownwardMeans(all, info, w.cur);
      assert Rest(list, info, w) == Downward(all, info, w.cur);
    } else if w.mode == RootFirst {
      UpwardMeans(all, info, 0, w.max);
      assert Rest(list, info, w) == Upward(all, info, 0, w.max);
    }
  }
}
