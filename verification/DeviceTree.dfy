/** The device list and its iterators as the kernel runs them, proved against DeviceWalk and DeviceList. */
module DeviceTree {
  import opened Options
  import opened Words
  import opened Queues
  import opened DeviceWalk
  import opened DeviceList

  lemma {:induction false} KeptWithout(list: seq<Dev>, info: map<Dev, Info>, d: Dev)
    requires d in info && info[d].delGen != 0
    ensures Kept(Without(list, d), info) == Kept(list, info)
  {
    if list != [] {
      KeptWithout(list[1..], info, d);
      if list[0] != d {
        var r := [list[0]] + Without(list[1..], d);
        assert r[0] == list[0] && r[1..] == Without(list[1..], d);
      }
    }
  }

  lemma {:induction false} NoneMarked(list: seq<Dev>, info: map<Dev, Info>)
    requires forall i :: 0 <= i < |list| ==> !(list[i] in info && info[list[i]].delGen != 0)
    ensures Kept(list, info) == list
  {
    if list != [] {
      assert forall i :: 0 <= i < |list[1..]| ==> list[1..][i] == list[i + 1];
      NoneMarked(list[1..], info);
    }
  }

  lemma {:induction false} DeepestPrefix(list: seq<Dev>, info: map<Dev, Info>, gen: nat, i: nat)
    requires i < |list|
    ensures Deepest(list[..i + 1], info, gen) ==
      Max(if Visits(info, list[i], gen) then DepthOf(info, list[i]) else 0, Deepest(list[..i], info, gen))
    decreases i
  {
    var a, b := list[..i + 1], list[..i];
    if i == 0 {
      assert a == [list[0]] && a[1..] == [];
    } else {
      assert a[0] == b[0] && a[1..] == list[1..][..i] && b[1..] == list[1..][..i - 1];
      DeepestPrefix(list[1..], info, gen, i - 1);
    }
  }

  /** An attached device is not one that an open walk has to return. */
  lemma AttachUnseen(s: State, d: Dev, depth: nat, id: nat)
    requires Inv(s) && Enabled(s, Attach(d, depth)) && id in s.walks
    ensures var s' := DeviceList.Next(s, Attach(d, depth));
      && id in s'.walks && WalkOk(s.list, s.walks[id]) && WalkOk(s'.list, s'.walks[id])
      && Rest(s'.list, s'.info, s'.walks[id]) == Rest(s.list, s.info, s.walks[id])
  {
    hide Rest;
    var s' := DeviceList.Next(s, Attach(d, depth));
    assert Progress(s, id);
    RestUnseen(s.list, s.info, s'.list, s'.info, s.walks[id]);
  }

  class AllDevs {
    var list: seq<Dev>
    var info: map<Dev, Info>
    var gen: nat
    var nread: int
    var nwrite: int
    var garbage: bool

    ghost var model: State

    /** The fields are those of a state that DeviceList's steps can reach, with its open walks. */
    ghost predicate Valid()
      reads this
    {
      && list == model.list && info == model.info && gen == model.gen && nread == model.nread && nwrite == model.nwrite
      && garbage == model.garbage && Inv(model)
    }

    constructor ()
      ensures Valid() && Booted(model)
    {
      list, info, gen, nread, nwrite, garbage := [], map[], 1, 0, 0, false;
      model := State([], map[], 1, 0, 0, false, {}, map[], map[], map[]);
      new;
      BootedInv(model);
    }

    /** config_devlink: every open walk has the same devices to return as before. */
    method Devlink(d: Dev, depth: nat)
      requires Valid() && Enabled(model, Attach(d, depth))
      modifies this
      ensures Valid() && model == DeviceList.Next(old(model), Attach(d, depth))
      ensures forall id :: id in model.walks ==> WalkOk(list, model.walks[id]) && Rest(list, info, model.walks[id]) == old(Remaining(id))
    {
      hide Rest, Inv;
      StepKeepsInv(model, Attach(d, depth));
      ghost var s, s' := model, DeviceList.Next(model, Attach(d, depth));
      forall id | id in s'.walks ensures WalkOk(s'.list, s'.walks[id]) && Rest(s'.list, s'.info, s'.walks[id]) == Remaining(id) {
        AttachUnseen(s, d, depth, id);
      }
      info := info[d := Info(gen, 0, depth)];
      list := list + [d];
      model := s';
    }

    /** What an open walk has still to return. */
    ghost function Remaining(id: nat): seq<Dev>
      reads this
    {
      if id in model.walks && WalkOk(list, model.walks[id]) then Rest(list, info, model.walks[id]) else []
    }

    /** config_collect_garbage: unlink the marked devices one at a time, while nobody is in the list. */
    method CollectGarbage()
      requires Valid()
      modifies this
      ensures Valid() && model == DeviceList.Next(old(model), Collect)
    {
      CollectKeeps(model);
      ghost var next := Collected(model);
      assert NoDups(list);
      hide Inv, Kept;
      UnlinkMarked();
      model := next;
    }

    method UnlinkMarked()
      requires NoDups(list)
      modifies this`list, this`garbage
      ensures if nwrite == 0 && nread == 0 && old(garbage) then list == Kept(old(list), info) && !garbage
        else list == old(list) && garbage == old(garbage)
    {
      while nwrite == 0 && nread == 0 && garbage
        invariant NoDups(list) && Kept(list, info) == Kept(old(list), info)
        invariant nwrite == 0 && nread == 0 && old(garbage) ==> garbage || list == Kept(old(list), info)
        invariant !(nwrite == 0 && nread == 0 && old(garbage)) ==> list == old(list) && garbage == old(garbage)
        decreases garbage, |list|
      {
        var i := 0;
        while i < |list| && !(list[i] in info && info[list[i]].delGen != 0)
          invariant i <= |list| && forall j :: 0 <= j < i ==> !(list[j] in info && info[list[j]].delGen != 0)
        {
          i := i + 1;
        }
        if i == |list| {
          NoneMarked(list, info);
          garbage := false;
        } else {
          KeptWithout(list, info, list[i]);
          WithoutNoDups(list, list[i]);
          list := Without(list, list[i]);
        }
      }
    }

    /** The depth loop of deviter_init. */
    method FindDeepest(gen: nat) returns (deepest: int)
      ensures deepest == Deepest(list, info, gen)
    {
      deepest := 0;
      var i := 0;
      while i < |list|
        invariant i <= |list| && deepest == Deepest(list[..i], info, gen)
      {
        DeepestPrefix(list, info, gen, i);
        if Visits(info, list[i], gen) { deepest := Max(deepest, DepthOf(info, list[i])); }
        i := i + 1;
      }
      assert list[..i] == list;
    }

    /** deviter_init, for a walk called id. */
    method InitWalk(ghost id: nat, rw: bool, mode: Mode) returns (w: Walk)
      requires Valid() && Enabled(model, Init(id, rw, mode))
      modifies this
      ensures Valid() && model == DeviceList.Next(old(model), Init(id, rw, mode)) && w == model.walks[id]
      ensures w.gen == old(gen) && w.rw == rw && w.mode == mode && Fresh(list, info, w)
    {
      hide Inv, Rest, Deepest, Fresh;
      InitKeeps(model, id, rw, mode);
      ghost var next := DeviceList.Next(model, Init(id, rw, mode));
      w := Enter(rw, mode);
      model := next;
    }

    method Enter(rw: bool, mode: Mode) returns (w: Walk)
      modifies this`gen, this`nread, this`nwrite
      ensures gen == old(gen) + 1 && nread == (if rw then old(nread) else old(nread) + 1) && nwrite == (if rw then old(nwrite) + 1 else old(nwrite))
      ensures w == old(NewWalk(State(list, info, gen, 0, 0, false, {}, map[], map[], map[]), rw, mode))
      ensures Fresh(list, info, w)
    {
      if rw { nwrite := nwrite + 1; } else { nread := nread + 1; }
      w := Walk(gen, rw, mode, Start(list, rw), 0, 0);
      gen := gen + 1;
      var deepest := FindDeepest(w.gen);
      DeepestCovers(list, info, w.gen);
      match mode {
        case AnyOrder =>
        case LeavesFirst => w := w.(cur := deepest);
        case RootFirst => w := w.(max := deepest);
      }
    }

    /** deviter_release, for the walk called id. */
    method ReleaseWalk(ghost id: nat, w: Walk)
      requires Valid() && id in model.walks && w == model.walks[id]
      modifies this
      ensures Valid() && model == DeviceList.Next(old(model), Release(id))
    {
      hide Inv;
      ReleaseKeeps(model, id);
      ghost var next := DeviceList.Next(model, Release(id));
      if w.rw { nwrite := nwrite - 1; } else { nread := nread - 1; }
      model := next;
    }

    /** deviter_next1. */
    method StepOnce(w: Walk) returns (d: Option<Dev>, prev: Option<nat>)
      requires WalkOk(list, w)
      ensures (d, prev) == Next1(list, info, w.gen, w.rw, w.prev)
    {
      prev := w.prev;
      while prev.Some?
        invariant CursorOk(list, prev) && Next1(list, info, w.gen, w.rw, prev) == Next1(list, info, w.gen, w.rw, w.prev)
        decreases Left(list, w.rw, prev)
      {
        var dv := list[prev.value];
        prev := Onward(list, w.rw, prev.value);
        if Visits(info, dv, w.gen) { return Some(dv), prev; }
      }
      return None, None;
    }

    /** deviter_next, for the walk called id. */
    method NextDevice(ghost id: nat, w: Walk) returns (d: Option<Dev>, w': Walk)
      requires Valid() && id in model.walks && w == model.walks[id]
      modifies this`model
      ensures Valid() && Enabled(old(model), Walked(id)) && model == DeviceList.Next(old(model), Walked(id)) && w' == model.walks[id]
      ensures WalkOk(list, w) && WalkOk(list, w') && Rest(list, info, w) == if d.None? then [] else [d.value] + Rest(list, info, w')
    {
      hide Rest, DeviceWalk.Next;
      assert Progress(model, id);
      WalkedKeeps(model, id);
      NextTakesFirst(list, info, w);
      ghost var next := DeviceList.Next(model, Walked(id));
      d, w' := Advanced(w);
      model := next;
    }

    method Advanced(w: Walk) returns (d: Option<Dev>, w': Walk)
      requires WalkOk(list, w)
      ensures (d, w') == DeviceWalk.Next(list, info, w)
    {
      hide Next1, Rest, Rest1;
      w' := w;
      var prev;
      if w.mode == AnyOrder {
        d, prev := StepOnce(w');
        w' := w'.(prev := prev);
        return;
      }
      d := None;
      while if w.mode == LeavesFirst then w'.cur >= 0 else w'.cur <= w'.max
        invariant WalkOk(list, w') && w'.mode == w.mode && w'.rw == w.rw && d == None
        invariant DeviceWalk.Next(list, info, w') == DeviceWalk.Next(list, info, w)
        decreases Passes(w'), Left(list, w'.rw, w'.prev)
      {
        Next1Shrinks(list, info, w'.gen, w'.rw, w'.prev);
        d, prev := StepOnce(w');
        if d.None? {
          w' := NextPass(list, w');
        } else {
          w' := w'.(prev := prev);
          if DepthOf(info, d.value) == w'.cur { return; }
          d := None;
        }
      }
    }
  }
}
