/** The loops of simplehook_dohooks, each within one region under the list lock. */
module SimpleHookList {
  import opened Options
  import opened Queues
  import opened SimpleHook

  /** hl_lwp, while the hooks are being run. */
  function Owner(r: Runner): Option<Lwp> { if r.Idle? then None else Some(r.lwp) }

  /** hl_active_hk. */
  function Active(r: Runner): Option<Hook> { if r.In? then Some(r.hd) else None }

  class HookList {
    var list: seq<Hook>
    var live: set<Hook>
    var freed: set<Hook>
    var owner: Option<Lwp>
    var active: Option<Hook>
    var cvlock: bool
    ghost var model: State

    /** The fields are those of a state that a run of the protocol can be in. */
    ghost predicate Valid()
      reads this
    {
      && list == model.list && live == model.live && freed == model.freed && cvlock == model.cvlock
      && owner == Owner(model.runner) && active == Active(model.runner) && Inv(model)
    }

    constructor ()
      ensures Valid() && Fresh(model)
    {
      list, live, freed, owner, active, cvlock := [], {}, {}, None, None, false;
      model := State([], {}, {}, Runner.Idle, false, map[], {}, [], {});
    }

    /** simplehook_establish. */
    method Establish(h: Hook)
      requires Valid() && Enabled(model, SimpleHook.Establish(h))
      modifies this
      ensures Valid() && model == Next(old(model), SimpleHook.Establish(h))
      ensures h in live && Todo(model) == Todo(old(model)) && h !in Todo(model)
    {
      StepKeepsInv(model, SimpleHook.Establish(h));
      SameTodo(model, h);
      FromIn(model);
      model := Next(model, SimpleHook.Establish(h));
      live := live + {h};
      list := [h] + list;
    }

    /** simplehook_disestablish, up to its wait: true if the callback is being run by another thread. */
    method Disestablish(t: Lwp, h: Hook, locked: bool) returns (wait: bool)
      requires Valid() && Enabled(model, SimpleHook.Disestablish(t, h, locked))
      modifies this
      ensures Valid() && model == Next(old(model), SimpleHook.Disestablish(t, h, locked))
      ensures wait <==> Running(old(model), h) && old(model).runner.lwp != t
      ensures wait || h in model.gone || owner == Some(t)
    {
      StepKeepsInv(model, SimpleHook.Disestablish(t, h, locked));
      ghost var next := Next(model, SimpleHook.Disestablish(t, h, locked));
      wait := false;
      live := live - {h};
      if owner == None {
        list, freed := Without(list, h), freed + {h};
      } else if active == Some(h) && owner != Some(t) {
        if locked { cvlock := true; }
        wait := true;
      }
      model := next;
    }

    /** From a node on, skip those whose hook was removed: the next callback to make, if any. */
    method NextCallback(c: Option<Hook>) returns (next: Option<Hook>)
      requires NoDups(list) && (c.Some? ==> c.value in list)
      ensures next == First(Live(From(list, c), live))
    {
      next := c;
      FromMembers(list, c);
      while next.Some? && next.value !in live
        invariant next.Some? ==> next.value in list
        invariant Live(From(list, next), live) == Live(From(list, c), live)
        decreases |From(list, next)|
      {
        FromAfter(list, next.value);
        next := After(list, next.value);
      }
      if next.Some? { FromMembers(list, next); }
    }

    /** The last loop: unlink and free the removed nodes. */
    method Sweep()
      requires Valid() && Enabled(model, SimpleHook.Sweep)
      modifies this
      ensures Valid() && model == Next(old(model), SimpleHook.Sweep)
    {
      StepKeepsInv(model, SimpleHook.Sweep);
      ghost var next := Next(model, SimpleHook.Sweep);
      Unlink();
      owner := None;
      model := next;
    }

    method Unlink()
      modifies this`list, this`freed
      ensures list == Live(old(list), live) && freed == old(freed) + Removed(old(list))
    {
      var kept: seq<Hook> := [];
      var rest := list;
      Nothing();
      hide Live, Removed, NoDups;
      ghost var done: seq<Hook> := [];
      while rest != []
        invariant kept + Live(rest, live) == Live(old(list), live)
        invariant done + rest == old(list) && freed == old(freed) + Removed(done)
      {
        var hd := rest[0];
        OneMore(done, hd);
        LiveStep(kept, rest);
        Shift(done, rest);
        if hd !in live { freed := freed + {hd}; } else { kept := kept + [hd]; }
        rest := rest[1..];
        done := done + [hd];
      }
      assert done + [] == done && kept + [] == kept;
      list := kept;
    }

    ghost function Removed(q: seq<Hook>): set<Hook>
      reads this`live
    {
      set h | h in q && h !in live
    }

    lemma Nothing()
      ensures Removed([]) == {} && Live([], live) == []
    {
    }

    static lemma Shift(done: seq<Hook>, rest: seq<Hook>)
      requires rest != []
      ensures (done + [rest[0]]) + rest[1..] == done + rest
    {
    }

    lemma OneMore(q: seq<Hook>, h: Hook)
      ensures Removed(q + [h]) == if h in live then Removed(q) else Removed(q) + {h}
    {
    }

    lemma LiveStep(kept: seq<Hook>, rest: seq<Hook>)
      requires rest != []
      ensures kept + Live(rest, live) == (if rest[0] in live then kept + [rest[0]] else kept) + Live(rest[1..], live)
    {
    }
  }
}
