/** The same operations as the kernel runs them on a process, field by field. */
module LwpProc {
  import opened LwpSuspend
  import opened Queues

  const EDEADLK: int := 11
  const EINTR: int := 4

  class Proc {
    var lwps: map<Id, Lwp>
    var nrlwps: int

    ghost function Model(): State
      reads this
    {
      State(lwps, nrlwps)
    }

    /** setrunnable. */
    method SetRunnable(t: Id)
      requires t in lwps && CanSetRunnable(lwps[t])
      modifies this
      ensures Model() == MadeRunnable(old(Model()), t)
      ensures Inv(old(Model())) ==> Inv(Model())
    {
      ghost var s := Model();
      if Inv(s) { SetRunnableKeeps(s, t); }
      var l := lwps[t];
      match l.stat {
        case Stop => nrlwps := nrlwps + 1;
        case Suspended =>
          l := l.(wsuspend := false);
          nrlwps := nrlwps + 1;
        case Sleep =>
        case Idl =>
      }
      if l.wchan {
        l := l.(stat := Sleep);
        l := l.(wchan := false, stat := if l.running then OnProc else Run);
      } else if l.running {
        l := l.(stat := OnProc);
      } else {
        l := l.(stat := Run);
      }
      lwps := lwps[t := l];
    }

    /** lwp_suspend. */
    method Suspend(cur: Id, t: Id) returns (error: int)
      requires Inv(Model()) && Enabled(Model(), LwpSuspend.Suspend(cur, t))
      modifies this
      ensures Model() == SuspendLwp(old(Model()), cur, t) && Inv(Model())
      ensures error == if old(lwps[cur]).exiting then EDEADLK else if old(lwps[t]).stat == Idl || old(lwps[t]).stat == Zomb then EINTR else 0
    {
      SuspendKeeps(Model(), cur, t);
      assert LwpOk(lwps[t]);
      if lwps[cur].exiting { return EDEADLK; }
      error := 0;
      match lwps[t].stat {
        case Run => lwps := lwps[t := lwps[t].(wsuspend := true)];
        case OnProc => lwps := lwps[t := lwps[t].(wsuspend := true)];
        case Sleep =>
          lwps := lwps[t := lwps[t].(wsuspend := true)];
          if lwps[t].sintr { SetRunnable(t); }
        case Suspended =>
        case Stop =>
          lwps := lwps[t := lwps[t].(wsuspend := true)];
          SetRunnable(t);
        case Idl => error := EINTR;
        case Zomb => error := EINTR;
      }
    }

    /** lwp_continue. */
    method Continue(t: Id)
      requires Inv(Model()) && t in lwps
      modifies this
      ensures Model() == ContinueLwp(old(Model()), t) && Inv(Model())
      ensures t in lwps && (lwps[t].stat == Suspended <==> old(lwps[t]).stat == Suspended && old(lwps[t]).reboot)
      ensures lwps[t].wsuspend <==> old(lwps[t]).wsuspend && old(lwps[t]).reboot
    {
      ContinueKeeps(Model(), t);
      ContinueResumes(Model(), t);
      if lwps[t].reboot { return; }
      lwps := lwps[t := lwps[t].(wsuspend := false)];
      if lwps[t].stat != Suspended { return; }
      SetRunnable(t);
    }

    /** suspendsched, for the LWPs of the process in list order: every one but the caller's own is held for reboot. */
    method SuspendSched(cur: Id, order: seq<Id>)
      requires Inv(Model()) && NoDups(order) && (forall t :: t in order <==> t in lwps)
      modifies this
      ensures Inv(Model()) && lwps.Keys == old(lwps).Keys
      ensures forall t :: t in lwps ==> lwps[t] == if t == cur then old(lwps)[t] else Held(old(lwps)[t])
    {
      hide Held, Inv;
      for i := 0 to |order|
        invariant Inv(Model()) && lwps.Keys == old(lwps).Keys
        invariant forall j :: 0 <= j < |order| ==>
          order[j] in lwps && lwps[order[j]] == if j < i && order[j] != cur then Held(old(lwps)[order[j]]) else old(lwps)[order[j]]
      {
        if order[i] != cur { HoldForReboot(order[i]); }
      }
    }

    method HoldForReboot(t: Id)
      requires Inv(Model()) && t in lwps
      modifies this
      ensures Inv(Model()) && lwps == old(lwps)[t := Held(old(lwps[t]))] && nrlwps == old(nrlwps)
    {
      RebootKeeps(Model(), t);
      RebootHolds(Model(), t);
      AllOk(Model(), t);
      lwps := lwps[t := lwps[t].(wsuspend := true, reboot := true)];
      if lwps[t].stat == Sleep && lwps[t].sintr { SetRunnable(t); }
    }

    /** The locked part of lwp_userret's suspend branch: true if the LWP must now switch away. */
    method UserretSuspend(l: Id) returns (switch: bool)
      requires Inv(Model()) && Enabled(Model(), Recheck(l))
      modifies this
      ensures Model() == Next(old(Model()), Recheck(l)) && Inv(Model())
      ensures switch <==> lwps[l].stat == Suspended
    {
      StepKeepsInv(Model(), Recheck(l));
      if !lwps[l].wsuspend {
        lwps := lwps[l := lwps[l].(place := Elsewhere)];
        return false;
      }
      nrlwps := nrlwps - 1;
      lwps := lwps[l := lwps[l].(stat := Suspended, place := Leaving)];
      return true;
    }
  }
}
