/**
 * vfs_suspend_all and vfs_resume_all (vfs_s2idle.c) as one LWP runs them. What the rest of the kernel
 * answers (try-busy, try-lock, suspension, sync) is arbitrary: the n-th call gets env(n).
 */
module S2idle {
  import opened Options
  import opened Queues
  import opened S2idleChain
  import opened S2idlePlan

  type Lock = nat

  const EBUSY: int := 16
  const ELOOP: int := 62

  /** struct vfs_s2idle_mount. */
  datatype Entry = Entry(mp: Mount, suspendMp: Option<Mount>, suspended: bool, global: bool, updatingHeld: bool)

  function Fresh(m: Mount): Entry { Entry(m, None, false, false, false) }

  class Vfs {
    // The mount list, which does not change while the barrier is held, and what hangs off its mounts.
    const list: seq<Mount>
    const lower: map<Mount, Mount>
    const updating: map<Mount, Lock>
    const env: nat -> int
    var calls: nat
    // What this LWP holds.
    var owner: bool
    var busy: set<Mount>
    var marker: Option<Mount>
    var locks: set<Lock>
    var stack: seq<Mount>
    var async: set<Mount>
    var log: seq<Event>

    // -------------------------------------------------- the rest of the kernel

    method Answer() returns (error: int)
      modifies this`calls
      ensures error == env(old(calls))
    {
      error := env(calls);
      calls := calls + 1;
    }

    /** vfs_s2idle_barrier_enter, whose own logic is in MountGate. */
    method BarrierEnter() returns (error: int)
      requires !owner
      modifies this`calls, this`owner
      ensures owner <==> error == 0
    {
      error := Answer();
      owner := error == 0;
    }

    method BarrierExit()
      requires owner
      modifies this`owner
      ensures !owner
    {
      owner := false;
    }

    /** vfs_trybusy for the session: one hold per mount. */
    method TryBusy(m: Mount) returns (error: int)
      requires m !in busy
      modifies this`calls, this`busy
      ensures busy == if error == 0 then old(busy) + {m} else old(busy)
    {
      error := Answer();
      if error == 0 { busy := busy + {m}; }
    }

    method Unbusy(m: Mount)
      requires m in busy
      modifies this`busy
      ensures busy == old(busy) - {m}
    {
      busy := busy - {m};
    }

    /** mutex_tryenter: a lock already held by the caller must not be tried. */
    method TryLock(l: Lock) returns (ok: bool)
      requires l !in locks
      modifies this`calls, this`locks
      ensures locks == if ok then old(locks) + {l} else old(locks)
    {
      var error := Answer();
      ok := error == 0;
      if ok { locks := locks + {l}; }
    }

    method Unlock(l: Lock)
      requires l in locks
      modifies this`locks
      ensures locks == old(locks) - {l}
    {
      locks := locks - {l};
    }

    /** vfs_suspend takes the global suspension lock, so nothing may be suspended yet. */
    method SuspendFirst(m: Mount) returns (error: int)
      requires stack == []
      modifies this`calls, this`stack, this`log
      ensures if error == 0 then stack == [m] && log == old(log) + [Suspended(m)] else stack == [] && log == old(log)
    {
      error := Answer();
      if error == 0 { stack, log := [m], log + [Suspended(m)]; }
    }

    /** VFS_SUSPENDCTL(SUSPEND_SUSPEND) under the global suspension. */
    method SuspendMore(m: Mount) returns (error: int)
      requires stack != []
      modifies this`calls, this`stack, this`log
      ensures if error == 0 then stack == old(stack) + [m] && log == old(log) + [Suspended(m)] else stack == old(stack) && log == old(log)
    {
      error := Answer();
      if error == 0 { stack, log := stack + [m], log + [Suspended(m)]; }
    }

    /** VFS_SYNC: synchronous, with the mount's canonical mount the last one suspended. */
    method Sync(m: Mount) returns (error: int)
      requires stack != [] && IsLast(lower, m, stack[|stack| - 1]) && m !in async
      modifies this`calls, this`log
      ensures log == if error == 0 then old(log) + [Synced(m)] else old(log)
    {
      error := Answer();
      if error == 0 { log := log + [Synced(m)]; }
    }

    /** VFS_SUSPENDCTL(SUSPEND_RESUME): only the last one suspended, and not the global one. */
    method ResumeLast(m: Mount)
      requires |stack| > 1 && stack[|stack| - 1] == m
      modifies this`stack, this`log
      ensures stack == old(stack)[..|old(stack)| - 1] && log == old(log) + [Resumed(m)]
    {
      stack, log := stack[..|stack| - 1], log + [Resumed(m)];
    }

    /** vfs_resume: releases the global suspension lock, so it comes last. */
    method ResumeGlobal(m: Mount)
      requires stack == [m]
      modifies this`stack, this`log
      ensures stack == [] && log == old(log) + [Resumed(m)]
    {
      stack, log := [], log + [Resumed(m)];
    }

    // ------------------------------------------------------ collecting mounts

    /**
     * mountlist_iterator_trynext_ex: drop the marker's hold on the last mount, step to the next one that
     * can be marked busy, and say whether any was skipped.
     */
    method IterNext(pos: nat) returns (skipped: bool, pos': nat)
      requires pos <= |list|
      modifies this`calls, this`marker
      ensures pos <= pos' <= |list|
      ensures !skipped && marker.Some? ==> pos' == pos + 1 && marker.value == list[pos]
      ensures !skipped && marker.None? ==> pos == |list|
    {
      marker := None;
      skipped, pos' := false, pos;
      while pos' < |list|
        invariant pos <= pos' <= |list| && marker == None && (!skipped ==> pos' == pos)
      {
        var m := list[pos'];
        pos' := pos' + 1;
        var error := Answer();
        if error == 0 {
          marker := Some(m);
          return;
        }
        skipped := true;
      }
    }

    /** The collecting loop: one more hold on every mount, and none skipped. */
    method Collect() returns (error: int, mounts: seq<Mount>)
      requires NoDups(list) && busy == {}
      modifies this`calls, this`busy, this`marker
      ensures mounts <= list && busy == Elems(mounts) && marker == None
      ensures error == 0 ==> mounts == list
    {
      var pos := 0;
      error, mounts := 0, [];
      while true
        invariant pos <= |list| && error == 0 && mounts == list[..pos] && busy == Elems(mounts)
        decreases |list| - pos
      {
        var skipped, next := IterNext(pos);
        if skipped { error := EBUSY; break; }
        if marker.None? { break; }
        error := TryBusy(marker.value);
        if error != 0 { break; }
        mounts := mounts + [marker.value];
        pos := next;
        assert mounts == list[..pos];
      }
      marker := None;
    }

    // ------------------------------------------------------- canonical mounts

    /** mounts holds the first n mounts of the list, and the first k have their canonical mount. */
    ghost predicate Found(mounts: seq<Entry>, k: nat) {
      && |mounts| == |list| && k <= |list|
      && (forall i :: 0 <= i < |list| ==> mounts[i].mp == list[i])
      && (forall i :: 0 <= i < k ==> mounts[i].suspendMp.Some? && IsLast(lower, list[i], mounts[i].suspendMp.value) && mounts[i].suspendMp.value in list)
    }

    static ghost predicate Unmarked(mounts: seq<Entry>) {
      forall i :: 0 <= i < |mounts| ==> !mounts[i].suspended && !mounts[i].global && !mounts[i].updatingHeld
    }

    /** The chain of m ends, at a mount of the list. */
    ghost predicate Backed(m: Mount) { exists c: Mount :: IsLast(lower, m, c) && c in list }

    method Canonicalize(mounts: array<Entry>) returns (error: int)
      requires Found(mounts[..], 0) && Unmarked(mounts[..])
      modifies mounts
      ensures Unmarked(mounts[..]) && (error == 0 ==> Found(mounts[..], |list|))
      ensures |mounts[..]| == |list| && forall i :: 0 <= i < |list| ==> mounts[i].mp == list[i]
      ensures error == 0 || error == EBUSY || error == ELOOP
      ensures error == 0 <==> forall i :: 0 <= i < |list| ==> Backed(list[i])
    {
      var i := 0;
      error := 0;
      while i < mounts.Length
        invariant i <= mounts.Length && Found(mounts[..], i) && Unmarked(mounts[..])
      {
        var c := CanonicalMount(lower, mounts[i].mp);
        if c.None? {
          CyclicHasNoLast(lower, list[i]);
          assert !Backed(list[i]);
          return ELOOP;
        }
        mounts[i] := mounts[i].(suspendMp := c);
        var found := HasMount(mounts, c.value);
        if !found {
          forall d: Mount | IsLast(lower, list[i], d) ensures d !in list { OneLast(lower, list[i], c.value, d); }
          assert !Backed(list[i]);
          return EBUSY;
        }
        i := i + 1;
      }
      forall j | 0 <= j < |list| ensures Backed(list[j]) {
        assert mounts[..][j] == mounts[j];
        var c := mounts[j].suspendMp.value;
        assert IsLast(lower, list[j], c) && c in list;
      }
    }

    /** vfs_s2idle_has_mount. */
    method HasMount(mounts: array<Entry>, mp: Mount) returns (found: bool)
      requires |mounts[..]| == |list| && forall i :: 0 <= i < |list| ==> mounts[i].mp == list[i]
      ensures found <==> mp in list
    {
      var i := 0;
      while i < mounts.Length
        invariant i <= mounts.Length && mp !in list[..i]
      {
        if mounts[i].mp == mp { return true; }
        i := i + 1;
      }
      return false;
    }

    // ------------------------------------------------------------ updater locks

    ghost predicate Holder(mounts: seq<Entry>, l: Lock) {
      exists j :: 0 <= j < |mounts| && mounts[j].updatingHeld && mounts[j].mp in updating && updating[mounts[j].mp] == l
    }

    /** The locks held are those of the marked entries, one entry per lock. */
    ghost predicate LocksMatch(mounts: seq<Entry>)
      reads this`locks
    {
      && (forall j :: 0 <= j < |mounts| && mounts[j].updatingHeld ==> mounts[j].mp in updating && updating[mounts[j].mp] in locks)
      && (forall j, k :: 0 <= j < k < |mounts| && mounts[j].updatingHeld && mounts[k].updatingHeld ==>
            updating[mounts[j].mp] != updating[mounts[k].mp])
      && (forall l :: l in locks ==> Holder(mounts, l))
    }

    /** From index i on, the updater lock of every mount is held; before it, no entry is marked. */
    ghost predicate Locked(mounts: seq<Entry>, i: nat)
      reads this`locks
    {
      && LocksMatch(mounts) && i <= |mounts|
      && (forall j :: 0 <= j < i ==> !mounts[j].updatingHeld)
      && (forall j :: i <= j < |mounts| ==> mounts[j].mp in updating && updating[mounts[j].mp] in locks)
    }

    /** vfs_s2idle_same_updater. */
    method SameUpdater(mounts: array<Entry>, index: nat) returns (same: bool)
      requires index < mounts.Length && Locked(mounts[..], index + 1)
      ensures same <==> mounts[index].mp in updating && updating[mounts[index].mp] in locks
    {
      var mp := mounts[index].mp;
      var i := 0;
      while i < mounts.Length
        invariant i <= mounts.Length
        invariant mp in updating ==> forall j :: 0 <= j < i && mounts[j].updatingHeld ==> updating[mounts[j].mp] != updating[mp]
      {
        assert mounts[..][i] == mounts[i];
        if i != index && mounts[i].updatingHeld && mp in updating && updating[mounts[i].mp] == updating[mp] { return true; }
        i := i + 1;
      }
      assert forall l :: l in locks ==> Holder(mounts[..], l);
      return false;
    }

    static ghost predicate OnlyHeldDiffers(mounts: seq<Entry>, mounts': seq<Entry>) {
      |mounts| == |mounts'| && forall j :: 0 <= j < |mounts| ==> mounts'[j] == mounts[j].(updatingHeld := mounts'[j].updatingHeld)
    }

    /** All updater locks, the last mount's first, each distinct lock once. */
    method LockUpdaters(mounts: array<Entry>) returns (error: int)
      requires locks == {} && Unmarked(mounts[..])
      modifies this`calls, this`locks, mounts
      ensures OnlyHeldDiffers(old(mounts[..]), mounts[..]) && LocksMatch(mounts[..])
      ensures error == 0 ==> Locked(mounts[..], 0)
    {
      var i := mounts.Length;
      while i > 0
        invariant 0 <= i <= mounts.Length && Locked(mounts[..], i) && OnlyHeldDiffers(old(mounts[..]), mounts[..])
      {
        i := i - 1;
        var same := SameUpdater(mounts, i);
        if !same {
          if mounts[i].mp !in updating { return EBUSY; }
          ghost var before := mounts[..];
          var ok := TryLock(updating[mounts[i].mp]);
          if !ok { return EBUSY; }
          mounts[i] := mounts[i].(updatingHeld := true);
          NewHolder(before, mounts[..], i);
        }
      }
      return 0;
    }

    /** Entry i takes a lock that nobody had. */
    lemma NewHolder(before: seq<Entry>, after: seq<Entry>, i: nat)
      requires i < |before| && after == before[i := before[i].(updatingHeld := true)] && before[i].mp in updating
      requires updating[before[i].mp] in locks
      requires forall j :: 0 <= j <= i ==> !before[j].updatingHeld
      requires forall j :: i < j < |before| ==> before[j].mp in updating && updating[before[j].mp] in locks
      requires forall j :: 0 <= j < |before| && before[j].updatingHeld ==> updating[before[j].mp] != updating[before[i].mp]
      requires forall j, k :: 0 <= j < k < |before| && before[j].updatingHeld && before[k].updatingHeld ==>
        updating[before[j].mp] != updating[before[k].mp]
      requires forall l :: l in locks && l != updating[before[i].mp] ==> Holder(before, l)
      ensures Locked(after, i)
    {
      assert after[i].updatingHeld;
      assert Holder(after, updating[before[i].mp]);
      forall l | l in locks && l != updating[before[i].mp] ensures Holder(after, l) {
        var j :| 0 <= j < |before| && before[j].updatingHeld && before[j].mp in updating && updating[before[j].mp] == l;
        assert after[j].updatingHeld;
      }
    }

    /** vfs_s2idle_unlock_updates. */
    method UnlockUpdates(mounts: array<Entry>)
      requires LocksMatch(mounts[..])
      modifies this`locks, mounts
      ensures locks == {} && OnlyHeldDiffers(old(mounts[..]), mounts[..])
      ensures forall j :: 0 <= j < mounts.Length ==> !mounts[j].updatingHeld
    {
      var i := 0;
      while i < mounts.Length
        invariant i <= mounts.Length && LocksMatch(mounts[..]) && OnlyHeldDiffers(old(mounts[..]), mounts[..])
        invariant forall j :: 0 <= j < i ==> !mounts[j].updatingHeld
      {
        assert mounts[..][i] == mounts[i];
        if mounts[i].updatingHeld {
          ghost var before := mounts[..];
          ghost var held := locks;
          Unlock(updating[mounts[i].mp]);
          mounts[i] := mounts[i].(updatingHeld := false);
          forall l | l in locks ensures Holder(mounts[..], l) {
            assert l in held && Holder(before, l);
            var j :| 0 <= j < |before| && before[j].updatingHeld && before[j].mp in updating && updating[before[j].mp] == l;
            assert mounts[..][j].updatingHeld;
          }
        }
        i := i + 1;
      }
      assert forall l :: l in locks ==> Holder(mounts[..], l);
    }

    // --------------------------------------------------------------- suspension

    /** canon gives each mount of the list the last mount of its chain, which is in the list too. */
    ghost predicate Backing(canon: seq<Mount>) {
      |canon| == |list| && forall i :: 0 <= i < |list| ==> IsLast(lower, list[i], canon[i]) && canon[i] in list
    }

    /** What the code computes are canonical mounts: the last mount of a chain is its own last mount. */
    lemma BackingIsCanonical(canon: seq<Mount>)
      requires Backing(canon) && NoDups(list)
      ensures Canonical(list, canon)
    {
      forall i, j | 0 <= i < |list| && 0 <= j < |list| && list[j] == canon[i] ensures canon[j] == list[j] {
        assert IsLast(lower, list[i], canon[i]) && IsLast(lower, list[j], canon[j]);
        assert Down(lower, list[j], 0) == Some(list[j]);
        OneLast(lower, list[j], canon[j], list[j]);
      }
    }

    /** So carrying out the whole plan syncs every mount once and suspends the canonical ones in reverse. */
    lemma PlanCoversAll(canon: seq<Mount>)
      requires Backing(canon) && NoDups(list)
      ensures forall j :: 0 <= j < |list| ==> Count(Plan(list, canon, |list|), Synced(list[j])) == 1
      ensures Suspensions(Plan(list, canon, |list|)) == Tops(list, canon, 0)
    {
      hide Plan, Count, Tops, Suspensions, Canonical;
      BackingIsCanonical(canon);
      SuspendsInReverse(list, canon);
      forall j | 0 <= j < |list| ensures Count(Plan(list, canon, |list|), Synced(list[j])) == 1 { SyncedOnce(list, canon, j); }
    }

    /** What the entries say of the mounts and their canonical mounts. */
    ghost predicate Entries(mounts: seq<Entry>, canon: seq<Mount>) {
      && |mounts| == |list| == |canon|
      && (forall j :: 0 <= j < |list| ==> mounts[j].mp == list[j] && mounts[j].suspendMp == Some(canon[j]))
    }

    /** The canonical mounts from index i on are suspended; the first of them under the global suspension. */
    ghost predicate Stacked(mounts: seq<Entry>, canon: seq<Mount>, i: nat)
      reads this`stack
    {
      && |mounts| == |list| == |canon| && i <= |list|
      && stack == Tops(list, canon, i)
      && (forall j :: 0 <= j < |list| ==> mounts[j].mp == list[j])
      && (forall j :: 0 <= j < |list| ==> (mounts[j].suspended <==> j >= i && Own(list, canon, j)))
      && (forall j :: 0 <= j < |list| ==> (mounts[j].global <==> j >= i && Own(list, canon, j) && Tops(list, canon, j + 1) == []))
    }

    static ghost predicate SameBut(mounts: seq<Entry>, mounts': seq<Entry>) {
      |mounts| == |mounts'| && forall j :: 0 <= j < |mounts| ==>
        mounts'[j] == mounts[j].(suspended := mounts'[j].suspended, global := mounts'[j].global)
    }

    /** Sync mount j, synchronously: MNT_ASYNC is cleared for the call and put back. */
    method SyncOne(m: Mount) returns (error: int)
      requires stack != [] && IsLast(lower, m, stack[|stack| - 1])
      modifies this`calls, this`log, this`async
      ensures async == old(async) && log == if error == 0 then old(log) + [Synced(m)] else old(log)
    {
      var asyncflag := m in async;
      async := async - {m};
      error := Sync(m);
      if asyncflag { async := async + {m}; }
    }

    /** Sync the mounts whose canonical mount is top, the last first. */
    method SyncAliases(mounts: array<Entry>, top: Mount, ghost canon: seq<Mount>) returns (error: int, ghost done: seq<Event>)
      requires Entries(mounts[..], canon) && Backing(canon) && stack != [] && stack[|stack| - 1] == top
      modifies this`calls, this`log, this`async
      ensures async == old(async) && log == old(log) + done && done <= Syncs(list, canon, top, |list|)
      ensures error == 0 ==> done == Syncs(list, canon, top, |list|)
    {
      hide IsLast, Syncs;
      var j := mounts.Length;
      done := [];
      assert [] + Syncs(list, canon, top, j) == Syncs(list, canon, top, |list|);
      while j > 0
        invariant 0 <= j <= mounts.Length && async == old(async) && log == old(log) + done
        invariant done + Syncs(list, canon, top, j) == Syncs(list, canon, top, |list|)
      {
        j := j - 1;
        SyncStep(list, canon, top, j, done);
        assert mounts[..][j] == mounts[j];
        if mounts[j].suspendMp == Some(top) {
          error := SyncOne(mounts[j].mp);
          if error != 0 { return; }
          Assoc(old(log), done, [Synced(list[j])]);
          done := done + [Synced(list[j])];
        }
      }
      SyncsDone(list, canon, top, done);
      error := 0;
    }

    /** Suspend the canonical mount i: the first one by vfs_suspend, which takes the global suspension. */
    method SuspendOne(mounts: array<Entry>, i: nat, globalHeld: bool, ghost canon: seq<Mount>) returns (error: int)
      requires i < mounts.Length && Stacked(mounts[..], canon, i + 1) && Own(list, canon, i) && (globalHeld <==> stack != [])
      modifies this`calls, this`stack, this`log, mounts
      ensures SameBut(old(mounts[..]), mounts[..])
      ensures error == 0 ==> Stacked(mounts[..], canon, i) && log == old(log) + [Suspended(list[i])] && stack == old(stack) + [list[i]]
      ensures error != 0 ==> Stacked(mounts[..], canon, i + 1) && log == old(log) && stack == old(stack)
    {
      var mp := mounts[i].mp;
      if !globalHeld { error := SuspendFirst(mp); } else { error := SuspendMore(mp); }
      if error != 0 { return; }
      mounts[i] := mounts[i].(suspended := true);
      if !globalHeld { mounts[i] := mounts[i].(global := true); }
    }

    /** Suspend canonical mount k, then sync it and its aliases. */
    method SuspendBlock(mounts: array<Entry>, k: nat, globalHeld: bool, ghost canon: seq<Mount>) returns (error: int, ghost d: seq<Event>)
      requires Entries(mounts[..], canon) && Backing(canon) && k < mounts.Length
      requires Stacked(mounts[..], canon, k + 1) && Own(list, canon, k) && (globalHeld <==> stack != [])
      modifies this`calls, this`stack, this`log, this`async, mounts
      ensures SameBut(old(mounts[..]), mounts[..]) && async == old(async)
      ensures log == old(log) + d && d <= Block(list, canon, k) && (error == 0 ==> d == Block(list, canon, k))
      ensures Stacked(mounts[..], canon, if d == [] then k + 1 else k) && (error == 0 ==> d != [])
      ensures stack == old(stack) + Suspensions(d)
    {
      hide Backing, Stacked, Tops, Suspensions, Block, Syncs;
      d := [];
      NoEvents(stack);
      ghost var before := mounts[..];
      error := SuspendOne(mounts, k, globalHeld, canon);
      if error != 0 { return; }
      EntriesKept(before, mounts[..], canon);
      assert mounts[..][k] == mounts[k];
      ghost var e;
      error, e := SyncAliases(mounts, mounts[k].mp, canon);
      d := [Suspended(list[k])] + e;
      BlockPrefix(list, canon, k, e);
      Assoc(old(log), [Suspended(list[k])], e);
    }

    /** The suspending loop: done is what it got through of the plan. */
    method SuspendSync(mounts: array<Entry>, ghost canon: seq<Mount>) returns (error: int, ghost done: seq<Event>, ghost i: nat)
      requires Entries(mounts[..], canon) && Backing(canon) && stack == []
      requires forall j :: 0 <= j < mounts.Length ==> !mounts[j].suspended && !mounts[j].global
      modifies this`calls, this`stack, this`log, this`async, mounts
      ensures SameBut(old(mounts[..]), mounts[..]) && async == old(async)
      ensures log == old(log) + done && done <= Plan(list, canon, |list|)
      ensures i <= |list| && Stacked(mounts[..], canon, i) && stack == Suspensions(done)
      ensures error == 0 ==> i == 0 && done == Plan(list, canon, |list|)
    {
      hide Backing, Plan, Tops, Block, Suspensions;
      var k := mounts.Length;
      var globalHeld := false;
      done := [];
      i := k;
      PlanStart(list, canon);
      while k > 0
        invariant 0 <= k <= mounts.Length && i == k && SameBut(old(mounts[..]), mounts[..]) && async == old(async)
        invariant Entries(mounts[..], canon) && Stacked(mounts[..], canon, k) && (globalHeld <==> stack != [])
        invariant log == old(log) + done && done + Plan(list, canon, k) == Plan(list, canon, |list|) && Suspensions(done) == stack
      {
        k := k - 1;
        assert mounts[..][k] == mounts[k];
        PlanStep(list, canon, k, done);
        if Some(mounts[k].mp) == mounts[k].suspendMp {
          ghost var before := mounts[..];
          ghost var d;
          error, d := SuspendBlock(mounts, k, globalHeld, canon);
          EntriesKept(before, mounts[..], canon);
          SameButTrans(old(mounts[..]), before, mounts[..]);
          Concat(done, d, Synced(0));
          NextBlock(list, canon, k, done, d);
          Assoc(old(log), done, d);
          done := done + d;
          if error != 0 {
            i := if d == [] then k + 1 else k;
            return;
          }
          globalHeld := true;
          StackedNonEmpty(mounts[..], canon, k);
        } else {
          StackedSkip(mounts[..], canon, k);
        }
        i := k;
      }
      PlanDone(list, canon, done);
      error := 0;
    }

    lemma EntriesKept(before: seq<Entry>, after: seq<Entry>, canon: seq<Mount>)
      requires Entries(before, canon) && SameBut(before, after)
      ensures Entries(after, canon)
    {
    }

    static lemma SameButTrans(a: seq<Entry>, b: seq<Entry>, c: seq<Entry>)
      requires SameBut(a, b) && SameBut(b, c)
      ensures SameBut(a, c)
    {
    }

    lemma StackedSkip(mounts: seq<Entry>, canon: seq<Mount>, k: nat)
      requires k < |list| && Stacked(mounts, canon, k + 1) && !Own(list, canon, k)
      ensures Stacked(mounts, canon, k)
    {
    }

    lemma StackedNonEmpty(mounts: seq<Entry>, canon: seq<Mount>, k: nat)
      requires k < |list| && Stacked(mounts, canon, k) && Own(list, canon, k)
      ensures stack != []
    {
    }

    // ------------------------------------------------------------------- resume

    /** vfs_s2idle_resume_suspended. */
    method ResumeSuspended(mounts: array<Entry>, ghost canon: seq<Mount>, ghost i: nat)
      requires Stacked(mounts[..], canon, i)
      modifies this`stack, this`log, mounts
      ensures stack == [] && log == old(log) + Undo(old(stack)) && SameBut(old(mounts[..]), mounts[..])
      ensures forall j :: 0 <= j < mounts.Length ==> !mounts[j].suspended && !mounts[j].global
    {
      ghost var g := FirstSuspended(list, canon, i);
      ResumeLayers(mounts, canon, i, g);
      ResumeFirst(mounts, canon, g);
      assert Undo([]) == [];
    }

    /** All but the global one, in list order. */
    method ResumeLayers(mounts: array<Entry>, ghost canon: seq<Mount>, ghost i: nat, ghost g: nat)
      requires Stacked(mounts[..], canon, i) && i <= g <= |list| && (forall j :: g < j < |list| ==> !Own(list, canon, j))
      requires g < |list| ==> Own(list, canon, g) && Tops(list, canon, g + 1) == []
      requires g == |list| ==> Tops(list, canon, i) == [] && forall j :: i <= j < |list| ==> !Own(list, canon, j)
      requires forall j :: i <= j <= g < |list| ==> Tops(list, canon, j) != []
      modifies this`stack, this`log, mounts
      ensures log + Undo(stack) == old(log) + Undo(old(stack)) && SameBut(old(mounts[..]), mounts[..])
      ensures stack == if g < |list| then Tops(list, canon, g) else []
      ensures forall j :: 0 <= j < mounts.Length ==> (mounts[j].suspended <==> j == g) && (mounts[j].global <==> j == g)
    {
      hide Tops, Undo;
      var k := 0;
      ghost var lo := i;
      while k < mounts.Length
        invariant k <= mounts.Length && i <= lo <= g && (k <= lo || lo == g) && SameBut(old(mounts[..]), mounts[..])
        invariant stack == Tops(list, canon, lo)
        invariant log + Undo(stack) == old(log) + Undo(old(stack))
        invariant forall j :: 0 <= j < mounts.Length ==> (mounts[j].suspended <==> lo <= j && Own(list, canon, j))
        invariant forall j :: 0 <= j < mounts.Length ==> (mounts[j].global <==> j == g)
      {
        TopsStep(list, canon, k);
        assert mounts[..][k].mp == old(mounts[..])[k].mp == list[k];
        if mounts[k].suspended && !mounts[k].global {
          UndoStep(stack);
          Assoc(log, [Resumed(list[k])], Undo(stack[..|stack| - 1]));
          ResumeLast(mounts[k].mp);
          mounts[k] := mounts[k].(suspended := false);
          lo := k + 1;
        } else if k == lo < g {
          lo := k + 1;
        }
        k := k + 1;
      }
      TopsEnd(list, canon);
    }

    /** The global one. */
    method ResumeFirst(mounts: array<Entry>, ghost canon: seq<Mount>, ghost g: nat)
      requires |list| == |canon| == mounts.Length && g <= |list| && (g < |list| ==> mounts[g].mp == list[g])
      requires stack == if g < |list| then [list[g]] else []
      requires forall j :: 0 <= j < mounts.Length ==> (mounts[j].suspended <==> j == g) && (mounts[j].global <==> j == g)
      modifies this`stack, this`log, mounts
      ensures stack == [] && log == old(log) + Undo(old(stack)) && SameBut(old(mounts[..]), mounts[..])
      ensures forall j :: 0 <= j < mounts.Length ==> !mounts[j].suspended && !mounts[j].global
    {
      var k := 0;
      while k < mounts.Length
        invariant k <= mounts.Length && SameBut(old(mounts[..]), mounts[..])
        invariant stack == if k <= g < |list| then [list[g]] else []
        invariant log == old(log) + if k <= g then [] else Undo(old(stack))
        invariant forall j :: 0 <= j < k ==> !mounts[j].suspended && !mounts[j].global
        invariant forall j :: k <= j < mounts.Length ==> mounts[j] == old(mounts[j])
      {
        if mounts[k].suspended && mounts[k].global {
          ResumeGlobal(mounts[k].mp);
          mounts[k] := mounts[k].(suspended := false, global := false);
          assert Undo([list[g]]) == [Resumed(list[g])];
        }
        k := k + 1;
      }
    }

    // -------------------------------------------------------- the whole session

    /** Nothing of a session is held. */
    ghost predicate Idle()
      reads this
    {
      !owner && busy == {} && marker == None && locks == {} && stack == []
    }

    /** A session is open: every mount is held once, every updater lock once, every canonical mount is suspended. */
    ghost predicate Session(mounts: array<Entry>, canon: seq<Mount>)
      reads this, mounts
    {
      && owner && busy == Elems(list) && marker == None
      && Entries(mounts[..], canon) && Backing(canon) && Locked(mounts[..], 0) && Stacked(mounts[..], canon, 0)
    }

    method UnbusyAll(mounts: array<Entry>, ghost n: nat)
      requires NoDups(list) && mounts.Length == n <= |list| && (forall i :: 0 <= i < n ==> mounts[i].mp == list[i]) && busy == Elems(list[..n])
      modifies this`busy
      ensures busy == {}
    {
      var i := 0;
      while i < mounts.Length
        invariant i <= mounts.Length && busy == Elems(list[i..n])
      {
        assert list[i..n] == [list[i]] + list[i + 1..n];
        assert list[i] !in list[i + 1..n];
        Unbusy(mounts[i].mp);
        i := i + 1;
      }
    }

    /** From the label fail on: locks, holds, barrier. */
    method Fail(mounts: array<Entry>, ghost n: nat)
      requires NoDups(list) && mounts.Length == n <= |list| && (forall i :: 0 <= i < n ==> mounts[i].mp == list[i]) && busy == Elems(list[..n])
      requires owner && LocksMatch(mounts[..])
      modifies this`locks, this`busy, this`owner, mounts
      ensures !owner && busy == {} && locks == {}
    {
      UnlockUpdates(mounts);
      UnbusyAll(mounts, n);
      BarrierExit();
    }

    /** Canonical mounts and updater locks, before any filesystem is touched. */
    method Prepare(mounts: array<Entry>) returns (error: int, ghost canon: seq<Mount>)
      requires Found(mounts[..], 0) && Unmarked(mounts[..]) && locks == {}
      modifies this`calls, this`locks, mounts
      ensures mounts.Length == |list| && LocksMatch(mounts[..])
      ensures forall i :: 0 <= i < |list| ==> mounts[i].mp == list[i] && !mounts[i].suspended && !mounts[i].global
      ensures error == 0 ==> Entries(mounts[..], canon) && Backing(canon) && Locked(mounts[..], 0)
    {
      hide IsLast, Locked, LocksMatch, Found, Backing, Backed, OnlyHeldDiffers, Entries;
      canon := [];
      error := Canonicalize(mounts);
      NoLocks(mounts[..]);
      if error != 0 { return; }
      ghost var entries := mounts[..];
      canon := CanonOf(entries);
      error := LockUpdaters(mounts);
      EntriesLocked(entries, mounts[..], canon);
      assert forall i :: 0 <= i < |list| ==> mounts[..][i] == mounts[i];
    }

    lemma EntriesLocked(before: seq<Entry>, after: seq<Entry>, canon: seq<Mount>)
      requires Entries(before, canon) && Unmarked(before) && OnlyHeldDiffers(before, after)
      ensures Entries(after, canon) && |after| == |list|
      ensures forall i :: 0 <= i < |list| ==> after[i].mp == list[i] && !after[i].suspended && !after[i].global
    {
    }

    lemma NoLocks(mounts: seq<Entry>)
      requires Unmarked(mounts) && locks == {}
      ensures LocksMatch(mounts)
    {
    }

    lemma CanonOf(mounts: seq<Entry>) returns (canon: seq<Mount>)
      requires Found(mounts, |list|)
      ensures Entries(mounts, canon) && Backing(canon)
    {
      hide IsLast;
      canon := seq(|list|, i requires 0 <= i < |list| => mounts[i].suspendMp.value);
    }

    /** Suspension, and the rollback if it fails part of the way. */
    method Commit(mounts: array<Entry>, ghost canon: seq<Mount>) returns (error: int, ghost done: seq<Event>)
      requires Entries(mounts[..], canon) && Backing(canon) && Locked(mounts[..], 0) && stack == []
      requires forall j :: 0 <= j < mounts.Length ==> !mounts[j].suspended && !mounts[j].global
      modifies this`calls, this`stack, this`log, this`async, mounts
      ensures Entries(mounts[..], canon) && Locked(mounts[..], 0) && async == old(async) && done <= Plan(list, canon, |list|)
      ensures error == 0 ==> Stacked(mounts[..], canon, 0) && done == Plan(list, canon, |list|) && log == old(log) + done
      ensures error != 0 ==> stack == [] && log == old(log) + done + Undo(Suspensions(done))
    {
      hide Plan, Tops, Undo, Suspensions, Backing, Stacked;
      ghost var before := mounts[..];
      ghost var i;
      error, done, i := SuspendSync(mounts, canon);
      EntriesKept(before, mounts[..], canon);
      LockedKept(before, mounts[..]);
      if error != 0 {
        before := mounts[..];
        ResumeSuspended(mounts, canon, i);
        EntriesKept(before, mounts[..], canon);
        LockedKept(before, mounts[..]);
      }
    }

    lemma LockedKept(before: seq<Entry>, after: seq<Entry>)
      requires Locked(before, 0) && SameBut(before, after)
      ensures Locked(after, 0)
    {
      forall l | l in locks ensures Holder(after, l) {
        assert Holder(before, l);
        var j :| 0 <= j < |before| && before[j].updatingHeld && before[j].mp in updating && updating[before[j].mp] == l;
        assert after[j].updatingHeld;
      }
    }

    /**
     * vfs_suspend_all. All or nothing: on success the session covers exactly the mount list and the whole plan
     * was carried out; on failure nothing is held and what had been suspended was resumed in reverse order.
     */
    method SuspendAll() returns (error: int, mounts: array<Entry>, ghost canon: seq<Mount>, ghost done: seq<Event>)
      requires Idle() && NoDups(list)
      modifies this
      ensures fresh(mounts) && async == old(async)
      ensures error == 0 ==> Session(mounts, canon) && done == Plan(list, canon, |list|) && log == old(log) + done
      ensures error == 0 ==> |canon| == |list| && Suspensions(done) == Tops(list, canon, 0)
      ensures error == 0 ==> forall j :: 0 <= j < |list| ==> Count(done, Synced(list[j])) == 1
      ensures error != 0 ==> Idle() && log == old(log) + done + Undo(Suspensions(done))
      ensures error != 0 && done != [] ==> Backing(canon) && done <= Plan(list, canon, |list|)
    {
      hide Plan, Tops, Undo, IsLast, Suspensions, Backing, Stacked, Count;
      done, canon := [], [];
      UndoNothing(log);
      mounts := new Entry[0];
      error := BarrierEnter();
      if error != 0 { return; }
      var saved;
      error, saved := Collect();
      mounts := new Entry[|saved|](i requires 0 <= i < |saved| => Fresh(saved[i]));
      if error != 0 {
        Fail(mounts, |saved|);
        return;
      }
      assert list[..|list|] == list;
      error, canon := Prepare(mounts);
      if error != 0 {
        Fail(mounts, |list|);
        return;
      }
      PlanCoversAll(canon);
      error, done := Commit(mounts, canon);
      if error != 0 { Fail(mounts, |list|); }
    }

    /** vfs_resume_all: the session is undone in reverse, the barrier last. */
    method ResumeAll(mounts: array<Entry>, ghost canon: seq<Mount>)
      requires Session(mounts, canon) && NoDups(list)
      modifies this, mounts
      ensures Idle() && log == old(log) + Undo(old(stack)) && async == old(async)
    {
      hide Plan, Tops, Undo, Backing, Stacked;
      ghost var before := mounts[..];
      ResumeSuspended(mounts, canon, 0);
      EntriesKept(before, mounts[..], canon);
      LockedKept(before, mounts[..]);
      assert list[..|list|] == list;
      Fail(mounts, |list|);
    }
  }

  lemma NoEvents(stack: seq<Mount>)
    ensures stack == stack + Suspensions([])
  {
  }

  lemma UndoNothing(log: seq<Event>)
    ensures log == log + [] + Undo(Suspensions([]))
  {
  }

  lemma BlockPrefix(list: seq<Mount>, canon: seq<Mount>, k: nat, e: seq<Event>)
    requires |canon| == |list| && Own(list, canon, k) && e <= Syncs(list, canon, list[k], |list|)
    ensures [Suspended(list[k])] + e <= Block(list, canon, k)
    ensures e == Syncs(list, canon, list[k], |list|) ==> [Suspended(list[k])] + e == Block(list, canon, k)
    ensures Suspensions([Suspended(list[k])] + e) == [list[k]]
  {
    SyncsOnly(list, canon, list[k], |list|);
    SyncPrefix(Syncs(list, canon, list[k], |list|), e);
    assert ([Suspended(list[k])] + e)[1..] == e;
  }

  lemma Assoc(a: seq<Event>, b: seq<Event>, c: seq<Event>)
    ensures (a + b) + c == a + (b + c)
  {
  }

  lemma SyncStep(list: seq<Mount>, canon: seq<Mount>, m: Mount, j: nat, done: seq<Event>)
    requires |canon| == |list| && j < |list| && done + Syncs(list, canon, m, j + 1) == Syncs(list, canon, m, |list|)
    ensures done <= Syncs(list, canon, m, |list|)
    ensures (if canon[j] == m then done + [Synced(list[j])] else done) + Syncs(list, canon, m, j) == Syncs(list, canon, m, |list|)
  {
    var here := if canon[j] == m then [Synced(list[j])] else [];
    assert Syncs(list, canon, m, j + 1) == here + Syncs(list, canon, m, j);
    Extend(done, here, Syncs(list, canon, m, j), here, Syncs(list, canon, m, |list|));
    assert here == [] ==> done + here == done;
  }

  lemma SyncsDone(list: seq<Mount>, canon: seq<Mount>, m: Mount, done: seq<Event>)
    requires |canon| == |list| && done + Syncs(list, canon, m, 0) == Syncs(list, canon, m, |list|)
    ensures done == Syncs(list, canon, m, |list|)
  {
  }

  lemma PlanStart(list: seq<Mount>, canon: seq<Mount>)
    requires |canon| == |list|
    ensures [] + Plan(list, canon, |list|) == Plan(list, canon, |list|) && Tops(list, canon, |list|) == [] && Suspensions([]) == []
  {
  }

  lemma PlanStep(list: seq<Mount>, canon: seq<Mount>, k: nat, done: seq<Event>)
    requires |canon| == |list| && k < |list| && done + Plan(list, canon, k + 1) == Plan(list, canon, |list|)
    ensures !Own(list, canon, k) ==> done + Plan(list, canon, k) == Plan(list, canon, |list|)
  {
    if !Own(list, canon, k) { EmptyBlock(list, canon, k); }
    hide Plan, Own;
  }

  lemma EmptyBlock(list: seq<Mount>, canon: seq<Mount>, k: nat)
    requires |canon| == |list| && k < |list| && !Own(list, canon, k)
    ensures Plan(list, canon, k + 1) == Plan(list, canon, k)
  {
    var rest := Plan(list, canon, k);
    assert Plan(list, canon, k + 1) == Block(list, canon, k) + rest && Block(list, canon, k) == [];
    hide Plan, Block;
    assert [] + rest == rest;
  }

  lemma PlanDone(list: seq<Mount>, canon: seq<Mount>, done: seq<Event>)
    requires |canon| == |list| && done + Plan(list, canon, 0) == Plan(list, canon, |list|)
    ensures done == Plan(list, canon, |list|)
  {
  }

  lemma TopsStep(list: seq<Mount>, canon: seq<Mount>, k: nat)
    requires |canon| == |list| && k < |list|
    ensures Tops(list, canon, k) == if Own(list, canon, k) then Tops(list, canon, k + 1) + [list[k]] else Tops(list, canon, k + 1)
  {
  }

  lemma TopsEnd(list: seq<Mount>, canon: seq<Mount>)
    requires |canon| == |list|
    ensures Tops(list, canon, |list|) == []
  {
  }

  lemma UndoStep(stack: seq<Mount>)
    requires stack != []
    ensures Undo(stack) == [Resumed(stack[|stack| - 1])] + Undo(stack[..|stack| - 1])
  {
  }

  lemma NextBlock(list: seq<Mount>, canon: seq<Mount>, k: nat, done: seq<Event>, d: seq<Event>)
    requires |canon| == |list| && k < |list| && d <= Block(list, canon, k)
    requires done + Plan(list, canon, k + 1) == Plan(list, canon, |list|)
    ensures done + d <= Plan(list, canon, |list|)
    ensures d == Block(list, canon, k) ==> done + d + Plan(list, canon, k) == Plan(list, canon, |list|)
  {
    var block, rest := Block(list, canon, k), Plan(list, canon, k);
    assert Plan(list, canon, k + 1) == block + rest;
    Extend(done, block, rest, d, Plan(list, canon, |list|));
  }

  /** Going on through a block of events, part of the way or all of it. */
  lemma Extend(done: seq<Event>, block: seq<Event>, rest: seq<Event>, d: seq<Event>, whole: seq<Event>)
    requires done + (block + rest) == whole && d <= block
    ensures done + d <= whole && (d == block ==> (done + d) + rest == whole)
  {
    var tail := block[|d|..];
    assert block == d + tail;
    assert whole == (done + d) + (tail + rest);
  }

  lemma {:induction false} SyncPrefix(plan: seq<Event>, e: seq<Event>)
    requires e <= plan && forall p :: 0 <= p < |plan| ==> plan[p].Synced?
    ensures Suspensions(e) == []
  {
    if e != [] {
      assert e[0] == plan[0];
      SyncPrefix(plan[1..], e[1..]);
    }
  }

  lemma CyclicHasNoLast(lower: map<Mount, Mount>, m: Mount)
    requires Cyclic(lower, m)
    ensures forall c: Mount :: !IsLast(lower, m, c)
  {
    forall c: Mount ensures !IsLast(lower, m, c) {
      if IsLast(lower, m, c) {
        var k: nat :| Down(lower, m, k) == Some(c);
        assert Down(lower, m, k + 1).None?;
      }
    }
  }
}
