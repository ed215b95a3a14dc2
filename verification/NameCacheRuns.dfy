/** Every run of the name cache, and the cache as the kernel updates it. */
module NameCacheRuns {
  import opened Options
  import opened NameTree
  import opened NameCache
  import opened NameReclaim

  datatype Step =
    | DoEnter(id: Id, dvp: Vnode, vp: Option<Vnode>, name: Name, whiteout: bool, desired: int)
    | DoRemove(id: Id)
    | DoActivate(id: Id)
    | DoDeactivate(desired: int)
    | DoSendBack

  predicate Enabled(c: Cache, step: Step) {
    match step
    case DoEnter(id, _, _, name, _, _) => id !in c.entries && Formed(name)
    case DoRemove(id) => id in c.entries
    case DoActivate(id) => id in c.entries
    case DoDeactivate(_) => true
    case DoSendBack => true
  }

  function Next(c: Cache, step: Step): Cache
    requires Enabled(c, step)
  {
    match step
    case DoEnter(id, dvp, vp, name, whiteout, desired) => Enter(c, id, dvp, vp, name, whiteout, desired)
    case DoRemove(id) => Remove(c, id)
    case DoActivate(id) => Activate(c, id)
    case DoDeactivate(desired) => Deactivate(c, desired)
    case DoSendBack => SendBack(c)
  }

  lemma StepKeepsInv(c: Cache, step: Step)
    requires Inv(c) && Enabled(c, step)
    ensures Inv(Next(c, step))
  {
    hide Inv, Enter, Remove, Activate, Deactivate, SendBack;
    match step
    case DoEnter(id, dvp, vp, name, whiteout, desired) => EnterKeeps(c, id, dvp, vp, name, whiteout, desired);
    case DoRemove(id) => RemoveKeeps(c, id);
    case DoActivate(id) => ActivateKeeps(c, id);
    case DoDeactivate(desired) => DeactivateKeeps(c, desired);
    case DoSendBack => SendBackKeeps(c);
  }

  /** What a step does to the meaning of a name in a directory. */
  function Effect(c: Cache, step: Step, d: Vnode, n: Name): Option<(Option<Vnode>, bool)>
    requires Enabled(c, step)
  {
    match step
    case DoEnter(_, dvp, vp, name, whiteout, _) => if dvp == d && name == n then Some((vp, whiteout)) else Seen(c, d, n)
    case DoRemove(id) => if c.entries[id].dvp == d && c.entries[id].name == n then None else Seen(c, d, n)
    case DoActivate(_) => Seen(c, d, n)
    case DoDeactivate(_) => Seen(c, d, n)
    case DoSendBack => Seen(c, d, n)
  }

  /** Entering a name makes it mean that vnode, removing its entry makes it unknown, and nothing else changes it. */
  lemma StepSeen(c: Cache, step: Step, d: Vnode, n: Name)
    requires Inv(c) && Enabled(c, step) && Formed(n)
    ensures Seen(Next(c, step), d, n) == Effect(c, step, d, n)
  {
    hide Inv, Seen, Enter, Remove;
    StepKeepsInv(c, step);
    match step
    case DoEnter(id, dvp, vp, name, whiteout, desired) => EnterKeeps(c, id, dvp, vp, name, whiteout, desired);
    case DoRemove(id) => RemoveSeen(c, id, d, n);
    case DoActivate(id) =>
      ActivateFields(c, id);
      SameSeen(c, Activate(c, id), d, n);
    case DoDeactivate(desired) =>
      DeactivateEntries(c, desired);
      SameSeen(c, Deactivate(c, desired), d, n);
    case DoSendBack => SameSeen(c, SendBack(c), d, n);
  }

  ghost predicate Run(trace: seq<Cache>, steps: seq<Step>) {
    && |trace| == |steps| + 1 && Inv(trace[0])
    && forall i :: 0 <= i < |steps| ==> Enabled(trace[i], steps[i]) && trace[i + 1] == Next(trace[i], steps[i])
  }

  /** An empty cache. */
  predicate Fresh(c: Cache) { c == Cache(map[], map[], map[], [], [], 0, 0) }

  lemma FreshInv(c: Cache)
    requires Fresh(c)
    ensures Inv(c)
  {
  }

  /** Tree, vnode lists and LRU lists describe the same entries at every point of every run. */
  lemma {:induction false} EveryRunKeepsInv(trace: seq<Cache>, steps: seq<Step>, k: nat)
    requires Run(trace, steps) && k < |trace|
    ensures Inv(trace[k])
  {
    hide Inv, Enabled, Next;
    if k > 0 {
      EveryRunKeepsInv(trace, steps, k - 1);
      assert trace[k - 1 + 1] == Next(trace[k - 1], steps[k - 1]);
      StepKeepsInv(trace[k - 1], steps[k - 1]);
    }
  }

  /** The step leaves the name alone. */
  predicate Leaves(c: Cache, step: Step, d: Vnode, n: Name) {
    match step
    case DoEnter(_, dvp, _, name, _, _) => !(dvp == d && name == n)
    case DoRemove(id) => id in c.entries ==> !(c.entries[id].dvp == d && c.entries[id].name == n)
    case _ => true
  }

  /** A name means what it was last made to mean: the last entry for it, if that was not removed. */
  lemma {:induction false} LastEntryWins(trace: seq<Cache>, steps: seq<Step>, j: nat, k: nat, d: Vnode, n: Name)
    requires Run(trace, steps) && j < k < |trace| && Formed(n)
    requires forall i :: j < i < k ==> Leaves(trace[i], steps[i], d, n)
    ensures Enabled(trace[j], steps[j]) && Seen(trace[k], d, n) == Effect(trace[j], steps[j], d, n)
    decreases k - j
  {
    hide Inv, Seen;
    assert trace[k - 1 + 1] == Next(trace[k - 1], steps[k - 1]);
    EveryRunKeepsInv(trace, steps, k - 1);
    StepSeen(trace[k - 1], steps[k - 1], d, n);
    if j < k - 1 {
      LastEntryWins(trace, steps, j, k - 1, d, n);
      assert Leaves(trace[k - 1], steps[k - 1], d, n);
    }
  }

  // --------------------------------------------------------- reverse lookup

  /** A name that reverse lookup may give: not a mount point's empty name, not dots. */
  predicate Nameable(e: Nc) { e.name.text != [] && !Dots(e.name.text) }

  const ERANGE: int := 34

  /** The first nameable entry of the vnode's list. */
  ghost predicate FirstNameable(c: Cache, v: Vnode, id: Id) {
    && id in c.entries && c.entries[id].vp == Some(v) && Nameable(c.entries[id])
    && exists i :: 0 <= i < |ListOf(c, v)| && ListOf(c, v)[i] == id && NoneNameable(c, ListOf(c, v)[..i])
  }

  ghost predicate NoneNameable(c: Cache, q: seq<Id>) { forall j :: 0 <= j < |q| && q[j] in c.entries ==> !Nameable(c.entries[q[j]]) }

  class Names {
    var c: Cache

    ghost predicate Valid()
      reads this
    {
      Inv(c)
    }

    constructor ()
      ensures Valid() && Fresh(c)
    {
      c := Cache(map[], map[], map[], [], [], 0, 0);
      new;
      FreshInv(c);
    }

    /** cache_lookup_entry: down the tree from the root; a hit on the inactive list is activated. */
    method LookupEntry(d: Vnode, n: Name) returns (found: Option<Id>)
      requires Valid() && Formed(n)
      modifies this
      ensures Valid() && found == Search(TreeOf(old(c), d), n.key, n.text)
      ensures found.Some? ==> found.value in old(c.entries) && old(c.entries)[found.value].dvp == d && old(c.entries)[found.value].name == n
      ensures c == if found.Some? && old(c.entries)[found.value].lru != Active then Activate(old(c), found.value) else old(c)
    {
      var node := TreeOf(c, d);
      EnterClears(c, d, n);
      found := None;
      while node.Node?
        invariant c == old(c) && found == None && Search(node, n.key, n.text) == Search(TreeOf(c, d), n.key, n.text)
        decreases node
      {
        if node.name.key == n.key {
          var diff := Memcmp(node.name.text, n.text);
          if diff == 0 {
            found := Some(node.id);
            break;
          }
          node := if diff < 0 then node.right else node.left;
        } else {
          node := if node.name.key < n.key then node.right else node.left;
        }
      }
      if found.Some? && c.entries[found.value].lru != Active {
        ActivateKeeps(c, found.value);
        c := Activate(c, found.value);
      }
    }

    /**
     * cache_lookup for a name that is not too long. wanted is MAKEENTRY; creating is CREATE of the last component;
     * dying says that the vnode found is being cleaned out. A hit tells the truth about the name, and the entry
     * does not outlive a lookup that must not leave it.
     */
    method Lookup(d: Vnode, n: Name, wanted: bool, creating: bool, dying: bool) returns (hit: bool, vn: Option<Vnode>, whiteout: bool)
      requires Valid() && Formed(n)
      modifies this
      ensures Valid()
      ensures hit ==> Seen(old(c), d, n).Some? && Seen(old(c), d, n).value.0 == vn && (vn.None? ==> Seen(old(c), d, n).value.1 == whiteout)
      ensures !hit ==> vn.None?
      ensures hit <==> Seen(old(c), d, n).Some? && wanted && (if Seen(old(c), d, n).value.0.None? then !creating else !dying)
      ensures Seen(c, d, n) == if Seen(old(c), d, n).Some? && (!wanted || (Seen(old(c), d, n).value.0.None? && creating)) then None else Seen(old(c), d, n)
      ensures forall e, m :: Formed(m) && !(e == d && m == n) ==> Seen(c, e, m) == Seen(old(c), e, m)
    {
      hide Inv, Remove, Activate;
      hit, vn, whiteout := false, None, false;
      SeenMeans(c, d, n);
      var ncp := LookupEntry(d, n);
      if ncp.None? { return; }
      var id := ncp.value;
      ActivateSeen(old(c), id);
      var e := c.entries[id];
      if !wanted {
        RemoveEntry(id);
        return;
      }
      if e.vp.None? {
        whiteout := e.whiteout;
        if creating {
          RemoveEntry(id);
        } else {
          hit := true;
        }
        return;
      }
      if dying { return; }
      return true, e.vp, whiteout;
    }

    /** cache_remove. */
    method RemoveEntry(id: Id)
      requires Valid() && id in c.entries
      modifies this
      ensures Valid() && c == Remove(old(c), id)
      ensures forall d, n :: Formed(n) ==>
        Seen(c, d, n) == if old(c.entries)[id].dvp == d && old(c.entries)[id].name == n then None else Seen(old(c), d, n)
    {
      RemoveKeeps(c, id);
      forall d, n | Formed(n)
        ensures Seen(Remove(c, id), d, n) == if c.entries[id].dvp == d && c.entries[id].name == n then None else Seen(c, d, n)
      {
        RemoveSeen(c, id, d, n);
      }
      c := Remove(c, id);
    }

    /** cache_enter of a name that may be cached, with id a fresh entry. */
    method EnterName(id: Id, dvp: Vnode, vp: Option<Vnode>, n: Name, whiteout: bool, desired: int)
      requires Valid() && Formed(n) && id !in c.entries
      modifies this
      ensures Valid() && c == Enter(old(c), id, dvp, vp, n, whiteout, desired)
      ensures Seen(c, dvp, n) == Some((vp, whiteout))
      ensures forall d, m :: Formed(m) && !(d == dvp && m == n) ==> Seen(c, d, m) == Seen(old(c), d, m)
    {
      hide Inv, Remove, Add, Deactivate;
      EnterKeeps(c, id, dvp, vp, n, whiteout, desired);
      ghost var c1 := EnterStart(c, id, dvp, vp, n, whiteout);
      var prior := Search(TreeOf(c, dvp), n.key, n.text);
      EnterClears(c, dvp, n);
      if prior.Some? {
        RemoveKeeps(c, prior.value);
        c := Remove(c, prior.value);
      }
      assert c == c1;
      AddKeeps(c, id, Nc(dvp, vp, n, whiteout, Active));
      c := Add(c, id, Nc(dvp, vp, n, whiteout, Active));
      Balance(desired);
    }

    /**
     * cache_revlookup for a vnode: mount points are passed over, and the first dots end the scan. It comes to the
     * first nameable entry of the vnode whenever there is one, and records a hit on it. room says that the caller's
     * buffer has room for the name, held that a hold on the directory could be taken.
     */
    method Revlookup(v: Vnode, room: bool, held: bool) returns (error: int, dvp: Option<Vnode>, ghost found: Option<Id>)
      requires Valid()
      modifies this
      ensures Valid() && (found.None? <==> forall id: Id :: id in old(c.entries) && old(c.entries)[id].vp == Some(v) ==> !Nameable(old(c.entries)[id]))
      ensures found.Some? ==> FirstNameable(old(c), v, found.value)
      ensures c == if found.Some? && old(c.entries)[found.value].lru != Active then Activate(old(c), found.value) else old(c)
      ensures error == if found.None? then -1 else if !room then ERANGE else if !held then -1 else 0
      ensures dvp == if error == 0 then Some(old(c.entries)[found.value].dvp) else None
    {
      hide TreeOk, LruOk, Activate;
      assert ListOk(c, v);
      var q := ListOf(c, v);
      var i := 0;
      while i < |q|
        invariant i <= |q| && c == old(c) && forall j :: 0 <= j < i ==> !Nameable(c.entries[q[j]])
      {
        assert q[i] in q;
        var e := c.entries[q[i]];
        if e.name.text == [] {
          i := i + 1;
          continue;
        }
        if Dots(e.name.text) {
          forall j | i <= j < |q| ensures !Nameable(c.entries[q[j]]) { assert q[j] in q; }
          break;
        }
        found := Some(q[i]);
        assert NoneNameable(c, q[..i]);
        if e.lru != Active {
          ActivateKeeps(c, q[i]);
          c := Activate(c, q[i]);
        }
        if !room { return ERANGE, None, found; }
        if !held { return -1, None, found; }
        return 0, Some(e.dvp), found;
      }
      forall id: Id | id in c.entries && c.entries[id].vp == Some(v) ensures !Nameable(c.entries[id]) {
        assert id in q;
        var j :| 0 <= j < |q| && q[j] == id;
        assert !Nameable(c.entries[q[j]]);
      }
      return -1, None, None;
    }

    /** cache_purge_children: until the directory's tree is empty. */
    method PurgeChildren(d: Vnode)
      requires Valid()
      modifies this
      ensures Valid() && c.entries == map id | id in old(c.entries) && old(c.entries)[id].dvp != d :: old(c.entries)[id]
    {
      hide ListOk, LruOk, Remove;
      while TreeOf(c, d).Node?
        invariant Valid() && c.entries.Keys <= old(c.entries).Keys
        invariant forall id: Id :: id in c.entries ==> c.entries[id] == old(c.entries)[id]
        invariant forall id: Id :: id in old(c.entries) && old(c.entries)[id].dvp != d ==> id in c.entries
        decreases |c.entries|
      {
        assert TreeOk(c, d);
        var (n, id) := Leftmost(TreeOf(c, d));
        LeftmostIsLeast(TreeOf(c, d));
        RemoveKeeps(c, id);
        c := Remove(c, id);
      }
      EmptyTree(c, d);
    }

    /** cache_purge_parents: until the vnode's list is empty; a directory lock that is not free only delays it. */
    method PurgeParents(v: Vnode)
      requires Valid()
      modifies this
      ensures Valid() && c.entries == map id | id in old(c.entries) && old(c.entries)[id].vp != Some(v) :: old(c.entries)[id]
    {
      hide TreeOk, LruOk, Remove;
      while ListOf(c, v) != []
        invariant Valid() && c.entries.Keys <= old(c.entries).Keys
        invariant forall id: Id :: id in c.entries ==> c.entries[id] == old(c.entries)[id]
        invariant forall id: Id :: id in old(c.entries) && old(c.entries)[id].vp != Some(v) ==> id in c.entries
        decreases |c.entries|
      {
        assert ListOk(c, v);
        var id := ListOf(c, v)[0];
        assert id in ListOf(c, v);
        RemoveKeeps(c, id);
        c := Remove(c, id);
      }
      EmptyList(c, v);
    }

    /** cache_deactivate. */
    method Balance(desired: int)
      requires Valid()
      modifies this
      ensures Valid() && c == Deactivate(old(c), desired)
    {
      hide Inv;
      DeactivateKeeps(c, desired);
      var total := c.nactive + c.ninactive;
      if total < desired / 2 { return; }
      if c.nactive < c.ninactive { return; }
      var i := 0;
      while i < MAXDEACT
        invariant i <= MAXDEACT && Inv(c) && DeactivateSome(c, MAXDEACT - i) == DeactivateSome(old(c), MAXDEACT)
      {
        DeactivateOneKeeps(c);
        if c.active == [] {
          StaysEmpty(c, MAXDEACT - i);
          break;
        }
        HeadListed(c);
        c := DeactivateOne(c);
        i := i + 1;
      }
    }

    /** cache_reclaim; busy are the directories whose lock cannot be had at once. */
    method Reclaim(maxscan: int, desired: int, busy: set<Vnode>)
      requires Valid()
      modifies this
      ensures Valid() && c == Reclaimed(old(c), Turns(maxscan, desired), desired, busy)
      ensures Shrunk(old(c.entries), c.entries, Turns(maxscan, desired), busy)
    {
      hide Inv, Shrunk, Remove, Deactivate, SendBack;
      ghost var all := Turns(maxscan, desired);
      ReclaimKeeps(c, all, desired, busy);
      var toscan := if maxscan < desired / 128 then maxscan else desired / 128;
      toscan := if toscan < 1 then 1 else toscan;
      while toscan != 0
        invariant Valid() && 0 <= toscan && Reclaimed(c, toscan, desired, busy) == Reclaimed(old(c), all, desired, busy)
        decreases toscan
      {
        ghost var before := c;
        toscan := toscan - 1;
        Balance(desired);
        if c.inactive == [] { return; }
        var id := c.inactive[0];
        OldestListed(c);
        TurnKeeps(before, desired, busy);
        if c.entries[id].dvp in busy {
          c := SendBack(c);
        } else {
          RemoveKeeps(c, id);
          c := Remove(c, id);
        }
      }
    }
  }

  lemma EmptyTree(c: Cache, d: Vnode)
    requires Inv(c) && TreeOf(c, d).Leaf?
    ensures forall id: Id :: id in c.entries ==> c.entries[id].dvp != d
  {
    assert TreeOk(c, d);
    assert forall id: Id :: id in c.entries ==> !Has(TreeOf(c, d), c.entries[id].name, id);
  }

  lemma EmptyList(c: Cache, v: Vnode)
    requires Inv(c) && ListOf(c, v) == []
    ensures forall id: Id :: id in c.entries ==> c.entries[id].vp != Some(v)
  {
    assert ListOk(c, v);
    assert forall id: Id :: id !in ListOf(c, v);
  }

  /** Activation does not show. */
  lemma ActivateSeen(c: Cache, id: Id)
    requires Inv(c) && id in c.entries
    ensures Inv(Activate(c, id)) && Activate(c, id).entries == c.entries[id := c.entries[id].(lru := Active)]
    ensures forall d, n :: Formed(n) ==> Seen(Activate(c, id), d, n) == Seen(c, d, n)
  {
    hide Inv, Seen, Activate;
    ActivateKeeps(c, id);
    ActivateFields(c, id);
    forall d, n | Formed(n) ensures Seen(Activate(c, id), d, n) == Seen(c, d, n) { SameSeen(c, Activate(c, id), d, n); }
  }

  lemma HeadListed(c: Cache)
    requires Inv(c) && c.active != []
    ensures c.active[0] in c.entries
  {
    assert c.active[0] in c.active;
  }

  lemma OldestListed(c: Cache)
    requires Inv(c) && c.inactive != []
    ensures c.inactive[0] in c.entries
  {
    assert c.inactive[0] in c.inactive;
  }

  lemma {:induction false} StaysEmpty(c: Cache, n: nat)
    requires c.active == []
    ensures DeactivateSome(c, n) == c
    decreases n
  {
    if n > 0 { StaysEmpty(c, n - 1); }
  }
}
