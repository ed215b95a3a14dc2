/** cache_reclaim of vfs_cache.c: which entries go when the cache is over budget. */
module NameReclaim {
  import opened Queues
  import opened NameTree
  import opened NameCache

  /** cache_reclaim's number of turns. */
  function Turns(maxscan: int, desired: int): (n: nat)
    ensures n >= 1
  {
    var n := if maxscan < desired / 128 then maxscan else desired / 128;
    if n < 1 then 1 else n
  }

  /** One turn: balance, and the oldest inactive entry goes, or to the back of its list if its directory is busy. */
  function Turn(c: Cache, desired: int, busy: set<Vnode>): Cache {
    var c1 := Deactivate(c, desired);
    if c1.inactive == [] || c1.inactive[0] !in c1.entries then c1
    else if c1.entries[c1.inactive[0]].dvp in busy then SendBack(c1)
    else Remove(c1, c1.inactive[0])
  }

  /** n turns, fewer if the inactive list runs out; busy is the set of directories whose lock cannot be had at once. */
  function Reclaimed(c: Cache, n: nat, desired: int, busy: set<Vnode>): Cache
    decreases n
  {
    if n == 0 then c
    else if Deactivate(c, desired).inactive == [] then Deactivate(c, desired)
    else Reclaimed(Turn(c, desired, busy), n - 1, desired, busy)
  }

  lemma ReclaimedStep(c: Cache, n: nat, desired: int, busy: set<Vnode>)
    requires n > 0
    ensures Reclaimed(c, n, desired, busy) ==
      if Deactivate(c, desired).inactive == [] then Deactivate(c, desired) else Reclaimed(Turn(c, desired, busy), n - 1, desired, busy)
  {
  }

  // ------------------------------------------------------------------ what goes

  /** b is a without at most n entries, none of them of a busy directory. */
  ghost predicate Shrunk(a: map<Id, Nc>, b: map<Id, Nc>, n: int, busy: set<Vnode>) {
    && b.Keys <= a.Keys && |a| - |b| <= n
    && (forall id: Id :: id in b ==> b[id].(lru := Active) == a[id].(lru := Active))
    && (forall id: Id :: id in a && a[id].dvp in busy ==> id in b)
  }

  lemma SameShrunk(a: map<Id, Nc>, b: map<Id, Nc>, n: nat, busy: set<Vnode>)
    requires a.Keys == b.Keys && forall id: Id :: id in a ==> b[id].(lru := Active) == a[id].(lru := Active)
    ensures Shrunk(a, b, n, busy)
  {
    assert |a| == |a.Keys| && |b| == |b.Keys|;
  }

  lemma OneRemoved(a: map<Id, Nc>, id: Id, busy: set<Vnode>)
    requires id in a && a[id].dvp !in busy
    ensures Shrunk(a, a - {id}, 1, busy)
  {
    assert (a - {id}).Keys == a.Keys - {id};
    assert |a - {id}| == |(a - {id}).Keys| && |a| == |a.Keys|;
  }

  lemma ShrunkTrans(a: map<Id, Nc>, b: map<Id, Nc>, d: map<Id, Nc>, m: int, n: int, busy: set<Vnode>)
    requires Shrunk(a, b, m, busy) && Shrunk(b, d, n, busy)
    ensures Shrunk(a, d, m + n, busy)
  {
    forall id: Id | id in a && a[id].dvp in busy ensures id in d {
      assert id in b && b[id].(lru := Active) == a[id].(lru := Active);
    }
  }

  lemma DeactivateShrinks(c: Cache, desired: int, n: nat, busy: set<Vnode>)
    requires Inv(c)
    ensures Inv(Deactivate(c, desired)) && Shrunk(c.entries, Deactivate(c, desired).entries, n, busy)
  {
    hide Inv, Deactivate, Shrunk;
    DeactivateKeeps(c, desired);
    DeactivateEntries(c, desired);
    SameShrunk(c.entries, Deactivate(c, desired).entries, n, busy);
  }

  lemma TurnKeeps(c: Cache, desired: int, busy: set<Vnode>)
    requires Inv(c)
    ensures Inv(Turn(c, desired, busy)) && Shrunk(c.entries, Turn(c, desired, busy).entries, 1, busy)
  {
    hide Inv, Remove, Deactivate, Shrunk, SendBack;
    DeactivateShrinks(c, desired, 0, busy);
    DeactivateShrinks(c, desired, 1, busy);
    var c1 := Deactivate(c, desired);
    if c1.inactive != [] && c1.inactive[0] in c1.entries {
      var id := c1.inactive[0];
      if c1.entries[id].dvp in busy {
        SendBackKeeps(c1);
        SendBackEntries(c1);
      } else {
        RemoveKeeps(c1, id);
        OneRemoved(c1.entries, id, busy);
        ShrunkTrans(c.entries, c1.entries, Remove(c1, id).entries, 0, 1, busy);
      }
    }
  }

  lemma SendBackEntries(c: Cache)
    ensures SendBack(c).entries == c.entries
  {
  }

  /** Reclaiming keeps the views in step, takes at most n entries and none of a busy directory, and leaves the others as they were. */
  lemma {:induction false} ReclaimKeeps(c: Cache, n: nat, desired: int, busy: set<Vnode>)
    requires Inv(c)
    ensures Inv(Reclaimed(c, n, desired, busy)) && Shrunk(c.entries, Reclaimed(c, n, desired, busy).entries, n, busy)
    decreases n
  {
    hide Inv, Turn, Deactivate, Shrunk;
    if n == 0 {
      SameShrunk(c.entries, c.entries, 0, busy);
    } else {
      ReclaimedStep(c, n, desired, busy);
      hide Reclaimed;
      DeactivateShrinks(c, desired, n, busy);
      var c1 := Turn(c, desired, busy);
      TurnKeeps(c, desired, busy);
      ReclaimKeeps(c1, n - 1, desired, busy);
      if Deactivate(c, desired).inactive != [] {
        ShrunkTrans(c.entries, c1.entries, Reclaimed(c1, n - 1, desired, busy).entries, 1, n - 1, busy);
      }
    }
  }

  /** Balancing only adds to the young end of the inactive list. */
  lemma {:induction false} SomeAppends(c: Cache, n: nat)
    ensures c.inactive <= DeactivateSome(c, n).inactive
    decreases n
  {
    if n > 0 { SomeAppends(DeactivateOne(c), n - 1); }
  }

  lemma WithoutHead(q: seq<Id>)
    requires NoDups(q) && q != []
    ensures Without(q, q[0]) == q[1..]
  {
    assert q[0] !in q[1..];
  }

  /** The i-th oldest inactive entry is there and its directory is not busy. */
  predicate Takeable(c: Cache, i: int, busy: set<Vnode>)
    requires 0 <= i < |c.inactive|
  {
    c.inactive[i] in c.entries && c.entries[c.inactive[i]].dvp !in busy
  }

  /** A turn that finds the oldest entry's directory free takes that entry. */
  lemma TurnTakesOldest(c: Cache, desired: int, busy: set<Vnode>)
    requires Inv(c) && c.inactive != [] && Takeable(c, 0, busy)
    ensures var c' := Turn(c, desired, busy);
      && Deactivate(c, desired).inactive != [] && c'.entries.Keys == c.entries.Keys - {c.inactive[0]} && c.inactive[1..] <= c'.inactive
      && forall id: Id :: id in c'.entries ==> c'.entries[id].dvp == c.entries[id].dvp
  {
    hide Remove, DeactivateSome, TreeOk, ListOk;
    DeactivateKeeps(c, desired);
    DeactivateEntries(c, desired);
    SomeAppends(c, MAXDEACT);
    var c1 := Deactivate(c, desired);
    var id := c.inactive[0];
    assert c.inactive <= c1.inactive && c1.inactive[0] == id;
    assert id in c1.inactive;
    RemoveFields(c1, id);
    WithoutHead(c1.inactive);
    assert c1.entries[id].(lru := Active) == c.entries[id].(lru := Active);
  }

  lemma StillTakeable(c: Cache, c1: Cache, i: nat, busy: set<Vnode>)
    requires NoDups(c.inactive) && i + 1 < |c.inactive| && Takeable(c, i + 1, busy) && c.inactive[1..] <= c1.inactive
    requires c1.entries.Keys == c.entries.Keys - {c.inactive[0]} && forall id: Id :: id in c1.entries ==> c1.entries[id].dvp == c.entries[id].dvp
    ensures i < |c1.inactive| && Takeable(c1, i, busy)
  {
    assert c1.inactive[i] == c.inactive[1..][i] == c.inactive[i + 1] != c.inactive[0];
    assert c1.inactive[i] in c1.entries.Keys;
  }

  lemma Oldest(q: seq<Id>, q': seq<Id>, n: nat)
    requires 0 < n <= |q| && q[1..] <= q'
    ensures Elems(q[..n]) == {q[0]} + Elems(q'[..n - 1])
  {
    assert q'[..n - 1] == q[1..][..n - 1];
    assert q[..n] == [q[0]] + q'[..n - 1];
  }

  lemma InactiveNoDups(c: Cache)
    requires Inv(c)
    ensures NoDups(c.inactive)
  {
  }

  /** If none of the n oldest inactive entries is of a busy directory, exactly those n go. */
  lemma {:induction false} ReclaimTakesOldest(c: Cache, n: nat, desired: int, busy: set<Vnode>)
    requires Inv(c) && n <= |c.inactive| && forall i :: 0 <= i < n ==> Takeable(c, i, busy)
    ensures Reclaimed(c, n, desired, busy).entries.Keys == c.entries.Keys - Elems(c.inactive[..n])
    decreases n
  {
    hide Inv, Turn, Deactivate, Shrunk, NoDups;
    if n == 0 {
      assert Elems(c.inactive[..0]) == {};
    } else {
      ReclaimedStep(c, n, desired, busy);
      hide Reclaimed, Elems;
      assert Takeable(c, 0, busy);
      hide Takeable;
      InactiveNoDups(c);
      TurnTakesOldest(c, desired, busy);
      TurnKeeps(c, desired, busy);
      var c1 := Turn(c, desired, busy);
      forall i | 0 <= i < n - 1 ensures i < |c1.inactive| && Takeable(c1, i, busy) { StillTakeable(c, c1, i, busy); }
      assert n - 1 <= |c1.inactive|;
      ReclaimTakesOldest(c1, n - 1, desired, busy);
      Oldest(c.inactive, c1.inactive, n);
    }
  }
}
