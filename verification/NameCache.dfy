/** The name cache of vfs_cache.c: one tree per directory, one list per vnode and two LRU lists over the same entries. */
module NameCache {
  import opened Options
  import opened Queues
  import opened NameTree

  type Vnode = nat

  datatype Lru = Active | Inactive

  /** struct namecache; vp is None for a negative entry. */
  datatype Nc = Nc(dvp: Vnode, vp: Option<Vnode>, name: Name, whiteout: bool, lru: Lru)

  datatype Cache = Cache(entries: map<Id, Nc>, trees: map<Vnode, Tree>, lists: map<Vnode, seq<Id>>,
                         active: seq<Id>, inactive: seq<Id>, nactive: int, ninactive: int)

  const MAXDEACT: nat := 2
  const DOT: int := 46

  function TreeOf(c: Cache, d: Vnode): Tree { if d in c.trees then c.trees[d] else Leaf }

  function ListOf(c: Cache, v: Vnode): seq<Id> { if v in c.lists then c.lists[v] else [] }

  /** "." and "..". */
  predicate Dots(text: seq<int>) { text == [DOT] || text == [DOT, DOT] }

  // --------------------------------------------------------------- operations

  /** Off the LRU list it is on. */
  function Unlru(c: Cache, id: Id, lru: Lru): Cache {
    match lru
    case Active => c.(active := Without(c.active, id), nactive := c.nactive - 1)
    case Inactive => c.(inactive := Without(c.inactive, id), ninactive := c.ninactive - 1)
  }

  /** cache_remove. */
  function Remove(c: Cache, id: Id): Cache
    requires id in c.entries
  {
    var e := c.entries[id];
    var c1 := if e.vp.Some? then c.(lists := c.lists[e.vp.value := Without(ListOf(c, e.vp.value), id)]) else c;
    var c2 := c1.(trees := c1.trees[e.dvp := Delete(TreeOf(c1, e.dvp), e.name)]);
    var c3 := Unlru(c2, id, e.lru);
    c3.(entries := c3.entries - {id})
  }

  /** cache_activate. */
  function Activate(c: Cache, id: Id): Cache
    requires id in c.entries
  {
    var c1 := Unlru(c, id, c.entries[id].lru);
    c1.(active := c1.active + [id], nactive := c1.nactive + 1, entries := c1.entries[id := c1.entries[id].(lru := Active)])
  }

  /** One turn of the loop of cache_deactivate. */
  function DeactivateOne(c: Cache): Cache {
    if c.active == [] || c.active[0] !in c.entries then c
    else
      var id := c.active[0];
      c.(active := c.active[1..], inactive := c.inactive + [id], nactive := c.nactive - 1, ninactive := c.ninactive + 1,
         entries := c.entries[id := c.entries[id].(lru := Inactive)])
  }

  function DeactivateSome(c: Cache, n: nat): Cache
    decreases n
  {
    if n == 0 then c else DeactivateSome(DeactivateOne(c), n - 1)
  }

  /** cache_deactivate: aim for as many inactive entries as active ones once half the budget is used. */
  function Deactivate(c: Cache, desired: int): Cache {
    if c.nactive + c.ninactive < desired / 2 || c.nactive < c.ninactive then c else DeactivateSome(c, MAXDEACT)
  }

  /** Dots go to the back of the vnode's list, other names to the front. */
  function Listed(q: seq<Id>, id: Id, text: seq<int>): seq<Id> { if Dots(text) then q + [id] else [id] + q }

  /** The insertion of cache_enter, of a name that is not there. */
  function Add(c: Cache, id: Id, e: Nc): Cache {
    c.(entries := c.entries[id := e], trees := c.trees[e.dvp := Insert(TreeOf(c, e.dvp), e.name, id)],
       lists := if e.vp.Some? then c.lists[e.vp.value := Listed(ListOf(c, e.vp.value), id, e.name.text)] else c.lists,
       active := c.active + [id], nactive := c.nactive + 1)
  }

  /** cache_enter: an entry already there is replaced. */
  function Enter(c: Cache, id: Id, dvp: Vnode, vp: Option<Vnode>, name: Name, whiteout: bool, desired: int): Cache {
    var prior := Search(TreeOf(c, dvp), name.key, name.text);
    var c1 := if prior.Some? && prior.value in c.entries then Remove(c, prior.value) else c;
    Deactivate(Add(c1, id, Nc(dvp, vp, name, whiteout, Active)), desired)
  }

  /** cache_reclaim, when the victim's directory is busy: to the back of the inactive list. */
  function SendBack(c: Cache): Cache {
    if c.inactive == [] then c else c.(inactive := Without(c.inactive, c.inactive[0]) + [c.inactive[0]])
  }

  // ---------------------------------------------------------------- invariant

  ghost predicate TreeOk(c: Cache, d: Vnode) {
    && Sorted(TreeOf(c, d))
    && forall n, id: Id :: Has(TreeOf(c, d), n, id) <==> id in c.entries && c.entries[id].dvp == d && c.entries[id].name == n
  }

  /** Everything before an entry that is not dots is not dots either. */
  predicate DotsLast(entries: map<Id, Nc>, q: seq<Id>) {
    forall i, j :: 0 <= i < j < |q| && q[i] in entries && q[j] in entries && Dots(entries[q[i]].name.text) ==> Dots(entries[q[j]].name.text)
  }

  ghost predicate ListOk(c: Cache, v: Vnode) {
    && NoDups(ListOf(c, v)) && DotsLast(c.entries, ListOf(c, v))
    && forall id: Id :: id in ListOf(c, v) <==> id in c.entries && c.entries[id].vp == Some(v)
  }

  ghost predicate LruOk(c: Cache) {
    && NoDups(c.active) && NoDups(c.inactive) && c.nactive == |c.active| && c.ninactive == |c.inactive|
    && (forall id: Id :: id in c.active <==> id in c.entries && c.entries[id].lru == Active)
    && (forall id: Id :: id in c.inactive <==> id in c.entries && c.entries[id].lru == Inactive)
  }

  ghost predicate Inv(c: Cache) {
    && (forall d :: TreeOk(c, d)) && (forall v :: ListOk(c, v)) && LruOk(c)
    && (forall id: Id :: id in c.entries ==> Formed(c.entries[id].name))
  }

  /** Changes to LRU fields and lists leave trees and vnode lists alone. */
  lemma LruOnly(c: Cache, c': Cache)
    requires Inv(c) && LruOk(c') && c'.trees == c.trees && c'.lists == c.lists && c'.entries.Keys == c.entries.Keys
    requires forall id: Id :: id in c.entries ==> c'.entries[id] == c.entries[id].(lru := c'.entries[id].lru)
    ensures Inv(c')
  {
    forall d ensures TreeOk(c', d) { assert TreeOk(c, d); }
    forall v ensures ListOk(c', v) {
      assert ListOk(c, v);
      DotsFrame(c.entries, c'.entries, ListOf(c, v));
    }
  }

  lemma DotsFrame(entries: map<Id, Nc>, entries': map<Id, Nc>, q: seq<Id>)
    requires DotsLast(entries, q) && forall id :: id in q ==> id in entries && id in entries' && entries'[id].name == entries[id].name
    ensures DotsLast(entries', q)
  {
    forall i, j | 0 <= i < j < |q| && q[i] in entries' && q[j] in entries' && Dots(entries'[q[i]].name.text)
      ensures Dots(entries'[q[j]].name.text)
    {
      assert q[i] in q && q[j] in q;
    }
  }

  // ------------------------------------------------------------------ removal

  lemma RemoveFields(c: Cache, id: Id)
    requires id in c.entries
    ensures var e, c' := c.entries[id], Remove(c, id);
      && c'.entries == c.entries - {id} && c'.trees == c.trees[e.dvp := Delete(TreeOf(c, e.dvp), e.name)]
      && c'.lists == (if e.vp.Some? then c.lists[e.vp.value := Without(ListOf(c, e.vp.value), id)] else c.lists)
      && c'.active == (if e.lru == Active then Without(c.active, id) else c.active)
      && c'.inactive == (if e.lru == Inactive then Without(c.inactive, id) else c.inactive)
      && c'.nactive == (if e.lru == Active then c.nactive - 1 else c.nactive)
      && c'.ninactive == (if e.lru == Inactive then c.ninactive - 1 else c.ninactive)
  {
  }

  lemma RemoveTree(c: Cache, id: Id, d: Vnode)
    requires Inv(c) && id in c.entries
    ensures TreeOk(Remove(c, id), d)
  {
    hide Delete, Sorted, Remove;
    RemoveFields(c, id);
    var e := c.entries[id];
    assert TreeOk(c, d) && TreeOk(c, e.dvp);
    DeleteRight(TreeOf(c, e.dvp), e.name);
    var c' := Remove(c, id);
    forall n, i: Id ensures Has(TreeOf(c', d), n, i) <==> i in c'.entries && c'.entries[i].dvp == d && c'.entries[i].name == n {
      if d == e.dvp && n == e.name { OnePerName(c, id, i); }
    }
  }

  /** A directory holds one entry per name. */
  lemma OnePerName(c: Cache, i: Id, j: Id)
    requires Inv(c) && i in c.entries
    ensures j in c.entries && c.entries[i].dvp == c.entries[j].dvp && c.entries[i].name == c.entries[j].name ==> i == j
  {
    var e := c.entries[i];
    assert TreeOk(c, e.dvp);
    SearchIsRight(TreeOf(c, e.dvp), e.name, i);
    SearchIsRight(TreeOf(c, e.dvp), e.name, j);
  }

  lemma RemoveList(c: Cache, id: Id, v: Vnode)
    requires Inv(c) && id in c.entries
    ensures ListOk(Remove(c, id), v)
  {
    hide Delete, Remove, DotsLast;
    RemoveFields(c, id);
    assert ListOk(c, v);
    var c' := Remove(c, id);
    var q := ListOf(c, v);
    WithoutNoDups(q, id);
    if c.entries[id].vp == Some(v) { DotsWithout(c.entries, q, id); }
    assert forall i: Id :: i in ListOf(c', v) ==> i in c.entries && i != id;
    DotsFrame(c.entries, c'.entries, ListOf(c', v));
  }

  lemma {:induction false} DotsWithout(entries: map<Id, Nc>, q: seq<Id>, id: Id)
    requires DotsLast(entries, q)
    ensures DotsLast(entries, Without(q, id))
  {
    if q != [] {
      var rest := q[1..];
      assert forall i :: 0 <= i < |rest| ==> rest[i] == q[i + 1];
      DotsWithout(entries, rest, id);
      if q[0] != id {
        var w := Without(rest, id);
        var r := [q[0]] + w;
        assert forall i :: 0 < i < |r| ==> r[i] == w[i - 1];
        forall j | 0 < j < |r| && q[0] in entries && r[j] in entries && Dots(entries[q[0]].name.text) ensures Dots(entries[r[j]].name.text) {
          assert w[j - 1] in w && r[j] in rest;
          var k :| 0 <= k < |rest| && rest[k] == r[j];
          assert q[k + 1] == r[j];
        }
      }
    }
  }

  lemma RemoveLru(c: Cache, id: Id)
    requires Inv(c) && id in c.entries
    ensures LruOk(Remove(c, id))
  {
    hide Delete, Remove, TreeOk, ListOk;
    RemoveFields(c, id);
    WithoutNoDups(c.active, id);
    WithoutNoDups(c.inactive, id);
  }

  lemma RemoveKeeps(c: Cache, id: Id)
    requires Inv(c) && id in c.entries
    ensures Inv(Remove(c, id)) && Remove(c, id).entries == c.entries - {id}
  {
    hide TreeOk, ListOk, LruOk, Remove;
    RemoveFields(c, id);
    forall d ensures TreeOk(Remove(c, id), d) { RemoveTree(c, id, d); }
    forall v ensures ListOk(Remove(c, id), v) { RemoveList(c, id, v); }
    RemoveLru(c, id);
  }

  // ---------------------------------------------------------------- LRU moves

  lemma ActivateFields(c: Cache, id: Id)
    requires id in c.entries
    ensures var e, c' := c.entries[id], Activate(c, id);
      && c'.entries == c.entries[id := e.(lru := Active)] && c'.trees == c.trees && c'.lists == c.lists
      && c'.active == (if e.lru == Active then Without(c.active, id) else c.active) + [id]
      && c'.inactive == (if e.lru == Inactive then Without(c.inactive, id) else c.inactive)
      && c'.nactive == (if e.lru == Active then c.nactive else c.nactive + 1)
      && c'.ninactive == (if e.lru == Inactive then c.ninactive - 1 else c.ninactive)
  {
  }

  lemma ActivateKeeps(c: Cache, id: Id)
    requires Inv(c) && id in c.entries
    ensures Inv(Activate(c, id))
  {
    hide Activate, TreeOk, ListOk;
    var c' := Activate(c, id);
    ActivateFields(c, id);
    var rest := if c.entries[id].lru == Active then Without(c.active, id) else c.active;
    WithoutNoDups(c.active, id);
    WithoutNoDups(c.inactive, id);
    assert forall i: Id :: i in rest <==> i in c.active && i != id;
    NoDupsConcat(rest, [id]);
    LruOnly(c, c');
  }

  lemma DeactivateOneKeeps(c: Cache)
    requires Inv(c)
    ensures Inv(DeactivateOne(c)) && DeactivateOne(c).entries.Keys == c.entries.Keys
  {
    if c.active != [] {
      var id := c.active[0];
      assert id in c.active;
      assert c.active == [id] + c.active[1..];
      assert id !in c.active[1..];
      NoDupsConcat(c.inactive, [id]);
      LruOnly(c, DeactivateOne(c));
    }
  }

  lemma {:induction false} DeactivateSomeKeeps(c: Cache, n: nat)
    requires Inv(c)
    ensures Inv(DeactivateSome(c, n)) && DeactivateSome(c, n).entries.Keys == c.entries.Keys
    decreases n
  {
    hide Inv, DeactivateOne;
    if n > 0 {
      DeactivateOneKeeps(c);
      DeactivateSomeKeeps(DeactivateOne(c), n - 1);
    }
  }

  lemma SendBackKeeps(c: Cache)
    requires Inv(c)
    ensures Inv(SendBack(c))
  {
    if c.inactive != [] {
      var id := c.inactive[0];
      assert id in c.inactive;
      WithoutNoDups(c.inactive, id);
      NoDupsConcat(Without(c.inactive, id), [id]);
      LruOnly(c, SendBack(c));
    }
  }

  // ----------------------------------------------------------------- insertion

  /** An identity not in use, for a name that the directory does not hold. */
  ghost predicate Addable(c: Cache, id: Id, e: Nc) {
    id !in c.entries && Formed(e.name) && e.lru == Active && forall i: Id :: i in c.entries ==> !(c.entries[i].dvp == e.dvp && c.entries[i].name == e.name)
  }

  lemma AddTree(c: Cache, id: Id, e: Nc, d: Vnode)
    requires Inv(c) && Addable(c, id, e)
    ensures TreeOk(Add(c, id, e), d)
  {
    hide Insert, Sorted;
    assert TreeOk(c, d) && TreeOk(c, e.dvp);
    var t := TreeOf(c, e.dvp);
    InsertSorted(t, e.name, id);
    var c' := Add(c, id, e);
    forall n, i: Id ensures Has(TreeOf(c', d), n, i) <==> i in c'.entries && c'.entries[i].dvp == d && c'.entries[i].name == n {
      InsertHas(t, e.name, id, n, i);
    }
  }

  lemma AddList(c: Cache, id: Id, e: Nc, v: Vnode)
    requires Inv(c) && Addable(c, id, e)
    ensures ListOk(Add(c, id, e), v)
  {
    hide Insert;
    assert ListOk(c, v);
    var c' := Add(c, id, e);
    var q := ListOf(c, v);
    assert id !in q;
    NoDupsConcat(q, [id]);
    NoDupsConcat([id], q);
    DotsFrame(c.entries, c'.entries, q);
    if e.vp == Some(v) { DotsListed(c'.entries, q, id); }
  }

  lemma DotsListed(entries: map<Id, Nc>, q: seq<Id>, id: Id)
    requires DotsLast(entries, q) && id in entries
    ensures DotsLast(entries, Listed(q, id, entries[id].name.text))
  {
    var r := Listed(q, id, entries[id].name.text);
    forall i, j | 0 <= i < j < |r| && r[i] in entries && r[j] in entries && Dots(entries[r[i]].name.text) ensures Dots(entries[r[j]].name.text) {
      if Dots(entries[id].name.text) {
        if j < |q| { assert r[i] == q[i] && r[j] == q[j]; }
      } else {
        assert i > 0 && r[i] == q[i - 1] && r[j] == q[j - 1];
      }
    }
  }

  lemma AddKeeps(c: Cache, id: Id, e: Nc)
    requires Inv(c) && Addable(c, id, e)
    ensures Inv(Add(c, id, e))
  {
    hide TreeOk, ListOk, Insert, Listed;
    forall d ensures TreeOk(Add(c, id, e), d) { AddTree(c, id, e, d); }
    forall v ensures ListOk(Add(c, id, e), v) { AddList(c, id, e, v); }
    NoDupsConcat(c.active, [id]);
  }

  lemma DeactivateKeeps(c: Cache, desired: int)
    requires Inv(c)
    ensures Inv(Deactivate(c, desired))
  {
    DeactivateSomeKeeps(c, MAXDEACT);
  }

  // ------------------------------------------------------------ what users see

  /** What a lookup finds under a name: the vnode, or None for a negative entry, and the whiteout flag. */
  function Seen(c: Cache, d: Vnode, n: Name): Option<(Option<Vnode>, bool)> {
    var id := Search(TreeOf(c, d), n.key, n.text);
    if id.Some? && id.value in c.entries then Some((c.entries[id.value].vp, c.entries[id.value].whiteout)) else None
  }

  /** It is the one entry with that directory and name. */
  lemma SeenMeans(c: Cache, d: Vnode, n: Name)
    requires Inv(c) && Formed(n)
    ensures Seen(c, d, n).None? ==> forall id: Id :: id in c.entries ==> !(c.entries[id].dvp == d && c.entries[id].name == n)
    ensures forall id: Id :: id in c.entries && c.entries[id].dvp == d && c.entries[id].name == n ==>
      Seen(c, d, n) == Some((c.entries[id].vp, c.entries[id].whiteout))
  {
    assert TreeOk(c, d);
    SearchNone(TreeOf(c, d), n);
    forall id: Id | id in c.entries && c.entries[id].dvp == d && c.entries[id].name == n
      ensures Search(TreeOf(c, d), n.key, n.text) == Some(id)
    {
      SearchIsRight(TreeOf(c, d), n, id);
    }
  }

  /** The same entries, but for the LRU, look the same. */
  lemma SameSeen(c: Cache, c': Cache, d: Vnode, n: Name)
    requires Inv(c) && Inv(c') && Formed(n)
    requires forall id: Id :: id in c.entries && c.entries[id].dvp == d && c.entries[id].name == n ==>
      id in c'.entries && c'.entries[id].(lru := Active) == c.entries[id].(lru := Active)
    requires forall id: Id :: id in c'.entries && c'.entries[id].dvp == d && c'.entries[id].name == n ==> id in c.entries && c.entries[id].dvp == d && c.entries[id].name == n
    ensures Seen(c', d, n) == Seen(c, d, n)
  {
    hide Inv, Seen;
    SeenMeans(c, d, n);
    SeenMeans(c', d, n);
    if id: Id :| id in c.entries && c.entries[id].dvp == d && c.entries[id].name == n {
    } else {
      SeenNone(c, d, n);
      SeenNone(c', d, n);
    }
  }

  lemma SeenNone(c: Cache, d: Vnode, n: Name)
    requires Inv(c) && Formed(n) && forall id: Id :: id in c.entries ==> !(c.entries[id].dvp == d && c.entries[id].name == n)
    ensures Seen(c, d, n) == None
  {
    assert TreeOk(c, d);
    SearchNone(TreeOf(c, d), n);
  }

  /** Removing an entry makes its name unknown and changes no other. */
  lemma RemoveSeen(c: Cache, id: Id, d: Vnode, n: Name)
    requires Inv(c) && id in c.entries && Formed(n)
    ensures Seen(Remove(c, id), d, n) == if c.entries[id].dvp == d && c.entries[id].name == n then None else Seen(c, d, n)
  {
    hide Inv, Seen, Remove;
    RemoveKeeps(c, id);
    var c' := Remove(c, id);
    if c.entries[id].dvp == d && c.entries[id].name == n {
      forall i: Id | i in c'.entries ensures !(c'.entries[i].dvp == d && c'.entries[i].name == n) { OnePerName(c, id, i); }
      SeenNone(c', d, n);
    } else {
      SameSeen(c, c', d, n);
    }
  }

  /** The entry cache_enter has to remove first, if any. */
  lemma EnterClears(c: Cache, dvp: Vnode, name: Name)
    requires Inv(c) && Formed(name)
    ensures var prior := Search(TreeOf(c, dvp), name.key, name.text);
      && (prior.Some? ==> prior.value in c.entries && c.entries[prior.value].dvp == dvp && c.entries[prior.value].name == name)
      && (prior.None? ==> forall i: Id :: i in c.entries ==> !(c.entries[i].dvp == dvp && c.entries[i].name == name))
  {
    assert TreeOk(c, dvp);
    SearchNone(TreeOf(c, dvp), name);
    forall i: Id | i in c.entries && c.entries[i].dvp == dvp && c.entries[i].name == name ensures Has(TreeOf(c, dvp), name, i) {}
  }

  lemma EnterStart(c: Cache, id: Id, dvp: Vnode, vp: Option<Vnode>, name: Name, whiteout: bool) returns (c1: Cache)
    requires Inv(c) && id !in c.entries && Formed(name)
    ensures var prior := Search(TreeOf(c, dvp), name.key, name.text);
      c1 == if prior.Some? && prior.value in c.entries then Remove(c, prior.value) else c
    ensures Inv(c1) && Addable(c1, id, Nc(dvp, vp, name, whiteout, Active))
    ensures forall d, n :: Formed(n) && !(d == dvp && n == name) ==> Seen(c1, d, n) == Seen(c, d, n)
  {
    hide Inv, Seen, Remove;
    var prior := Search(TreeOf(c, dvp), name.key, name.text);
    EnterClears(c, dvp, name);
    c1 := c;
    if prior.Some? {
      RemoveKeeps(c, prior.value);
      c1 := Remove(c, prior.value);
      forall i: Id | i in c1.entries ensures !(c1.entries[i].dvp == dvp && c1.entries[i].name == name) { OnePerName(c, prior.value, i); }
      forall d, n | Formed(n) && !(d == dvp && n == name) ensures Seen(c1, d, n) == Seen(c, d, n) { RemoveSeen(c, prior.value, d, n); }
    }
  }

  /** cache_enter keeps all views in step, makes the name mean the new vnode and changes no other name. */
  lemma EnterKeeps(c: Cache, id: Id, dvp: Vnode, vp: Option<Vnode>, name: Name, whiteout: bool, desired: int)
    requires Inv(c) && id !in c.entries && Formed(name)
    ensures var c' := Enter(c, id, dvp, vp, name, whiteout, desired);
      && Inv(c') && Seen(c', dvp, name) == Some((vp, whiteout))
      && forall d, n :: Formed(n) && !(d == dvp && n == name) ==> Seen(c', d, n) == Seen(c, d, n)
  {
    hide Inv, Seen, Remove, Add, Deactivate;
    var e := Nc(dvp, vp, name, whiteout, Active);
    var c1 := EnterStart(c, id, dvp, vp, name, whiteout);
    AddKeeps(c1, id, e);
    var c2 := Add(c1, id, e);
    AddEntries(c1, id, e);
    DeactivateKeeps(c2, desired);
    var c' := Deactivate(c2, desired);
    DeactivateEntries(c2, desired);
    forall i: Id | i in c1.entries ensures c'.entries[i].(lru := Active) == c1.entries[i].(lru := Active) { assert i in c2.entries; }
    assert c'.entries[id].(lru := Active) == e;
    AddedSeen(c1, c', id, e);
  }

  /** One entry more, the others the same but for the LRU. */
  lemma AddedSeen(c: Cache, c': Cache, id: Id, e: Nc)
    requires Inv(c) && Inv(c') && Addable(c, id, e) && c'.entries.Keys == c.entries.Keys + {id} && c'.entries[id].(lru := Active) == e
    requires forall i: Id :: i in c.entries ==> c'.entries[i].(lru := Active) == c.entries[i].(lru := Active)
    ensures Seen(c', e.dvp, e.name) == Some((e.vp, e.whiteout))
    ensures forall d, n :: Formed(n) && !(d == e.dvp && n == e.name) ==> Seen(c', d, n) == Seen(c, d, n)
  {
    hide Inv, Seen;
    SeenMeans(c', e.dvp, e.name);
    assert id in c'.entries && c'.entries[id].dvp == e.dvp && c'.entries[id].name == e.name;
    forall d, n | Formed(n) && !(d == e.dvp && n == e.name) ensures Seen(c', d, n) == Seen(c, d, n) {
      forall i: Id | i in c'.entries && c'.entries[i].dvp == d && c'.entries[i].name == n
        ensures i in c.entries && c.entries[i].dvp == d && c.entries[i].name == n
      {
        assert i != id && i in c.entries;
      }
      SameSeen(c, c', d, n);
    }
  }

  lemma AddEntries(c: Cache, id: Id, e: Nc)
    ensures Add(c, id, e).entries == c.entries[id := e]
  {
  }

  lemma {:induction false} DeactivateSomeEntries(c: Cache, n: nat)
    ensures var c' := DeactivateSome(c, n);
      c'.entries.Keys == c.entries.Keys && forall id: Id :: id in c.entries ==> c'.entries[id].(lru := Active) == c.entries[id].(lru := Active)
    decreases n
  {
    if n > 0 { DeactivateSomeEntries(DeactivateOne(c), n - 1); }
  }

  lemma DeactivateEntries(c: Cache, desired: int)
    ensures var c' := Deactivate(c, desired);
      c'.entries.Keys == c.entries.Keys && forall id: Id :: id in c.entries ==> c'.entries[id].(lru := Active) == c.entries[id].(lru := Active)
  {
    DeactivateSomeEntries(c, MAXDEACT);
  }
}
