/** The arena as the kernel keeps it, updated in place, proved against the functions on Arena. */
module Vmem {
  import opened Options
  import opened Queues
  import opened VmemArena
  import opened VmemOps
  import opened VmemAlloc
  import opened VmemFree
  import opened VmemTiling
  import opened VmemSearch
  import opened VmemSpans
  import opened VmemRuns

  class Vmem {
    const quantum: int
    const hashOf: int -> nat
    const release: bool
    const free: array<seq<Tag>>
    var hash: array<seq<Tag>>
    var tags: map<Tag, Bt>
    var seg: seq<Tag>
    var freetags: seq<Tag>
    var pool: set<Tag>
    var size: int
    var inuse: int
    var nbusy: int
    var maxbusy: int

    ghost predicate Valid()
      reads this, free, hash
    {
      free != hash && Shaped(Model())
    }

    ghost function Model(): Arena
      reads this, free, hash
    {
      Arena(quantum, hashOf, release, tags, seg, free[..], hash[..], freetags, pool, size, inuse, nbusy, maxbusy)
    }

    // ------------------------------------------------------------- primitives

    method InsFree(t: Tag)
      requires Valid() && t in tags && TagOk(quantum, tags[t])
      modifies free
      ensures Valid() && Model() == VmemOps.InsFree(old(Model()), t)
    {
      OrderInRange(quantum, tags[t]);
      var o := Order(quantum, tags[t].size);
      free[o] := [t] + free[o];
    }

    /** LIST_REMOVE from the only free list t can be on. */
    method RemFree(t: Tag)
      requires Valid() && t in tags && TagOk(quantum, tags[t])
      requires forall o :: InFree(Model(), o, t) ==> o == Order(quantum, tags[t].size)
      modifies free
      ensures Valid() && Model() == VmemOps.RemFree(old(Model()), t)
    {
      OrderInRange(quantum, tags[t]);
      var o := Order(quantum, tags[t].size);
      forall p | 0 <= p < free.Length && p != o ensures Without(free[p], t) == free[p] {
        assert !InFree(Model(), p, t);
      }
      free[o] := Without(free[o], t);
      assert free[..] == VmemOps.RemFree(old(Model()), t).free;
    }

    method InsBusy(t: Tag)
      requires Valid() && t in tags
      modifies this`nbusy, this`maxbusy, this`inuse, hash
      ensures Valid() && Model() == VmemOps.InsBusy(old(Model()), t)
    {
      var h := hashOf(tags[t].start) % hash.Length;
      hash[h] := [t] + hash[h];
      nbusy := nbusy + 1;
      if nbusy > maxbusy { maxbusy := nbusy; }
      inuse := inuse + tags[t].size;
    }

    method RemBusy(t: Tag)
      requires Valid() && t in tags
      requires forall h :: InHash(Model(), h, t) ==> h == HashIndex(Model(), tags[t].start)
      modifies this`nbusy, this`inuse, hash
      ensures Valid() && Model() == VmemOps.RemBusy(old(Model()), t)
    {
      var h := hashOf(tags[t].start) % hash.Length;
      forall p | 0 <= p < hash.Length && p != h ensures Without(hash[p], t) == hash[p] {
        assert !InHash(Model(), p, t);
      }
      hash[h] := Without(hash[h], t);
      inuse := inuse - tags[t].size;
      nbusy := nbusy - 1;
      assert hash[..] == VmemOps.RemBusy(old(Model()), t).hash;
    }

    /** bt_freetrim. */
    method FreeTrim()
      requires Valid()
      modifies this`freetags, this`pool
      ensures Valid() && Model() == Trim(old(Model()))
    {
      ghost var n := 0;
      while |freetags| > BT_MAXFREE
        invariant n <= |old(freetags)| && freetags == old(freetags)[n..] && (n == 0 || |freetags| >= BT_MAXFREE)
        invariant pool == old(pool) + Elems(old(freetags)[..n])
      {
        var bt := freetags[0];
        assert old(freetags)[..n + 1] == old(freetags)[..n] + [bt];
        pool := pool + {bt};
        freetags := freetags[1..];
        n := n + 1;
      }
      if n == 0 {
        assert pool == old(pool);
      }
    }

    // -------------------------------------------------------------- searching

    /** The search loops of vmem_xalloc. */
    method Search(r: Request, instant: bool) returns (found: Found)
      requires Valid() && Searchable(Model(), r)
      ensures found == Choose(Model(), r, instant)
    {
      hide Fit.Fit, Fit.Wellformed;
      ghost var a := Model();
      if instant {
        ghost var first := InstantOrder(quantum, r.size);
        var o := InstantOrder(quantum, r.size);
        while o < free.Length
          invariant o <= free.Length
          invariant InstantFrom(a, o, r) == InstantFrom(a, first, r)
        {
          if free[o] != [] && free[o][0] in tags {
            var rc := Fit.Fit(BlockOf(tags[free[o][0]]), r);
            if rc.Some? { return Found(free[o][0], rc.value); }
          }
          o := o + 1;
        }
      }
      ghost var first := Order(quantum, r.size);
      var o := Order(quantum, r.size);
      while o < free.Length
        invariant o <= free.Length
        invariant BestFrom(a, o, r) == BestFrom(a, first, r)
      {
        var i := 0;
        while i < |free[o]|
          invariant i <= |free[o]| && BestIn(tags, free[o][i..], r) == BestIn(tags, free[o], r)
        {
          var bt := free[o][i];
          if bt in tags && tags[bt].size >= r.size {
            var rc := Fit.Fit(BlockOf(tags[bt]), r);
            if rc.Some? { return Found(bt, rc.value); }
          }
          i := i + 1;
        }
        o := o + 1;
      }
      found := Nothing;
    }

    /** bt_lookupbusy. */
    method LookupBusy(addr: int) returns (found: Option<Tag>)
      requires Valid()
      ensures found == Lookup(Model(), addr)
    {
      var q := hash[hashOf(addr) % hash.Length];
      var i := 0;
      while i < |q|
        invariant i <= |q| && LookupIn(tags, q[i..], addr) == LookupIn(tags, q, addr)
      {
        if q[i] in tags && tags[q[i]].start == addr { return Some(q[i]); }
        i := i + 1;
      }
      return None;
    }

    // -------------------------------------------------------------- allocation

    /** vmem_xalloc from gotit on, with the two spare tags in hand: g is the arena before they were taken. */
    method Carve(ghost g: Arena, n1: Tag, n2: Tag, t: Tag, start: int, size: int) returns (busy: Tag)
      requires Valid() && Inv(g) && Carvable(g, t, start, size) && n1 == g.freetags[0] && n2 == g.freetags[1]
      requires Model() == g.(freetags := g.freetags[2..])
      modifies this, free, hash
      ensures Valid() && hash == old(hash) && Model() == AllocAt(g, t, start, size).0 && busy == AllocAt(g, t, start, size).1
    {
      hide VmemOps.InsFree, VmemOps.RemFree, VmemOps.InsBusy, Order, HashIndex, InsertBefore, Tiled, Counted, Conserved;
      var b := tags[t];
      assert LocalView(g, t);
      forall o ensures InFree(Model(), o, t) ==> o == Order(quantum, b.size) {
        assert InFree(Model(), o, t) <==> InFree(g, o, t);
      }
      RemFree(t);
      ghost var a0 := VmemOps.RemFree(g.(freetags := g.freetags[2..]), t);
      ghost var a1 := a0;
      if b.start != start {
        SplitPieces(g, b, start);
        tags := tags[n2 := Bt(Free, b.start, start - b.start)][t := Bt(Free, start, b.size - (start - b.start))];
        InsFree(n2);
        seg := InsertBefore(seg, t, n2);
        a1 := FrontSplit(a0, t, n2, start);
      }
      assert Model() == a1;
      busy := Finish(a1, n1, t, start, size);
      if b.start == start { freetags := [n2] + freetags; }
    }

    /** The second half: split off the rest, or take the tag whole. */
    method Finish(ghost a1: Arena, n1: Tag, t: Tag, start: int, size: int) returns (busy: Tag)
      requires Valid() && Model() == a1 && n1 != t && t in tags && TagOk(quantum, tags[t]) && tags[t].start == start
      requires 0 < size <= tags[t].size && size % quantum == 0
      modifies this, free, hash
      ensures Valid() && hash == old(hash)
      ensures var b1 := a1.tags[t];
        if b1.size != size && b1.size - size > quantum - 1
        then busy == n1 && Model() == BackSplit(a1, t, n1, size)
        else busy == t && Model() == BtFree(TakeWhole(a1, t), n1)
    {
      hide VmemOps.InsFree, VmemOps.RemFree, VmemOps.InsBusy, Order, HashIndex, InsertBefore;
      var b := tags[t];
      if b.size != size && b.size - size > quantum - 1 {
        Quanta(start, size, quantum);
        SplitPieces(a1, b, start + size);
        tags := tags[n1 := Bt(Busy, start, size)][t := Bt(Free, start + size, b.size - size)];
        InsFree(t);
        seg := InsertBefore(seg, t, n1);
        InsBusy(n1);
        busy := n1;
      } else {
        tags := tags[t := b.(kind := Busy)];
        InsBusy(t);
        freetags := [n1] + freetags;
        busy := t;
      }
    }

    /** vmem_xalloc, without import or sleeping. */
    method Xalloc(r: Request, instant: bool) returns (result: Found)
      requires Valid() && Inv(Model()) && Asked(Model(), r) && Roomy(Model(), r, instant)
      modifies this, free, hash
      ensures Valid() && hash == old(hash)
      ensures Outcome(Model(), result) == VmemSearch.Xalloc(old(Model()), r, instant)
    {
      hide Choose, Fit.Wellformed, AllocAt, InvWith;
      if |freetags| <= BT_MINRESERVE + 1 { return Nothing; }
      ghost var g := Model();
      OrdersInRange(g, r);
      var n1, n2 := freetags[0], freetags[1];
      freetags := freetags[2..];
      OrdersInRange(Model(), r);
      var found := Search(r, instant);
      ChooseFrame(g, Model(), r, instant);
      ChooseIsRight(g, r, instant);
      match found {
        case Nothing =>
          freetags := [n1] + freetags;
          freetags := [n2] + freetags;
          return Nothing;
        case Found(t, start) =>
          OffersCarvable(g, r, t, start);
          var busy := Carve(g, n1, n2, t, start, r.size);
          return Found(busy, start);
      }
    }

    // ------------------------------------------------------------------ freeing

    /** Merge the free neighbour r into t, as one of the two coalescing steps. */
    method Absorb(t: Tag, r: Tag, merged: Bt)
      requires Valid() && r in tags && TagOk(quantum, tags[r])
      requires forall o :: InFree(Model(), o, r) ==> o == Order(quantum, tags[r].size)
      modifies this`seg, this`tags, this`freetags, free
      ensures Valid() && Model() == VmemFree.Absorb(old(Model()), t, r, merged)
    {
      RemFree(r);
      seg := Without(seg, r);
      tags := tags[t := merged];
      freetags := [r] + freetags;
    }

    lemma OnOneFreeList(t: Tag, i: int)
      requires Valid() && Detached(Model(), t, {}) && FreeAt(Model(), i) && seg[i] != t
      ensures var r := seg[i]; TagOk(quantum, tags[r]) && forall o :: InFree(Model(), o, r) ==> o == Order(quantum, tags[r].size)
    {
      assert LocalView(Model(), seg[i]);
    }

    /** The two coalescing steps of vmem_xfree_bt. */
    method Coalesce(t: Tag)
      requires Valid() && Detached(Model(), t, {})
      modifies this`seg, this`tags, this`freetags, free
      ensures t in old(seg) && t in old(tags) && Valid()
      ensures var a2 := CoalesceNext(old(Model()), t); t in a2.seg && t in a2.tags && Model() == CoalescePrev(a2, t)
    {
      hide Order, HashIndex, TagOk, Counted, ListsOk, LocalView, Tiled, Conserved, VmemFree.Absorb;
      ghost var a1 := Model();
      ghost var x, y := SplitAt(seg, t);
      SegFacts(a1, {});
      y := CoalesceNextKeeps(a1, {}, x, t, y);
      var i := IndexOf(seg, t);
      if i + 1 < |seg| && seg[i + 1] in tags && tags[seg[i + 1]].kind == Free {
        var r := seg[i + 1];
        OnOneFreeList(t, i + 1);
        Absorb(t, r, Both(tags[t], tags[r]));
      }
      ghost var a2 := Model();
      assert a2 == CoalesceNext(a1, t);
      SegFacts(a2, {});
      i := IndexOf(seg, t);
      if i > 0 && seg[i - 1] in tags && tags[seg[i - 1]].kind == Free {
        var r := seg[i - 1];
        OnOneFreeList(t, i - 1);
        Absorb(t, r, Both(tags[r], tags[t]));
      }
    }

    /** vmem_xfree_bt; the callback that takes a released span is not modelled. */
    method XfreeBt(t: Tag)
      requires Valid() && Inv(Model()) && t in Allocated(Model())
      modifies this, free, hash
      ensures Valid() && hash == old(hash) && Model() == VmemFree.XfreeBt(old(Model()), t)
    {
      hide Order, HashIndex, Counted, ListsOk, Tiled, Conserved, CoalesceNext, CoalescePrev, VmemOps.RemBusy, VmemOps.InsFree;
      ghost var a := Model();
      AllocatedBusy(a, t);
      assert LocalView(a, t);
      ghost var x, y := SplitAt(seg, t);
      UnbusyDetaches(a, {}, x, t, y);
      RemBusy(t);
      tags := tags[t := tags[t].(kind := Free)];
      assert Model() == Unbusy(a, t) by { RemBusyTags(a, t); }
      Coalesce(t);
      CoalescedOk(a, t);
      x, y := Coalesced(a, t);
      PrecededByHeader(Model(), {}, x, t, y);
      SettleTag(t);
      FreeTrim();
    }

    /** The end of vmem_xfree_bt: release the span or put the tag on a free list. */
    method SettleTag(t: Tag)
      requires Valid() && t in seg && t in tags && TagOk(quantum, tags[t])
      modifies this`seg, this`freetags, this`size, free
      ensures Valid() && Model() == Settle(old(Model()), t)
    {
      hide Order, VmemOps.InsFree;
      var i := IndexOf(seg, t);
      if release && i > 0 && seg[i - 1] in tags && tags[seg[i - 1]].kind == Span && tags[seg[i - 1]].size == tags[t].size {
        var p := seg[i - 1];
        seg := Without(seg, t);
        freetags := [t] + freetags;
        seg := Without(seg, p);
        freetags := [p] + freetags;
        size := size - tags[t].size;
      } else {
        InsFree(t);
      }
    }

    /** vmem_xfree; the source asserts that the address is allocated. */
    method Xfree(addr: int)
      requires Valid() && Good(Model()) && Lookup(Model(), addr).Some?
      modifies this, free, hash
      ensures Valid() && Model() == Step(old(Model()), DoXfree(addr))
    {
      hide InvWith, VmemFree.XfreeBt, SpansApart;
      var bt := LookupBusy(addr);
      LookupIsRight(Model(), addr, bt.value);
      XfreeBt(bt.value);
    }

    /** vmem_xfreeall. */
    method Xfreeall()
      requires Valid() && Inv(Model())
      modifies this, free, hash
      ensures Valid() && Model() == FreeAll(old(Model()))
      ensures Allocated(Model()) == map[] && inuse == 0
    {
      hide InvWith, VmemFree.XfreeBt, Allocated;
      FreeAllEmpties(Model());
      while true
        invariant Valid() && Inv(Model()) && hash == old(hash) && FreeAll(Model()) == FreeAll(old(Model()))
        decreases |Allocated(Model())|
      {
        var i := 0;
        while i < |seg| && !(seg[i] in tags && tags[seg[i]].kind == Busy)
          invariant i <= |seg| && FirstBusy(Model(), seg[i..]) == FirstBusy(Model(), seg)
        {
          i := i + 1;
        }
        FirstBusyIsBusy(Model(), seg);
        if i == |seg| { return; }
        assert FirstBusy(Model(), seg) == Some(seg[i]);
        AllocatedBusy(Model(), seg[i]);
        XfreeKeepsInv(Model(), seg[i]);
        XfreeBt(seg[i]);
      }
    }

    // ----------------------------------------------------------- spans and hash

    /** vmem_add1. */
    method Add1(b: Bt) returns (error: bool)
      requires Valid() && Inv(Model()) && Addable(Model(), b)
      modifies this, free
      ensures Valid() && hash == old(hash) && Model() == VmemSpans.Add1(old(Model()), b)
      ensures error <==> |old(freetags)| <= BT_MINRESERVE + 1
    {
      hide Order, VmemOps.InsFree, InvWith;
      if |freetags| <= BT_MINRESERVE + 1 { return true; }
      var s, f := freetags[0], freetags[1];
      TagOkKind(quantum, b);
      freetags := freetags[2..];
      tags := tags[s := b][f := b.(kind := Free)];
      seg := seg + [s];
      seg := seg + [f];
      size := size + b.size;
      assert Model() == Appended(old(Model()), b);
      InsFree(f);
      return false;
    }

    /** Move the tags of one old list into the new table. */
    method Refile(list: seq<Tag>)
      requires Valid() && Known(tags, list) && nbusy <= maxbusy
      modifies this`inuse, this`nbusy, this`maxbusy, hash
      ensures Valid() && nbusy == old(nbusy) && maxbusy == old(maxbusy) && inuse == old(inuse)
      ensures hash[..] == Refiled(tags, hashOf, old(hash[..]), list)
    {
      var q := list;
      while q != []
        invariant Valid() && Known(tags, q)
        invariant nbusy == old(nbusy) && maxbusy == old(maxbusy) && inuse == old(inuse)
        invariant Refiled(tags, hashOf, hash[..], q) == Refiled(tags, hashOf, old(hash[..]), list)
      {
        var bt := q[0];
        nbusy := nbusy - 1;
        inuse := inuse - tags[bt].size;
        q := q[1..];
        InsBusy(bt);
      }
    }

    /** The high-water mark of vmem_rehash decays towards the number of busy tags. */
    method Decay()
      modifies this`maxbusy
      ensures maxbusy == Decayed(old(maxbusy), nbusy) && nbusy <= maxbusy
    {
      if maxbusy >= 2 {
        maxbusy := maxbusy / 2 - 1;
        if nbusy > maxbusy { maxbusy := nbusy; }
      } else {
        maxbusy := nbusy;
      }
    }

    /** vmem_rehash: every busy tag leaves the old table and enters the new one. */
    method Rehash(n: int)
      requires Valid() && Inv(Model()) && n > 0
      modifies this`hash, this`inuse, this`nbusy, this`maxbusy
      ensures Valid() && fresh(hash)
      ensures Known(old(tags), Flat(old(hash[..]))) && Model() == VmemSpans.Rehash(old(Model()), n)
    {
      hide LocalView, Tiled, Conserved, Pow2, Log2, Counted;
      HashListed(Model());
      hide InvWith, Refiled, Flat, Known;
      var newsize := Pow2(Log2(n) + 1);
      var table := new seq<Tag>[newsize](i => []);
      ghost var empty := seq<seq<Tag>>(newsize, i => []);
      assert table[..] == empty;
      Decay();
      var oldlists := hash[..];
      hash := table;
      MoveLists(oldlists);
    }

    /** The loop of vmem_rehash over the old table. */
    method MoveLists(oldlists: seq<seq<Tag>>)
      requires Valid() && Known(tags, Flat(oldlists)) && nbusy <= maxbusy
      modifies this`inuse, this`nbusy, this`maxbusy, hash
      ensures Valid() && nbusy == old(nbusy) && maxbusy == old(maxbusy) && inuse == old(inuse)
      ensures hash[..] == Refiled(tags, hashOf, old(hash[..]), Flat(oldlists))
    {
      var i := 0;
      assert oldlists[0..] == oldlists;
      while i < |oldlists|
        invariant i <= |oldlists| && Valid() && Known(tags, Flat(oldlists[i..]))
        invariant Refiled(tags, hashOf, hash[..], Flat(oldlists[i..])) == Refiled(tags, hashOf, old(hash[..]), Flat(oldlists))
        invariant nbusy == old(nbusy) && maxbusy == old(maxbusy) && inuse == old(inuse)
      {
        ghost var rest := Flat(oldlists[i + 1..]);
        assert Flat(oldlists[i..]) == oldlists[i] + rest;
        assert forall x :: x in oldlists[i] || x in rest ==> x in Flat(oldlists[i..]);
        RefiledConcat(tags, hashOf, hash[..], oldlists[i], rest);
        Refile(oldlists[i]);
        i := i + 1;
      }
      assert oldlists[i..] == [];
    }

    /** An arena with no span yet, given its spare tags. */
    constructor (quantum: int, hashOf: int -> nat, release: bool, spare: seq<Tag>)
      requires quantum > 0 && NoDups(spare)
      ensures Valid() && Good(Model()) && fresh(free) && fresh(hash)
      ensures Allocated(Model()) == map[] && freetags == spare && size == 0
      ensures this.quantum == quantum && this.release == release
    {
      this.quantum, this.hashOf, this.release := quantum, hashOf, release;
      free := new seq<Tag>[MAXORDER](i => []);
      hash := new seq<Tag>[1](i => []);
      tags := map t | t in spare :: Bt(Free, 0, 0);
      seg, freetags, pool := [], spare, {};
      size, inuse, nbusy, maxbusy := 0, 0, 0, 0;
      new;
      EmptyIsGood(Model());
    }
  }

  lemma EmptyIsGood(a: Arena)
    requires Shaped(a) && a.seg == [] && NoDups(a.freetags) && a.pool == {} && (forall t :: t in a.tags <==> t in a.freetags)
    requires (forall o :: 0 <= o < |a.free| ==> a.free[o] == []) && (forall h :: 0 <= h < |a.hash| ==> a.hash[h] == [])
    requires a.size == 0 && a.inuse == 0 && a.nbusy == 0 && a.maxbusy >= 0
    ensures Good(a) && Allocated(a) == map[]
  {
    forall x ensures LocalView(a, x) {
      assert forall o :: !InFree(a, o, x);
      assert forall h :: !InHash(a, h, x);
    }
  }

  lemma RemBusyTags(a: Arena, t: Tag)
    requires t in a.tags
    ensures Unbusy(a, t) == VmemOps.RemBusy(a, t).(tags := VmemOps.RemBusy(a, t).tags[t := VmemOps.RemBusy(a, t).tags[t].(kind := Free)])
  {
  }
}
