/** Adding a span to an arena, rebuilding its busy hash, and looking a block up by address. */
module VmemSpans {
  import opened Options
  import opened Words
  import opened Queues
  import opened VmemArena
  import opened VmemOps
  import opened VmemAlloc
  import opened VmemFree
  import opened VmemTiling

  // ------------------------------------------------------------------ vmem_add1

  predicate Addable(a: Arena, b: Bt) { b.IsSpan() && TagOk(a.quantum, b) }

  /** vmem_add1: a span header and one free tag that fills it, at the end of the segment list. */
  function Add1(a: Arena, b: Bt): Arena
    requires Shaped(a) && Addable(a, b)
  {
    if |a.freetags| <= BT_MINRESERVE + 1 then a
    else InsFree(Appended(a, b), a.freetags[1])
  }

  function Appended(a: Arena, b: Bt): Arena
    requires |a.freetags| >= 2
  {
    var s, f := a.freetags[0], a.freetags[1];
    a.(freetags := a.freetags[2..], tags := a.tags[s := b][f := b.(kind := Free)], seg := a.seg + [s, f], size := a.size + b.size)
  }

  lemma AppendedTiles(tags: map<Tag, Bt>, q: seq<Tag>, s: Tag, f: Tag)
    requires Tiled(tags, q) && s in tags && f in tags && tags[s].IsSpan() && tags[f].kind == Busy
    requires tags[s].size > 0 && tags[f].start == tags[s].start && tags[f].size == tags[s].size
    ensures Tiled(tags, q + [s, f])
  {
    WalkConcat(tags, q, [s, f], START);
    Walk2(tags, s, f, Walk(tags, q, START));
  }

  lemma AppendedConserved(a: Arena, b: Bt)
    requires Conserved(a, {}) && |a.freetags| >= 2
    ensures Conserved(Appended(a, b), {}) && a.freetags[0] != a.freetags[1]
    ensures a.freetags[0] !in a.seg && a.freetags[1] !in a.seg && NoDups(a.seg) && Known(a.tags, a.seg)
  {
    var s, f := a.freetags[0], a.freetags[1];
    assert s in a.freetags && f in a.freetags;
    assert a.freetags == [s, f] + a.freetags[2..];
    var a' := Appended(a, b);
    NoDupsConcat(a.seg, [s, f]);
    assert forall z :: z in a.freetags <==> z in a'.freetags || z == s || z == f;
  }

  lemma AppendedCounts(a: Arena, b: Bt)
    requires Counted(a) && |a.freetags| >= 2 && b.IsSpan()
    requires a.freetags[0] != a.freetags[1] && a.freetags[0] !in a.seg && a.freetags[1] !in a.seg
    ensures Counted(Appended(a, b))
  {
    var a' := Appended(a, b);
    var s, f := a.freetags[0], a.freetags[1];
    Total2(a'.tags, s, f, true);
    Total2(a'.tags, s, f, false);
    TotalFrame(a.tags, a'.tags, a.seg, true);
    TotalFrame(a.tags, a'.tags, a.seg, false);
    TotalConcat(a'.tags, a.seg, [s, f], true);
    TotalConcat(a'.tags, a.seg, [s, f], false);
  }

  lemma AppendedDetached(a: Arena, b: Bt)
    requires Inv(a) && Addable(a, b) && |a.freetags| >= 2
    ensures Detached(Appended(a, b), a.freetags[1], {})
    ensures a.freetags[0] !in Held(a) && Held(Appended(a, b)) == Held(a)[a.freetags[0] := b]
  {
    hide Order, HashIndex, Tiled, Counted, Conserved, TagOk;
    var s, f := a.freetags[0], a.freetags[1];
    var a' := Appended(a, b);
    AppendedConserved(a, b);
    AppendedCounts(a, b);
    TagOkKind(a.quantum, b);
    TagSize(a.quantum, b);
    var l := Loose(a', f);
    TiledFrame(a.tags, l, a.seg);
    AppendedTiles(l, a.seg, s, f);
    assert forall o, z :: InFree(a', o, z) <==> InFree(a, o, z);
    assert forall h, z :: InHash(a', h, z) <==> InHash(a, h, z);
    forall z | z != f ensures LocalView(a', z) {
      assert LocalView(a, z);
      if z != s { SameView(a, a', z); }
    }
    assert LocalView(a, f);
    assert forall z :: z in a'.seg <==> z in a.seg || z == s || z == f;
  }

  /** Adding a span keeps the invariant; the span's header is all that is new, and all of the span is free. */
  lemma Add1KeepsInv(a: Arena, b: Bt)
    requires Inv(a) && Addable(a, b)
    ensures Inv(Add1(a, b)) && Allocated(Add1(a, b)) == Allocated(a) && Add1(a, b).inuse == a.inuse
    ensures |a.freetags| > BT_MINRESERVE + 1 ==> a.freetags[0] !in Held(a) && Held(Add1(a, b)) == Held(a)[a.freetags[0] := b]
    ensures |a.freetags| <= BT_MINRESERVE + 1 ==> Held(Add1(a, b)) == Held(a)
    ensures Add1(a, b).size == a.size + (if |a.freetags| > BT_MINRESERVE + 1 then b.size else 0)
    ensures Add1(a, b).release == a.release && Add1(a, b).quantum == a.quantum
  {
    hide Order, HashIndex, Tiled, Counted, ListsOk, LocalView, Conserved, TagOk, InsFree, Held;
    if |a.freetags| > BT_MINRESERVE + 1 {
      AppendedDetached(a, b);
      var a1 := Appended(a, b);
      var s, f := a.freetags[0], a.freetags[1];
      assert a1.seg == (a.seg + [s]) + [f] + [];
      AppendedConserved(a, b);
      ReattachKeeps(a1, {}, a.seg + [s], f, []);
      InsertFields(a1, f);
    }
  }

  // ---------------------------------------------------------------- vmem_rehash

  function Flat(lists: seq<seq<Tag>>): seq<Tag> {
    if lists == [] then [] else lists[0] + Flat(lists[1..])
  }

  /** bt_insbusy of each tag in turn into the new table. */
  function Refiled(tags: map<Tag, Bt>, hashOf: int -> nat, table: seq<seq<Tag>>, q: seq<Tag>): seq<seq<Tag>>
    requires |table| > 0 && Known(tags, q)
    decreases |q|
  {
    if q == [] then table
    else
      var h := hashOf(tags[q[0]].start) % |table|;
      Refiled(tags, hashOf, table[h := [q[0]] + table[h]], q[1..])
  }

  lemma {:induction false} RefiledConcat(tags: map<Tag, Bt>, hashOf: int -> nat, table: seq<seq<Tag>>, q1: seq<Tag>, q2: seq<Tag>)
    requires |table| > 0 && Known(tags, q1) && Known(tags, q2)
    ensures |Refiled(tags, hashOf, table, q1)| == |table|
    ensures Refiled(tags, hashOf, table, q1 + q2) == Refiled(tags, hashOf, Refiled(tags, hashOf, table, q1), q2)
    decreases |q1|
  {
    if q1 == [] {
      assert q1 + q2 == q2;
    } else {
      assert (q1 + q2)[0] == q1[0] && (q1 + q2)[1..] == q1[1..] + q2;
      var h := hashOf(tags[q1[0]].start) % |table|;
      RefiledConcat(tags, hashOf, table[h := [q1[0]] + table[h]], q1[1..], q2);
    }
  }

  /** The decay of the high-water mark towards the number of busy tags. */
  function Decayed(maxbusy: int, nbusy: int): int {
    if maxbusy >= 2 then Max(maxbusy / 2 - 1, nbusy) else nbusy
  }

  /** vmem_rehash to a table of at least n lists. */
  function Rehash(a: Arena, n: int): Arena
    requires n > 0 && Known(a.tags, Flat(a.hash))
  {
    var size := Pow2(Log2(n) + 1);
    a.(hash := Refiled(a.tags, a.hashOf, seq(size, i => []), Flat(a.hash)), maxbusy := Decayed(a.maxbusy, a.nbusy))
  }

  lemma {:induction false} FlatMembers(lists: seq<seq<Tag>>, x: Tag)
    ensures x in Flat(lists) <==> exists h :: 0 <= h < |lists| && x in lists[h]
  {
    if lists != [] {
      FlatMembers(lists[1..], x);
      if x in Flat(lists[1..]) {
        var h :| 0 <= h < |lists[1..]| && x in lists[1..][h];
        assert lists[h + 1] == lists[1..][h];
      }
      if h :| 0 <= h < |lists| && x in lists[h] {
        if h > 0 { assert lists[h] == lists[1..][h - 1]; }
      }
    }
  }

  lemma {:induction false} FlatNoDups(lists: seq<seq<Tag>>)
    requires forall h :: 0 <= h < |lists| ==> NoDups(lists[h])
    requires forall g, h, x :: 0 <= g < |lists| && 0 <= h < |lists| && x in lists[g] && x in lists[h] ==> g == h
    ensures NoDups(Flat(lists))
  {
    if lists != [] {
      forall g, h, x | 0 <= g < |lists[1..]| && 0 <= h < |lists[1..]| && x in lists[1..][g] && x in lists[1..][h] ensures g == h {
        assert x in lists[g + 1] && x in lists[h + 1];
      }
      FlatNoDups(lists[1..]);
      assert forall h :: 0 <= h < |lists[1..]| ==> lists[1..][h] == lists[h + 1];
      forall x | x in lists[0] ensures x !in Flat(lists[1..]) { FlatMembers(lists[1..], x); }
      NoDupsConcat(lists[0], Flat(lists[1..]));
    }
  }

  predicate At(table: seq<seq<Tag>>, h: int, x: Tag) { 0 <= h < |table| && x in table[h] }

  lemma {:induction false} RefiledHolds(tags: map<Tag, Bt>, hashOf: int -> nat, table: seq<seq<Tag>>, q: seq<Tag>)
    requires |table| > 0 && Known(tags, q) && NoDups(q)
    requires forall h :: 0 <= h < |table| ==> NoDups(table[h])
    requires forall h, x :: At(table, h, x) ==> x !in q
    ensures var t' := Refiled(tags, hashOf, table, q);
      && |t'| == |table| && (forall h :: 0 <= h < |t'| ==> NoDups(t'[h]))
      && (forall h, x :: At(t', h, x) <==> At(table, h, x) || (x in q && h == hashOf(tags[x].start) % |table|))
    decreases |q|
  {
    if q != [] {
      var h0 := hashOf(tags[q[0]].start) % |table|;
      var t1 := table[h0 := [q[0]] + table[h0]];
      assert !At(table, h0, q[0]);
      NoDupsConcat([q[0]], table[h0]);
      assert q == [q[0]] + q[1..];
      forall h, x ensures At(t1, h, x) <==> At(table, h, x) || (x == q[0] && h == h0) {}
      assert q[0] !in q[1..];
      RefiledHolds(tags, hashOf, t1, q[1..]);
    }
  }

  lemma HashListed(a: Arena)
    requires Views(a)
    ensures NoDups(Flat(a.hash)) && Known(a.tags, Flat(a.hash))
    ensures forall x :: x in Flat(a.hash) <==> x in a.seg && x in a.tags && a.tags[x].kind == Busy
  {
    hide HashIndex, TagOk, Order;
    forall x ensures x in Flat(a.hash) <==> x in a.seg && x in a.tags && a.tags[x].kind == Busy {
      FlatMembers(a.hash, x);
      assert LocalView(a, x);
      if x in a.seg && x in a.tags && a.tags[x].kind == Busy { assert InHash(a, HashIndex(a, a.tags[x].start), x); }
      if x in Flat(a.hash) {
        var h :| 0 <= h < |a.hash| && x in a.hash[h];
        assert InHash(a, h, x);
      }
    }
    forall g, h, x | 0 <= g < |a.hash| && 0 <= h < |a.hash| && x in a.hash[g] && x in a.hash[h] ensures g == h {
      assert LocalView(a, x);
      assert InHash(a, g, x) && InHash(a, h, x);
    }
    FlatNoDups(a.hash);
  }

  /** Rebuilding the hash, to any size, loses no busy tag and files each under its new list. */
  lemma RehashKeepsInv(a: Arena, n: int)
    requires Inv(a) && n > 0
    ensures Known(a.tags, Flat(a.hash))
    ensures Inv(Rehash(a, n)) && Held(Rehash(a, n)) == Held(a) && n < |Rehash(a, n).hash| <= 2 * n
    ensures Rehash(a, n) == a.(hash := Rehash(a, n).hash, maxbusy := Rehash(a, n).maxbusy)
  {
    hide TagOk, Order, Tiled, Conserved;
    HashListed(a);
    Log2Brackets(n);
    var size := Pow2(Log2(n) + 1);
    var empty := seq(size, i => []);
    RefiledHolds(a.tags, a.hashOf, empty, Flat(a.hash));
    var a' := Rehash(a, n);
    forall x ensures LocalView(a', x) {
      assert LocalView(a, x);
      assert forall o :: InFree(a', o, x) <==> InFree(a, o, x);
      assert forall h :: InHash(a', h, x) <==> At(a'.hash, h, x);
      assert forall h :: !At(empty, h, x);
    }
    SameConserved(a, a', {});
  }

  // ------------------------------------------------------------ bt_lookupbusy

  function LookupIn(tags: map<Tag, Bt>, q: seq<Tag>, addr: int): Option<Tag> {
    if q == [] then None
    else if q[0] in tags && tags[q[0]].start == addr then Some(q[0])
    else LookupIn(tags, q[1..], addr)
  }

  function Lookup(a: Arena, addr: int): Option<Tag>
    requires |a.hash| > 0
  {
    LookupIn(a.tags, a.hash[HashIndex(a, addr)], addr)
  }

  lemma {:induction false} LookupInIsRight(tags: map<Tag, Bt>, q: seq<Tag>, addr: int)
    requires Known(tags, q)
    ensures match LookupIn(tags, q, addr)
      case Some(t) => t in q && tags[t].start == addr
      case None => forall t :: t in q ==> tags[t].start != addr
  {
    if q != [] { LookupInIsRight(tags, q[1..], addr); }
  }

  lemma HashHolds(a: Arena, h: nat, t: Tag)
    requires Views(a) && h < |a.hash|
    ensures t in a.hash[h] <==> t in Allocated(a) && h == HashIndex(a, a.tags[t].start)
  {
    assert LocalView(a, t);
    assert InHash(a, h, t) <==> t in a.hash[h];
  }

  /** An address finds a tag if and only if it is where that allocation starts. */
  lemma LookupIsRight(a: Arena, addr: int, t: Tag)
    requires Inv(a) && SpansApart(a)
    ensures Lookup(a, addr) == Some(t) <==> t in Allocated(a) && Allocated(a)[t].start == addr
  {
    hide HashIndex, Tiled, Counted, Conserved, LocalView;
    HashInRange(a, addr);
    var h := HashIndex(a, addr);
    var q := a.hash[h];
    forall u | u in q ensures u in a.tags { HashHolds(a, h, u); }
    LookupInIsRight(a.tags, q, addr);
    match Lookup(a, addr) {
      case None =>
        HashHolds(a, h, t);
      case Some(u) =>
        HashHolds(a, h, u);
        HashHolds(a, h, t);
        if u != t && t in Allocated(a) && Allocated(a)[t].start == addr {
          AllocatedApart(a, t, u);
          AllocatedSize(a, t);
          AllocatedSize(a, u);
        }
    }
  }

  lemma HashInRange(a: Arena, addr: int)
    requires |a.hash| > 0
    ensures HashIndex(a, addr) < |a.hash|
  {
  }

  lemma AllocatedSize(a: Arena, t: Tag)
    requires Inv(a) && t in Allocated(a)
    ensures TagOk(a.quantum, Allocated(a)[t])
  {
    assert LocalView(a, t);
  }
}
