/** Giving a block back: vmem_xfree_bt with its coalescing and the release of empty spans. */
module VmemFree {
  import opened Words
  import opened Queues
  import opened VmemArena
  import opened VmemOps
  import opened VmemAlloc

  // ---------------------------------------------------------- leaving the list

  lemma {:induction false} WithoutAt(x: seq<Tag>, t: Tag, y: seq<Tag>)
    requires t !in x && t !in y
    ensures Without(x + [t] + y, t) == x + y
  {
    if x == [] {
      assert x + [t] + y == [t] + y;
    } else {
      assert (x + [t] + y)[0] == x[0] && (x + [t] + y)[1..] == x[1..] + [t] + y;
      WithoutAt(x[1..], t, y);
      assert [x[0]] + (x[1..] + y) == x + y;
    }
  }

  /** A tag leaves the segment list for the spare tags. */
  lemma RemovedConserved(a: Arena, a': Arena, hand: set<Tag>, x: seq<Tag>, r: Tag, y: seq<Tag>)
    requires Conserved(a, hand) && a.seg == x + [r] + y && a'.seg == x + y
    requires a'.freetags == [r] + a.freetags && a'.pool == a.pool && a'.tags.Keys == a.tags.Keys
    ensures Conserved(a', hand)
  {
    UniqueAt(x, r, y);
    NoDupsConcat(x, y);
    assert r in a.seg;
    NoDupsConcat([r], a.freetags);
    assert forall z :: z in a.seg <==> z in a'.seg || z == r;
  }

  // --------------------------------------------------------------- detaching

  /** bt_rembusy, and the tag becomes free. */
  function Unbusy(a: Arena, t: Tag): Arena
    requires t in a.tags
  {
    RemBusy(a, t).(tags := a.tags[t := a.tags[t].(kind := Free)])
  }

  lemma UnbusyDetaches(a: Arena, hand: set<Tag>, x: seq<Tag>, t: Tag, y: seq<Tag>)
    requires InvWith(a, hand) && a.seg == x + [t] + y && t in a.tags && a.tags[t].kind == Busy
    ensures Detached(Unbusy(a, t), t, hand)
  {
    hide Order, HashIndex, TagOk, Tiled;
    var d := Unbusy(a, t);
    assert ListsOk(a);
    RemBusyLists(a, t);
    assert t in a.seg;
    assert LocalView(a, t);
    TagOkKind(a.quantum, a.tags[t]);
    forall z | z != t ensures LocalView(d, z) {
      assert LocalView(a, z);
      forall h ensures InHash(d, h, z) <==> InHash(a, h, z) {
        RemBusyEffect(a, t, h, z);
        assert InHash(d, h, z) <==> InHash(RemBusy(a, t), h, z);
      }
      assert forall o :: InFree(d, o, z) <==> InFree(a, o, z);
      SameView(a, d, z);
    }
    forall h ensures !InHash(d, h, t) {
      RemBusyEffect(a, t, h, t);
      assert InHash(d, h, t) <==> InHash(RemBusy(a, t), h, t);
    }
    forall o ensures !InFree(d, o, t) { assert InFree(d, o, t) <==> InFree(a, o, t); }
    assert Loose(d, t) == a.tags;
    SameConserved(a, d, hand);
    UniqueAt(x, t, y);
    assert Known(d.tags, d.seg);
    ResplicedTotals(a.tags, d.tags, x, [t], [t], y, true);
    ResplicedTotals(a.tags, d.tags, x, [t], [t], y, false);
  }

  // ---------------------------------------------------------------- coalescing

  /** Merge the free neighbour r into the detached tag t; the merged block is merged. */
  function Absorb(a: Arena, t: Tag, r: Tag, merged: Bt): Arena {
    BtFree(RemFree(a, r).(seg := Without(a.seg, r), tags := a.tags[t := merged]), r)
  }

  lemma AbsorbLists(a: Arena, t: Tag, r: Tag, merged: Bt)
    requires ListsOk(a) && Shaped(a)
    ensures var a' := Absorb(a, t, r, merged);
      && Shaped(a') && ListsOk(a') && a'.hash == a.hash
      && (forall o, z :: InFree(a', o, z) <==> InFree(a, o, z) && z != r)
  {
    var a' := Absorb(a, t, r, merged);
    RemFreeLists(a, r);
    forall o, z ensures InFree(a', o, z) <==> InFree(a, o, z) && z != r {
      RemFreeEffect(a, r, o, z);
      assert InFree(a', o, z) <==> InFree(RemFree(a, r), o, z);
    }
  }

  /** The views and the tags after a merge, wherever the neighbour was. */
  lemma AbsorbViews(a: Arena, hand: set<Tag>, x: seq<Tag>, t: Tag, r: Tag, y: seq<Tag>, merged: Bt)
    requires Detached(a, t, hand) && a.seg == x + [r] + y && r != t && (t in x || t in y)
    requires r in a.tags && a.tags[r].kind == Free && merged.kind == Free && TagOk(a.quantum, merged)
    ensures var a' := Absorb(a, t, r, merged);
      && a'.seg == x + y && Shaped(a') && ListsOk(a') && Conserved(a', hand)
      && (forall z :: z != t ==> LocalView(a', z))
      && t in a'.seg && a'.tags[t] == merged
      && (forall o :: !InFree(a', o, t)) && (forall h :: !InHash(a', h, t))
  {
    hide Order, HashIndex, TagOk, Tiled, Counted, ListsOk;
    assert r in a.seg;
    SegFacts(a, hand);
    UniqueAt(x, r, y);
    WithoutAt(x, r, y);
    AbsorbLists(a, t, r, merged);
    var a' := Absorb(a, t, r, merged);
    assert t in a.tags;
    RemovedConserved(a, a', hand, x, r, y);
    assert forall h, z :: InHash(a', h, z) <==> InHash(a, h, z);
    forall z | z != t ensures LocalView(a', z) {
      assert LocalView(a, z);
      assert z in a'.seg <==> z in a.seg && z != r;
      if z != r { SameView(a, a', z); }
    }
  }

  lemma MergedOk(q: int, u: Bt, v: Bt)
    requires TagOk(q, u) && TagOk(q, v) && u.start + u.size == v.start && u.size + v.size < TWO64
    ensures TagOk(q, Bt(Free, u.start, u.size + v.size))
  {
    Quanta(u.size, v.size, q);
  }

  lemma AbsorbCounts(a: Arena, a': Arena, x: seq<Tag>, u: Tag, v: Tag, t: Tag, y: seq<Tag>)
    requires Counted(a) && a.seg == x + [u, v] + y && a'.seg == x + [t] + y && t in a'.tags
    requires u in a.tags && v in a.tags && a.tags[u].kind == a.tags[v].kind == a'.tags[t].kind == Free
    requires forall z :: z in x || z in y ==> z in a.tags && z in a'.tags && a'.tags[z] == a.tags[z]
    requires a'.size == a.size && a'.inuse == a.inuse && a'.nbusy == a.nbusy && a'.maxbusy == a.maxbusy
    ensures Counted(a')
  {
    Total2(a.tags, u, v, true);
    Total2(a.tags, u, v, false);
    ResplicedTotals(a.tags, a'.tags, x, [u, v], [t], y, true);
    ResplicedTotals(a.tags, a'.tags, x, [u, v], [t], y, false);
  }

  /** Two tags u, v side by side, neither a span, may be replaced by one that covers both. */
  lemma MergeTiles(l: map<Tag, Bt>, l': map<Tag, Bt>, x: seq<Tag>, u: Tag, v: Tag, t: Tag, y: seq<Tag>)
    requires NoDups(x + [u, v] + y) && Tiled(l, x + [u, v] + y) && u in l && v in l && (t == u || t == v)
    requires !l[u].IsSpan() && !l[v].IsSpan()
    requires l' == l[t := Bt(Busy, l[u].start, l[u].size + l[v].size)]
    ensures Known(l, x) && Walk(l, x, START).Pos?
    ensures var p := Walk(l, x, START); p.cur == l[u].start && l[u].start + l[u].size == l[v].start && l[v].start + l[v].size <= p.end
    ensures Tiled(l', x + [t] + y)
  {
    assert x + [u, v] + y == x + [u] + ([v] + y) && x + [u, v] + y == (x + [u]) + [v] + y;
    UniqueAt(x, u, [v] + y);
    UniqueAt(x + [u], v, y);
    assert forall z :: z in x ==> z in x + [u];
    WalkToTag(l, x, u, [v] + y);
    var p := Walk(l, x, START);
    if Feed(Feed(p, l[u]), l[v]).Bad? { WalkBad(l, y); }
    Walk2(l, u, v, p);
    assert Walk(l', [t], p) == Feed(p, l'[t]);
    assert v in [v] + y;
    forall z | z in x || z in y ensures z != t && z in l && l'[z] == l[z] { assert z in x + [u, v] + y; assert z in y ==> z in [v] + y; }
    Respliced(l, l', x, [u, v], [t], y);
  }

  lemma SpanBound(a: Arena, hand: set<Tag>, x: seq<Tag>, t: Tag)
    requires Detached(a, t, hand) && x <= a.seg
    ensures Known(Loose(a, t), x)
    ensures var w := Walk(Loose(a, t), x, START); w.Pos? ==> w.base <= w.cur && w.end - w.base < TWO64
  {
    var l := Loose(a, t);
    forall z | z in x ensures z in l && l[z].size < TWO64 {
      assert z in a.seg;
      if z != t { assert LocalView(a, z); }
    }
    WalkInSpan(l, x, START);
  }

  /** Tags u, v side by side, of which one is the detached tag t and the other, r, is free. */
  ghost predicate Pair(a: Arena, x: seq<Tag>, u: Tag, v: Tag, t: Tag, r: Tag, y: seq<Tag>) {
    && a.seg == x + [u, v] + y && ((t == u && r == v) || (t == v && r == u))
    && u in a.tags && v in a.tags && a.tags[r].kind == Free
  }

  function Both(u: Bt, v: Bt): Bt { Bt(Free, u.start, u.size + v.size) }

  lemma PairTiles(a: Arena, hand: set<Tag>, x: seq<Tag>, u: Tag, v: Tag, t: Tag, r: Tag, y: seq<Tag>)
    requires Detached(a, t, hand) && Pair(a, x, u, v, t, r, y)
    ensures TagOk(a.quantum, Both(a.tags[u], a.tags[v]))
    ensures Tiled(Loose(a.(tags := a.tags[t := Both(a.tags[u], a.tags[v])]), t), x + [t] + y)
  {
    hide Order, HashIndex, Tiled, Counted, ListsOk, Conserved, Walk;
    var l := Loose(a, t);
    SegFacts(a, hand);
    assert u in a.seg && v in a.seg;
    var _, _ := PairParts(a, hand, x, u, v, t, r, y);
    assert LocalView(a, r);
    var b := Both(a.tags[u], a.tags[v]);
    var l' := Loose(a.(tags := a.tags[t := b]), t);
    assert l' == l[t := Bt(Busy, l[u].start, l[u].size + l[v].size)];
    MergeTiles(l, l', x, u, v, t, y);
    SpanBound(a, hand, x, t);
    MergedOk(a.quantum, a.tags[u], a.tags[v]);
  }

  /** b covers all that c does. */
  predicate Encloses(b: Bt, c: Bt) { b.start <= c.start && c.start + c.size <= b.start + b.size }

  lemma PairEncloses(a: Arena, hand: set<Tag>, x: seq<Tag>, u: Tag, v: Tag, t: Tag, r: Tag, y: seq<Tag>)
    requires Detached(a, t, hand) && Pair(a, x, u, v, t, r, y)
    ensures Encloses(Both(a.tags[u], a.tags[v]), a.tags[t])
  {
    hide Order, HashIndex, Tiled, Counted, ListsOk, Conserved, Walk;
    var l := Loose(a, t);
    SegFacts(a, hand);
    assert u in a.seg && v in a.seg;
    var _, _ := PairParts(a, hand, x, u, v, t, r, y);
    assert LocalView(a, r);
    var b := Both(a.tags[u], a.tags[v]);
    MergeTiles(l, l[t := Bt(Busy, l[u].start, l[u].size + l[v].size)], x, u, v, t, y);
  }

  lemma PairParts(a: Arena, hand: set<Tag>, x: seq<Tag>, u: Tag, v: Tag, t: Tag, r: Tag, y: seq<Tag>) returns (x1: seq<Tag>, y1: seq<Tag>)
    requires Conserved(a, hand) && Pair(a, x, u, v, t, r, y)
    ensures a.seg == x1 + [r] + y1 && x1 + y1 == x + [t] + y && (t in x1 || t in y1)
    ensures t != r && (forall z :: z in x || z in y ==> z in a.seg && z != t && z != r)
  {
    assert a.seg == x + [u] + ([v] + y) && a.seg == (x + [u]) + [v] + y;
    UniqueAt(x, u, [v] + y);
    UniqueAt(x + [u], v, y);
    assert u in x + [u] && v in [v] + y;
    assert forall z :: z in y ==> z in [v] + y;
    assert forall z :: z in x ==> z in x + [u];
    if r == v { x1, y1 := x + [u], y; } else { x1, y1 := x, [v] + y; }
  }

  /** Absorbing a free neighbour keeps everything but the neighbour. */
  lemma AbsorbKeeps(a: Arena, hand: set<Tag>, x: seq<Tag>, u: Tag, v: Tag, t: Tag, r: Tag, y: seq<Tag>)
    requires Detached(a, t, hand) && Pair(a, x, u, v, t, r, y)
    ensures var a' := Absorb(a, t, r, Both(a.tags[u], a.tags[v]));
      a'.seg == x + [t] + y && Detached(a', t, hand)
  {
    hide Order, HashIndex, TagOk, Tiled, Counted, ListsOk, Conserved, LocalView;
    var b := Both(a.tags[u], a.tags[v]);
    var a' := Absorb(a, t, r, b);
    PairTiles(a, hand, x, u, v, t, r, y);
    var x1, y1 := PairParts(a, hand, x, u, v, t, r, y);
    AbsorbViews(a, hand, x1, t, r, y1, b);
    SegFacts(a, hand);
    assert Loose(a', t) == Loose(a.(tags := a.tags[t := b]), t);
    AbsorbCounts(a, a', x, u, v, t, y);
  }

  // ------------------------------------------------------------ vmem_xfree_bt

  function IndexOf(q: seq<Tag>, t: Tag): (i: nat)
    requires t in q
    ensures i < |q| && q[i] == t
  {
    if q[0] == t then 0 else 1 + IndexOf(q[1..], t)
  }

  lemma IndexAt(x: seq<Tag>, t: Tag, y: seq<Tag>)
    requires NoDups(x + [t] + y)
    ensures IndexOf(x + [t] + y, t) == |x|
  {
    var q := x + [t] + y;
    assert q[|x|] == t;
  }

  predicate FreeAt(a: Arena, i: int) { 0 <= i < |a.seg| && a.seg[i] in a.tags && a.tags[a.seg[i]].kind == Free }

  /** Merge with the tag after t if that is free. */
  function CoalesceNext(a: Arena, t: Tag): Arena
    requires t in a.seg && t in a.tags
  {
    var i := IndexOf(a.seg, t);
    if FreeAt(a, i + 1) then Absorb(a, t, a.seg[i + 1], Both(a.tags[t], a.tags[a.seg[i + 1]])) else a
  }

  /** Merge with the tag before t if that is free. */
  function CoalescePrev(a: Arena, t: Tag): Arena
    requires t in a.seg && t in a.tags
  {
    var i := IndexOf(a.seg, t);
    if FreeAt(a, i - 1) then Absorb(a, t, a.seg[i - 1], Both(a.tags[a.seg[i - 1]], a.tags[t])) else a
  }

  /** t now fills an imported span that the arena can give back. */
  predicate FillsSpan(a: Arena, t: Tag)
    requires t in a.seg && t in a.tags
  {
    var i := IndexOf(a.seg, t);
    && a.release && i > 0 && a.seg[i - 1] in a.tags
    && a.tags[a.seg[i - 1]].kind == Span && a.tags[a.seg[i - 1]].size == a.tags[t].size
  }

  /** The header of the span that t's release gives back. */
  function Header(a: Arena, t: Tag): (h: set<Tag>)
    requires t in a.seg && t in a.tags
    ensures forall s :: s in h ==> a.release && s in a.tags && a.tags[s].kind == Span
  {
    if FillsSpan(a, t) then {a.seg[IndexOf(a.seg, t) - 1]} else {}
  }

  /** Give the span back, or put t on its free list. */
  function Settle(a: Arena, t: Tag): Arena
    requires t in a.seg && t in a.tags && Shaped(a) && a.tags[t].size >= a.quantum
  {
    if FillsSpan(a, t) then
      var p := a.seg[IndexOf(a.seg, t) - 1];
      a.(seg := Without(Without(a.seg, t), p), freetags := [p] + ([t] + a.freetags), size := a.size - a.tags[t].size)
    else InsFree(a, t)
  }

  /** bt_freetrim: all but the last BT_MAXFREE spare tags go back to the pool. */
  function Trim(a: Arena): Arena {
    if |a.freetags| <= BT_MAXFREE then a
    else
      var n := |a.freetags| - BT_MAXFREE;
      a.(freetags := a.freetags[n..], pool := a.pool + Elems(a.freetags[..n]))
  }

  /** What the coalescing steps leave alone. */
  ghost predicate Same(a: Arena, a': Arena) {
    && a' == a.(free := a'.free, hash := a'.hash, seg := a'.seg, tags := a'.tags, freetags := a'.freetags)
    && a'.tags.Keys == a.tags.Keys && Held(a') == Held(a)
  }

  lemma AbsorbAllocates(a: Arena, t: Tag, r: Tag, merged: Bt)
    requires t in a.tags && r in a.tags && t in a.seg && r in a.seg && a.tags[t].kind == a.tags[r].kind == merged.kind == Free
    requires t != r
    ensures Same(a, Absorb(a, t, r, merged))
  {
    var a' := Absorb(a, t, r, merged);
    assert forall z :: z in a'.seg <==> z in a.seg && z != r;
  }

  lemma AbsorbTags(a: Arena, t: Tag, r: Tag, merged: Bt)
    ensures Absorb(a, t, r, merged).tags == a.tags[t := merged]
  {
  }

  /** On the side where a free neighbour was absorbed, the new neighbour is not free. */
  lemma AbsorbSides(a: Arena, hand: set<Tag>, x: seq<Tag>, u: Tag, v: Tag, t: Tag, r: Tag, y: seq<Tag>)
    requires Detached(a, t, hand) && Pair(a, x, u, v, t, r, y)
    ensures var a' := Absorb(a, t, r, Both(a.tags[u], a.tags[v]));
      && (r == v || NotFreeFirst(a.tags, y) ==> NotFreeFirst(a'.tags, y))
      && (r == u ==> NotFreeLast(a'.tags, x)) && Same(a, a')
  {
    hide Order, HashIndex, TagOk, Counted, ListsOk, LocalView, Held, Tiled, Absorb, Conserved, Same;
    var _, _ := PairParts(a, hand, x, u, v, t, r, y);
    assert u in a.seg && v in a.seg;
    var b := Both(a.tags[u], a.tags[v]);
    AbsorbAllocates(a, t, r, b);
    AbsorbTags(a, t, r, b);
    if r == v {
      assert a.seg == (x + [t]) + [v] + y;
      NeighboursOfFree(Loose(a, t), x + [t], v, y);
    } else {
      assert a.seg == x + [u] + ([t] + y);
      NeighboursOfFree(Loose(a, t), x, u, [t] + y);
    }
    assert y != [] ==> y[0] in y;
    assert x != [] ==> x[|x| - 1] in x;
  }

  lemma CoalesceNextKeeps(a: Arena, hand: set<Tag>, x: seq<Tag>, t: Tag, y: seq<Tag>) returns (y': seq<Tag>)
    requires Detached(a, t, hand) && a.seg == x + [t] + y
    ensures var a' := CoalesceNext(a, t);
      && Detached(a', t, hand) && a'.seg == x + [t] + y' && NotFreeFirst(a'.tags, y') && Same(a, a')
      && Encloses(a'.tags[t], a.tags[t])
  {
    hide Order, HashIndex, TagOk, Counted, ListsOk, LocalView, Held, Tiled, Absorb, Conserved, Shaped;
    SegFacts(a, hand);
    IndexAt(x, t, y);
    y' := y;
    assert y != [] ==> a.seg[|x| + 1] == y[0] && y[0] in a.seg;
    if FreeAt(a, |x| + 1) {
      y' := y[1..];
      assert a.seg == x + [t, y[0]] + y';
      AbsorbKeeps(a, hand, x, t, y[0], t, y[0], y');
      AbsorbSides(a, hand, x, t, y[0], t, y[0], y');
      PairEncloses(a, hand, x, t, y[0], t, y[0], y');
      AbsorbTags(a, t, y[0], Both(a.tags[t], a.tags[y[0]]));
    }
  }

  lemma CoalescePrevKeeps(a: Arena, hand: set<Tag>, x: seq<Tag>, t: Tag, y: seq<Tag>) returns (x': seq<Tag>)
    requires Detached(a, t, hand) && a.seg == x + [t] + y && NotFreeFirst(a.tags, y)
    ensures var a' := CoalescePrev(a, t);
      && Detached(a', t, hand) && a'.seg == x' + [t] + y && NotFreeFirst(a'.tags, y) && NotFreeLast(a'.tags, x') && Same(a, a')
      && Encloses(a'.tags[t], a.tags[t])
  {
    hide Order, HashIndex, TagOk, Counted, ListsOk, LocalView, Held, Tiled, Absorb, Conserved, NotFreeFirst, Shaped;
    SegFacts(a, hand);
    IndexAt(x, t, y);
    var i := |x| - 1;
    x' := x;
    assert x != [] ==> a.seg[i] == x[i] && x[i] in a.seg;
    if FreeAt(a, i) {
      x' := x[..i];
      assert a.seg == x' + [x[i], t] + y;
      AbsorbKeeps(a, hand, x', x[i], t, t, x[i], y);
      AbsorbSides(a, hand, x', x[i], t, t, x[i], y);
      PairEncloses(a, hand, x', x[i], t, t, x[i], y);
      AbsorbTags(a, t, x[i], Both(a.tags[x[i]], a.tags[t]));
    }
  }

  // ------------------------------------------------------------- reattaching

  /** Back on a free list. */
  lemma ReattachKeeps(a: Arena, hand: set<Tag>, x: seq<Tag>, t: Tag, y: seq<Tag>)
    requires Detached(a, t, hand) && a.seg == x + [t] + y && NotFreeFirst(a.tags, y) && NotFreeLast(a.tags, x)
    ensures a.tags[t].size >= a.quantum && InvWith(InsFree(a, t), hand) && Same(a, InsFree(a, t))
  {
    hide Order, HashIndex, TagOk, Tiled, Conserved, Counted, InsFree;
    TagSize(a.quantum, a.tags[t]);
    var a' := InsFree(a, t);
    InsertFields(a, t);
    InsFreeLists(a, t);
    SegFacts(a, hand);
    forall z ensures LocalView(a', z) {
      forall o ensures InFree(a', o, z) <==> InFree(a, o, z) || (z == t && o == Order(a.quantum, a.tags[t].size)) {
        InsFreeEffect(a, t, o, z);
      }
      assert forall h :: InHash(a', h, z) <==> InHash(a, h, z);
      if z != t {
        assert LocalView(a, z);
        SameView(a, a', z);
      }
    }
    SameConserved(a, a', hand);
    ReattachTiles(a, x, t, y);
    CountedFrame(a, a');
  }

  lemma CountedFrame(a: Arena, a': Arena)
    requires Counted(a) && a'.tags == a.tags && a'.seg == a.seg && a'.size == a.size && a'.inuse == a.inuse
    requires a'.nbusy == a.nbusy && a'.maxbusy == a.maxbusy
    ensures Counted(a')
  {
  }

  lemma ReattachTiles(a: Arena, x: seq<Tag>, t: Tag, y: seq<Tag>)
    requires t in a.tags && a.tags[t].kind == Free && a.seg == x + [t] + y && NoDups(a.seg) && Known(a.tags, a.seg)
    requires Tiled(Loose(a, t), a.seg) && NotFreeFirst(a.tags, y) && NotFreeLast(a.tags, x)
    ensures Tiled(a.tags, a.seg)
  {
    var l := Loose(a, t);
    UniqueAt(x, t, y);
    WalkToTag(l, x, t, y);
    assert forall z :: z in x || z in y ==> z in a.seg && z != t;
    var p := Walk(l, x, START);
    if x != [] { assert x[|x| - 1] in x; WalkLast(l, x, START); }
    assert !p.lastFree;
    assert Walk(a.tags, [t], p) == Feed(p, a.tags[t]);
    assert y != [] ==> y[0] in y;
    Respliced(l, a.tags, x, [t], [t], y);
  }

  // ---------------------------------------------------------- releasing a span

  /** A span header and the one tag that fills it can leave the list together. */
  lemma ReleaseTiles(l: map<Tag, Bt>, x: seq<Tag>, s: Tag, t: Tag, y: seq<Tag>)
    requires Tiled(l, x + [s, t] + y) && s in l && t in l && l[s].IsSpan() && l[t].kind == Busy && l[s].size == l[t].size
    ensures Tiled(l, x + y) && l[s].start == l[t].start
  {
    assert x + [s, t] + y == x + [s] + ([t] + y);
    WalkToTag(l, x, s, [t] + y);
    assert Known(l, y) by { assert forall z :: z in y ==> z in [t] + y; }
    var p := Walk(l, x, START);
    var p1 := Feed(p, l[s]);
    assert ([t] + y)[1..] == y;
    if Feed(p1, l[t]).Bad? { WalkBad(l, y); }
    WalkComplete(l, y, Feed(p1, l[t]), p);
    WalkConcat(l, x, y, START);
  }

  function Released(a: Arena, s: Tag, t: Tag): Arena
    requires t in a.tags
  {
    a.(seg := Without(Without(a.seg, t), s), freetags := [s] + ([t] + a.freetags), size := a.size - a.tags[t].size)
  }

  lemma ReleaseSeg(a: Arena, hand: set<Tag>, x: seq<Tag>, s: Tag, t: Tag, y: seq<Tag>)
    requires Conserved(a, hand) && a.seg == x + [s, t] + y && t in a.tags
    ensures Released(a, s, t).seg == x + y && Conserved(Released(a, s, t), hand) && s != t
    ensures forall z :: z in x || z in y ==> z in a.seg && z != s && z != t
    ensures forall z :: z in a.seg && z != s && z != t ==> z in x || z in y
  {
    var a1 := a.(seg := x + [s] + y, freetags := [t] + a.freetags);
    var a' := Released(a, s, t);
    assert a.seg == (x + [s]) + [t] + y && x + [s] + y == (x + [s]) + y;
    UniqueAt(x + [s], t, y);
    WithoutAt(x + [s], t, y);
    RemovedConserved(a, a1, hand, x + [s], t, y);
    UniqueAt(x, s, y);
    WithoutAt(x, s, y);
    RemovedConserved(a1, a', hand, x, s, y);
    assert s in x + [s];
    assert forall z :: z in x ==> z in x + [s];
  }

  lemma ReleaseCounts(a: Arena, a': Arena, x: seq<Tag>, s: Tag, t: Tag, y: seq<Tag>)
    requires Counted(a) && a.seg == x + [s, t] + y && s in a.tags && t in a.tags && a'.seg == x + y && a'.tags == a.tags
    requires a.tags[s].IsSpan() && a.tags[t].kind == Free && a.tags[s].size == a.tags[t].size
    requires a'.size == a.size - a.tags[t].size && a'.inuse == a.inuse && a'.nbusy == a.nbusy && a'.maxbusy == a.maxbusy
    ensures Counted(a')
  {
    assert x + y == x + [] + y;
    assert forall z :: z in a'.seg ==> z in a.seg;
    assert forall z :: z in x || z in y ==> z in a.seg;
    Total2(a.tags, s, t, true);
    Total2(a.tags, s, t, false);
    ResplicedTotals(a.tags, a.tags, x, [s, t], [], y, true);
    ResplicedTotals(a.tags, a.tags, x, [s, t], [], y, false);
  }

  lemma ReleaseKeeps(a: Arena, hand: set<Tag>, x: seq<Tag>, s: Tag, t: Tag, y: seq<Tag>)
    requires Detached(a, t, hand) && a.seg == x + [s, t] + y && s in a.tags
    requires a.tags[s].kind == Span && a.tags[s].size == a.tags[t].size
    ensures InvWith(Released(a, s, t), hand) && Held(Released(a, s, t)) == Held(a) - {s}
    ensures a.tags[s].start == a.tags[t].start
  {
    hide Order, HashIndex, TagOk, Tiled, Conserved, Counted, Released;
    var a' := Released(a, s, t);
    assert a' == a.(seg := a'.seg, freetags := a'.freetags, size := a.size - a.tags[t].size) by { ReleasedFields(a, s, t); }
    ReleaseSeg(a, hand, x, s, t, y);
    ReleaseTiles(Loose(a, t), x, s, t, y);
    TiledFrame(Loose(a, t), a.tags, x + y);
    ReleaseCounts(a, a', x, s, t, y);
    assert s in a.seg;
    assert LocalView(a, s);
    forall z ensures LocalView(a', z) {
      assert forall o :: InFree(a', o, z) <==> InFree(a, o, z);
      assert forall h :: InHash(a', h, z) <==> InHash(a, h, z);
      if z != s && z != t {
        assert LocalView(a, z);
        SameView(a, a', z);
      }
    }
    assert Views(a') by { assert ListsOk(a); }
  }

  lemma ReleasedFields(a: Arena, s: Tag, t: Tag)
    requires t in a.tags
    ensures var a' := Released(a, s, t); a' == a.(seg := a'.seg, freetags := a'.freetags, size := a.size - a.tags[t].size)
  {
  }

  lemma TiledFrame(l: map<Tag, Bt>, l': map<Tag, Bt>, q: seq<Tag>)
    requires Tiled(l, q) && forall z :: z in q ==> z in l' && z in l && l'[z] == l[z]
    ensures Tiled(l', q)
  {
    WalkFrame(l, l', q, START);
  }

  /** The tag before a coalesced block is there, and is a span header or busy. */
  lemma PrecededByHeader(a: Arena, hand: set<Tag>, x: seq<Tag>, t: Tag, y: seq<Tag>)
    requires Detached(a, t, hand) && a.seg == x + [t] + y && NotFreeLast(a.tags, x)
    ensures x != [] && x[|x| - 1] in a.tags && (a.tags[x[|x| - 1]].IsSpan() || a.tags[x[|x| - 1]].kind == Busy)
  {
    WalkToTag(Loose(a, t), x, t, y);
  }

  lemma SettleKeeps(a: Arena, hand: set<Tag>, x: seq<Tag>, t: Tag, y: seq<Tag>)
    requires Detached(a, t, hand) && a.seg == x + [t] + y && NotFreeFirst(a.tags, y) && NotFreeLast(a.tags, x)
    ensures a.tags[t].size >= a.quantum
    ensures var a' := Settle(a, t);
      && InvWith(a', hand) && Held(a') == Held(a) - Header(a, t) && a'.tags.Keys == a.tags.Keys && a'.inuse == a.inuse
      && a'.size == a.size - (if FillsSpan(a, t) then a.tags[t].size else 0)
      && a'.pool == a.pool && a'.release == a.release
  {
    hide Order, HashIndex, TagOk, Counted, ListsOk, LocalView, Held, Tiled, Conserved, Views;
    SegFacts(a, hand);
    IndexAt(x, t, y);
    PrecededByHeader(a, hand, x, t, y);
    var s := x[|x| - 1];
    assert a.seg[|x| - 1] == s;
    TagSize(a.quantum, a.tags[t]);
    if FillsSpan(a, t) {
      assert a.seg == x[..|x| - 1] + [s, t] + y;
      ReleaseKeeps(a, hand, x[..|x| - 1], s, t, y);
      assert Settle(a, t) == Released(a, s, t);
    } else {
      ReattachKeeps(a, hand, x, t, y);
    }
  }

  lemma TrimKeeps(a: Arena)
    requires Inv(a)
    ensures Inv(Trim(a)) && Held(Trim(a)) == Held(a) && |Trim(a).freetags| <= BT_MAXFREE
  {
    hide LocalView, Tiled, Counted;
    if |a.freetags| > BT_MAXFREE {
      var n := |a.freetags| - BT_MAXFREE;
      var a' := Trim(a);
      assert a.freetags == a.freetags[..n] + a.freetags[n..];
      SpareViews(a, a');
      forall z | z in a.freetags[..n] ensures z !in a.freetags[n..] {
        var i :| 0 <= i < n && a.freetags[i] == z;
      }
    }
  }

  /** The block with its free neighbours merged in. */
  lemma Coalesced(a: Arena, t: Tag) returns (x: seq<Tag>, y: seq<Tag>)
    requires Inv(a) && t in Allocated(a)
    ensures var a1 := Unbusy(a, t); t in a1.seg && t in a1.tags
    ensures var a2 := CoalesceNext(Unbusy(a, t), t); t in a2.seg && t in a2.tags
    ensures var a3 := CoalescePrev(CoalesceNext(Unbusy(a, t), t), t);
      && Detached(a3, t, {}) && a3.seg == x + [t] + y && NotFreeFirst(a3.tags, y) && NotFreeLast(a3.tags, x)
      && Same(Unbusy(a, t), a3) && t in a.tags && Encloses(a3.tags[t], a.tags[t])
  {
    hide Order, HashIndex, TagOk, Counted, ListsOk, LocalView, Held, Tiled, Conserved, Views, CoalesceNext, CoalescePrev, Unbusy;
    assert t in a.seg && t in a.tags && a.tags[t].kind == Busy by { AllocatedBusy(a, t); }
    x, y := SplitAt(a.seg, t);
    UnbusyDetaches(a, {}, x, t, y);
    UnbusySeg(a, t);
    assert Encloses(Unbusy(a, t).tags[t], a.tags[t]) by { UnbusyTag(a, t); }
    var a1 := Unbusy(a, t);
    y := CoalesceNextKeeps(a1, {}, x, t, y);
    x := CoalescePrevKeeps(CoalesceNext(a1, t), {}, x, t, y);
  }

  lemma AllocatedBusy(a: Arena, t: Tag)
    ensures t in Allocated(a) <==> t in a.seg && t in a.tags && a.tags[t].kind == Busy
  {
  }

  lemma UnbusyTag(a: Arena, t: Tag)
    requires t in a.tags
    ensures Unbusy(a, t).tags[t] == a.tags[t].(kind := Free)
  {
  }

  lemma UnbusySeg(a: Arena, t: Tag)
    requires t in a.tags
    ensures Unbusy(a, t).seg == a.seg
  {
  }

  lemma CoalescedOk(a: Arena, t: Tag)
    requires Inv(a) && t in Allocated(a)
    ensures t in a.tags
    ensures var a1 := Unbusy(a, t); t in a1.seg && t in a1.tags
    ensures var a2 := CoalesceNext(Unbusy(a, t), t); t in a2.seg && t in a2.tags
    ensures var a3 := CoalescePrev(CoalesceNext(Unbusy(a, t), t), t);
      t in a3.seg && t in a3.tags && Shaped(a3) && a3.tags[t].size >= a3.quantum
  {
    var x, y := Coalesced(a, t);
    var a3 := CoalescePrev(CoalesceNext(Unbusy(a, t), t), t);
    TagSize(a3.quantum, a3.tags[t]);
  }

  /** vmem_xfree_bt. */
  function XfreeBt(a: Arena, t: Tag): Arena
    requires Inv(a) && t in Allocated(a)
  {
    CoalescedOk(a, t);
    Trim(Settle(CoalescePrev(CoalesceNext(Unbusy(a, t), t), t), t))
  }

  /**
   * Nothing new is held; what goes, besides t, is at most the header of a span that the arena can give back.
   * VmemRelease says exactly when.
   */
  ghost predicate GivesBack(a: Arena, a': Arena, t: Tag) {
    && (forall z :: z in Held(a') ==> z in Held(a) && z != t && Held(a')[z] == Held(a)[z])
    && (forall z :: z in Held(a) && z != t && !(a.release && Held(a)[z].kind == Span) ==> z in Held(a'))
  }

  /** What the steps of vmem_xfree_bt come to: the merged block, between neighbours that are not free, and what is left. */
  lemma XfreeParts(a: Arena, t: Tag) returns (x: seq<Tag>, y: seq<Tag>)
    requires Inv(a) && t in Allocated(a)
    ensures t in a.tags
    ensures var a1 := Unbusy(a, t); t in a1.seg && t in a1.tags
    ensures var a2 := CoalesceNext(Unbusy(a, t), t); t in a2.seg && t in a2.tags
    ensures var a3 := CoalescePrev(CoalesceNext(Unbusy(a, t), t), t); var a' := XfreeBt(a, t);
      && Detached(a3, t, {}) && a3.seg == x + [t] + y && NotFreeFirst(a3.tags, y) && NotFreeLast(a3.tags, x)
      && Encloses(a3.tags[t], a.tags[t]) && Held(a3) == Held(a) - {t} && a3.release == a.release
      && Inv(a') && Held(a') == Held(a) - {t} - Header(a3, t) && a'.inuse == a.inuse - Allocated(a)[t].size
      && a'.tags.Keys == a.tags.Keys && |a'.freetags| <= BT_MAXFREE && a'.release == a.release
      && a'.size == a.size - (if FillsSpan(a3, t) then a3.tags[t].size else 0)
  {
    hide Order, HashIndex, TagOk, Counted, ListsOk, LocalView, Tiled, Conserved, Views, CoalesceNext, CoalescePrev, Settle, InvWith, Held;
    CoalescedOk(a, t);
    x, y := Coalesced(a, t);
    UnbusyAllocates(a, t);
    var a3 := CoalescePrev(CoalesceNext(Unbusy(a, t), t), t);
    SettleKeeps(a3, {}, x, t, y);
    TrimKeeps(Settle(a3, t));
  }

  /** Giving a block back keeps every invariant of the arena and takes away exactly that block. */
  lemma XfreeKeepsInv(a: Arena, t: Tag)
    requires Inv(a) && t in Allocated(a)
    ensures Inv(XfreeBt(a, t)) && Allocated(XfreeBt(a, t)) == Allocated(a) - {t}
    ensures XfreeBt(a, t).inuse == a.inuse - Allocated(a)[t].size && XfreeBt(a, t).tags.Keys == a.tags.Keys
    ensures |XfreeBt(a, t).freetags| <= BT_MAXFREE && XfreeBt(a, t).release == a.release
    ensures !a.release ==> XfreeBt(a, t).size == a.size
    ensures GivesBack(a, XfreeBt(a, t), t)
  {
    hide Unbusy, XfreeBt, CoalesceNext, CoalescePrev, InvWith, Held, LocalView, Tiled, Counted, ListsOk;
    var x, y := XfreeParts(a, t);
    var a3 := CoalescePrev(CoalesceNext(Unbusy(a, t), t), t);
    HeaderHeld(a3, t);
  }

  lemma HeaderHeld(a: Arena, t: Tag)
    requires t in a.seg && t in a.tags
    ensures forall s :: s in Header(a, t) ==> a.release && s in Held(a) && Held(a)[s].kind == Span
  {
  }

  lemma UnbusyAllocates(a: Arena, t: Tag)
    requires t in Allocated(a)
    ensures var a1 := Unbusy(a, t);
      Held(a1) == Held(a) - {t} && a1.inuse == a.inuse - Allocated(a)[t].size && a1.tags.Keys == a.tags.Keys
      && a1.size == a.size && a1.release == a.release
  {
  }
}
