/**
 * Carving a block out of a free tag, and giving one back, as a sequence of steps on an arena from
 * which one tag has been detached: it is in the segment list but on no free or busy list.
 */
module VmemAlloc {
  import opened Words
  import opened Queues
  import opened VmemArena
  import opened VmemOps

  /** For tiling, a detached tag has neighbours of any kind: it counts as busy there, as free in the totals. */
  ghost predicate Detached(a: Arena, t: Tag, hand: set<Tag>) {
    && Shaped(a) && ListsOk(a)
    && (forall x :: x != t ==> LocalView(a, x))
    && t in a.seg && t in a.tags && a.tags[t].kind == Free && TagOk(a.quantum, a.tags[t])
    && (forall o :: !InFree(a, o, t)) && (forall h :: !InHash(a, h, t))
    && Conserved(a, hand)
    && Tiled(Loose(a, t), a.seg)
    && Counted(a)
  }

  function Loose(a: Arena, t: Tag): map<Tag, Bt>
    requires t in a.tags
  {
    a.tags[t := a.tags[t].(kind := Busy)]
  }

  predicate NotFreeLast(tags: map<Tag, Bt>, x: seq<Tag>) { x == [] || (x[|x| - 1] in tags && tags[x[|x| - 1]].kind != Free) }

  predicate NotFreeFirst(tags: map<Tag, Bt>, y: seq<Tag>) { y == [] || (y[0] in tags && tags[y[0]].kind != Free) }

  /** What is not free: the busy tags and the span headers, with their blocks. */
  function Held(a: Arena): map<Tag, Bt> {
    map x | x in a.tags && x in a.seg && a.tags[x].kind != Free :: a.tags[x]
  }

  /** What is allocated: the busy tags and their blocks. */
  function Allocated(a: Arena): map<Tag, Bt> {
    map x | x in Held(a) && Held(a)[x].kind == Busy :: Held(a)[x]
  }

  /** A step that leaves alone what is allocated, the counters, the spares and the identity of the tags. */
  ghost predicate SameOutside(a: Arena, a': Arena) {
    && a' == a.(free := a'.free, hash := a'.hash, seg := a'.seg, tags := a'.tags,
                inuse := a'.inuse, nbusy := a'.nbusy, maxbusy := a'.maxbusy)
    && a'.tags.Keys == a.tags.Keys
  }

  /** Splitting a free tag in two changes what is allocated only if one half is busy. */
  lemma SplitAllocates(a: Arena, a': Arena, x: seq<Tag>, t: Tag, y: seq<Tag>, n: Tag)
    requires a.seg == x + [t] + y && a'.seg == x + [n] + [t] + y && n !in a.seg
    requires t in a.tags && n in a.tags && a.tags[t].kind == Free
    requires n in a'.tags && t in a'.tags && a'.tags == a.tags[n := a'.tags[n]][t := a'.tags[t]] && a'.tags[t].kind == Free && !a'.tags[n].IsSpan()
    ensures n !in Held(a) && a'.tags.Keys == a.tags.Keys
    ensures Held(a') == if a'.tags[n].kind == Busy then Held(a)[n := a'.tags[n]] else Held(a)
    ensures forall z :: z in a.seg && z != t && z in a.tags ==> a'.tags[z] == a.tags[z]
  {
    assert forall z :: z in a'.seg <==> z in a.seg || z == n;
  }

  lemma UniqueAt(x: seq<Tag>, t: Tag, y: seq<Tag>)
    requires NoDups(x + [t] + y)
    ensures t !in x && t !in y && NoDups(x) && NoDups(y) && forall z :: z in x ==> z !in y
  {
    var q := x + [t] + y;
    assert q[|x|] == t;
    assert forall i :: 0 <= i < |x| ==> q[i] == x[i];
    assert forall i :: 0 <= i < |y| ==> q[|x| + 1 + i] == y[i];
  }

  /** The tags before t walk to where t starts. */
  lemma WalkToTag(tags: map<Tag, Bt>, x: seq<Tag>, t: Tag, y: seq<Tag>)
    requires Tiled(tags, x + [t] + y)
    ensures Known(tags, x) && t in tags && Known(tags, y)
    ensures Walk(tags, x, START).Pos? && Feed(Walk(tags, x, START), tags[t]).Pos?
    ensures Walk(tags, [t], Walk(tags, x, START)) == Feed(Walk(tags, x, START), tags[t])
    ensures Walk(tags, x + [t] + y, START) == Walk(tags, y, Feed(Walk(tags, x, START), tags[t]))
  {
    var q := x + [t] + y;
    assert forall z :: z in x || z == t || z in y ==> z in q;
    WalkConcat(tags, x, [t], START);
    WalkConcat(tags, x + [t], y, START);
    var p := Walk(tags, x, START);
    if p.Bad? { WalkBad(tags, [t]); WalkBad(tags, y); }
    if Feed(p, tags[t]).Bad? { WalkBad(tags, y); }
  }

  /** Next to a free tag of a tiled list there is no other free tag. */
  lemma NeighboursOfFree(tags: map<Tag, Bt>, x: seq<Tag>, t: Tag, y: seq<Tag>)
    requires Tiled(tags, x + [t] + y) && t in tags && tags[t].kind == Free
    ensures NotFreeLast(tags, x) && NotFreeFirst(tags, y)
  {
    WalkToTag(tags, x, t, y);
    if x != [] { WalkLast(tags, x, START); }
    if y != [] && tags[y[0]].kind == Free { WalkBad(tags, y[1..]); }
  }

  // ------------------------------------------------------------- detaching

  /** bt_remfree of t. */
  lemma DetachFree(a: Arena, hand: set<Tag>, x: seq<Tag>, t: Tag, y: seq<Tag>)
    requires InvWith(a, hand) && a.seg == x + [t] + y && t in a.tags && a.tags[t].kind == Free
    ensures Detached(RemFree(a, t), t, hand)
    ensures NotFreeLast(a.tags, x) && NotFreeFirst(a.tags, y)
  {
    var d := RemFree(a, t);
    RemFreeLists(a, t);
    forall z | z != t ensures LocalView(d, z) {
      assert LocalView(a, z);
      forall o ensures InFree(d, o, z) <==> InFree(a, o, z) { RemFreeEffect(a, t, o, z); }
      assert forall h :: InHash(d, h, z) <==> InHash(a, h, z);
    }
    forall o ensures !InFree(d, o, t) { RemFreeEffect(a, t, o, t); }
    assert t in a.seg;
    assert LocalView(a, t);
    forall h ensures !InHash(d, h, t) { assert InHash(d, h, t) <==> InHash(a, h, t); }
    NeighboursOfFree(a.tags, x, t, y);
    LooseTiled(a.tags, x, t, y);
  }

  lemma LooseTiled(tags: map<Tag, Bt>, x: seq<Tag>, t: Tag, y: seq<Tag>)
    requires Tiled(tags, x + [t] + y) && NoDups(x + [t] + y) && t in tags && !tags[t].IsSpan()
    ensures Tiled(tags[t := tags[t].(kind := Busy)], x + [t] + y)
  {
    UniqueAt(x, t, y);
    WalkToTag(tags, x, t, y);
    Respliced(tags, tags[t := tags[t].(kind := Busy)], x, [t], [t], y);
  }

  lemma Walk2(tags: map<Tag, Bt>, u: Tag, v: Tag, p: Pos)
    requires u in tags && v in tags
    ensures Walk(tags, [u, v], p) == Feed(Feed(p, tags[u]), tags[v])
  {
    assert [u, v] == [u] + [v];
    WalkConcat(tags, [u], [v], p);
  }

  lemma Total2(tags: map<Tag, Bt>, u: Tag, v: Tag, busy: bool)
    requires u in tags && v in tags
    ensures Total(tags, [u, v], busy) == Share(tags[u], busy) + Share(tags[v], busy)
    ensures CountBusy(tags, [u, v]) == (if tags[u].kind == Busy then 1 else 0) + (if tags[v].kind == Busy then 1 else 0)
  {
    assert [u, v] == [u] + [v];
    TotalConcat(tags, [u], [v], busy);
  }

  // ---------------------------------------------------------------- splitting

  /** Cut [start of t, start) off the detached tag t as free tag n. */
  function FrontSplit(a: Arena, t: Tag, n: Tag, start: int): Arena
    requires Shaped(a) && t in a.tags && n != t && start - a.tags[t].start >= a.quantum
  {
    var b := a.tags[t];
    var pre := start - b.start;
    var a1 := a.(tags := a.tags[n := Bt(Free, b.start, pre)][t := Bt(Free, start, b.size - pre)]);
    var a2 := InsFree(a1, n);
    a2.(seg := InsertBefore(a2.seg, t, n))
  }

  /** start is a place, on the quantum, strictly inside t. */
  predicate Inside(a: Arena, t: Tag, start: int)
    requires t in a.tags
  {
    a.quantum > 0 && a.tags[t].start < start < a.tags[t].start + a.tags[t].size && start % a.quantum == 0
  }

  /** Differences of multiples of the quantum are multiples of it. */
  lemma Quanta(u: int, v: int, q: int)
    requires q > 0 && u % q == 0 && v % q == 0
    ensures (u - v) % q == 0 && (u + v) % q == 0 && (u > v ==> u - v >= q)
  {
    assert u == q * (u / q) && v == q * (v / q);
    DivModUnique(u - v, q, u / q - v / q, 0);
    DivModUnique(u + v, q, u / q + v / q, 0);
    if u > v {
      if u / q <= v / q { MulMono(q, u / q, v / q); }
      MulAtLeast(q, u / q - v / q);
    }
  }

  /** A tag whose contents and place in the lists are untouched keeps its view. */
  lemma SameView(a: Arena, a': Arena, z: Tag)
    requires Shaped(a) && Shaped(a') && a'.quantum == a.quantum && a'.hashOf == a.hashOf && |a'.hash| == |a.hash|
    requires LocalView(a, z)
    requires z in a'.seg <==> z in a.seg
    requires z in a.seg ==> z in a'.tags && a'.tags[z] == a.tags[z]
    requires forall o :: InFree(a', o, z) <==> InFree(a, o, z)
    requires forall h :: InHash(a', h, z) <==> InHash(a, h, z)
    ensures LocalView(a', z)
  {
  }

  lemma SplitPieces(a: Arena, b: Bt, start: int)
    requires TagOk(a.quantum, b) && b.start < start < b.start + b.size && start % a.quantum == 0
    ensures TagOk(a.quantum, Bt(Free, b.start, start - b.start)) && TagOk(a.quantum, Bt(Free, start, b.start + b.size - start))
    ensures start - b.start >= a.quantum
  {
    Quanta(start, b.start, a.quantum);
    Quanta(b.start, b.size, a.quantum);
    Quanta(b.start + b.size, start, a.quantum);
  }

  lemma FrontSplitTiles(a: Arena, a': Arena, x: seq<Tag>, t: Tag, y: seq<Tag>, n: Tag)
    requires a.seg == x + [t] + y && NoDups(a.seg) && t in a.tags && Tiled(Loose(a, t), a.seg) && n !in a.seg
    requires Known(a.tags, x) && NotFreeLast(a.tags, x)
    requires a'.seg == x + [n, t] + y && t in a'.tags && n in a'.tags
    requires forall z :: z in x || z in y ==> z in a.tags && z in a'.tags && a'.tags[z] == a.tags[z]
    requires var b, b1, b2 := a.tags[t], a'.tags[n], a'.tags[t];
      && b.kind == b1.kind == b2.kind == Free && b1.start == b.start && b1.size > 0 && b2.size > 0
      && b2.start == b.start + b1.size && b1.size + b2.size == b.size
    ensures Tiled(Loose(a', t), a'.seg)
  {
    UniqueAt(x, t, y);
    WalkToTag(Loose(a, t), x, t, y);
    var p := Walk(Loose(a, t), x, START);
    WalkFrame(a.tags, Loose(a, t), x, START);
    if x != [] { WalkLast(a.tags, x, START); }
    Walk2(Loose(a', t), n, t, p);
    assert forall z :: z in x || z in y ==> z in a.seg && z != t && z != n;
    Respliced(Loose(a, t), Loose(a', t), x, [t], [n, t], y);
  }

  lemma FrontSplitCounts(a: Arena, a': Arena, x: seq<Tag>, t: Tag, y: seq<Tag>, n: Tag)
    requires a.seg == x + [t] + y && Counted(a)
    requires a'.seg == x + [n, t] + y && t in a'.tags && n in a'.tags && t in a.tags
    requires forall z :: z in x || z in y ==> z in a'.tags && z in a.tags && a'.tags[z] == a.tags[z]
    requires a.tags[t].kind == a'.tags[n].kind == a'.tags[t].kind == Free
    requires a'.size == a.size && a'.inuse == a.inuse && a'.nbusy == a.nbusy && a'.maxbusy == a.maxbusy
    ensures Counted(a')
  {
    Total2(a'.tags, n, t, true);
    Total2(a'.tags, n, t, false);
    ResplicedTotals(a.tags, a'.tags, x, [t], [n, t], y, true);
    ResplicedTotals(a.tags, a'.tags, x, [t], [n, t], y, false);
  }

  /** What FrontSplit does to the lists. */
  lemma FrontSplitLists(a: Arena, t: Tag, n: Tag, start: int)
    requires Shaped(a) && t in a.tags && n != t && TagOk(a.quantum, a.tags[t]) && Inside(a, t, start)
    requires ListsOk(a) && forall o :: !InFree(a, o, n)
    ensures start - a.tags[t].start >= a.quantum
    ensures var a' := FrontSplit(a, t, n, start);
      && Shaped(a') && ListsOk(a') && a' == a.(free := a'.free, seg := InsertBefore(a.seg, t, n), tags := a'.tags)
      && a'.tags == a.tags[n := Bt(Free, a.tags[t].start, start - a.tags[t].start)][
                           t := Bt(Free, start, a.tags[t].start + a.tags[t].size - start)]
      && (forall o, z :: InFree(a', o, z) <==> InFree(a, o, z) || (z == n && o == Order(a.quantum, start - a.tags[t].start)))
  {
    var b := a.tags[t];
    SplitPieces(a, b, start);
    var a1 := a.(tags := a.tags[n := Bt(Free, b.start, start - b.start)][t := Bt(Free, start, b.size - (start - b.start))]);
    var a' := FrontSplit(a, t, n, start);
    assert forall o, z :: InFree(a1, o, z) <==> InFree(a, o, z);
    InsFreeLists(a1, n);
    forall o, z ensures InFree(a', o, z) <==> InFree(a, o, z) || (z == n && o == Order(a.quantum, start - b.start)) {
      InsFreeEffect(a1, n, o, z);
      assert InFree(a', o, z) <==> InFree(InsFree(a1, n), o, z);
    }
  }

  lemma FrontSplitKeeps(a: Arena, hand: set<Tag>, x: seq<Tag>, t: Tag, y: seq<Tag>, n: Tag, start: int)
    requires Detached(a, t, hand) && a.seg == x + [t] + y && n in hand && Inside(a, t, start)
    requires NotFreeLast(a.tags, x)
    ensures start - a.tags[t].start >= a.quantum
    ensures var a' := FrontSplit(a, t, n, start);
      && a'.seg == x + [n] + [t] + y && Detached(a', t, hand - {n})
      && a'.tags[t] == Bt(Free, start, a.tags[t].start + a.tags[t].size - start)
      && (forall z :: z in a.seg && z != t ==> a'.tags[z] == a.tags[z])
      && SameOutside(a, a') && Held(a') == Held(a) && a'.inuse == a.inuse
  {
    hide Order, Tiled, Counted, TagOk, Conserved, ListsOk, FrontSplit, InsertBefore, Held;
    HandFacts(a, hand, n);
    SplitPieces(a, a.tags[t], start);
    assert LocalView(a, n);
    FrontSplitLists(a, t, n, start);
    var a' := FrontSplit(a, t, n, start);
    UniqueAt(x, t, y);
    InsertBeforeAt(x, t, y, n);
    assert x + [n, t] + y == x + [n] + [t] + y;
    assert forall z :: z in x || z in y ==> z in a.seg && z != t && z != n;
    FrontSplitTiles(a, a', x, t, y, n);
    FrontSplitCounts(a, a', x, t, y, n);
    InsertedConserved(a, a', hand, x, t, y, n);
    SplitAllocates(a, a', x, t, y, n);
    assert forall h, z :: InHash(a', h, z) <==> InHash(a, h, z);
    forall z | z != t ensures LocalView(a', z) {
      assert LocalView(a, z);
      assert z in a'.seg <==> z in a.seg || z == n;
      if z != n { SameView(a, a', z); }
    }
  }

  lemma HandFacts(a: Arena, hand: set<Tag>, n: Tag)
    requires Conserved(a, hand) && n in hand
    ensures n in a.tags && n !in a.seg && NoDups(a.seg) && Known(a.tags, a.seg)
  {
  }

  /** A tag taken in hand goes into the segment list. */
  lemma InsertedConserved(a: Arena, a': Arena, hand: set<Tag>, x: seq<Tag>, t: Tag, y: seq<Tag>, n: Tag)
    requires Conserved(a, hand) && a.seg == x + [t] + y && a'.seg == x + [n] + [t] + y && n in hand
    requires a'.freetags == a.freetags && a'.pool == a.pool && a'.tags.Keys == a.tags.Keys
    ensures Conserved(a', hand - {n})
  {
    UniqueAt(x, t, y);
    assert n !in a.seg;
    assert a.seg == x + ([t] + y) && a'.seg == (x + [n]) + ([t] + y);
    assert NoDups([t] + y) by { NoDupsConcat([t], y); }
    NoDupsConcat(x, [n]);
    NoDupsConcat(x + [n], [t] + y);
    assert forall z :: z in a'.seg <==> z in a.seg || z == n;
  }

  /** Make the first size bytes of the detached tag t busy as tag n; t keeps the rest, free. */
  function BackSplit(a: Arena, t: Tag, n: Tag, size: int): Arena
    requires Shaped(a) && t in a.tags && n != t && a.tags[t].size - size >= a.quantum
  {
    var b := a.tags[t];
    var a1 := a.(tags := a.tags[n := Bt(Busy, b.start, size)][t := Bt(Free, b.start + size, b.size - size)]);
    var a2 := InsFree(a1, t);
    var a3 := a2.(seg := InsertBefore(a2.seg, t, n));
    InsBusy(a3, n)
  }

  lemma BackSplitLists(a: Arena, t: Tag, n: Tag, size: int)
    requires Shaped(a) && t in a.tags && n != t && TagOk(a.quantum, a.tags[t]) && Inside(a, t, a.tags[t].start + size)
    requires ListsOk(a) && (forall o :: !InFree(a, o, t)) && (forall h :: !InHash(a, h, n))
    ensures a.tags[t].size - size >= a.quantum
    ensures var b := a.tags[t]; var a' := BackSplit(a, t, n, size);
      && Shaped(a') && ListsOk(a')
      && a' == a.(free := a'.free, hash := a'.hash, seg := InsertBefore(a.seg, t, n), tags := a'.tags,
                  nbusy := a.nbusy + 1, maxbusy := Max(a.maxbusy, a.nbusy + 1), inuse := a.inuse + size)
      && |a'.hash| == |a.hash|
      && a'.tags == a.tags[n := Bt(Busy, b.start, size)][t := Bt(Free, b.start + size, b.size - size)]
      && (forall o, z :: InFree(a', o, z) <==> InFree(a, o, z) || (z == t && o == Order(a.quantum, b.size - size)))
      && (forall h, z :: InHash(a', h, z) <==> InHash(a, h, z) || (z == n && h == HashIndex(a, b.start)))
  {
    hide Order, InsertBefore, HashIndex, InsFree, InsBusy;
    var b := a.tags[t];
    SplitPieces(a, b, b.start + size);
    var a1 := a.(tags := a.tags[n := Bt(Busy, b.start, size)][t := Bt(Free, b.start + size, b.size - size)]);
    var a2 := InsFree(a1, t);
    InsertFields(a1, t);
    var a3 := a2.(seg := InsertBefore(a2.seg, t, n));
    InsertFields(a3, n);
    var a' := BackSplit(a, t, n, size);
    SameHash(a, a3, b.start);
    forall o, z ensures InFree(a1, o, z) <==> InFree(a, o, z) {}
    InsFreeLists(a1, t);
    forall h ensures !InHash(a3, h, n) { assert !InHash(a, h, n); }
    assert ListsOk(a3);
    InsBusyLists(a3, n);
    forall o, z ensures InFree(a', o, z) <==> InFree(a, o, z) || (z == t && o == Order(a.quantum, b.size - size)) {
      InsFreeEffect(a1, t, o, z);
      assert InFree(a', o, z) <==> InFree(a2, o, z);
    }
    forall h, z ensures InHash(a', h, z) <==> InHash(a, h, z) || (z == n && h == HashIndex(a, b.start)) {
      InsBusyEffect(a3, n, h, z);
      assert InHash(a3, h, z) <==> InHash(a, h, z);
    }
  }

  lemma BackSplitTiles(a: Arena, a': Arena, x: seq<Tag>, t: Tag, y: seq<Tag>, n: Tag)
    requires a.seg == x + [t] + y && NoDups(a.seg) && t in a.tags && Tiled(Loose(a, t), a.seg) && n !in a.seg
    requires NotFreeFirst(a.tags, y)
    requires a'.seg == x + [n, t] + y && t in a'.tags && n in a'.tags
    requires forall z :: z in x || z in y ==> z in a.tags && z in a'.tags && a'.tags[z] == a.tags[z]
    requires var b, b1, b2 := a.tags[t], a'.tags[n], a'.tags[t];
      && b.kind == b2.kind == Free && b1.kind == Busy && b1.start == b.start && b1.size > 0 && b2.size > 0
      && b2.start == b.start + b1.size && b1.size + b2.size == b.size
    ensures Tiled(a'.tags, a'.seg)
  {
    UniqueAt(x, t, y);
    WalkToTag(Loose(a, t), x, t, y);
    var p := Walk(Loose(a, t), x, START);
    Walk2(a'.tags, n, t, p);
    assert forall z :: z in x || z in y ==> z in a.seg && z != t && z != n;
    Respliced(Loose(a, t), a'.tags, x, [t], [n, t], y);
  }

  lemma BackSplitCounts(a: Arena, a': Arena, x: seq<Tag>, t: Tag, y: seq<Tag>, n: Tag)
    requires a.seg == x + [t] + y && Counted(a)
    requires a'.seg == x + [n, t] + y && t in a'.tags && n in a'.tags && t in a.tags
    requires forall z :: z in x || z in y ==> z in a'.tags && z in a.tags && a'.tags[z] == a.tags[z]
    requires a.tags[t].kind == a'.tags[t].kind == Free && a'.tags[n].kind == Busy
    requires a'.size == a.size && a'.inuse == a.inuse + a'.tags[n].size && a'.nbusy == a.nbusy + 1 && a'.nbusy <= a'.maxbusy
    ensures Counted(a')
  {
    Total2(a'.tags, n, t, true);
    Total2(a'.tags, n, t, false);
    ResplicedTotals(a.tags, a'.tags, x, [t], [n, t], y, true);
    ResplicedTotals(a.tags, a'.tags, x, [t], [n, t], y, false);
  }

  lemma BackSplitKeeps(a: Arena, hand: set<Tag>, x: seq<Tag>, t: Tag, y: seq<Tag>, n: Tag, size: int)
    requires Detached(a, t, hand) && a.seg == x + [t] + y && n in hand && Inside(a, t, a.tags[t].start + size)
    requires NotFreeFirst(a.tags, y)
    ensures a.tags[t].size - size >= a.quantum
    ensures var a' := BackSplit(a, t, n, size);
      && a'.seg == x + [n] + [t] + y && InvWith(a', hand - {n})
      && SameOutside(a, a') && n !in Held(a)
      && Held(a') == Held(a)[n := Bt(Busy, a.tags[t].start, size)] && a'.inuse == a.inuse + size
  {
    hide Order, Tiled, Counted, TagOk, Conserved, ListsOk, BackSplit, InsertBefore, HashIndex, Held;
    HandFacts(a, hand, n);
    SplitPieces(a, a.tags[t], a.tags[t].start + size);
    assert LocalView(a, n);
    BackSplitLists(a, t, n, size);
    var a' := BackSplit(a, t, n, size);
    UniqueAt(x, t, y);
    InsertBeforeAt(x, t, y, n);
    assert x + [n, t] + y == x + [n] + [t] + y;
    assert forall z :: z in x || z in y ==> z in a.seg && z != t && z != n;
    BackSplitTiles(a, a', x, t, y, n);
    BackSplitCounts(a, a', x, t, y, n);
    InsertedConserved(a, a', hand, x, t, y, n);
    SplitAllocates(a, a', x, t, y, n);
    SameHash(a, a', a.tags[t].start);
    TagOkKind(a.quantum, a'.tags[n]);
    forall z ensures LocalView(a', z) {
      assert z in a'.seg <==> z in a.seg || z == n;
      if z != t && z != n {
        assert LocalView(a, z);
        SameView(a, a', z);
      }
    }
    assert Views(a') by { ListsMeaning(a'); }
  }

  lemma SameHash(a: Arena, a': Arena, addr: int)
    requires |a.hash| == |a'.hash| > 0 && a.hashOf == a'.hashOf
    ensures HashIndex(a, addr) == HashIndex(a', addr)
  {
  }

  lemma TagOkKind(q: int, b: Bt)
    ensures TagOk(q, b) <==> TagOk(q, b.(kind := Free))
    ensures TagOk(q, b) <==> TagOk(q, b.(kind := Busy))
  {
  }

  lemma ListsMeaning(a: Arena)
    requires ListsOk(a)
    ensures forall o :: 0 <= o < |a.free| ==> NoDups(a.free[o])
    ensures forall h :: 0 <= h < |a.hash| ==> NoDups(a.hash[h])
  {
  }

  // -------------------------------------------------------- taking a whole tag

  /** Make the detached tag t itself busy. */
  function TakeWhole(a: Arena, t: Tag): Arena
    requires Shaped(a) && t in a.tags
  {
    InsBusy(a.(tags := Loose(a, t)), t)
  }

  lemma TakeWholeKeeps(a: Arena, hand: set<Tag>, x: seq<Tag>, t: Tag, y: seq<Tag>)
    requires Detached(a, t, hand) && a.seg == x + [t] + y
    ensures InvWith(TakeWhole(a, t), hand) && TakeWhole(a, t).seg == a.seg
    ensures var a' := TakeWhole(a, t);
      && SameOutside(a, a') && t !in Held(a)
      && Held(a') == Held(a)[t := a.tags[t].(kind := Busy)] && a'.inuse == a.inuse + a.tags[t].size
  {
    hide Order, HashIndex, InsBusy, TagOk, Held, Conserved, Tiled;
    assert NoDups(a.seg) by { SegFacts(a, hand); }
    WholeAllocates(a, t);
    var a1 := a.(tags := Loose(a, t));
    var a' := TakeWhole(a, t);
    TagOkKind(a.quantum, a.tags[t]);
    assert a1.tags[t].size >= a1.quantum by { TagSize(a.quantum, a.tags[t]); }
    InsertFields(a1, t);
    forall h ensures !InHash(a1, h, t) { assert !InHash(a, h, t); }
    InsBusyLists(a1, t);
    SameHash(a1, a', a.tags[t].start);
    forall z ensures LocalView(a', z) {
      forall h ensures InHash(a', h, z) <==> InHash(a, h, z) || (z == t && h == HashIndex(a', a.tags[t].start)) {
        InsBusyEffect(a1, t, h, z);
        assert InHash(a1, h, z) <==> InHash(a, h, z);
      }
      assert forall o :: InFree(a', o, z) <==> InFree(a, o, z);
      if z != t {
        assert LocalView(a, z);
        SameView(a, a', z);
      }
    }
    SameConserved(a, a', hand);
    UniqueAt(x, t, y);
    ResplicedTotals(a.tags, a'.tags, x, [t], [t], y, true);
    ResplicedTotals(a.tags, a'.tags, x, [t], [t], y, false);
  }

  lemma WholeAllocates(a: Arena, t: Tag)
    requires Shaped(a) && t in a.tags && t in a.seg && a.tags[t].kind == Free
    ensures var a' := TakeWhole(a, t);
      && SameOutside(a, a') && t !in Held(a)
      && Held(a') == Held(a)[t := a.tags[t].(kind := Busy)] && a'.inuse == a.inuse + a.tags[t].size
  {
  }

  lemma SegFacts(a: Arena, hand: set<Tag>)
    requires Conserved(a, hand)
    ensures NoDups(a.seg) && Known(a.tags, a.seg)
  {
  }

  lemma SameConserved(a: Arena, a': Arena, hand: set<Tag>)
    requires Conserved(a, hand) && a'.seg == a.seg && a'.freetags == a.freetags && a'.pool == a.pool && a'.tags.Keys == a.tags.Keys
    ensures Conserved(a', hand)
  {
  }

  lemma TagSize(q: int, b: Bt)
    requires TagOk(q, b)
    ensures 0 < q <= b.size
  {
  }

  // ------------------------------------------------------------- spare tags

  lemma TakeTags(a: Arena)
    requires Inv(a) && |a.freetags| >= 2
    ensures a.freetags[0] != a.freetags[1]
    ensures InvWith(a.(freetags := a.freetags[2..]), {a.freetags[0], a.freetags[1]})
  {
    hide LocalView, Tiled, Counted;
    var a' := a.(freetags := a.freetags[2..]);
    assert a.freetags == [a.freetags[0], a.freetags[1]] + a.freetags[2..];
    assert a.freetags[0] in a.freetags && a.freetags[1] in a.freetags;
    assert forall z :: z in a.freetags <==> z in a'.freetags || z == a.freetags[0] || z == a.freetags[1];
    SpareViews(a, a');
  }

  /** The spare tags are no part of any view. */
  lemma SpareViews(a: Arena, a': Arena)
    requires Views(a) && a' == a.(freetags := a'.freetags, pool := a'.pool)
    ensures Views(a') && (Counted(a) ==> Counted(a'))
  {
    forall z ensures LocalView(a', z) {
      assert LocalView(a, z);
      assert forall o :: InFree(a', o, z) <==> InFree(a, o, z);
      assert forall h :: InHash(a', h, z) <==> InHash(a, h, z);
      SameView(a, a', z);
    }
  }

  lemma BtFreeKeeps(a: Arena, hand: set<Tag>, n: Tag)
    requires InvWith(a, hand) && n in hand
    ensures InvWith(BtFree(a, n), hand - {n}) && Held(BtFree(a, n)) == Held(a)
  {
    hide LocalView, Tiled;
    NoDupsConcat([n], a.freetags);
    SpareViews(a, BtFree(a, n));
  }

  // ---------------------------------------------------------------- allocation

  /** t is a free tag with room for [start, start + size), all on the quantum, and two spare tags are at hand. */
  predicate Carvable(a: Arena, t: Tag, start: int, size: int) {
    && Shaped(a) && |a.freetags| >= 2 && a.freetags[0] != t && a.freetags[1] != t
    && t in a.seg && t in a.tags && a.tags[t].kind == Free && TagOk(a.quantum, a.tags[t])
    && start % a.quantum == 0 && size % a.quantum == 0 && size > 0
    && a.tags[t].start <= start && start + size <= a.tags[t].start + a.tags[t].size
  }

  /** vmem_xalloc from the label gotit: carve [start, start + size) out of free tag t. */
  function AllocAt(a: Arena, t: Tag, start: int, size: int): (r: (Arena, Tag))
    requires Carvable(a, t, start, size)
  {
    var n1, n2 := a.freetags[0], a.freetags[1];
    var b := a.tags[t];
    var a0 := RemFree(a.(freetags := a.freetags[2..]), t);
    var a1 := if b.start != start then (SplitPieces(a, b, start); FrontSplit(a0, t, n2, start)) else a0;
    var b1 := Bt(Free, start, b.start + b.size - start);
    var (a2, busy) :=
      if b1.size != size && b1.size - size > a.quantum - 1
      then (BackSplit(a1, t, n1, size), n1)
      else (BtFree(TakeWhole(a1, t), n1), t);
    (if b.start != start then a2 else BtFree(a2, n2), busy)
  }

  lemma SplitAt(q: seq<Tag>, t: Tag) returns (x: seq<Tag>, y: seq<Tag>)
    requires t in q
    ensures q == x + [t] + y
  {
    var i :| 0 <= i < |q| && q[i] == t;
    x, y := q[..i], q[i + 1..];
  }

  /** After the front is dealt with, t starts at start and the tag before it is whatever it was, or the new free one. */
  lemma FrontKeeps(a: Arena, t: Tag, start: int, size: int) returns (a1: Arena, hand: set<Tag>, x: seq<Tag>, y: seq<Tag>)
    requires Inv(a) && Carvable(a, t, start, size)
    ensures a.freetags[0] != a.freetags[1]
    ensures var n1, n2 := a.freetags[0], a.freetags[1]; var b := a.tags[t];
      var a0 := RemFree(a.(freetags := a.freetags[2..]), t);
      if b.start != start then start - b.start >= a.quantum && a1 == FrontSplit(a0, t, n2, start) && hand == {n1}
      else a1 == a0 && hand == {n1, n2}
    ensures Detached(a1, t, hand) && a1.seg == x + [t] + y && NotFreeFirst(a1.tags, y)
    ensures a1.tags[t] == Bt(Free, start, a.tags[t].start + a.tags[t].size - start)
    ensures SameOutside(a.(freetags := a.freetags[2..]), a1) && Held(a1) == Held(a) && a1.inuse == a.inuse
  {
    hide Order, HashIndex, LocalView, Tiled, Counted, ListsOk, InsertBefore, InsFree, TagOk;
    var n1, n2 := a.freetags[0], a.freetags[1];
    TakeTags(a);
    var u := a.(freetags := a.freetags[2..]);
    x, y := SplitAt(a.seg, t);
    DetachFree(u, {n1, n2}, x, t, y);
    a1, hand := RemFree(u, t), {n1, n2};
    var b := a.tags[t];
    if b.start != start {
      FrontSplitKeeps(a1, hand, x, t, y, n2, start);
      UniqueAt(x, t, y);
      assert y != [] ==> y[0] in a.seg && y[0] in y;
      assert hand - {n2} == {n1};
      a1, hand := FrontSplit(a1, t, n2, start), {n1};
      x := x + [n2];
    }
  }

  /** An allocation keeps every invariant of the arena, and adds exactly the block asked for. */
  lemma AllocKeepsInv(a: Arena, t: Tag, start: int, size: int)
    requires Inv(a) && Carvable(a, t, start, size)
    ensures Inv(AllocAt(a, t, start, size).0)
    ensures var (a', n) := AllocAt(a, t, start, size);
      && n !in Held(a) && Held(a') == Held(a)[n := Bt(Busy, start, size)]
      && a'.inuse == a.inuse + size && a'.size == a.size && a'.tags.Keys == a.tags.Keys && a'.pool == a.pool && a'.release == a.release
  {
    hide Order, HashIndex, LocalView, Tiled, Counted, ListsOk, InsertBefore, InsFree, InsBusy, FrontSplit, BackSplit, RemFree, Conserved, Held, Views, TakeWhole;
    var n1, n2 := a.freetags[0], a.freetags[1];
    var b := a.tags[t];
    var a1, hand, x, y := FrontKeeps(a, t, start, size);
    var b1 := a1.tags[t];
    Quanta(start, size, a.quantum);
    Quanta(b.start, b.size, a.quantum);
    Quanta(b.start + b.size, start + size, a.quantum);
    var a2;
    if b1.size != size {
      BackSplitKeeps(a1, hand, x, t, y, n1, size);
      a2 := BackSplit(a1, t, n1, size);
    } else {
      TakeWholeKeeps(a1, hand, x, t, y);
      BtFreeKeeps(TakeWhole(a1, t), hand, n1);
      a2 := BtFree(TakeWhole(a1, t), n1);
    }
    if b.start == start {
      assert hand - {n1} == {n2};
      BtFreeKeeps(a2, {n2}, n2);
      assert {n2} - {n2} == {};
    } else {
      assert hand - {n1} == {};
    }
  }
}
