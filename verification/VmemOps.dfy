/** The operations of a vmem arena, and the invariant that ties its three views together. */
module VmemOps {
  import opened Words
  import opened Queues
  import opened VmemArena

  const BT_MINRESERVE: nat := 4
  const BT_MAXFREE: nat := 64

  // ------------------------------------------------------- membership in views

  predicate InFree(a: Arena, o: int, x: Tag) { 0 <= o < |a.free| && x in a.free[o] }

  predicate InHash(a: Arena, h: int, x: Tag) { 0 <= h < |a.hash| && x in a.hash[h] }

  /** bt_hashhead: the busy list of an address. */
  function HashIndex(a: Arena, addr: int): nat
    requires |a.hash| > 0
  {
    a.hashOf(addr) % |a.hash|
  }

  /** What a tag holds fits the quantum and the 64-bit address space. */
  predicate TagOk(quantum: int, b: Bt) {
    && 0 < quantum <= b.size < TWO64 && b.size % quantum == 0
    && 0 <= b.start && b.start % quantum == 0 && b.start + b.size <= TWO64
  }

  predicate Shaped(a: Arena) { |a.free| == MAXORDER && |a.hash| > 0 && a.quantum > 0 }

  /** Tag x is on exactly the free list, or the busy list, that its contents call for. */
  ghost predicate LocalView(a: Arena, x: Tag)
    requires Shaped(a)
  {
    && (x in a.seg ==> x in a.tags && TagOk(a.quantum, a.tags[x]))
    && (forall o :: InFree(a, o, x) <==> x in a.seg && a.tags[x].kind == Free && o == Order(a.quantum, a.tags[x].size))
    && (forall h :: InHash(a, h, x) <==> x in a.seg && a.tags[x].kind == Busy && h == HashIndex(a, a.tags[x].start))
  }

  ghost predicate Views(a: Arena) {
    && Shaped(a)
    && (forall x :: LocalView(a, x))
    && (forall o :: 0 <= o < |a.free| ==> NoDups(a.free[o]))
    && (forall h :: 0 <= h < |a.hash| ==> NoDups(a.hash[h]))
  }

  /** Each tag is in use, spare, back in the pool, or in the hands of the running operation: exactly one of these. */
  ghost predicate Conserved(a: Arena, hand: set<Tag>) {
    && NoDups(a.seg) && NoDups(a.freetags)
    && (forall x :: x in a.seg ==> x !in a.freetags && x !in a.pool && x !in hand)
    && (forall x :: x in a.freetags ==> x !in a.pool && x !in hand)
    && (forall x :: x in a.pool ==> x !in hand)
    && (forall x :: x in a.tags <==> x in a.seg || x in a.freetags || x in a.pool || x in hand)
  }

  ghost predicate Counted(a: Arena) {
    && Known(a.tags, a.seg)
    && a.size == Total(a.tags, a.seg, false) && a.inuse == Total(a.tags, a.seg, true)
    && a.nbusy == CountBusy(a.tags, a.seg) && a.nbusy <= a.maxbusy
  }

  ghost predicate InvWith(a: Arena, hand: set<Tag>) {
    Views(a) && Conserved(a, hand) && Tiled(a.tags, a.seg) && Counted(a)
  }

  /** The arena invariant. */
  ghost predicate Inv(a: Arena) { InvWith(a, {}) }

  // ---------------------------------------------------------------- primitives

  /** bt_insfree: at the head of the list for its size. */
  function InsFree(a: Arena, t: Tag): Arena
    requires Shaped(a) && t in a.tags && a.tags[t].size >= a.quantum
  {
    var o := Order(a.quantum, a.tags[t].size);
    if o < |a.free| then a.(free := a.free[o := [t] + a.free[o]]) else a
  }

  /** bt_remfree. */
  function RemFree(a: Arena, t: Tag): Arena {
    a.(free := seq(|a.free|, o requires 0 <= o < |a.free| => Without(a.free[o], t)))
  }

  /** bt_insbusy. */
  function InsBusy(a: Arena, t: Tag): Arena
    requires Shaped(a) && t in a.tags
  {
    var h := HashIndex(a, a.tags[t].start);
    a.(hash := a.hash[h := [t] + a.hash[h]], nbusy := a.nbusy + 1,
       maxbusy := if a.nbusy + 1 > a.maxbusy then a.nbusy + 1 else a.maxbusy,
       inuse := a.inuse + a.tags[t].size)
  }

  /** bt_rembusy. */
  function RemBusy(a: Arena, t: Tag): Arena
    requires t in a.tags
  {
    a.(hash := seq(|a.hash|, h requires 0 <= h < |a.hash| => Without(a.hash[h], t)),
       nbusy := a.nbusy - 1, inuse := a.inuse - a.tags[t].size)
  }

  /** bt_free. */
  function BtFree(a: Arena, t: Tag): Arena { a.(freetags := [t] + a.freetags) }

  /** bt_insseg before t: after TAILQ_PREV of t. */
  function InsertBefore(q: seq<Tag>, t: Tag, n: Tag): seq<Tag> {
    if q == [] then [n]
    else if q[0] == t then [n] + q
    else [q[0]] + InsertBefore(q[1..], t, n)
  }

  lemma {:induction false} InsertBeforeAt(x: seq<Tag>, t: Tag, y: seq<Tag>, n: Tag)
    requires t !in x
    ensures InsertBefore(x + [t] + y, t, n) == x + [n, t] + y
  {
    var q := x + [t] + y;
    if x == [] {
      assert q == [t] + y;
      assert [n] + q == x + [n, t] + y;
    } else {
      assert q[1..] == x[1..] + [t] + y;
      InsertBeforeAt(x[1..], t, y, n);
      assert [x[0]] + (x[1..] + [n, t] + y) == x + [n, t] + y;
    }
  }

  // ---------------------------------------------- effect of the primitives

  lemma InsFreeEffect(a: Arena, t: Tag, o: int, x: Tag)
    requires Shaped(a) && t in a.tags && TagOk(a.quantum, a.tags[t])
    ensures InFree(InsFree(a, t), o, x) <==> InFree(a, o, x) || (x == t && o == Order(a.quantum, a.tags[t].size))
  {
    OrderInRange(a.quantum, a.tags[t]);
  }

  /** An insertion changes its own list and, for a busy tag, the counters; nothing else. */
  lemma InsertFields(a: Arena, t: Tag)
    requires Shaped(a) && t in a.tags && a.tags[t].size >= a.quantum
    ensures InsFree(a, t) == a.(free := InsFree(a, t).free) && |InsFree(a, t).free| == |a.free|
    ensures InsBusy(a, t) == a.(hash := InsBusy(a, t).hash, nbusy := a.nbusy + 1,
                                maxbusy := Max(a.maxbusy, a.nbusy + 1), inuse := a.inuse + a.tags[t].size)
    ensures |InsBusy(a, t).hash| == |a.hash|
  {
  }

  lemma OrderInRange(q: int, b: Bt)
    requires TagOk(q, b)
    ensures 0 <= Order(q, b.size) < MAXORDER
  {
    Pow2At64();
    assert b.size / q <= b.size by { QuotientAtMost(b.size, q); }
    Log2Below(b.size / q, 64);
  }

  lemma QuotientAtMost(n: int, d: int)
    requires n >= 0 && d > 0
    ensures n / d <= n
  {
    assert n == d * (n / d) + n % d;
    if n / d > n { MulMono(n / d, 1, d); }
  }

  lemma {:induction false} Pow2Sum(i: nat, j: nat)
    ensures Pow2(i + j) == Pow2(i) * Pow2(j)
    decreases j
  {
    if j > 0 {
      Pow2Sum(i, j - 1);
    }
  }

  lemma Pow2At64()
    ensures Pow2(64) == TWO64
  {
    assert Pow2(4) == 16;
    Pow2Sum(4, 4);
    Pow2Sum(8, 8);
    Pow2Sum(16, 16);
    Pow2Sum(32, 32);
  }

  lemma RemFreeEffect(a: Arena, t: Tag, o: int, x: Tag)
    ensures InFree(RemFree(a, t), o, x) <==> InFree(a, o, x) && x != t
  {
  }

  lemma InsBusyEffect(a: Arena, t: Tag, h: int, x: Tag)
    requires Shaped(a) && t in a.tags
    ensures InHash(InsBusy(a, t), h, x) <==> InHash(a, h, x) || (x == t && h == HashIndex(a, a.tags[t].start))
  {
  }

  lemma RemBusyEffect(a: Arena, t: Tag, h: int, x: Tag)
    requires t in a.tags
    ensures InHash(RemBusy(a, t), h, x) <==> InHash(a, h, x) && x != t
  {
  }

  ghost predicate ListsOk(a: Arena) {
    && (forall o :: 0 <= o < |a.free| ==> NoDups(a.free[o]))
    && (forall h :: 0 <= h < |a.hash| ==> NoDups(a.hash[h]))
  }

  lemma InsFreeLists(a: Arena, t: Tag)
    requires Shaped(a) && t in a.tags && a.tags[t].size >= a.quantum && ListsOk(a)
    requires forall o :: !InFree(a, o, t)
    ensures ListsOk(InsFree(a, t))
  {
    var o := Order(a.quantum, a.tags[t].size);
    if o < |a.free| {
      assert !InFree(a, o, t);
      NoDupsConcat([t], a.free[o]);
    }
  }

  lemma RemFreeLists(a: Arena, t: Tag)
    requires ListsOk(a)
    ensures ListsOk(RemFree(a, t))
  {
    forall o | 0 <= o < |a.free| ensures NoDups(Without(a.free[o], t)) { WithoutNoDups(a.free[o], t); }
  }

  lemma InsBusyLists(a: Arena, t: Tag)
    requires Shaped(a) && t in a.tags && ListsOk(a)
    requires forall h :: !InHash(a, h, t)
    ensures ListsOk(InsBusy(a, t))
  {
    var h := HashIndex(a, a.tags[t].start);
    assert !InHash(a, h, t);
    NoDupsConcat([t], a.hash[h]);
  }

  lemma RemBusyLists(a: Arena, t: Tag)
    requires t in a.tags && ListsOk(a)
    ensures ListsOk(RemBusy(a, t))
  {
    forall h | 0 <= h < |a.hash| ensures NoDups(Without(a.hash[h], t)) { WithoutNoDups(a.hash[h], t); }
  }

  // -------------------------------------------------- replacing part of a list

  /** The tags of the segment list between x and y may be replaced if they cover the same addresses and leave no two free neighbours. */
  lemma Respliced(tags: map<Tag, Bt>, tags': map<Tag, Bt>, x: seq<Tag>, m: seq<Tag>, m': seq<Tag>, y: seq<Tag>)
    requires Tiled(tags, x + m + y) && Known(tags', m')
    requires forall t :: t in x || t in y ==> t in tags && t in tags' && tags'[t] == tags[t]
    requires Known(tags, m) && Known(tags, x)
    requires var p := Walk(tags, x, START);
      var old1, new1 := Walk(tags, m, p), Walk(tags', m', p);
      && old1.Pos? && new1.Pos? && old1.base == new1.base && old1.cur == new1.cur && old1.end == new1.end
      && (new1.lastFree ==> old1.lastFree || y == [] || tags[y[0]].kind != Free)
    ensures Tiled(tags', x + m' + y)
  {
    var p := Walk(tags, x, START);
    WalkConcat(tags, x, m, START);
    WalkConcat(tags, x + m, y, START);
    WalkFrame(tags, tags', x, START);
    WalkConcat(tags', x, m', START);
    WalkConcat(tags', x + m', y, START);
    var old1, new1 := Walk(tags, m, p), Walk(tags', m', p);
    WalkFrame(tags, tags', y, new1);
    if old1.lastFree && !new1.lastFree {
      WalkCalm(tags, y, old1);
    } else if !old1.lastFree && new1.lastFree {
      WalkNotFree(tags, y, old1);
    }
  }

  lemma ResplicedTotals(tags: map<Tag, Bt>, tags': map<Tag, Bt>, x: seq<Tag>, m: seq<Tag>, m': seq<Tag>, y: seq<Tag>, busy: bool)
    requires Known(tags, x + m + y) && Known(tags', x + m' + y)
    requires forall t :: t in x || t in y ==> t in tags && t in tags' && tags'[t] == tags[t]
    ensures Known(tags, m) && Known(tags', m')
    ensures Total(tags', x + m' + y, busy) - Total(tags', m', busy) == Total(tags, x + m + y, busy) - Total(tags, m, busy)
    ensures CountBusy(tags', x + m' + y) - CountBusy(tags', m') == CountBusy(tags, x + m + y) - CountBusy(tags, m)
  {
    assert forall t :: t in m ==> t in x + m + y;
    assert forall t :: t in m' ==> t in x + m' + y;
    TotalConcat(tags, x, m, busy);
    TotalConcat(tags, x + m, y, busy);
    TotalConcat(tags', x, m', busy);
    TotalConcat(tags', x + m', y, busy);
    TotalFrame(tags, tags', x, busy);
    TotalFrame(tags, tags', y, busy);
  }
}
