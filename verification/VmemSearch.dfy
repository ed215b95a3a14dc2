/** vmem_xalloc: choosing a free block by best fit or instant fit, and what failure means. */
module VmemSearch {
  import opened Words
  import opened VmemArena
  import opened VmemOps
  import opened VmemAlloc
  import opened VmemTiling
  import Fit = VmemFit

  type Request = Fit.Request

  function BlockOf(b: Bt): Fit.Block { Fit.Block(b.start, b.size) }

  datatype Found = Nothing | Found(tag: Tag, start: int)

  /** What vmem_xalloc asserts of its arguments, once the size is rounded up and align 0 is the quantum. */
  predicate Asked(a: Arena, r: Request) {
    && Fit.Wellformed(r) && a.quantum > 0 && r.align > 0 && r.nocross >= 0
    && r.size % a.quantum == 0 && r.align % a.quantum == 0 && r.phase % a.quantum == 0 && r.nocross % a.quantum == 0
  }

  // ----------------------------------------------------------------- searching

  /** The first tag of a list that is big enough and fits. */
  function BestIn(tags: map<Tag, Bt>, q: seq<Tag>, r: Request): Found
    requires r.align > 0 && r.nocross >= 0
  {
    if q == [] then Nothing
    else if q[0] in tags && tags[q[0]].size >= r.size && Fit.Fit(BlockOf(tags[q[0]]), r).Some?
    then Found(q[0], Fit.Fit(BlockOf(tags[q[0]]), r).value)
    else BestIn(tags, q[1..], r)
  }

  /** VM_BESTFIT: every list from order o on, in full. */
  function BestFrom(a: Arena, o: nat, r: Request): Found
    requires r.align > 0 && r.nocross >= 0 && o <= |a.free|
    decreases |a.free| - o
  {
    if o == |a.free| then Nothing
    else if BestIn(a.tags, a.free[o], r).Found? then BestIn(a.tags, a.free[o], r)
    else BestFrom(a, o + 1, r)
  }

  /** VM_INSTANTFIT: only the head of every list from order o on, whose size is not looked at. */
  function InstantFrom(a: Arena, o: nat, r: Request): Found
    requires r.align > 0 && r.nocross >= 0 && o <= |a.free|
    decreases |a.free| - o
  {
    if o == |a.free| then Nothing
    else if a.free[o] != [] && a.free[o][0] in a.tags && Fit.Fit(BlockOf(a.tags[a.free[o][0]]), r).Some?
    then Found(a.free[o][0], Fit.Fit(BlockOf(a.tags[a.free[o][0]]), r).value)
    else InstantFrom(a, o + 1, r)
  }

  /** bt_freehead_toalloc for VM_INSTANTFIT: the first list on which every block is large enough. */
  function InstantOrder(quantum: int, size: int): nat
    requires 0 < quantum <= size
  {
    var idx := Log2(size / quantum);
    if Pow2(idx) != size / quantum then idx + 1 else idx
  }

  predicate Searchable(a: Arena, r: Request) {
    Shaped(a) && Asked(a, r) && 0 < a.quantum <= r.size && Order(a.quantum, r.size) <= MAXORDER && InstantOrder(a.quantum, r.size) <= MAXORDER
  }

  /** The choice of a block: instant fit falls back on best fit. */
  function Choose(a: Arena, r: Request, instant: bool): Found
    requires Searchable(a, r)
  {
    var quick := if instant then InstantFrom(a, InstantOrder(a.quantum, r.size), r) else Nothing;
    if quick.Found? then quick else BestFrom(a, Order(a.quantum, r.size), r)
  }

  /** The search looks only at the tags and the free lists. */
  lemma ChooseFrame(a: Arena, a': Arena, r: Request, instant: bool)
    requires Searchable(a, r) && Searchable(a', r) && a'.tags == a.tags && a'.free == a.free && a'.quantum == a.quantum
    ensures Choose(a', r, instant) == Choose(a, r, instant)
  {
    hide Order, InstantOrder;
    BestFromFrame(a, a', Order(a.quantum, r.size), r);
    InstantFromFrame(a, a', InstantOrder(a.quantum, r.size), r);
  }

  lemma {:induction false} BestFromFrame(a: Arena, a': Arena, o: nat, r: Request)
    requires r.align > 0 && r.nocross >= 0 && o <= |a.free| && a'.tags == a.tags && a'.free == a.free
    ensures BestFrom(a', o, r) == BestFrom(a, o, r)
    decreases |a.free| - o
  {
    if o < |a.free| { BestFromFrame(a, a', o + 1, r); }
  }

  lemma {:induction false} InstantFromFrame(a: Arena, a': Arena, o: nat, r: Request)
    requires r.align > 0 && r.nocross >= 0 && o <= |a.free| && a'.tags == a.tags && a'.free == a.free
    ensures InstantFrom(a', o, r) == InstantFrom(a, o, r)
    decreases |a.free| - o
  {
    if o < |a.free| { InstantFromFrame(a, a', o + 1, r); }
  }

  lemma OrdersInRange(a: Arena, r: Request)
    requires Shaped(a) && Asked(a, r)
    ensures Searchable(a, r)
  {
    AtLeastQuantum(r.size, a.quantum);
    TagOkSize(a.quantum, r.size);
  }

  lemma AtLeastQuantum(n: int, q: int)
    requires n > 0 && q > 0 && n % q == 0
    ensures n >= q
  {
  }

  lemma TagOkSize(q: int, size: int)
    requires 0 < q <= size < TWO64
    ensures Order(q, size) < MAXORDER && InstantOrder(q, size) <= MAXORDER
  {
    Pow2At64();
    QuotientAtMost(size, q);
    Log2Below(size / q, 64);
  }

  /** bt_freehead_toalloc's assertion that the list exists holds exactly for requests of at most 2^63 quanta. */
  lemma InstantListExistsIff(quantum: int, size: int)
    requires 0 < quantum <= size < TWO64
    ensures InstantOrder(quantum, size) < MAXORDER <==> size / quantum <= TWO64 / 2
  {
    assert Pow2(64) == 2 * Pow2(63);
    hide Log2, Pow2;
    Pow2At64();
    QuotientAtMost(size, quantum);
    QuotientMono(quantum, size, quantum);
    var n := size / quantum;
    Log2Brackets(n);
    Log2Below(n, 64);
    if Log2(n) < 63 { Pow2Mono(Log2(n) + 1, 63); }
  }

  // ------------------------------------------------- what the free lists hold

  /** A block on a list below the one for the request is too small for it. */
  lemma LowerOrderTooSmall(quantum: int, n: int, m: int)
    requires 0 < quantum <= n && 0 < quantum <= m && n % quantum == 0 && m % quantum == 0
    requires Order(quantum, n) < Order(quantum, m)
    ensures n < m
  {
    if m <= n { QuotientMono(m, n, quantum); Log2Mono(m / quantum, n / quantum); }
  }

  lemma QuotientMono(m: int, n: int, q: int)
    requires 0 < q <= m <= n
    ensures 1 <= m / q <= n / q
  {
    assert m == q * (m / q) + m % q && n == q * (n / q) + n % q;
    if m / q > n / q { MulMono(q, n / q + 1, m / q); }
    if m / q < 1 { MulMono(q, m / q, 0); }
  }

  /** Any block from InstantOrder on is large enough: no size check is needed there. */
  lemma InstantOrderSuffices(quantum: int, n: int, m: int)
    requires 0 < quantum <= n && 0 < quantum <= m && n % quantum == 0 && m % quantum == 0
    requires InstantOrder(quantum, m) <= Order(quantum, n)
    ensures m <= n
  {
    hide Log2, Pow2;
    QuotientMono(quantum, n, quantum);
    QuotientMono(quantum, m, quantum);
    NextPowerSuffices(m / quantum, n / quantum);
    WholeQuanta(m, n, quantum);
  }

  lemma NextPowerSuffices(i: int, j: int)
    requires i > 0 && j > 0 && (if Pow2(Log2(i)) != i then Log2(i) + 1 else Log2(i)) <= Log2(j)
    ensures i <= j
  {
    Log2Brackets(i);
    Log2Brackets(j);
    Pow2Mono(if Pow2(Log2(i)) != i then Log2(i) + 1 else Log2(i), Log2(j));
  }

  lemma WholeQuanta(m: int, n: int, q: int)
    requires q > 0 && m % q == 0 && n % q == 0 && m / q <= n / q
    ensures m <= n
  {
    assert m == q * (m / q) && n == q * (n / q);
    MulMono(q, m / q, n / q);
  }

  // ------------------------------------------------------------- the search

  /** t is a free block in which start meets every restriction. */
  ghost predicate Offers(a: Arena, r: Request, t: Tag, start: int)
    requires r.align > 0 && r.nocross >= 0
  {
    t in a.seg && t in a.tags && a.tags[t].kind == Free && Fit.Admissible(BlockOf(a.tags[t]), r, start)
  }

  /** Tag by tag, vmem_fit answers None only if the block offers nothing, and an address it does offer if Sound holds. */
  lemma FitAnswers(a: Arena, r: Request, t: Tag)
    requires Inv(a) && Asked(a, r) && t in a.seg && t in a.tags && a.tags[t].kind == Free
    ensures match Fit.Fit(BlockOf(a.tags[t]), r)
      case None => NoOffer(a, r, t)
      case Some(start) => Offers(a, r, t, start) <==> Fit.Sound(BlockOf(a.tags[t]), r)
  {
    hide Fit.Fit, Fit.Sound;
    assert LocalView(a, t);
    Fit.FitAtTheTop(BlockOf(a.tags[t]), r);
  }

  lemma OnList(a: Arena, o: nat, t: Tag)
    requires Inv(a) && o < |a.free| && t in a.free[o]
    ensures t in a.seg && t in a.tags && a.tags[t].kind == Free && TagOk(a.quantum, a.tags[t]) && o == Order(a.quantum, a.tags[t].size)
  {
    assert LocalView(a, t);
    assert InFree(a, o, t);
  }

  /** t is free, and start is admissible in it exactly if vmem_fit is sound there. */
  ghost predicate Picked(a: Arena, r: Request, t: Tag, start: int)
    requires r.align > 0 && r.nocross >= 0
  {
    t in a.seg && t in a.tags && a.tags[t].kind == Free && (Offers(a, r, t, start) <==> Fit.Sound(BlockOf(a.tags[t]), r))
  }

  ghost predicate NoOffer(a: Arena, r: Request, t: Tag)
    requires r.align > 0 && r.nocross >= 0
  {
    forall start :: !Offers(a, r, t, start)
  }

  lemma {:induction false} BestInIsRight(a: Arena, o: nat, q: seq<Tag>, r: Request)
    requires Inv(a) && Asked(a, r) && o < |a.free| && forall t :: t in q ==> t in a.free[o]
    ensures match BestIn(a.tags, q, r)
      case Found(t, start) => t in q && Picked(a, r, t, start)
      case Nothing => forall t :: t in q ==> NoOffer(a, r, t)
  {
    hide Fit.Fit, Fit.Sound, TagOk, Order, Fit.Wellformed, InvWith;
    if q != [] {
      OnList(a, o, q[0]);
      FitAnswers(a, r, q[0]);
      BestInIsRight(a, o, q[1..], r);
    }
  }

  lemma {:induction false} BestFromIsRight(a: Arena, o: nat, r: Request)
    requires Inv(a) && Asked(a, r) && o <= |a.free|
    ensures match BestFrom(a, o, r)
      case Found(t, start) => Picked(a, r, t, start)
      case Nothing => forall p, t :: o <= p < |a.free| && InFree(a, p, t) ==> NoOffer(a, r, t)
    decreases |a.free| - o
  {
    hide Fit.Fit, TagOk, Order, InvWith, BestIn, Asked;
    if o < |a.free| {
      BestInIsRight(a, o, a.free[o], r);
      BestFromIsRight(a, o + 1, r);
    }
  }

  lemma {:induction false} InstantFromIsRight(a: Arena, o: nat, r: Request)
    requires Inv(a) && Asked(a, r) && o <= |a.free|
    ensures match InstantFrom(a, o, r)
      case Found(t, start) => Picked(a, r, t, start)
      case Nothing => true
    decreases |a.free| - o
  {
    hide Fit.Fit, Fit.Sound, TagOk, Order, InvWith;
    if o < |a.free| {
      if a.free[o] != [] {
        OnList(a, o, a.free[o][0]);
        FitAnswers(a, r, a.free[o][0]);
      }
      InstantFromIsRight(a, o + 1, r);
    }
  }

  /** A free tag on a list below the request's offers nothing. */
  lemma LowListOffersNothing(a: Arena, r: Request, t: Tag)
    requires Inv(a) && Searchable(a, r) && t in a.seg && t in a.tags && a.tags[t].kind == Free
    requires TagOk(a.quantum, a.tags[t]) && Order(a.quantum, a.tags[t].size) < Order(a.quantum, r.size)
    ensures NoOffer(a, r, t)
  {
    LowerOrderTooSmall(a.quantum, a.tags[t].size, r.size);
  }

  /**
   * The search is complete: it fails only if no free block of the arena has an admissible address. And it is sound:
   * what it finds is one, of a free block, if and only if vmem_fit is not misled at the top of the address space.
   */
  lemma ChooseIsRight(a: Arena, r: Request, instant: bool)
    requires Inv(a) && Asked(a, r)
    ensures Searchable(a, r)
    ensures match Choose(a, r, instant)
      case Found(t, start) => Picked(a, r, t, start)
      case Nothing => forall t, start :: !Offers(a, r, t, start)
  {
    hide Order, InstantOrder, Fit.Wellformed, TagOk, Fit.Sound;
    OrdersInRange(a, r);
    if instant { InstantFromIsRight(a, InstantOrder(a.quantum, r.size), r); }
    BestFromIsRight(a, Order(a.quantum, r.size), r);
    if Choose(a, r, instant).Nothing? {
      forall t, start ensures !Offers(a, r, t, start) {
        assert LocalView(a, t);
        if t in a.seg && t in a.tags && a.tags[t].kind == Free {
          OrderInRange(a.quantum, a.tags[t]);
          TagSize(a.quantum, a.tags[t]);
          var p := Order(a.quantum, a.tags[t].size);
          if p < Order(a.quantum, r.size) { LowListOffersNothing(a, r, t); }
          else { assert InFree(a, p, t); }
          assert NoOffer(a, r, t);
        }
      }
    }
  }

  /** Instant fit only ever hands vmem_fit blocks that are big enough, as vmem_fit demands. */
  lemma InstantBlocksBigEnough(a: Arena, r: Request, o: nat, t: Tag)
    requires Inv(a) && Searchable(a, r) && InstantOrder(a.quantum, r.size) <= o < |a.free| && t in a.free[o]
    ensures t in a.tags && a.tags[t].size >= r.size
  {
    OnList(a, o, t);
    InstantOrderSuffices(a.quantum, a.tags[t].size, r.size);
  }

  // -------------------------------------------------------------- vmem_xalloc

  datatype Outcome = Outcome(arena: Arena, tag: Found)

  /** The block the search picks, if any, is not one at the top of the address space for which vmem_fit is misled. */
  ghost predicate Roomy(a: Arena, r: Request, instant: bool)
    requires Inv(a) && Asked(a, r)
  {
    OrdersInRange(a, r);
    match Choose(a, r, instant)
    case Nothing => true
    case Found(t, _) => t in a.tags && Fit.Sound(BlockOf(a.tags[t]), r)
  }

  /** So it is whenever every span ends the size and the alignment below the top. */
  lemma SpansBelowTop(a: Arena, r: Request, instant: bool)
    requires Inv(a) && Asked(a, r)
    requires forall s :: s in Held(a) && Held(a)[s].IsSpan() ==> End(Held(a)[s]) + r.align + r.size <= TWO64
    ensures Roomy(a, r, instant)
  {
    hide Choose, Fit.Sound, Fit.Wellformed;
    ChooseIsRight(a, r, instant);
    match Choose(a, r, instant)
    case Nothing =>
    case Found(t, _) =>
      assert LocalView(a, t);
      var i :| 0 <= i < |a.seg| && a.seg[i] == t;
      TagInSpan(a.tags, a.seg, i);
      var h := HeaderOf(a.tags, a.seg, i);
      assert a.seg[h] in Held(a);
      Fit.FarFromTheTop(BlockOf(a.tags[t]), r);
  }

  /** vmem_xalloc on an arena without an import function: two spare tags first, then the search, then the carving. */
  ghost function Xalloc(a: Arena, r: Request, instant: bool): Outcome
    requires Inv(a) && Asked(a, r) && Roomy(a, r, instant)
  {
    if |a.freetags| <= BT_MINRESERVE + 1 then Outcome(a, Nothing)
    else
      ChooseIsRight(a, r, instant);
      match Choose(a, r, instant)
      case Nothing => Outcome(a.(freetags := [a.freetags[1], a.freetags[0]] + a.freetags[2..]), Nothing)
      case Found(t, start) =>
        OffersCarvable(a, r, t, start);
        var (a', n) := AllocAt(a, t, start, r.size);
        Outcome(a', Found(n, start))
  }

  lemma OffersCarvable(a: Arena, r: Request, t: Tag, start: int)
    requires Inv(a) && Asked(a, r) && |a.freetags| >= 2 && Offers(a, r, t, start)
    ensures Carvable(a, t, start, r.size)
  {
    assert LocalView(a, t);
    AlignedToQuantum(start, r.align, a.quantum);
    assert a.freetags[0] in a.freetags && a.freetags[1] in a.freetags;
  }

  lemma AlignedToQuantum(start: int, align: int, q: int)
    requires q > 0 && align > 0 && align % q == 0 && (start % align) % q == 0
    ensures start % q == 0
  {
    var k := start / align;
    assert start == align * k + start % align;
    assert align == q * (align / q);
    assert start % align == q * ((start % align) / q);
    MulAssoc(q, align / q, k);
    DivModUnique(start, q, (align / q) * k + (start % align) / q, 0);
  }

  lemma SwapKeeps(a: Arena)
    requires Inv(a) && |a.freetags| >= 2
    ensures var a' := a.(freetags := [a.freetags[1], a.freetags[0]] + a.freetags[2..]); Inv(a') && Held(a') == Held(a)
  {
    hide LocalView, Tiled, Counted;
    var a' := a.(freetags := [a.freetags[1], a.freetags[0]] + a.freetags[2..]);
    assert forall z :: z in a'.freetags <==> z in a.freetags;
    SpareViews(a, a');
  }

  /**
   * vmem_xalloc keeps the arena invariant. On success the block is new, admissible, lies in what was one
   * free block and is all that changes; on failure nothing held changes, and either spare tags ran out or
   * no free block could hold the request.
   */
  lemma XallocIsRight(a: Arena, r: Request, instant: bool)
    requires Inv(a) && Asked(a, r) && Roomy(a, r, instant)
    ensures var out := Xalloc(a, r, instant);
      && Inv(out.arena) && out.arena.tags.Keys == a.tags.Keys && out.arena.size == a.size && out.arena.release == a.release
      && (match out.tag
          case Nothing => Held(out.arena) == Held(a) && out.arena.inuse == a.inuse
                          && (|a.freetags| <= BT_MINRESERVE + 1 || forall t, start :: !Offers(a, r, t, start))
          case Found(n, start) => n !in Held(a) && Held(out.arena) == Held(a)[n := Bt(Busy, start, r.size)]
                                  && out.arena.inuse == a.inuse + r.size && exists t :: Offers(a, r, t, start))
  {
    hide AllocAt, Choose, Order, InstantOrder, Fit.Wellformed, Fit.Admissible, InvWith;
    if |a.freetags| > BT_MINRESERVE + 1 {
      ChooseIsRight(a, r, instant);
      match Choose(a, r, instant)
      case Nothing => SwapKeeps(a);
      case Found(t, start) =>
        OffersCarvable(a, r, t, start);
        AllocKeepsInv(a, t, start, r.size);
        assert Offers(a, r, t, start);
    }
  }

  /** A new allocation overlaps no other. */
  lemma XallocDisjoint(a: Arena, r: Request, instant: bool, u: Tag)
    requires Inv(a) && Asked(a, r) && Roomy(a, r, instant) && SpansApart(a) && Xalloc(a, r, instant).tag.Found? && u in Allocated(a)
    ensures Apart(Allocated(a)[u], Bt(Busy, Xalloc(a, r, instant).tag.start, r.size))
  {
    hide Xalloc, Fit.Wellformed, InvWith, SpansApart, Roomy;
    XallocIsRight(a, r, instant);
    var start := Xalloc(a, r, instant).tag.start;
    var t :| Offers(a, r, t, start);
    OfferDisjoint(a, r, t, start, u);
  }

  lemma OfferDisjoint(a: Arena, r: Request, t: Tag, start: int, u: Tag)
    requires Inv(a) && r.align > 0 && r.nocross >= 0 && SpansApart(a) && Offers(a, r, t, start) && u in Allocated(a)
    ensures Apart(Allocated(a)[u], Bt(Busy, start, r.size))
  {
    hide InvWith, SpansApart;
    NoOverlap(a, t, u);
  }
}
