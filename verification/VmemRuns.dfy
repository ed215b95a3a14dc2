/** Every run of an arena: the invariant, the refinement to a set of disjoint blocks, and round trips. */
module VmemRuns {
  import opened Options
  import opened VmemArena
  import opened VmemOps
  import opened VmemAlloc
  import opened VmemFree
  import opened VmemTiling
  import opened VmemSearch
  import opened VmemSpans
  import opened VmemCanonical
  import opened VmemRelease

  datatype Op =
    | DoXalloc(request: Request, instant: bool)
    | DoXfree(addr: int)
    | DoAdd(block: Bt)
    | DoRehash(n: int)

  ghost predicate Good(a: Arena) { Inv(a) && SpansApart(a) }

  /** What the callers owe: well-formed requests, addresses they own, spans that are not yet in the arena. */
  ghost predicate Enabled(a: Arena, op: Op)
    requires Good(a)
  {
    match op
    case DoXalloc(r, instant) => Asked(a, r) && Roomy(a, r, instant)
    case DoXfree(addr) => Lookup(a, addr).Some?
    case DoAdd(b) => Addable(a, b) && forall s :: s in Held(a) && Held(a)[s].IsSpan() ==> Apart(Held(a)[s], b)
    case DoRehash(n) => n > 0
  }

  ghost function Step(a: Arena, op: Op): Arena
    requires Good(a) && Enabled(a, op)
  {
    match op
    case DoXalloc(r, instant) => Xalloc(a, r, instant).arena
    case DoXfree(addr) =>
      LookupIsRight(a, addr, Lookup(a, addr).value);
      XfreeBt(a, Lookup(a, addr).value)
    case DoAdd(b) => Add1(a, b)
    case DoRehash(n) => HashListed(a); Rehash(a, n)
  }

  /** Holding no new span keeps the spans apart. */
  lemma FewerSpansApart(a: Arena, a': Arena)
    requires SpansApart(a)
    requires forall s :: s in Held(a') && Held(a')[s].IsSpan() ==> s in Held(a) && Held(a)[s] == Held(a')[s]
    ensures SpansApart(a')
  {
  }

  lemma AddedSpansApart(a: Arena, a': Arena, n: Tag, b: Bt)
    requires SpansApart(a) && Held(a') == Held(a)[n := b]
    requires forall s :: s in Held(a) && Held(a)[s].IsSpan() ==> Apart(Held(a)[s], b)
    ensures SpansApart(a')
  {
  }

  lemma StepKeepsGood(a: Arena, op: Op)
    requires Good(a) && Enabled(a, op)
    ensures Good(Step(a, op))
  {
    hide Tiled, Counted, Conserved, LocalView, SpansApart, Xalloc, Add1, Rehash, Asked, Roomy, Held;
    match op
    case DoXalloc(r, instant) =>
      XallocIsRight(a, r, instant);
      FewerSpansApart(a, Step(a, op));
    case DoXfree(addr) =>
      var t := Lookup(a, addr).value;
      LookupIsRight(a, addr, t);
      XfreeKeepsInv(a, t);
      FewerSpansApart(a, Step(a, op));
    case DoAdd(b) =>
      Add1KeepsInv(a, b);
      if |a.freetags| > BT_MINRESERVE + 1 { AddedSpansApart(a, Step(a, op), a.freetags[0], b); }
      else { FewerSpansApart(a, Step(a, op)); }
    case DoRehash(n) =>
      HashListed(a);
      RehashKeepsInv(a, n);
      FewerSpansApart(a, Step(a, op));
  }

  ghost predicate Run(trace: seq<Arena>, ops: seq<Op>) {
    && |trace| == |ops| + 1 && Good(trace[0])
    && forall i :: 0 <= i < |ops| && Good(trace[i]) ==> Enabled(trace[i], ops[i]) && trace[i + 1] == Step(trace[i], ops[i])
  }

  /** Along every run the arena stays well formed: tiled spans, matching views, right counters, disjoint blocks. */
  lemma {:induction false} EveryRunIsGood(trace: seq<Arena>, ops: seq<Op>, k: nat)
    requires Run(trace, ops) && k < |trace|
    ensures Good(trace[k])
  {
    hide Good, Enabled, Step;
    if k > 0 {
      EveryRunIsGood(trace, ops, k - 1);
      assert trace[k] == trace[k - 1 + 1];
      StepKeepsGood(trace[k - 1], ops[k - 1]);
    }
  }

  // -------------------------------------------------------- what users see

  /** Users see which blocks, (start, size), are allocated. */
  ghost function Blocks(a: Arena): set<(int, int)> {
    set t | t in Allocated(a) :: (Allocated(a)[t].start, Allocated(a)[t].size)
  }

  lemma AddedBlock(m: map<Tag, Bt>, n: Tag, b: Bt)
    requires n !in m
    ensures var m' := m[n := b];
      (set t | t in m' :: (m'[t].start, m'[t].size)) == (set t | t in m :: (m[t].start, m[t].size)) + {(b.start, b.size)}
  {
    var m' := m[n := b];
    var s, s' := set t | t in m :: (m[t].start, m[t].size), set t | t in m' :: (m'[t].start, m'[t].size);
    forall x | x in s ensures x in s' {
      var t :| t in m && x == (m[t].start, m[t].size);
      assert t in m' && x == (m'[t].start, m'[t].size);
    }
    assert n in m';
  }

  lemma XfreeSeen(a: Arena, t: Tag)
    requires Good(a) && t in Allocated(a)
    ensures var b := Allocated(a)[t]; (b.start, b.size) in Blocks(a) && Blocks(XfreeBt(a, t)) == Blocks(a) - {(b.start, b.size)}
  {
    hide InvWith, SpansApart, XfreeBt, Held;
    var b := Allocated(a)[t];
    XfreeKeepsInv(a, t);
    var m, m' := Allocated(a), Allocated(XfreeBt(a, t));
    forall x | x in Blocks(XfreeBt(a, t)) ensures x in Blocks(a) && x != (b.start, b.size) {
      var u :| u in m' && x == (m'[u].start, m'[u].size);
      assert u in m && m'[u] == m[u];
      AllocatedApart(a, t, u);
      BlockSize(a, t);
      BlockSize(a, u);
    }
    forall x | x in Blocks(a) && x != (b.start, b.size) ensures x in Blocks(XfreeBt(a, t)) {
      var u :| u in m && x == (m[u].start, m[u].size);
      assert u in m' && m'[u] == m[u];
    }
  }

  lemma BlockSize(a: Arena, t: Tag)
    requires Inv(a) && t in Allocated(a)
    ensures Allocated(a)[t].size > 0
  {
    AllocatedSize(a, t);
  }

  /** The bytes in use are the sum of the allocated sizes, at every point of every run. */
  lemma InUseIsSum(trace: seq<Arena>, ops: seq<Op>, k: nat)
    requires Run(trace, ops) && k < |trace|
    ensures Known(trace[k].tags, trace[k].seg)
    ensures trace[k].inuse == Total(trace[k].tags, trace[k].seg, true) <= Total(trace[k].tags, trace[k].seg, false) == trace[k].size
  {
    EveryRunIsGood(trace, ops, k);
    BusyWithinSpans(trace[k].tags, trace[k].seg, START);
  }

  /** What is busy in a walk is within what the spans provide. */
  lemma {:induction false} BusyWithinSpans(tags: map<Tag, Bt>, q: seq<Tag>, p: Pos)
    requires Known(tags, q) && p.Pos? && p.cur <= p.end && Walk(tags, q, p).Pos?
    ensures var w := Walk(tags, q, p); w.cur <= w.end
    ensures Total(tags, q, true) + (var w := Walk(tags, q, p); w.end - w.cur) <= Total(tags, q, false) + (p.end - p.cur)
  {
    if q != [] {
      if Feed(p, tags[q[0]]).Bad? { WalkBad(tags, q[1..]); }
      BusyWithinSpans(tags, q[1..], Feed(p, tags[q[0]]));
    }
  }

  // ------------------------------------------------------------- round trips

  /** Freeing gives back nothing but the block if no span is emptied. */
  lemma NoSpanEmptied(b: Arena, n: Tag)
    requires Good(b) && n in Allocated(b) && forall s :: s in Held(b) && Held(b)[s].IsSpan() ==> !Emptied(b, n, s)
    ensures Held(XfreeBt(b, n)) == Held(b) - {n}
  {
    hide InvWith, XfreeBt, Emptied, SpansApart;
    XfreeKeepsInv(b, n);
    forall z | z in Held(b) && z != n ensures z in Held(XfreeBt(b, n)) {
      if Held(b)[z].IsSpan() { SpanReleasedIff(b, n, z); }
    }
  }

  /** Freeing what xalloc returned restores everything users and the free lists know, unless it empties a span that is given back. */
  lemma AllocThenFree(a: Arena, r: Request, instant: bool, start: int, size: int)
    requires Good(a) && Asked(a, r) && Roomy(a, r, instant) && Xalloc(a, r, instant).tag.Found?
    ensures var b, n, addr := Xalloc(a, r, instant).arena, Xalloc(a, r, instant).tag.tag, Xalloc(a, r, instant).tag.start;
      && Good(b) && Lookup(b, addr) == Some(n) && Enabled(b, DoXfree(addr)) && n in Allocated(b)
      && Blocks(Step(b, DoXfree(addr))) == Blocks(a)
      && ((forall s :: s in Held(b) && Held(b)[s].IsSpan() ==> !Emptied(b, n, s)) ==>
            (HasFree(Step(b, DoXfree(addr)), start, size) <==> HasFree(a, start, size)))
  {
    hide Tiled, Counted, Conserved, LocalView, SpansApart, Xalloc, Asked, Roomy, Held, XfreeBt, HasFree, Emptied;
    var b, n, addr := Xalloc(a, r, instant).arena, Xalloc(a, r, instant).tag.tag, Xalloc(a, r, instant).tag.start;
    XallocIsRight(a, r, instant);
    StepKeepsGood(a, DoXalloc(r, instant));
    LookupIsRight(b, addr, n);
    XfreeKeepsInv(b, n);
    var c := XfreeBt(b, n);
    StepKeepsGood(b, DoXfree(addr));
    assert Allocated(c) == Allocated(a);
    if forall s :: s in Held(b) && Held(b)[s].IsSpan() ==> !Emptied(b, n, s) {
      NoSpanEmptied(b, n);
      assert Held(c) == Held(a);
      FreeIsDetermined(a, c, start, size);
    }
  }

  // ------------------------------------------------------------- vmem_xfreeall

  /** The first busy tag along the segment list. */
  function FirstBusy(a: Arena, q: seq<Tag>): Option<Tag> {
    if q == [] then None
    else if q[0] in a.tags && a.tags[q[0]].kind == Busy then Some(q[0])
    else FirstBusy(a, q[1..])
  }

  lemma {:induction false} FirstBusyIsBusy(a: Arena, q: seq<Tag>)
    ensures match FirstBusy(a, q)
      case Some(t) => t in q && t in a.tags && a.tags[t].kind == Busy
      case None => forall t :: t in q && t in a.tags ==> a.tags[t].kind != Busy
  {
    if q != [] { FirstBusyIsBusy(a, q[1..]); }
  }

  /** vmem_xfreeall. */
  ghost function FreeAll(a: Arena): Arena
    requires Inv(a)
    decreases |Allocated(a)|
  {
    FirstBusyIsBusy(a, a.seg);
    match FirstBusy(a, a.seg)
    case None => a
    case Some(t) =>
      XfreeKeepsInv(a, t);
      FreeAll(XfreeBt(a, t))
  }

  /** It ends, with nothing allocated and nothing in use. */
  lemma {:induction false} FreeAllEmpties(a: Arena)
    requires Inv(a)
    ensures Inv(FreeAll(a)) && Allocated(FreeAll(a)) == map[] && FreeAll(a).inuse == 0 && FreeAll(a).nbusy == 0
    decreases |Allocated(a)|
  {
    hide InvWith, XfreeBt;
    FirstBusyIsBusy(a, a.seg);
    match FirstBusy(a, a.seg)
    case None => NothingBusy(a);
    case Some(t) =>
      XfreeKeepsInv(a, t);
      FreeAllEmpties(XfreeBt(a, t));
  }

  lemma NothingBusy(a: Arena)
    requires Inv(a) && forall t :: t in a.seg && t in a.tags ==> a.tags[t].kind != Busy
    ensures Allocated(a) == map[] && a.inuse == 0 && a.nbusy == 0
  {
    NoneBusy(a.tags, a.seg);
  }

  lemma {:induction false} NoneBusy(tags: map<Tag, Bt>, q: seq<Tag>)
    requires Known(tags, q) && forall t :: t in q ==> tags[t].kind != Busy
    ensures Total(tags, q, true) == 0 && CountBusy(tags, q) == 0
  {
    if q != [] { NoneBusy(tags, q[1..]); }
  }
}
