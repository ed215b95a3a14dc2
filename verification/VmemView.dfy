/**
 * What the users of an arena see: its spans and the blocks allocated in them. Every run is a run of the simple
 * allocator on these, which says exactly when a request fails and when a span is given back.
 */
module VmemView {
  import opened VmemArena
  import opened VmemOps
  import opened VmemAlloc
  import opened VmemFree
  import opened VmemTiling
  import opened VmemSearch
  import opened VmemSpans
  import opened VmemCanonical
  import opened VmemRelease
  import opened VmemRuns

  /** The spans, the allocated blocks as (start, size), and whether empty spans are given back. */
  datatype View = View(spans: set<Bt>, blocks: set<(int, int)>, release: bool)

  ghost function Spans(a: Arena): set<Bt> { set s | s in Held(a) && Held(a)[s].IsSpan() :: Held(a)[s] }

  ghost function ViewOf(a: Arena): View { View(Spans(a), Blocks(a), a.release) }

  /** [start, start + size) meets no block of s. */
  ghost predicate Unused(s: set<(int, int)>, start: int, size: int) {
    forall b :: b in s ==> b.0 + b.1 <= start || start + size <= b.0
  }

  /** The request may be put at start: inside one span, on no block, and where every restriction allows it. */
  ghost predicate Room(v: View, r: Request, start: int)
    requires r.align > 0 && r.nocross >= 0
  {
    && (exists s :: s in v.spans && s.start <= start && start + r.size <= End(s))
    && Unused(v.blocks, start, r.size)
    && r.min <= start && start + r.size - 1 <= r.max && start % r.align == r.phase
    && !Fit.Crosses(start, start + r.size - 1, r.nocross)
  }

  /** Freeing the block leaves span s empty, and it is one to be given back. */
  ghost predicate Vacates(v: View, b: (int, int), s: Bt) {
    && v.release && s.kind == Span && s.start <= b.0 && b.0 + b.1 <= End(s)
    && forall c :: c in v.blocks && c != b ==> c.0 + c.1 <= s.start || End(s) <= c.0
  }

  /**
   * The simple allocator. short says that spare tags are short. Allocation adds one block where there is room, and
   * fails only if tags are short or there is none; freeing takes the block and the spans it leaves empty.
   */
  ghost predicate Seen(v: View, op: Op, short: bool, v': View) {
    match op
    case DoXalloc(r, _) =>
      && r.align > 0 && r.nocross >= 0
      && ((v' == v && (short || forall start :: !Room(v, r, start)))
          || (!short && exists start :: Room(v, r, start) && v' == v.(blocks := v.blocks + {(start, r.size)})))
    case DoXfree(addr) =>
      exists size :: (addr, size) in v.blocks
        && v' == v.(blocks := v.blocks - {(addr, size)}, spans := set s | s in v.spans && !Vacates(v, (addr, size), s))
    case DoAdd(b) => v' == if short then v else v.(spans := v.spans + {b})
    case DoRehash(_) => v' == v
  }

  predicate Short(a: Arena) { |a.freetags| <= BT_MINRESERVE + 1 }

  // --------------------------------------------------------------- allocation

  /** Where there is room, a free block offers it. */
  lemma RoomIsOffered(a: Arena, r: Request, start: int) returns (t: Tag)
    requires Good(a) && Asked(a, r) && Room(ViewOf(a), r, start)
    ensures Offers(a, r, t, start)
  {
    hide InvWith, SpansApart, Fit.Crosses, Fit.Wellformed;
    assert r.size > 0 by { SizePositive(r); }
    var b :| b in Spans(a) && b.start <= start && start + r.size <= End(b);
    var s :| s in Held(a) && Held(a)[s].IsSpan() && Held(a)[s] == b;
    t := Covered(a, s, start);
    NotAllocated(a, r, start, t);
    KindOf(a, t);
    var s' := Around(a, t);
    SameSpan(a, s, s', start);
    if End(a.tags[t]) < start + r.size {
      var u :| u in Allocated(a) && Covers(Allocated(a)[u], End(a.tags[t]));
      BlockIn(a, u);
    }
  }

  lemma SizePositive(r: Request)
    requires Fit.Wellformed(r)
    ensures r.size > 0
  {
  }

  lemma BlockIn(a: Arena, u: Tag)
    requires u in Allocated(a)
    ensures (Allocated(a)[u].start, Allocated(a)[u].size) in Blocks(a)
  {
  }

  lemma NotAllocated(a: Arena, r: Request, start: int, t: Tag)
    requires Unused(Blocks(a), start, r.size) && r.size > 0 && t in a.tags && Covers(a.tags[t], start)
    ensures t !in Allocated(a)
  {
    if t in Allocated(a) { BlockIn(a, t); }
  }

  /** What a free block offers is room. */
  lemma OfferIsRoom(a: Arena, r: Request, t: Tag, start: int)
    requires Good(a) && Asked(a, r) && Offers(a, r, t, start)
    ensures Room(ViewOf(a), r, start)
  {
    hide InvWith, SpansApart, Fit.Crosses, Fit.Wellformed;
    var s := Around(a, t);
    assert Held(a)[s] in Spans(a);
    forall b | b in Blocks(a) ensures b.0 + b.1 <= start || start + r.size <= b.0 {
      var u :| u in Allocated(a) && b == (Allocated(a)[u].start, Allocated(a)[u].size);
      OfferDisjoint(a, r, t, start, u);
    }
  }

  /** Adding a tag that is no span leaves the spans. */
  lemma SameSpans(a: Arena, a': Arena, n: Tag, b: Bt)
    requires Held(a') == Held(a)[n := b] && n !in Held(a) && !b.IsSpan()
    ensures Spans(a') == Spans(a)
  {
    forall x ensures x in Spans(a') <==> x in Spans(a) {
      if x in Spans(a) {
        var s :| s in Held(a) && Held(a)[s].IsSpan() && Held(a)[s] == x;
        assert s in Held(a') && Held(a')[s] == x;
      }
    }
  }

  lemma XallocSeen(a: Arena, r: Request, instant: bool)
    requires Good(a) && Asked(a, r) && Roomy(a, r, instant)
    ensures Seen(ViewOf(a), DoXalloc(r, instant), Short(a), ViewOf(Xalloc(a, r, instant).arena))
  {
    hide InvWith, SpansApart, Xalloc, Held, Roomy, Room, Fit.Wellformed;
    var out := Xalloc(a, r, instant);
    XallocIsRight(a, r, instant);
    match out.tag
    case Nothing =>
      SameView(a, out.arena);
      if !Short(a) {
        forall start ensures !Room(ViewOf(a), r, start) {
          if Room(ViewOf(a), r, start) {
            var t := RoomIsOffered(a, r, start);
            assert false;
          }
        }
      }
    case Found(n, start) =>
      var t :| Offers(a, r, t, start);
      OfferIsRoom(a, r, t, start);
      FoundNotShort(a, r, instant);
      SameSpans(a, out.arena, n, Bt(Busy, start, r.size));
      OneMoreBlock(a, out.arena, n, Bt(Busy, start, r.size));
  }

  lemma FoundNotShort(a: Arena, r: Request, instant: bool)
    requires Good(a) && Asked(a, r) && Roomy(a, r, instant) && Xalloc(a, r, instant).tag.Found?
    ensures !Short(a)
  {
    hide Choose, InvWith, AllocAt;
  }

  lemma SameView(a: Arena, a': Arena)
    requires Held(a') == Held(a) && a'.release == a.release
    ensures ViewOf(a') == ViewOf(a)
  {
    assert Allocated(a') == Allocated(a);
  }

  lemma OneMoreBlock(a: Arena, a': Arena, n: Tag, b: Bt)
    requires Held(a') == Held(a)[n := b] && n !in Held(a) && b.kind == Busy
    ensures Blocks(a') == Blocks(a) + {(b.start, b.size)}
  {
    assert Allocated(a') == Allocated(a)[n := b] && n !in Allocated(a);
    AddedBlock(Allocated(a), n, b);
  }

  // ------------------------------------------------------------------ freeing

  /** What the arena says of its tags and the view of its blocks agree on which spans a free leaves empty. */
  lemma VacatesIs(a: Arena, t: Tag, s: Tag)
    requires Good(a) && t in Allocated(a) && s in Held(a)
    ensures Emptied(a, t, s) <==> Vacates(ViewOf(a), (Allocated(a)[t].start, Allocated(a)[t].size), Held(a)[s])
  {
    hide InvWith, SpansApart, Held;
    var m, b := Allocated(a), (Allocated(a)[t].start, Allocated(a)[t].size);
    BlockSize(a, t);
    forall u | u in m && u != t ensures (m[u].start, m[u].size) in Blocks(a) && (m[u].start, m[u].size) != b {
      AllocatedApart(a, t, u);
      BlockIn(a, u);
    }
    forall c | c in Blocks(a) && c != b ensures exists u :: u in m && u != t && c == (m[u].start, m[u].size) {
      var u :| u in m && c == (m[u].start, m[u].size);
    }
  }

  lemma FreedSpans(a: Arena, t: Tag)
    requires Good(a) && t in Allocated(a)
    ensures var b := (Allocated(a)[t].start, Allocated(a)[t].size);
      Spans(XfreeBt(a, t)) == set s | s in Spans(a) && !Vacates(ViewOf(a), b, s)
  {
    hide InvWith, XfreeBt, Vacates, Emptied, SpansApart;
    var b, a' := (Allocated(a)[t].start, Allocated(a)[t].size), XfreeBt(a, t);
    XfreeKeepsInv(a, t);
    forall x ensures x in Spans(a') <==> x in Spans(a) && !Vacates(ViewOf(a), b, x) {
      if x in Spans(a') {
        var s :| s in Held(a') && Held(a')[s].IsSpan() && Held(a')[s] == x;
        assert s in Held(a) && Held(a)[s] == x;
        SpanReleasedIff(a, t, s);
        VacatesIs(a, t, s);
      }
      if x in Spans(a) && !Vacates(ViewOf(a), b, x) {
        var s :| s in Held(a) && Held(a)[s].IsSpan() && Held(a)[s] == x;
        SpanReleasedIff(a, t, s);
        VacatesIs(a, t, s);
        assert s in Held(a') && Held(a')[s] == x;
      }
    }
  }

  lemma FreeSeen(a: Arena, addr: int, t: Tag)
    requires Good(a) && t in Allocated(a) && Allocated(a)[t].start == addr
    ensures Seen(ViewOf(a), DoXfree(addr), Short(a), ViewOf(XfreeBt(a, t)))
  {
    hide InvWith, XfreeBt, SpansApart, Held, Spans, Blocks, Vacates;
    XfreeSeen(a, t);
    FreedSpans(a, t);
    XfreeKeepsInv(a, t);
  }

  // --------------------------------------------------------------------- runs

  lemma AddSeen(a: Arena, b: Bt)
    requires Good(a) && Addable(a, b)
    ensures Seen(ViewOf(a), DoAdd(b), Short(a), ViewOf(Add1(a, b)))
  {
    hide Tiled, Counted, Conserved, LocalView, SpansApart, Add1;
    Add1KeepsInv(a, b);
    var a' := Add1(a, b);
    if Short(a) {
      SameView(a, a');
    } else {
      AddedSpan(a, a', a.freetags[0], b);
      assert Blocks(a') == Blocks(a);
    }
  }

  lemma AddedSpan(a: Arena, a': Arena, n: Tag, b: Bt)
    requires Held(a') == Held(a)[n := b] && n !in Held(a) && b.IsSpan()
    ensures Spans(a') == Spans(a) + {b}
  {
    forall x ensures x in Spans(a') <==> x in Spans(a) + {b} {
      if x in Spans(a) {
        var s :| s in Held(a) && Held(a)[s].IsSpan() && Held(a)[s] == x;
        assert s in Held(a') && Held(a')[s] == x;
      }
      if x == b { assert n in Held(a') && Held(a')[n] == b; }
    }
  }

  lemma StepRefines(a: Arena, op: Op)
    requires Good(a) && Enabled(a, op)
    ensures Seen(ViewOf(a), op, Short(a), ViewOf(Step(a, op)))
  {
    hide Tiled, Counted, Conserved, LocalView, SpansApart, Xalloc, Add1, Rehash, Asked, Roomy, Held, XfreeBt, Seen, ViewOf, Short;
    match op
    case DoXalloc(r, instant) => XallocSeen(a, r, instant);
    case DoXfree(addr) =>
      var t := Lookup(a, addr).value;
      LookupIsRight(a, addr, t);
      FreeSeen(a, addr, t);
    case DoAdd(b) => AddSeen(a, b);
    case DoRehash(n) =>
      HashListed(a);
      RehashKeepsInv(a, n);
      SameView(a, Rehash(a, n));
      RehashSeen(ViewOf(a), n, Short(a));
  }

  lemma RehashSeen(v: View, n: int, short: bool)
    ensures Seen(v, DoRehash(n), short, v)
  {
  }

  /** Every run of the arena is, to its users, a run of the simple allocator. */
  lemma EveryRunRefines(trace: seq<Arena>, ops: seq<Op>, k: nat)
    requires Run(trace, ops) && k < |ops|
    ensures Seen(ViewOf(trace[k]), ops[k], Short(trace[k]), ViewOf(trace[k + 1]))
  {
    hide Good, Enabled, Step, Seen, ViewOf;
    EveryRunIsGood(trace, ops, k);
    StepRefines(trace[k], ops[k]);
  }
}
