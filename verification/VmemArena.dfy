/**
 * The boundary tags of a vmem arena (subr_vmem.c): one segment list, power-of-two free lists and
 * a busy hash, three views of the same tags.
 */
module VmemArena {
  import opened Words

  type Tag = nat

  datatype Kind = Busy | Free | Span | SpanStatic

  datatype Bt = Bt(kind: Kind, start: int, size: int) {
    predicate IsSpan() { kind == Span || kind == SpanStatic }
  }

  const MAXORDER: nat := 64

  /**
   * struct vmem. Tags are identities; `tags` gives what each holds. `hashOf` is the address hash,
   * `release` says whether the arena has a release function, `pool` is where trimmed tags go.
   */
  datatype Arena = Arena(
    quantum: int, hashOf: int -> nat, release: bool,
    tags: map<Tag, Bt>, seg: seq<Tag>, free: seq<seq<Tag>>, hash: seq<seq<Tag>>,
    freetags: seq<Tag>, pool: set<Tag>,
    size: int, inuse: int, nbusy: int, maxbusy: int)

  // ---------------------------------------------------------------- free lists

  /** ilog2. */
  function Log2(n: int): (r: nat)
    requires n > 0
    decreases n
  {
    if n == 1 then 0 else 1 + Log2(n / 2)
  }

  function Pow2(n: nat): (r: int)
    ensures r > 0
  {
    if n == 0 then 1 else 2 * Pow2(n - 1)
  }

  /** freelist[n] holds sizes from 2^n up to, not including, 2^(n+1). */
  lemma {:induction false} Log2Brackets(n: int)
    requires n > 0
    ensures Pow2(Log2(n)) <= n < 2 * Pow2(Log2(n))
    decreases n
  {
    if n > 1 {
      Log2Brackets(n / 2);
    }
  }

  lemma {:induction false} Pow2Mono(i: nat, j: nat)
    requires i <= j
    ensures Pow2(i) <= Pow2(j)
    decreases j - i
  {
    if i < j {
      Pow2Mono(i, j - 1);
    }
  }

  lemma Log2Mono(m: int, n: int)
    requires 0 < m <= n
    ensures Log2(m) <= Log2(n)
  {
    Log2Brackets(m);
    Log2Brackets(n);
    if Log2(n) < Log2(m) {
      Pow2Mono(Log2(n) + 1, Log2(m));
    }
  }

  lemma Log2Below(n: int, k: nat)
    requires 0 < n < Pow2(k)
    ensures Log2(n) < k
  {
    Log2Brackets(n);
    if k <= Log2(n) { Pow2Mono(k, Log2(n)); }
  }

  /** bt_freehead_tofree: the list a free block of this size is kept on. */
  function Order(quantum: int, size: int): nat
    requires 0 < quantum <= size
  {
    Log2(size / quantum)
  }

  // ---------------------------------------------------------- the segment list

  /** Where a walk of the segment list stands: the span [base, end), the next address in it, and whether the last tag was free. */
  datatype Pos = Pos(base: int, cur: int, end: int, lastFree: bool) | Bad

  /** A span may begin when the one before is complete; any other tag continues where the last one ended. */
  function Feed(p: Pos, b: Bt): Pos {
    if p.Bad? || b.size <= 0 then Bad
    else if b.IsSpan() then
      if p.cur == p.end then Pos(b.start, b.start, b.start + b.size, false) else Bad
    else if b.start == p.cur && b.start + b.size <= p.end && !(b.kind == Free && p.lastFree)
    then Pos(p.base, p.cur + b.size, p.end, b.kind == Free)
    else Bad
  }

  ghost predicate Known(tags: map<Tag, Bt>, q: seq<Tag>) { forall x :: x in q ==> x in tags }

  function Walk(tags: map<Tag, Bt>, q: seq<Tag>, p: Pos): Pos
    requires Known(tags, q)
  {
    if q == [] then p else Walk(tags, q[1..], Feed(p, tags[q[0]]))
  }

  const START: Pos := Pos(0, 0, 0, false)

  /** Every span is tiled by its tags, without gap or overlap, and no two adjacent tags are free. */
  ghost predicate Tiled(tags: map<Tag, Bt>, q: seq<Tag>) {
    Known(tags, q) && Walk(tags, q, START).Pos? && Walk(tags, q, START).cur == Walk(tags, q, START).end
  }

  lemma {:induction false} WalkConcat(tags: map<Tag, Bt>, a: seq<Tag>, b: seq<Tag>, p: Pos)
    requires Known(tags, a) && Known(tags, b)
    ensures Known(tags, a + b)
    ensures Walk(tags, a + b, p) == Walk(tags, b, Walk(tags, a, p))
  {
    if a == [] {
      assert a + b == b;
    } else {
      assert (a + b)[0] == a[0] && (a + b)[1..] == a[1..] + b;
      WalkConcat(tags, a[1..], b, Feed(p, tags[a[0]]));
    }
  }

  lemma {:induction false} WalkFrame(tags: map<Tag, Bt>, tags': map<Tag, Bt>, q: seq<Tag>, p: Pos)
    requires Known(tags, q) && Known(tags', q) && forall x :: x in q ==> tags[x] == tags'[x]
    ensures Walk(tags, q, p) == Walk(tags', q, p)
  {
    if q != [] {
      WalkFrame(tags, tags', q[1..], Feed(p, tags[q[0]]));
    }
  }

  lemma {:induction false} WalkBad(tags: map<Tag, Bt>, q: seq<Tag>)
    requires Known(tags, q)
    ensures Walk(tags, q, Bad) == Bad
  {
    if q != [] {
      WalkBad(tags, q[1..]);
    }
  }

  /** The walk remembers whether the last tag was free. */
  lemma {:induction false} WalkLast(tags: map<Tag, Bt>, q: seq<Tag>, p: Pos)
    requires Known(tags, q) && q != [] && Walk(tags, q, p).Pos?
    ensures Walk(tags, q, p).lastFree <==> tags[q[|q| - 1]].kind == Free
  {
    var n := |q| - 1;
    assert q == q[..n] + [q[n]];
    WalkConcat(tags, q[..n], [q[n]], p);
  }

  /** Forgetting that the last tag was free does no harm. */
  lemma {:induction false} WalkCalm(tags: map<Tag, Bt>, q: seq<Tag>, p: Pos)
    requires Known(tags, q) && p.Pos? && Walk(tags, q, p).Pos?
    ensures var p' := p.(lastFree := false);
      && Walk(tags, q, p').Pos? && Walk(tags, q, p').cur == Walk(tags, q, p).cur && Walk(tags, q, p').end == Walk(tags, q, p).end
  {
    if q != [] {
      var b := tags[q[0]];
      if Feed(p, b).Bad? { WalkBad(tags, q[1..]); }
      assert Feed(p.(lastFree := false), b) == Feed(p, b);
    }
  }

  /** The walk stays inside the current span, which is narrower than the address space. */
  lemma {:induction false} WalkInSpan(tags: map<Tag, Bt>, q: seq<Tag>, p: Pos)
    requires Known(tags, q) && (forall x :: x in q ==> tags[x].size < TWO64)
    requires p.Pos? && p.base <= p.cur && p.end - p.base < TWO64
    ensures var w := Walk(tags, q, p); w.Pos? ==> w.base <= w.cur && w.end - w.base < TWO64
  {
    if q != [] {
      var p1 := Feed(p, tags[q[0]]);
      if p1.Bad? { WalkBad(tags, q[1..]); } else { WalkInSpan(tags, q[1..], p1); }
    }
  }

  /** A free tag may end where it did, if what follows does not begin with one. */
  lemma WalkNotFree(tags: map<Tag, Bt>, q: seq<Tag>, p: Pos)
    requires Known(tags, q) && p.Pos? && Walk(tags, q, p).Pos?
    requires q == [] || tags[q[0]].kind != Free
    ensures var p' := p.(lastFree := true);
      && Walk(tags, q, p').Pos? && Walk(tags, q, p').cur == Walk(tags, q, p).cur && Walk(tags, q, p').end == Walk(tags, q, p).end
  {
    if q != [] {
      assert Feed(p.(lastFree := true), tags[q[0]]) == Feed(p, tags[q[0]]);
    }
  }

  /** After a complete span only another span can follow, so it may follow any complete span. */
  lemma WalkComplete(tags: map<Tag, Bt>, q: seq<Tag>, p: Pos, p': Pos)
    requires Known(tags, q) && p.Pos? && p'.Pos? && p.cur == p.end && p'.cur == p'.end
    requires Walk(tags, q, p).Pos? && Walk(tags, q, p).cur == Walk(tags, q, p).end
    ensures Walk(tags, q, p').Pos? && Walk(tags, q, p').cur == Walk(tags, q, p').end
  {
    if q != [] {
      if Feed(p, tags[q[0]]).Bad? { WalkBad(tags, q[1..]); }
    }
  }

  // ------------------------------------------------------------------- sums

  /** Total size of the spans (want == false) or of the busy tags (want == true). */
  function Total(tags: map<Tag, Bt>, q: seq<Tag>, busy: bool): int
    requires Known(tags, q)
  {
    if q == [] then 0 else Share(tags[q[0]], busy) + Total(tags, q[1..], busy)
  }

  function Share(b: Bt, busy: bool): int {
    if (if busy then b.kind == Busy else b.IsSpan()) then b.size else 0
  }

  function CountBusy(tags: map<Tag, Bt>, q: seq<Tag>): nat
    requires Known(tags, q)
  {
    if q == [] then 0 else (if tags[q[0]].kind == Busy then 1 else 0) + CountBusy(tags, q[1..])
  }

  lemma {:induction false} TotalConcat(tags: map<Tag, Bt>, a: seq<Tag>, b: seq<Tag>, busy: bool)
    requires Known(tags, a) && Known(tags, b)
    ensures Known(tags, a + b)
    ensures Total(tags, a + b, busy) == Total(tags, a, busy) + Total(tags, b, busy)
    ensures CountBusy(tags, a + b) == CountBusy(tags, a) + CountBusy(tags, b)
  {
    if a == [] {
      assert a + b == b;
    } else {
      assert (a + b)[0] == a[0] && (a + b)[1..] == a[1..] + b;
      TotalConcat(tags, a[1..], b, busy);
    }
  }

  lemma {:induction false} TotalFrame(tags: map<Tag, Bt>, tags': map<Tag, Bt>, q: seq<Tag>, busy: bool)
    requires Known(tags, q) && Known(tags', q) && forall x :: x in q ==> tags[x] == tags'[x]
    ensures Total(tags, q, busy) == Total(tags', q, busy) && CountBusy(tags, q) == CountBusy(tags', q)
  {
    if q != [] {
      TotalFrame(tags, tags', q[1..], busy);
    }
  }
}
