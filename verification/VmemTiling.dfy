/** What the tiling of the segment list means, tag by tag: neighbours, spans, and disjoint blocks. */
module VmemTiling {
  import opened VmemArena
  import opened VmemOps
  import opened VmemAlloc

  function End(b: Bt): int { b.start + b.size }

  /** Where the walk stands before the i-th tag. */
  function PosAt(tags: map<Tag, Bt>, q: seq<Tag>, i: nat): Pos
    requires Known(tags, q) && i <= |q|
  {
    assert forall x :: x in q[..i] ==> x in q;
    Walk(tags, q[..i], START)
  }

  lemma PosStep(tags: map<Tag, Bt>, q: seq<Tag>, i: nat)
    requires Tiled(tags, q) && i < |q|
    ensures PosAt(tags, q, i).Pos? && PosAt(tags, q, i + 1).Pos?
    ensures PosAt(tags, q, i + 1) == Feed(PosAt(tags, q, i), tags[q[i]])
    ensures PosAt(tags, q, 0) == START
  {
    assert q == q[..i] + [q[i]] + q[i + 1..];
    WalkToTag(tags, q[..i], q[i], q[i + 1..]);
    assert q[..i + 1] == q[..i] + [q[i]];
    WalkConcat(tags, q[..i], [q[i]], START);
  }

  /** The header of the span that the i-th tag lies in: the last span tag up to it. */
  function HeaderOf(tags: map<Tag, Bt>, q: seq<Tag>, i: nat): (h: int)
    requires Known(tags, q) && i < |q|
    ensures -1 <= h <= i
    ensures h >= 0 ==> tags[q[h]].IsSpan()
    ensures forall k :: h < k <= i ==> !tags[q[k]].IsSpan()
  {
    if tags[q[i]].IsSpan() then i
    else if i == 0 then -1
    else HeaderOf(tags, q, i - 1)
  }

  /** After tag i the walk is inside the span of its header. */
  lemma {:induction false} PosInSpan(tags: map<Tag, Bt>, q: seq<Tag>, i: nat)
    requires Tiled(tags, q) && i < |q|
    ensures var h := HeaderOf(tags, q, i); var p := PosAt(tags, q, i + 1);
      && h >= 0 && p.Pos? && p.base == tags[q[h]].start && p.end == End(tags[q[h]]) && p.base <= p.cur <= p.end
      && (!tags[q[i]].IsSpan() ==> p.cur == End(tags[q[i]]) && p.base <= tags[q[i]].start && tags[q[i]].size > 0)
  {
    PosStep(tags, q, i);
    if !tags[q[i]].IsSpan() && i > 0 {
      PosInSpan(tags, q, i - 1);
    }
  }

  /** A tag that is no span header lies within the span of its header. */
  lemma TagInSpan(tags: map<Tag, Bt>, q: seq<Tag>, i: nat)
    requires Tiled(tags, q) && i < |q| && !tags[q[i]].IsSpan()
    ensures var h := HeaderOf(tags, q, i); 0 <= h < i && tags[q[h]].start <= tags[q[i]].start && End(tags[q[i]]) <= End(tags[q[h]])
    ensures tags[q[i]].size > 0
  {
    PosInSpan(tags, q, i);
  }

  /** Exact tiling: each span's tags start where it starts, follow one another without gap, and end where it ends. */
  lemma Neighbours(tags: map<Tag, Bt>, q: seq<Tag>, i: nat)
    requires Tiled(tags, q) && i < |q|
    ensures tags[q[i]].IsSpan() ==> i + 1 < |q| && !tags[q[i + 1]].IsSpan() && tags[q[i + 1]].start == tags[q[i]].start
    ensures !tags[q[i]].IsSpan() && i + 1 < |q| && !tags[q[i + 1]].IsSpan() ==>
      tags[q[i + 1]].start == End(tags[q[i]]) && !(tags[q[i]].kind == Free && tags[q[i + 1]].kind == Free)
    ensures !tags[q[i]].IsSpan() && (i + 1 == |q| || tags[q[i + 1]].IsSpan()) ==>
      HeaderOf(tags, q, i) >= 0 && End(tags[q[i]]) == End(tags[q[HeaderOf(tags, q, i)]])
  {
    PosInSpan(tags, q, i);
    PosStep(tags, q, i);
    assert q[..|q|] == q;
    if i + 1 < |q| {
      PosStep(tags, q, i + 1);
    }
  }

  /** Within one span, addresses go up along the list. */
  lemma {:induction false} Ascending(tags: map<Tag, Bt>, q: seq<Tag>, i: nat, j: nat)
    requires Tiled(tags, q) && i < j < |q| && (forall k :: i <= k <= j ==> !tags[q[k]].IsSpan())
    ensures End(tags[q[i]]) <= tags[q[j]].start
    decreases j - i
  {
    Neighbours(tags, q, j - 1);
    if i < j - 1 {
      Ascending(tags, q, i, j - 1);
      TagInSpan(tags, q, j - 1);
    }
  }

  predicate Apart(b: Bt, c: Bt) { End(b) <= c.start || End(c) <= b.start }

  /** The spans handed to the arena do not overlap. */
  ghost predicate SpansApart(a: Arena) {
    forall s, t :: s in Held(a) && t in Held(a) && s != t && Held(a)[s].IsSpan() && Held(a)[t].IsSpan() ==> Apart(Held(a)[s], Held(a)[t])
  }

  lemma BlocksApart(a: Arena, i: nat, j: nat)
    requires Inv(a) && SpansApart(a) && i < j < |a.seg| && Known(a.tags, a.seg)
    requires !a.tags[a.seg[i]].IsSpan() && !a.tags[a.seg[j]].IsSpan()
    ensures Apart(a.tags[a.seg[i]], a.tags[a.seg[j]])
  {
    hide Views, Counted, Tiled, Feed;
    var g, h := HeaderOf(a.tags, a.seg, i), HeaderOf(a.tags, a.seg, j);
    TagInSpan(a.tags, a.seg, i);
    TagInSpan(a.tags, a.seg, j);
    if h <= i {
      assert forall k :: i <= k <= j ==> !a.tags[a.seg[k]].IsSpan();
      Ascending(a.tags, a.seg, i, j);
    } else {
      assert a.seg[g] in Held(a) && a.seg[h] in Held(a) && a.seg[g] != a.seg[h];
      assert Apart(Held(a)[a.seg[g]], Held(a)[a.seg[h]]);
    }
  }

  /** No two blocks of the arena, allocated or free, overlap. */
  lemma NoOverlap(a: Arena, t: Tag, u: Tag)
    requires Inv(a) && SpansApart(a) && t in a.seg && u in a.seg && t != u
    requires t in a.tags && u in a.tags && !a.tags[t].IsSpan() && !a.tags[u].IsSpan()
    ensures Apart(a.tags[t], a.tags[u])
  {
    var i :| 0 <= i < |a.seg| && a.seg[i] == t;
    var j :| 0 <= j < |a.seg| && a.seg[j] == u;
    if i < j { BlocksApart(a, i, j); } else { BlocksApart(a, j, i); }
  }

  /** No two allocations overlap. */
  lemma AllocatedApart(a: Arena, t: Tag, u: Tag)
    requires Inv(a) && SpansApart(a) && t in Allocated(a) && u in Allocated(a) && t != u
    ensures Apart(Allocated(a)[t], Allocated(a)[u])
  {
    NoOverlap(a, t, u);
  }
}
