/** The free blocks of an arena are determined by what it holds: they are the maximal gaps. */
module VmemCanonical {
  import opened VmemArena
  import opened VmemOps
  import opened VmemAlloc
  import opened VmemTiling

  predicate Covers(b: Bt, x: int) { b.start <= x < End(b) }

  ghost predicate FreeTag(a: Arena, t: Tag) { t in a.seg && t in a.tags && a.tags[t].kind == Free }

  ghost predicate HasFree(a: Arena, start: int, size: int) {
    exists t :: FreeTag(a, t) && a.tags[t].start == start && a.tags[t].size == size
  }

  /** Every address of a span is covered by a tag of that span. */
  lemma {:induction false} CoveredUpTo(a: Arena, h: nat, i: nat, x: int) returns (k: nat)
    requires Known(a.tags, a.seg) && Tiled(a.tags, a.seg) && h < i < |a.seg| && a.tags[a.seg[h]].IsSpan()
    requires forall k :: h < k <= i ==> !a.tags[a.seg[k]].IsSpan()
    requires a.tags[a.seg[h]].start <= x < End(a.tags[a.seg[i]])
    ensures h < k <= i && Covers(a.tags[a.seg[k]], x)
    decreases i
  {
    Neighbours(a.tags, a.seg, i - 1);
    if a.tags[a.seg[i]].start <= x { k := i; } else { k := CoveredUpTo(a, h, i - 1, x); }
  }

  /** The last tag of the span whose header is at h. */
  lemma LastOfSpan(a: Arena, h: nat, i: nat) returns (j: nat)
    requires Known(a.tags, a.seg) && Tiled(a.tags, a.seg) && h < i < |a.seg| && a.tags[a.seg[h]].IsSpan()
    requires forall k :: h < k <= i ==> !a.tags[a.seg[k]].IsSpan()
    ensures i <= j < |a.seg| && (forall k :: h < k <= j ==> !a.tags[a.seg[k]].IsSpan())
    ensures End(a.tags[a.seg[j]]) == End(a.tags[a.seg[h]])
    decreases |a.seg| - i
  {
    Neighbours(a.tags, a.seg, i);
    if i + 1 < |a.seg| && !a.tags[a.seg[i + 1]].IsSpan() { j := LastOfSpan(a, h, i + 1); } else { j := i; }
  }

  lemma Covered(a: Arena, s: Tag, x: int) returns (t: Tag)
    requires Inv(a) && s in Held(a) && Held(a)[s].IsSpan() && Covers(Held(a)[s], x)
    ensures t in a.seg && t in a.tags && !a.tags[t].IsSpan() && Covers(a.tags[t], x)
  {
    hide Views, Counted, Tiled;
    var h :| 0 <= h < |a.seg| && a.seg[h] == s;
    Neighbours(a.tags, a.seg, h);
    var j := LastOfSpan(a, h, h + 1);
    var k := CoveredUpTo(a, h, j, x);
    t := a.seg[k];
  }

  /** Inside its span, a free block is preceded by an allocation ... */
  lemma BusyBefore(a: Arena, i: nat) returns (u: Tag)
    requires Known(a.tags, a.seg) && Tiled(a.tags, a.seg) && i < |a.seg| && FreeTag(a, a.seg[i])
    requires 0 <= HeaderOf(a.tags, a.seg, i) && a.tags[a.seg[HeaderOf(a.tags, a.seg, i)]].start < a.tags[a.seg[i]].start
    ensures u in Allocated(a) && Covers(Allocated(a)[u], a.tags[a.seg[i]].start - 1)
  {
    hide Tiled, Feed;
    TagInSpan(a.tags, a.seg, i);
    Neighbours(a.tags, a.seg, i - 1);
    TagInSpan(a.tags, a.seg, i - 1);
    u := a.seg[i - 1];
  }

  /** ... and followed by one. */
  lemma BusyAfter(a: Arena, i: nat) returns (u: Tag)
    requires Known(a.tags, a.seg) && Tiled(a.tags, a.seg) && i < |a.seg| && FreeTag(a, a.seg[i])
    requires 0 <= HeaderOf(a.tags, a.seg, i) && End(a.tags[a.seg[i]]) < End(a.tags[a.seg[HeaderOf(a.tags, a.seg, i)]])
    ensures u in Allocated(a) && Covers(Allocated(a)[u], End(a.tags[a.seg[i]]))
  {
    hide Tiled, Feed;
    Neighbours(a.tags, a.seg, i);
    TagInSpan(a.tags, a.seg, i + 1);
    u := a.seg[i + 1];
  }

  ghost predicate Busied(a: Arena, x: int) { exists u :: u in Allocated(a) && Covers(Allocated(a)[u], x) }

  /** The span around a tag, and what is just before and just after it inside the span. */
  lemma Around(a: Arena, t: Tag) returns (s: Tag)
    requires Inv(a) && FreeTag(a, t)
    ensures s in Held(a) && Held(a)[s].IsSpan() && Held(a)[s].start <= a.tags[t].start && End(a.tags[t]) <= End(Held(a)[s])
    ensures a.tags[t].size > 0
    ensures Held(a)[s].start < a.tags[t].start ==> Busied(a, a.tags[t].start - 1)
    ensures End(a.tags[t]) < End(Held(a)[s]) ==> Busied(a, End(a.tags[t]))
  {
    hide Views, Counted, Tiled, Feed, Allocated;
    var i :| 0 <= i < |a.seg| && a.seg[i] == t;
    TagInSpan(a.tags, a.seg, i);
    s := a.seg[HeaderOf(a.tags, a.seg, i)];
    if Held(a)[s].start < a.tags[t].start { var u := BusyBefore(a, i); }
    if End(a.tags[t]) < End(Held(a)[s]) { var u := BusyAfter(a, i); }
  }

  /** No allocation reaches into a free block. */
  lemma FreeIsFree(a: Arena, t: Tag, u: Tag, x: int)
    requires Inv(a) && SpansApart(a) && FreeTag(a, t) && u in Allocated(a) && Covers(a.tags[t], x)
    ensures !Covers(Allocated(a)[u], x)
  {
    NoOverlap(a, t, u);
  }

  lemma FreeReappears(a: Arena, a': Arena, t: Tag)
    requires Inv(a) && Inv(a') && SpansApart(a) && SpansApart(a') && Held(a) == Held(a') && FreeTag(a, t)
    ensures HasFree(a', a.tags[t].start, a.tags[t].size)
  {
    hide InvWith, SpansApart;
    var b := a.tags[t];
    var s := Around(a, t);
    var t' := Covered(a', s, b.start);
    if t' in Allocated(a') { FreeIsFree(a, t, t', b.start); }
    assert FreeTag(a', t') by { KindOf(a', t'); }
    var b' := a'.tags[t'];
    var s' := Around(a', t');
    SameSpan(a, s, s', b.start);
    if b'.start < b.start {
      var u :| u in Allocated(a) && Covers(Allocated(a)[u], b.start - 1);
      FreeIsFree(a', t', u, b.start - 1);
    }
    if End(b) < End(b') {
      var u :| u in Allocated(a) && Covers(Allocated(a)[u], End(b));
      FreeIsFree(a', t', u, End(b));
    }
    if End(b') < End(b) {
      var u :| u in Allocated(a') && Covers(Allocated(a')[u], End(b'));
      FreeIsFree(a, t, u, End(b'));
    }
  }

  lemma KindOf(a: Arena, t: Tag)
    requires t in a.seg && t in a.tags && !a.tags[t].IsSpan() && t !in Allocated(a)
    ensures FreeTag(a, t)
  {
  }

  lemma SameSpan(a: Arena, s: Tag, s': Tag, x: int)
    requires SpansApart(a) && s in Held(a) && s' in Held(a) && Held(a)[s].IsSpan() && Held(a)[s'].IsSpan()
    requires Covers(Held(a)[s], x) && Covers(Held(a)[s'], x)
    ensures s == s'
  {
  }

  /** Two arenas that hold the same have the same free blocks: coalescing leaves no trace of how they came about. */
  lemma FreeIsDetermined(a: Arena, a': Arena, start: int, size: int)
    requires Inv(a) && Inv(a') && SpansApart(a) && SpansApart(a') && Held(a) == Held(a')
    ensures HasFree(a, start, size) <==> HasFree(a', start, size)
  {
    if HasFree(a, start, size) {
      var t :| FreeTag(a, t) && a.tags[t].start == start && a.tags[t].size == size;
      FreeReappears(a, a', t);
    }
    if HasFree(a', start, size) {
      var t :| FreeTag(a', t) && a'.tags[t].start == start && a'.tags[t].size == size;
      FreeReappears(a', a, t);
    }
  }
}
