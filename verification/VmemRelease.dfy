/** Exactly when vmem_xfree_bt gives a span back. */
module VmemRelease {
  import opened Queues
  import opened VmemArena
  import opened VmemOps
  import opened VmemAlloc
  import opened VmemFree
  import opened VmemTiling

  /** Tag j is busy and lies in the span whose header is at h. */
  ghost predicate BusyIn(tags: map<Tag, Bt>, q: seq<Tag>, h: int, j: int)
    requires Known(tags, q)
  {
    0 <= j < |q| && tags[q[j]].kind == Busy && HeaderOf(tags, q, j) == h
  }

  /** No busy tag but i lies in that span. */
  ghost predicate Only(tags: map<Tag, Bt>, q: seq<Tag>, h: int, i: int)
    requires Known(tags, q)
  {
    forall j :: BusyIn(tags, q, h, j) ==> j == i
  }

  /** Between neighbours that are not free, a tag fills its span if and only if no other busy tag lies in the span. */
  lemma AloneFills(tags: map<Tag, Bt>, q: seq<Tag>, i: nat)
    requires Tiled(tags, q) && i < |q| && tags[q[i]].kind == Busy
    requires i > 0 ==> tags[q[i - 1]].kind != Free
    requires i + 1 < |q| ==> tags[q[i + 1]].kind != Free
    ensures i > 0
    ensures var h := HeaderOf(tags, q, i);
      && (tags[q[i - 1]].IsSpan() && tags[q[i - 1]].size == tags[q[i]].size <==> Only(tags, q, h, i))
      && (tags[q[i - 1]].IsSpan() ==> h == i - 1) && 0 <= h < i && Encloses(tags[q[h]], tags[q[i]])
  {
    assert Known(tags, q);
    hide Tiled;
    var h := HeaderOf(tags, q, i);
    TagInSpan(tags, q, i);
    Neighbours(tags, q, i - 1);
    Neighbours(tags, q, i);
    assert !tags[q[i - 1]].IsSpan() ==> BusyIn(tags, q, h, i - 1);
    assert i + 1 < |q| && !tags[q[i + 1]].IsSpan() ==> BusyIn(tags, q, h, i + 1);
    if tags[q[i - 1]].IsSpan() && tags[q[i - 1]].size == tags[q[i]].size {
      forall j | BusyIn(tags, q, h, j) ensures j == i {
        TagInSpan(tags, q, j);
        if j > i { Ascending(tags, q, i, j); }
      }
    }
  }

  /** Other busy tags in the span are the allocations that meet it. */
  lemma BusyInMeets(tags: map<Tag, Bt>, q: seq<Tag>, h: nat, j: nat)
    requires Tiled(tags, q) && h < |q| && tags[q[h]].IsSpan() && j < |q| && tags[q[j]].kind == Busy
    requires forall k :: 0 <= k < |q| && k != h && tags[q[k]].IsSpan() ==> Apart(tags[q[k]], tags[q[h]])
    ensures BusyIn(tags, q, h, j) <==> !Apart(tags[q[j]], tags[q[h]])
  {
    TagInSpan(tags, q, j);
  }

  /** Freeing t gives back span s exactly if it can be given back, t lies in it, and no other allocation meets it. */
  ghost predicate Emptied(a: Arena, t: Tag, s: Tag)
    requires t in Allocated(a) && s in Held(a)
  {
    && a.release && Held(a)[s].kind == Span && Encloses(Held(a)[s], Allocated(a)[t])
    && forall u :: u in Allocated(a) && u != t ==> Apart(Allocated(a)[u], Held(a)[s])
  }

  lemma HeaderAt(a: Arena, x: seq<Tag>, t: Tag, y: seq<Tag>)
    requires a.seg == x + [t] + y && NoDups(a.seg) && t in a.tags && x != [] && x[|x| - 1] in a.tags
    ensures t in a.seg
    ensures var p := x[|x| - 1];
      Header(a, t) == if a.release && a.tags[p].kind == Span && a.tags[p].size == a.tags[t].size then {p} else {}
  {
    assert a.seg[|x|] == t && a.seg[|x| - 1] == x[|x| - 1];
    IndexAt(x, t, y);
  }

  lemma Looseness(a: Arena, x: seq<Tag>, t: Tag, y: seq<Tag>)
    requires a.seg == x + [t] + y && NoDups(a.seg) && t in a.tags && Known(a.tags, a.seg) && NotFreeFirst(a.tags, y) && NotFreeLast(a.tags, x)
    ensures var l, q, i := Loose(a, t), a.seg, |x|;
      && Known(l, q) && q[i] == t && l[t].kind == Busy && l[t].size == a.tags[t].size
      && (i > 0 ==> q[i - 1] == x[i - 1] && l[q[i - 1]] == a.tags[q[i - 1]] && l[q[i - 1]].kind != Free)
      && (i + 1 < |q| ==> l[q[i + 1]].kind != Free)
  {
    var q, i := a.seg, |x|;
    assert q[i] == t && (i > 0 ==> q[i - 1] == x[i - 1] && q[i - 1] != q[i]) && (i + 1 < |q| ==> q[i + 1] == y[0] && q[i + 1] != q[i]);
  }

  /** In terms of the list after coalescing: what Settle gives back. */
  lemma HeaderIs(a: Arena, x: seq<Tag>, t: Tag, y: seq<Tag>)
    requires t in a.tags && Tiled(Loose(a, t), a.seg) && NoDups(a.seg) && Known(a.tags, a.seg)
    requires a.seg == x + [t] + y && NotFreeFirst(a.tags, y) && NotFreeLast(a.tags, x)
    ensures Known(Loose(a, t), a.seg) && t in a.seg
    ensures var l := Loose(a, t); var h := HeaderOf(l, a.seg, |x|);
      && 0 <= h < |x| && l[a.seg[h]].IsSpan() && Encloses(l[a.seg[h]], l[t])
      && Header(a, t) == if a.release && l[a.seg[h]].kind == Span && Only(l, a.seg, h, |x|) then {a.seg[h]} else {}
  {
    Looseness(a, x, t, y);
    hide Tiled, Loose, Header, NoDups, NotFreeFirst, NotFreeLast, Only, HeaderOf;
    var l, q, i := Loose(a, t), a.seg, |x|;
    AloneFills(l, q, i);
    HeaderAt(a, x, t, y);
  }

  /** The spans of the list after coalescing are those of the arena. */
  lemma OtherSpansApart(a: Arena, b: Arena, t: Tag, h: nat, k: nat)
    requires SpansApart(a) && Held(b) == Held(a) - {t} && NoDups(b.seg) && h < |b.seg| && k < |b.seg| && k != h && t in b.tags
    requires Known(b.tags, b.seg) && Loose(b, t)[b.seg[h]].IsSpan() && Loose(b, t)[b.seg[k]].IsSpan()
    ensures Apart(Loose(b, t)[b.seg[k]], Loose(b, t)[b.seg[h]])
  {
    assert b.seg[h] in Held(b) && b.seg[k] in Held(b);
  }

  lemma Alone(a: Arena, b: Arena, x: seq<Tag>, t: Tag, y: seq<Tag>, h: nat)
    requires SpansApart(a) && Held(b) == Held(a) - {t} && t in b.tags && Known(b.tags, b.seg) && Tiled(Loose(b, t), b.seg)
    requires b.seg == x + [t] + y && NoDups(b.seg) && h < |x| && Loose(b, t)[b.seg[h]].IsSpan()
    ensures Only(Loose(b, t), b.seg, h, |x|) <==>
      forall u :: u in Allocated(a) && u != t ==> Apart(Allocated(a)[u], Loose(b, t)[b.seg[h]])
  {
    var l, q := Loose(b, t), b.seg;
    assert q[|x|] == t;
    forall k | 0 <= k < |q| && k != h && l[q[k]].IsSpan() ensures Apart(l[q[k]], l[q[h]]) { OtherSpansApart(a, b, t, h, k); }
    hide Tiled, SpansApart;
    forall j | 0 <= j < |q| && j != |x| && l[q[j]].kind == Busy
      ensures q[j] in Allocated(a) && q[j] != t && Allocated(a)[q[j]] == l[q[j]]
      ensures BusyIn(l, q, h, j) <==> !Apart(l[q[j]], l[q[h]])
    {
      BusyInMeets(l, q, h, j);
      assert q[j] in Held(b);
    }
    forall u | u in Allocated(a) && u != t ensures exists j :: 0 <= j < |q| && j != |x| && q[j] == u && l[q[j]].kind == Busy {
      assert u in Held(b);
    }
    if forall j :: BusyIn(l, q, h, j) ==> j == |x| {
      forall u | u in Allocated(a) && u != t ensures Apart(Allocated(a)[u], l[q[h]]) {
        var j :| 0 <= j < |q| && j != |x| && q[j] == u && l[q[j]].kind == Busy;
      }
    }
  }

  lemma SizeOf(a: Arena, t: Tag)
    requires Inv(a) && t in Allocated(a)
    ensures Allocated(a)[t].size > 0 && t in a.tags && Allocated(a)[t] == a.tags[t]
  {
    assert LocalView(a, t);
  }

  lemma DetachedFacts(b: Arena, t: Tag)
    requires Detached(b, t, {})
    ensures t in b.tags && Tiled(Loose(b, t), b.seg) && NoDups(b.seg) && Known(b.tags, b.seg)
  {
    SegFacts(b, {});
  }

  /** Freeing t gives back span s if and only if Emptied says so. */
  lemma SpanReleasedIff(a: Arena, t: Tag, s: Tag)
    requires Inv(a) && SpansApart(a) && t in Allocated(a) && s in Held(a) && Held(a)[s].IsSpan()
    ensures s !in Held(XfreeBt(a, t)) <==> Emptied(a, t, s)
  {
    hide Unbusy, XfreeBt, CoalesceNext, CoalescePrev, InvWith, Tiled, Detached, Header, Only, NoDups;
    SizeOf(a, t);
    var x, y := XfreeParts(a, t);
    var b := CoalescePrev(CoalesceNext(Unbusy(a, t), t), t);
    DetachedFacts(b, t);
    HeaderIs(b, x, t, y);
    var l, q, h := Loose(b, t), b.seg, HeaderOf(Loose(b, t), b.seg, |x|);
    assert q[h] in Held(b) && Held(a)[q[h]] == l[q[h]];
    if s == q[h] {
      Alone(a, b, x, t, y, h);
    } else {
      assert Apart(Held(a)[s], Held(a)[q[h]]);
    }
  }
}
