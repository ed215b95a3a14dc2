/** The circular queues of kern_timeout.c: pointers relinked in place stand for sequences. */
module Circq {
  import opened Queues

  type Node = nat

  /** A queue is the cycle head, q[0], ..., q[n-1], head. */
  function Cycle(head: Node, q: seq<Node>): seq<Node> { [head] + q + [head] }

  predicate Linked(next: map<Node, Node>, prev: map<Node, Node>, a: Node, b: Node) {
    a in next && next[a] == b && b in prev && prev[b] == a
  }

  /** The pointers from head run through q and back. */
  ghost predicate Ring(next: map<Node, Node>, prev: map<Node, Node>, head: Node, q: seq<Node>) {
    && NoDups([head] + q)
    && forall i :: 0 <= i <= |q| ==> Linked(next, prev, Cycle(head, q)[i], Cycle(head, q)[i + 1])
  }

  /** The nodes of a queue. */
  ghost predicate On(head: Node, q: seq<Node>, x: Node) { x == head || x in q }

  ghost predicate Apart(h1: Node, q1: seq<Node>, h2: Node, q2: seq<Node>) { forall x :: On(h1, q1, x) ==> !On(h2, q2, x) }

  /** A queue none of whose nodes' pointers changed. */
  lemma RingFrame(next: map<Node, Node>, prev: map<Node, Node>, next': map<Node, Node>, prev': map<Node, Node>, head: Node, q: seq<Node>)
    requires Ring(next, prev, head, q)
    requires forall x :: On(head, q, x) ==> (x in next ==> x in next' && next'[x] == next[x]) && (x in prev ==> x in prev' && prev'[x] == prev[x])
    ensures Ring(next', prev', head, q)
  {
    var c := Cycle(head, q);
    forall i | 0 <= i <= |q| ensures Linked(next', prev', c[i], c[i + 1]) {
      assert Linked(next, prev, c[i], c[i + 1]);
      assert On(head, q, c[i]) && On(head, q, c[i + 1]);
    }
  }

  lemma RingEnds(next: map<Node, Node>, prev: map<Node, Node>, head: Node, q: seq<Node>)
    requires Ring(next, prev, head, q)
    ensures head in next && next[head] == (if q == [] then head else q[0])
    ensures head in prev && prev[head] == (if q == [] then head else q[|q| - 1])
    ensures q == [] <==> next[head] == head
  {
    var c := Cycle(head, q);
    assert Linked(next, prev, c[0], c[1]);
    assert Linked(next, prev, c[|q|], c[|q| + 1]);
    assert ([head] + q)[0] == head;
    if q != [] { assert ([head] + q)[1] == q[0]; }
  }

  /** Links along the cycle, read off by position. */
  lemma LinkAt(next: map<Node, Node>, prev: map<Node, Node>, head: Node, q: seq<Node>, i: int)
    requires Ring(next, prev, head, q) && 0 <= i <= |q|
    ensures Linked(next, prev, Cycle(head, q)[i], Cycle(head, q)[i + 1])
  {
  }

  class Links {
    var next: map<Node, Node>
    var prev: map<Node, Node>

    ghost predicate IsQueue(head: Node, q: seq<Node>)
      reads this
    {
      Ring(next, prev, head, q)
    }

    constructor ()
      ensures next == map[] && prev == map[]
    {
      next, prev := map[], map[];
    }

    /** CIRCQ_INIT. */
    method Init(list: Node)
      modifies this
      ensures IsQueue(list, []) && next == old(next)[list := list] && prev == old(prev)[list := list]
    {
      next := next[list := list];
      prev := prev[list := list];
      assert Cycle(list, []) == [list, list];
    }

    /** CIRCQ_EMPTY. */
    method Empty(list: Node, ghost q: seq<Node>) returns (empty: bool)
      requires IsQueue(list, q)
      ensures empty <==> q == []
    {
      RingEnds(next, prev, list, q);
      empty := next[list] == list;
    }

    /** CIRCQ_INSERT: elem becomes the last of list; every queue apart from both stays. */
    method Insert(elem: Node, list: Node, ghost q: seq<Node>)
      requires IsQueue(list, q) && !On(list, q, elem)
      modifies this
      ensures IsQueue(list, q + [elem])
      ensures forall oh, oq :: old(IsQueue(oh, oq)) && Apart(list, q, oh, oq) && !On(oh, oq, elem) ==> IsQueue(oh, oq)
    {
      RingEnds(next, prev, list, q);
      ghost var next0, prev0 := next, prev;
      var last := prev[list];
      prev := prev[elem := last];
      next := next[elem := list];
      next := next[last := elem];
      prev := prev[list := elem];
      InsertedRing(next0, prev0, next, prev, elem, list, q);
      assert On(list, q, last) && On(list, q, list);
      forall oh, oq | Ring(next0, prev0, oh, oq) && Apart(list, q, oh, oq) && !On(oh, oq, elem) ensures Ring(next, prev, oh, oq) {
        RingFrame(next0, prev0, next, prev, oh, oq);
      }
    }

    /** CIRCQ_REMOVE: elem leaves the queue it is on, wherever it stands; every queue apart from that stays. */
    method Remove(elem: Node, ghost list: Node, ghost x: seq<Node>, ghost y: seq<Node>)
      requires IsQueue(list, x + [elem] + y)
      modifies this
      ensures IsQueue(list, x + y)
      ensures forall oh, oq :: old(IsQueue(oh, oq)) && Apart(list, x + [elem] + y, oh, oq) ==> IsQueue(oh, oq)
    {
      ghost var q := x + [elem] + y;
      ghost var c := Cycle(list, q);
      ghost var next0, prev0 := next, prev;
      LinkAt(next, prev, list, q, |x|);
      LinkAt(next, prev, list, q, |x| + 1);
      assert c[|x| + 1] == elem;
      var n, p := next[elem], prev[elem];
      assert n == c[|x| + 2] && p == c[|x|];
      prev := prev[n := p];
      next := next[p := n];
      RemovedRing(next0, prev0, elem, list, x, y);
      assert On(list, q, n) && On(list, q, p);
      forall oh, oq | Ring(next0, prev0, oh, oq) && Apart(list, q, oh, oq) ensures Ring(next, prev, oh, oq) {
        RingFrame(next0, prev0, next, prev, oh, oq);
      }
    }

    /** CIRCQ_APPEND: all of snd goes to the end of fst, and snd is left empty; every queue apart from both stays. */
    method Append(fst: Node, snd: Node, ghost f: seq<Node>, ghost s: seq<Node>)
      requires IsQueue(fst, f) && IsQueue(snd, s) && Apart(fst, f, snd, s)
      modifies this
      ensures IsQueue(fst, f + s) && IsQueue(snd, [])
      ensures forall oh, oq :: old(IsQueue(oh, oq)) && Apart(fst, f, oh, oq) && Apart(snd, s, oh, oq) ==> IsQueue(oh, oq)
    {
      var empty := Empty(snd, s);
      if empty {
        assert f + s == f;
        return;
      }
      RingEnds(next, prev, fst, f);
      RingEnds(next, prev, snd, s);
      ghost var next0, prev0 := next, prev;
      var fl, s0, sl := prev[fst], next[snd], prev[snd];
      next := next[fl := s0];
      prev := prev[s0 := fl];
      next := next[sl := fst];
      prev := prev[fst := sl];
      AppendedRing(next0, prev0, next, prev, fst, snd, f, s);
      assert On(fst, f, fl) && On(snd, s, s0) && On(snd, s, sl) && On(fst, f, fst);
      forall oh, oq | Ring(next0, prev0, oh, oq) && Apart(fst, f, oh, oq) && Apart(snd, s, oh, oq) ensures Ring(next, prev, oh, oq) {
        RingFrame(next0, prev0, next, prev, oh, oq);
      }
      ghost var next1, prev1 := next, prev;
      Init(snd);
      assert On(snd, s, snd);
      forall x | On(fst, f + s, x) ensures x != snd { SndApart(fst, snd, f, s, next0, prev0, x); }
      RingFrame(next1, prev1, next, prev, fst, f + s);
      forall oh, oq | Ring(next1, prev1, oh, oq) && Apart(snd, s, oh, oq) ensures Ring(next, prev, oh, oq) {
        RingFrame(next1, prev1, next, prev, oh, oq);
      }
    }
  }

  lemma SndApart(fst: Node, snd: Node, f: seq<Node>, s: seq<Node>, next: map<Node, Node>, prev: map<Node, Node>, x: Node)
    requires Ring(next, prev, snd, s) && Apart(fst, f, snd, s) && On(fst, f + s, x)
    ensures x != snd
  {
    assert On(snd, s, snd);
    if x in s {
      var i :| 0 <= i < |s| && s[i] == x;
      assert ([snd] + s)[0] == snd && ([snd] + s)[i + 1] == x;
    } else {
      assert On(fst, f, x);
    }
  }

  lemma InsertedRing(next0: map<Node, Node>, prev0: map<Node, Node>, next: map<Node, Node>, prev: map<Node, Node>, elem: Node, list: Node, q: seq<Node>)
    requires Ring(next0, prev0, list, q) && !On(list, q, elem)
    requires list in prev0 && next == next0[elem := list][prev0[list] := elem] && prev == prev0[elem := prev0[list]][list := elem]
    ensures Ring(next, prev, list, q + [elem])
  {
    var c, c' := Cycle(list, q), Cycle(list, q + [elem]);
    RingEnds(next0, prev0, list, q);
    NoDupsConcat([list] + q, [elem]);
    assert [list] + (q + [elem]) == ([list] + q) + [elem];
    var n := |q|;
    assert c'[n + 1] == elem && c'[n + 2] == list && c'[n] == c[n] == prev0[list];
    forall i | 0 <= i <= |q + [elem]| ensures Linked(next, prev, c'[i], c'[i + 1]) {
      if i < n {
        assert c'[i] == c[i] && c'[i + 1] == c[i + 1];
        LinkAt(next0, prev0, list, q, i);
        Distinct(list, q, i, n);
        Distinct(list, q, 0, i + 1);
        assert On(list, q, c[i]) && On(list, q, c[i + 1]);
      }
    }
  }

  /** Positions of the cycle before its end are different nodes. */
  lemma Distinct(head: Node, q: seq<Node>, i: int, j: int)
    requires NoDups([head] + q) && 0 <= i < j <= |q|
    ensures Cycle(head, q)[i] != Cycle(head, q)[j]
  {
    assert forall k :: 0 <= k <= |q| ==> Cycle(head, q)[k] == ([head] + q)[k];
  }

  lemma RemovedRing(next0: map<Node, Node>, prev0: map<Node, Node>, elem: Node, list: Node, x: seq<Node>, y: seq<Node>)
    requires Ring(next0, prev0, list, x + [elem] + y)
    ensures elem in next0 && elem in prev0
    ensures Ring(next0[prev0[elem] := next0[elem]], prev0[next0[elem] := prev0[elem]], list, x + y)
  {
    var q, q' := x + [elem] + y, x + y;
    var c, c', k := Cycle(list, q), Cycle(list, q'), |x|;
    LinkAt(next0, prev0, list, q, k);
    LinkAt(next0, prev0, list, q, k + 1);
    assert c[k + 1] == elem;
    assert forall i :: 0 <= i <= k ==> c'[i] == c[i];
    assert forall i :: k < i <= |q'| + 1 ==> c'[i] == c[i + 1];
    assert forall i :: 0 <= i <= |q| ==> c[i] == ([list] + q)[i];
    assert forall i :: 0 <= i <= |q'| ==> c'[i] == ([list] + q')[i];
    var next, prev := next0[prev0[elem] := next0[elem]], prev0[next0[elem] := prev0[elem]];
    forall i | 0 <= i <= |q'| ensures Linked(next, prev, c'[i], c'[i + 1]) {
      if i < k {
        LinkAt(next0, prev0, list, q, i);
      } else if i > k {
        LinkAt(next0, prev0, list, q, i + 1);
      }
    }
  }

  lemma AppendedRing(next0: map<Node, Node>, prev0: map<Node, Node>, next: map<Node, Node>, prev: map<Node, Node>,
                     fst: Node, snd: Node, f: seq<Node>, s: seq<Node>)
    requires Ring(next0, prev0, fst, f) && Ring(next0, prev0, snd, s) && Apart(fst, f, snd, s) && s != []
    requires fst in prev0 && snd in next0 && snd in prev0
    requires next == next0[prev0[fst] := next0[snd]][prev0[snd] := fst] && prev == prev0[next0[snd] := prev0[fst]][fst := prev0[snd]]
    ensures Ring(next, prev, fst, f + s)
  {
    RingEnds(next0, prev0, fst, f);
    RingEnds(next0, prev0, snd, s);
    JoinedNoDups(fst, snd, f, s);
    var q := f + s;
    var c, cf, cs := Cycle(fst, q), Cycle(fst, f), Cycle(snd, s);
    assert forall i :: 0 <= i <= |f| ==> c[i] == cf[i];
    assert forall i :: 0 < i <= |s| ==> c[|f| + i] == cs[i];
    assert c[|q| + 1] == fst && cf[|f|] == prev0[fst] && cs[1] == next0[snd] && cs[|s|] == prev0[snd];
    forall i | 0 <= i <= |q| ensures Linked(next, prev, c[i], c[i + 1]) {
      if i < |f| {
        LinkAt(next0, prev0, fst, f, i);
        Distinct(fst, q, i, |f|);
        Distinct(fst, q, i, |q|);
        Distinct(fst, q, 0, i + 1);
        Distinct(fst, q, i + 1, |f| + 1);
      } else if |f| < i < |q| {
        LinkAt(next0, prev0, snd, s, i - |f|);
        assert c[i] == cs[i - |f|] && c[i + 1] == cs[i + 1 - |f|];
        Distinct(fst, q, |f|, i);
        Distinct(fst, q, i, |q|);
        Distinct(fst, q, |f| + 1, i + 1);
        Distinct(fst, q, 0, i + 1);
      } else if i == |f| {
        Distinct(fst, q, |f|, |q|);
        Distinct(fst, q, 0, |f| + 1);
      }
    }
  }

  lemma JoinedNoDups(fst: Node, snd: Node, f: seq<Node>, s: seq<Node>)
    requires NoDups([fst] + f) && NoDups([snd] + s) && Apart(fst, f, snd, s)
    ensures NoDups([fst] + (f + s))
  {
    var a := [snd] + s;
    assert s == a[1..];
    forall i, j | 0 <= i < j < |s| ensures s[i] != s[j] { assert s[i] == a[i + 1] && s[j] == a[j + 1]; }
    forall x | x in [fst] + f ensures x !in s { assert On(fst, f, x); }
    NoDupsConcat([fst] + f, s);
    assert [fst] + (f + s) == ([fst] + f) + s;
  }
}
