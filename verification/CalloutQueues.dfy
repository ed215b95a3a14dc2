/** The worklist and the buckets of a CPU as the kernel keeps them: circular queues through one set of links. */
module CalloutQueues {
  import opened Options
  import opened Queues
  import opened CalloutWheel
  import opened Circq

  /** Queue 0 is the worklist, queue 1 + b is bucket b; each number is also the node of that queue's head. */
  const HEADS: nat := BUCKETS + 1

  /** The node of a callout. */
  function NodeOf(id: Id): Node { HEADS + id }

  function Nodes(q: seq<Id>): (r: seq<Node>)
    ensures |r| == |q| && forall i :: 0 <= i < |q| ==> r[i] == NodeOf(q[i])
  {
    seq(|q|, i requires 0 <= i < |q| => NodeOf(q[i]))
  }

  lemma NodesOn(i: Node, q: seq<Id>, x: Node)
    requires i < HEADS
    ensures On(i, Nodes(q), x) <==> x == i || (x >= HEADS && x - HEADS in q)
  {
    if x >= HEADS && x - HEADS in q {
      var k :| 0 <= k < |q| && q[k] == x - HEADS;
      assert Nodes(q)[k] == x;
    }
  }

  lemma NodesConcat(a: seq<Id>, b: seq<Id>)
    ensures Nodes(a + b) == Nodes(a) + Nodes(b)
  {
  }

  /** No callout is on two queues. */
  ghost predicate Disjoint(qs: seq<seq<Id>>) {
    forall i, j, id :: 0 <= i < |qs| && 0 <= j < |qs| && id in qs[i] && id in qs[j] ==> i == j
  }

  lemma QueuesApart(qs: seq<seq<Id>>, i: nat, j: nat)
    requires Disjoint(qs) && i < |qs| <= HEADS && j < |qs| && i != j
    ensures Apart(i, Nodes(qs[i]), j, Nodes(qs[j]))
  {
    forall x | On(i, Nodes(qs[i]), x) ensures !On(j, Nodes(qs[j]), x) {
      NodesOn(i, qs[i], x);
      NodesOn(j, qs[j], x);
    }
  }

  function WithoutAll(qs: seq<seq<Id>>, id: Id): (r: seq<seq<Id>>)
    ensures |r| == |qs| && forall i :: 0 <= i < |qs| ==> r[i] == Without(qs[i], id)
  {
    seq(|qs|, i requires 0 <= i < |qs| => Without(qs[i], id))
  }

  lemma {:induction false} SplitOn(q: seq<Id>, id: Id) returns (x: seq<Id>, y: seq<Id>)
    requires id in q && NoDups(q)
    ensures q == x + [id] + y && Without(q, id) == x + y
  {
    var rest := q[1..];
    if q[0] == id {
      x, y := [], rest;
      assert id !in rest;
    } else {
      assert q == [q[0]] + rest;
      x, y := SplitOn(rest, id);
      assert [q[0]] + (x + y) == ([q[0]] + x) + y && [q[0]] + (x + [id] + y) == ([q[0]] + x) + [id] + y;
      x := [q[0]] + x;
    }
  }

  /** The first n heads are those of empty queues. */
  ghost predicate Empties(next: map<Node, Node>, prev: map<Node, Node>, n: nat) { forall j: Node :: j < n ==> Ring(next, prev, j, []) }

  lemma EmptiesMore(next: map<Node, Node>, prev: map<Node, Node>, n: nat)
    requires Empties(next, prev, n)
    ensures Empties(next[n := n], prev[n := n], n + 1)
  {
    var next', prev' := next[n := n], prev[n := n];
    forall j: Node | j < n + 1 ensures Ring(next', prev', j, []) {
      if j < n { RingFrame(next, prev, next', prev', j, []); } else { assert Cycle(n, []) == [n, n]; }
    }
  }

  class CalloutQueues {
    const links: Links
    ghost var qs: seq<seq<Id>>

    /** The links stand for the queues. */
    ghost predicate Valid()
      reads this, links
    {
      |qs| == HEADS && Disjoint(qs) && forall i :: 0 <= i < HEADS ==> links.IsQueue(i, Nodes(qs[i]))
    }

    constructor ()
      ensures Valid() && fresh(links) && qs == seq(HEADS, i => [])
    {
      links := new Links();
      qs := seq(HEADS, i => []);
      new;
      for i := 0 to HEADS
        invariant qs == seq(HEADS, i => []) && Empties(links.next, links.prev, i)
      {
        EmptiesMore(links.next, links.prev, i);
        links.Init(i);
      }
      assert forall i :: 0 <= i < HEADS ==> Nodes(qs[i]) == [];
    }

    lemma HasNoDups(i: nat)
      requires Valid() && i < HEADS
      ensures NoDups(qs[i])
    {
      var q := Nodes(qs[i]);
      assert links.IsQueue(i, q);
      forall j, k | 0 <= j < k < |qs[i]| ensures qs[i][j] != qs[i][k] {
        assert ([i] + q)[j + 1] == NodeOf(qs[i][j]) && ([i] + q)[k + 1] == NodeOf(qs[i][k]);
      }
    }

    /** CIRCQ_INSERT of a callout that is on no queue. */
    method Insert(id: Id, i: nat)
      requires Valid() && i < HEADS && forall j :: 0 <= j < HEADS ==> id !in qs[j]
      modifies this, links
      ensures Valid() && qs == old(qs)[i := old(qs)[i] + [id]]
    {
      ghost var q := qs[i];
      NodesOn(i, q, NodeOf(id));
      NodesConcat(q, [id]);
      assert Nodes([id]) == [NodeOf(id)];
      links.Insert(NodeOf(id), i, Nodes(q));
      ghost var qs' := qs[i := q + [id]];
      forall j | 0 <= j < HEADS ensures links.IsQueue(j, Nodes(qs'[j])) {
        if j != i {
          assert old(links.IsQueue(j, Nodes(qs[j])));
          QueuesApart(qs, i, j);
          NodesOn(j, qs[j], NodeOf(id));
        }
      }
      qs := qs';
    }

    /** CIRCQ_REMOVE of a callout from the queue it is on. */
    method Remove(id: Id, ghost i: nat)
      requires Valid() && i < HEADS && id in qs[i]
      modifies this, links
      ensures Valid() && qs == WithoutAll(old(qs), id)
    {
      HasNoDups(i);
      ghost var x, y := SplitOn(qs[i], id);
      NodesConcat(x, [id]);
      NodesConcat(x + [id], y);
      NodesConcat(x, y);
      assert Nodes([id]) == [NodeOf(id)];
      links.Remove(NodeOf(id), i, Nodes(x), Nodes(y));
      ghost var qs' := WithoutAll(qs, id);
      forall j | 0 <= j < HEADS ensures links.IsQueue(j, Nodes(qs'[j])) {
        if j != i {
          assert old(links.IsQueue(j, Nodes(qs[j])));
          QueuesApart(qs, i, j);
          assert id !in qs[j];
        }
      }
      qs := qs';
    }

    /** CIRCQ_APPEND of a bucket to the worklist. */
    method Move(i: nat)
      requires Valid() && 0 < i < HEADS
      modifies this, links
      ensures Valid() && qs == old(qs)[0 := old(qs)[0] + old(qs)[i]][i := []]
    {
      QueuesApart(qs, 0, i);
      NodesConcat(qs[0], qs[i]);
      assert Nodes([]) == [];
      links.Append(0, i, Nodes(qs[0]), Nodes(qs[i]));
      ghost var qs' := qs[0 := qs[0] + qs[i]][i := []];
      forall j | 0 <= j < HEADS ensures links.IsQueue(j, Nodes(qs'[j])) {
        if j != i && j != 0 {
          assert old(links.IsQueue(j, Nodes(qs[j])));
          QueuesApart(qs, 0, j);
          QueuesApart(qs, i, j);
        }
      }
      qs := qs';
    }

    /** CIRCQ_FIRST: the callout after the first k of queue i, if any; node is where the walk stands. */
    method After(i: nat, node: Node, ghost k: nat) returns (next: Option<Id>)
      requires Valid() && i < HEADS && k <= |qs[i]| && node == Cycle(i, Nodes(qs[i]))[k]
      ensures next == if k < |qs[i]| then Some(qs[i][k]) else None
    {
      ghost var q := Nodes(qs[i]);
      assert links.IsQueue(i, q);
      LinkAt(links.next, links.prev, i, q, k);
      var n := links.next[node];
      assert n == if k < |q| then q[k] else i;
      return if n == i then None else Some(n - HEADS);
    }
  }
}
