/** Duplicate-free queues of identities. */
module Queues {

  predicate NoDups<T(==)>(q: seq<T>) {
    forall i, j :: 0 <= i < j < |q| ==> q[i] != q[j]
  }

  function Elems<T>(q: seq<T>): set<T> { set x | x in q }

  /** Unlink x from q, keeping the order of the others. */
  function Without<T(==, !new)>(q: seq<T>, x: T): (r: seq<T>)
    ensures forall y :: y in r <==> y in q && y != x
    ensures x !in q ==> r == q
    ensures |r| <= |q|
  {
    if q == [] then []
    else if q[0] == x then Without(q[1..], x)
    else
      assert q == [q[0]] + q[1..];
      [q[0]] + Without(q[1..], x)
  }

  lemma {:induction false} WithoutNoDups<T(!new)>(q: seq<T>, x: T)
    requires NoDups(q)
    ensures NoDups(Without(q, x))
    ensures x in q ==> |Without(q, x)| == |q| - 1
  {
    if q == [] {
    } else {
      WithoutNoDups(q[1..], x);
      if q[0] == x {
        assert x !in q[1..];
      } else {
        var r := Without(q[1..], x);
        assert forall j :: 0 <= j < |r| ==> r[j] in q[1..];
        assert q[0] !in q[1..];
      }
    }
  }

  lemma NoDupsConcat<T(!new)>(a: seq<T>, b: seq<T>)
    requires NoDups(a) && NoDups(b)
    requires forall x :: x in a ==> x !in b
    ensures NoDups(a + b)
  {
    var c := a + b;
    forall i, j | 0 <= i < j < |c| ensures c[i] != c[j] {
      if i < |a| && j >= |a| {
        assert c[i] in a;
        assert c[j] in b;
      }
    }
  }
}
