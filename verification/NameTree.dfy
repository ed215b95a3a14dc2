/** The name order of vfs_cache.c and the search of a directory's tree of entries; the tree's balance plays no part. */
module NameTree {
  import opened Options

  type Id = nat

  /** Room for the name length in a key: NC_NLEN_MASK plus one. */
  const NLEN_SPAN: int := 2048

  /** cache_key: the name length is in the low bits of the key. */
  function Key(hash: int, name: seq<int>): int { hash * NLEN_SPAN + |name| }

  datatype Name = Name(key: int, text: seq<int>)

  predicate Formed(n: Name) { |n.text| < NLEN_SPAN && n.key % NLEN_SPAN == |n.text| }

  lemma KeyIsFormed(hash: int, text: seq<int>)
    requires |text| < NLEN_SPAN
    ensures Formed(Name(Key(hash, text), text))
  {
  }

  /** memcmp of two byte strings of one length. */
  function Memcmp(a: seq<int>, b: seq<int>): int {
    if a == [] || b == [] then 0
    else if a[0] < b[0] then -1
    else if a[0] > b[0] then 1
    else Memcmp(a[1..], b[1..])
  }

  /** cache_compare_nodes. */
  function Compare(a: Name, b: Name): int {
    if a.key < b.key then -1 else if a.key > b.key then 1 else Memcmp(a.text, b.text)
  }

  predicate Less(a: Name, b: Name) { Compare(a, b) < 0 }

  lemma {:induction false} MemcmpOrder(a: seq<int>, b: seq<int>)
    requires |a| == |b|
    ensures Memcmp(a, b) == 0 <==> a == b
    ensures Memcmp(a, b) == -Memcmp(b, a)
  {
    if a != [] {
      MemcmpOrder(a[1..], b[1..]);
      assert a == [a[0]] + a[1..] && b == [b[0]] + b[1..];
    }
  }

  lemma {:induction false} MemcmpTransitive(a: seq<int>, b: seq<int>, c: seq<int>)
    requires |a| == |b| == |c| && Memcmp(a, b) < 0 && Memcmp(b, c) < 0
    ensures Memcmp(a, c) < 0
  {
    if a[0] == b[0] == c[0] { MemcmpTransitive(a[1..], b[1..], c[1..]); }
  }

  /** Names are totally ordered, since equal keys have equal lengths. */
  lemma CompareOrder(a: Name, b: Name)
    requires Formed(a) && Formed(b)
    ensures Compare(a, b) == 0 <==> a == b
    ensures Less(a, b) <==> Compare(b, a) > 0
  {
    if a.key == b.key { MemcmpOrder(a.text, b.text); }
  }

  lemma LessTransitive(a: Name, b: Name, c: Name)
    requires Formed(a) && Formed(b) && Formed(c) && Less(a, b) && Less(b, c)
    ensures Less(a, c)
  {
    if a.key == b.key == c.key { MemcmpTransitive(a.text, b.text, c.text); }
  }

  // -------------------------------------------------------------------- trees

  datatype Tree = Leaf | Node(left: Tree, name: Name, id: Id, right: Tree)

  predicate Has(t: Tree, n: Name, id: Id) {
    t.Node? && ((t.name == n && t.id == id) || Has(t.left, n, id) || Has(t.right, n, id))
  }

  ghost predicate Below(t: Tree, n: Name) { forall m, id :: Has(t, m, id) ==> Less(m, n) }

  ghost predicate Above(t: Tree, n: Name) { forall m, id :: Has(t, m, id) ==> Less(n, m) }

  ghost predicate Sorted(t: Tree) {
    t.Node? ==> Formed(t.name) && Below(t.left, t.name) && Above(t.right, t.name) && Sorted(t.left) && Sorted(t.right)
  }

  /** The inlined search of cache_lookup_entry. */
  function Search(t: Tree, key: int, text: seq<int>): Option<Id> {
    match t
    case Leaf => None
    case Node(left, n, id, right) =>
      if n.key == key then
        var diff := Memcmp(n.text, text);
        if diff == 0 then Some(id)
        else if diff < 0 then Search(right, key, text) else Search(left, key, text)
      else if n.key < key then Search(right, key, text) else Search(left, key, text)
  }

  lemma {:induction false} HasFormed(t: Tree, n: Name, id: Id)
    requires Sorted(t) && Has(t, n, id)
    ensures Formed(n)
  {
    if Has(t.left, n, id) { HasFormed(t.left, n, id); } else if Has(t.right, n, id) { HasFormed(t.right, n, id); }
  }

  /** The inlined search finds exactly what the tree, ordered by cache_compare_nodes, holds. */
  lemma {:induction false} SearchIsRight(t: Tree, n: Name, id: Id)
    requires Sorted(t) && Formed(n)
    ensures Search(t, n.key, n.text) == Some(id) <==> Has(t, n, id)
  {
    if t.Node? {
      CompareOrder(t.name, n);
      CompareOrder(n, t.name);
      CompareOrder(n, n);
      SearchIsRight(t.left, n, id);
      SearchIsRight(t.right, n, id);
      if Has(t.left, n, id) { assert Less(n, t.name); }
      if Has(t.right, n, id) { assert Less(t.name, n); }
    }
  }

  lemma SearchNone(t: Tree, n: Name)
    requires Sorted(t) && Formed(n)
    ensures Search(t, n.key, n.text).None? ==> forall id: Id :: !Has(t, n, id)
    ensures Search(t, n.key, n.text).Some? ==> Has(t, n, Search(t, n.key, n.text).value)
  {
    forall id: Id ensures Has(t, n, id) <==> Search(t, n.key, n.text) == Some(id) { SearchIsRight(t, n, id); }
  }

  /** rb_tree_insert_node of a name that is not there, without rebalancing. */
  function Insert(t: Tree, n: Name, id: Id): Tree {
    match t
    case Leaf => Node(Leaf, n, id, Leaf)
    case Node(left, m, i, right) =>
      if Compare(m, n) < 0 then Node(left, m, i, Insert(right, n, id)) else Node(Insert(left, n, id), m, i, right)
  }

  lemma {:induction false} InsertHas(t: Tree, n: Name, id: Id, m: Name, i: Id)
    ensures Has(Insert(t, n, id), m, i) <==> Has(t, m, i) || (m == n && i == id)
  {
    if t.Node? {
      InsertHas(t.left, n, id, m, i);
      InsertHas(t.right, n, id, m, i);
    }
  }

  lemma {:induction false} InsertSorted(t: Tree, n: Name, id: Id)
    requires Sorted(t) && Formed(n) && forall i :: !Has(t, n, i)
    ensures Sorted(Insert(t, n, id))
  {
    if t.Node? {
      assert forall i :: Has(t.left, n, i) ==> Has(t, n, i);
      assert forall i :: Has(t.right, n, i) ==> Has(t, n, i);
      assert Has(t, t.name, t.id);
      CompareOrder(t.name, n);
      CompareOrder(n, t.name);
      if Compare(t.name, n) < 0 {
        InsertSorted(t.right, n, id);
        forall m, i: Id | Has(Insert(t.right, n, id), m, i) ensures Less(t.name, m) { InsertHas(t.right, n, id, m, i); }
      } else {
        InsertSorted(t.left, n, id);
        forall m, i: Id | Has(Insert(t.left, n, id), m, i) ensures Less(m, t.name) { InsertHas(t.left, n, id, m, i); }
      }
    }
  }

  /** The leftmost node, RB_TREE_MIN. */
  function Leftmost(t: Tree): (Name, Id)
    requires t.Node?
  {
    if t.left.Leaf? then (t.name, t.id) else Leftmost(t.left)
  }

  function DropLeftmost(t: Tree): Tree
    requires t.Node?
  {
    if t.left.Leaf? then t.right else Node(DropLeftmost(t.left), t.name, t.id, t.right)
  }

  /** rb_tree_remove_node, without rebalancing. */
  function Delete(t: Tree, n: Name): Tree {
    match t
    case Leaf => Leaf
    case Node(left, m, i, right) =>
      if m == n then
        if right.Leaf? then left else Node(left, Leftmost(right).0, Leftmost(right).1, DropLeftmost(right))
      else if Compare(m, n) < 0 then Node(left, m, i, Delete(right, n))
      else Node(Delete(left, n), m, i, right)
  }

  lemma {:induction false} LeftmostIsLeast(t: Tree)
    requires Sorted(t) && t.Node?
    ensures var (n, i) := Leftmost(t);
      && Has(t, n, i) && Formed(n) && Above(DropLeftmost(t), n) && Sorted(DropLeftmost(t))
      && (forall m, j :: Has(t, m, j) <==> Has(DropLeftmost(t), m, j) || (m == n && j == i))
  {
    var (n, i) := Leftmost(t);
    if t.left.Node? {
      LeftmostIsLeast(t.left);
      assert Less(n, t.name);
      var d := DropLeftmost(t);
      assert d == Node(DropLeftmost(t.left), t.name, t.id, t.right);
      forall m, j: Id | Has(d, m, j) ensures Less(n, m) {
        if Has(d.left, m, j) {
          assert Above(d.left, n);
        } else if Has(t.right, m, j) {
          HasFormed(t.right, m, j);
          assert Above(t.right, t.name);
          LessTransitive(n, t.name, m);
        }
      }
    }
  }

  lemma {:induction false} DeleteRight(t: Tree, n: Name)
    requires Sorted(t) && Formed(n)
    ensures Sorted(Delete(t, n)) && forall m, j :: Has(Delete(t, n), m, j) <==> Has(t, m, j) && m != n
  {
    if t.Node? {
      CompareOrder(t.name, n);
      CompareOrder(n, t.name);
      CompareOrder(n, n);
      DeleteRight(t.left, n);
      DeleteRight(t.right, n);
      if t.name == n {
        DeleteHere(t);
      } else if Compare(t.name, n) < 0 {
        assert forall j :: Has(t.left, n, j) ==> Less(n, t.name);
      } else {
        assert forall j :: Has(t.right, n, j) ==> Less(t.name, n);
      }
    }
  }

  /** Removing the root: its place is taken by the least of the right. */
  lemma DeleteHere(t: Tree)
    requires Sorted(t) && t.Node?
    ensures Sorted(Delete(t, t.name)) && forall m, j :: Has(Delete(t, t.name), m, j) <==> Has(t, m, j) && m != t.name
  {
    CompareOrder(t.name, t.name);
    assert forall j :: !Has(t.left, t.name, j) && !Has(t.right, t.name, j);
    if t.right.Node? {
      LeftmostIsLeast(t.right);
      var (n, i) := Leftmost(t.right);
      forall m, j: Id | Has(t.left, m, j) ensures Less(m, n) {
        HasFormed(t.left, m, j);
        LessTransitive(m, t.name, n);
      }
    }
  }
}
