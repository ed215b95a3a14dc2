/** Chains of lower mounts, and the search for the last of them (vfs_s2idle.c). */
module S2idleChain {
  import opened Options
  import opened Queues

  type Mount = nat

  /** The mount k steps down the chain from m. */
  function Down(lower: map<Mount, Mount>, m: Mount, k: nat): Option<Mount> {
    if k == 0 then Some(m)
    else match Down(lower, m, k - 1)
      case None => None
      case Some(x) => if x in lower then Some(lower[x]) else None
  }

  /** The chain from m has no end. */
  ghost predicate Cyclic(lower: map<Mount, Mount>, m: Mount) { forall k: nat :: Down(lower, m, k).Some? }

  /** c ends the chain from m. */
  ghost predicate IsLast(lower: map<Mount, Mount>, m: Mount, c: Mount) {
    c !in lower && exists k: nat :: Down(lower, m, k) == Some(c)
  }

  lemma {:induction false} DownAdd(lower: map<Mount, Mount>, m: Mount, i: nat, j: nat)
    ensures Down(lower, m, i).None? ==> Down(lower, m, i + j).None?
    ensures Down(lower, m, i).Some? ==> Down(lower, m, i + j) == Down(lower, Down(lower, m, i).value, j)
    decreases j
  {
    if j > 0 { DownAdd(lower, m, i, j - 1); }
  }

  /** If the chain comes back, it never ends. */
  lemma {:induction false} RepeatsForever(lower: map<Mount, Mount>, m: Mount, i: nat, j: nat, k: nat)
    requires i < j && Down(lower, m, i).Some? && Down(lower, m, i) == Down(lower, m, j)
    ensures Down(lower, m, k).Some?
    decreases k
  {
    if k <= j {
      if Down(lower, m, k).None? { DownAdd(lower, m, k, j - k); }
    } else {
      RepeatsForever(lower, m, i, j, k - (j - i));
      DownAdd(lower, m, i, k - j);
      DownAdd(lower, m, j, k - j);
    }
  }

  ghost function Prefix(lower: map<Mount, Mount>, m: Mount, n: nat): seq<Mount>
    requires forall k: nat :: k < n ==> Down(lower, m, k).Some?
  {
    seq(n, k requires 0 <= k < n => Down(lower, m, k).value)
  }

  lemma {:induction false} NoDupsFit(q: seq<Mount>, s: set<Mount>)
    requires NoDups(q) && forall x :: x in q ==> x in s
    ensures |q| <= |s|
  {
    if q != [] {
      var n := |q| - 1;
      assert q[n] in q;
      forall x | x in q[..n] ensures x in s - {q[n]} { assert x in q; }
      NoDupsFit(q[..n], s - {q[n]});
    }
  }

  /** A chain with more steps than there are links meets itself. */
  lemma MeetsItself(lower: map<Mount, Mount>, m: Mount) returns (i: nat, j: nat)
    requires Down(lower, m, |lower| + 1).Some?
    ensures i < j <= |lower| && Down(lower, m, i) == Down(lower, m, j) && Down(lower, m, i).Some?
  {
    var n := |lower| + 1;
    forall k: nat | k <= n ensures Down(lower, m, k).Some? { if Down(lower, m, k).None? { DownAdd(lower, m, k, n - k); } }
    var q := Prefix(lower, m, n);
    forall x | x in q ensures x in lower.Keys {
      var k :| 0 <= k < n && q[k] == x;
      assert Down(lower, m, k + 1).Some?;
    }
    assert |lower.Keys| == |lower|;
    if NoDups(q) { NoDupsFit(q, lower.Keys); }
    i, j :| 0 <= i < j < n && q[i] == q[j];
  }

  /** Repetition with period p from i on. */
  lemma {:induction false} Periodic(lower: map<Mount, Mount>, m: Mount, i: nat, p: nat, k: nat, c: nat)
    requires Down(lower, m, i).Some? && Down(lower, m, i) == Down(lower, m, i + p) && i <= k
    ensures Down(lower, m, k + c * p) == Down(lower, m, k)
    decreases c
  {
    if c > 0 {
      Periodic(lower, m, i, p, k, c - 1);
      var k' := k + (c - 1) * p;
      assert k + c * p == k' + p;
      MulNonNegative(c - 1, p);
      DownAdd(lower, m, i, k' - i);
      DownAdd(lower, m, i + p, k' - i);
    }
  }

  lemma MulNonNegative(a: nat, b: nat)
    ensures a * b >= 0
  {
  }

  /** On an endless chain the fast pointer catches the slow one within as many steps as there are links. */
  lemma FastMeetsSlow(lower: map<Mount, Mount>, m: Mount) returns (n: nat)
    requires Down(lower, m, |lower| + 1).Some?
    ensures 1 <= n <= |lower| && Down(lower, m, n) == Down(lower, m, 2 * n) && Down(lower, m, n).Some?
  {
    var i, j := MeetsItself(lower, m);
    var c;
    n, c := NextMultiple(i, j - i);
    Periodic(lower, m, i, j - i, n, c);
    RepeatsForever(lower, m, i, j, n);
  }

  lemma NextMultiple(i: nat, p: nat) returns (n: nat, c: nat)
    requires p > 0
    ensures n >= i && 1 <= n <= i + p && n == c * p
  {
    c := i / p + 1;
    n := c * p;
    assert i == (i / p) * p + i % p;
    assert n == (i / p) * p + p;
  }

  /** vfs_s2idle_canonical_mount: Floyd's search for a cycle, then the walk to the end. */
  method CanonicalMount(lower: map<Mount, Mount>, mp: Mount) returns (r: Option<Mount>)
    ensures r.None? <==> Cyclic(lower, mp)
    ensures r.Some? ==> IsLast(lower, mp, r.value)
  {
    var slow, fast := mp, Some(mp);
    ghost var n: nat := 0;
    while fast.Some? && fast.value in lower
      invariant n <= |lower| && Down(lower, mp, n) == Some(slow) && Down(lower, mp, 2 * n) == fast
      invariant forall k: nat :: 1 <= k <= n ==> Down(lower, mp, k) != Down(lower, mp, 2 * k)
      decreases |lower| - n
    {
      Progress(lower, mp, n);
      assert Down(lower, mp, 2 * n + 1).Some?;
      DownAdd(lower, mp, n + 1, n);
      slow := lower[slow];
      fast := Some(lower[fast.value]);
      if fast.value in lower { fast := Some(lower[fast.value]); } else { fast := None; }
      n := n + 1;
      assert Down(lower, mp, 2 * n) == fast;
      if Some(slow) == fast {
        forall k: nat ensures Down(lower, mp, k).Some? { RepeatsForever(lower, mp, n, 2 * n, k); }
        return None;
      }
    }
    ghost var end := if fast.None? then 2 * n else 2 * n + 1;
    assert Down(lower, mp, end).None?;
    var c := mp;
    ghost var k := 0;
    while c in lower
      invariant Down(lower, mp, k) == Some(c) && k < end
      decreases end - k
    {
      c := lower[c];
      k := k + 1;
    }
    return Some(c);
  }

  /** While the pointers have not met and the chain goes on, fewer steps were taken than there are links. */
  lemma Progress(lower: map<Mount, Mount>, m: Mount, n: nat)
    requires Down(lower, m, 2 * n).Some? && Down(lower, m, 2 * n).value in lower
    requires forall k: nat :: 1 <= k <= n ==> Down(lower, m, k) != Down(lower, m, 2 * k)
    ensures n < |lower| && Down(lower, m, n).Some? && Down(lower, m, n).value in lower
  {
    assert Down(lower, m, 2 * n + 1).Some?;
    if Down(lower, m, n + 1).None? { DownAdd(lower, m, n + 1, n); }
    if Down(lower, m, n).None? { DownAdd(lower, m, n, n); }
    if n >= |lower| {
      if Down(lower, m, |lower| + 1).None? { DownAdd(lower, m, |lower| + 1, 2 * n + 1 - (|lower| + 1)); }
      var k := FastMeetsSlow(lower, m);
    }
  }

  /** The answer is unique: a chain has one last mount. */
  lemma OneLast(lower: map<Mount, Mount>, m: Mount, c: Mount, d: Mount)
    requires IsLast(lower, m, c) && IsLast(lower, m, d)
    ensures c == d
  {
    var i: nat :| Down(lower, m, i) == Some(c);
    var j: nat :| Down(lower, m, j) == Some(d);
    if i < j {
      DownAdd(lower, m, i, 1);
      DownAdd(lower, m, i + 1, j - i - 1);
    } else if j < i {
      DownAdd(lower, m, j, 1);
      DownAdd(lower, m, j + 1, i - j - 1);
    }
  }
}
