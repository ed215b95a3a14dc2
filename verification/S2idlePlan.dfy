/** The order in which all mounts are suspended and synced, and what that order guarantees. */
module S2idlePlan {
  import opened Options
  import opened Queues
  import opened S2idleChain

  datatype Event = Suspended(m: Mount) | Synced(m: Mount) | Resumed(m: Mount)

  /** canon[i] is the canonical mount of list[i]; it is in the list and is its own canonical mount. */
  ghost predicate Canonical(list: seq<Mount>, canon: seq<Mount>) {
    && |canon| == |list| && NoDups(list)
    && (forall i :: 0 <= i < |list| ==> canon[i] in list)
    && (forall i, j :: 0 <= i < |list| && 0 <= j < |list| && list[j] == canon[i] ==> canon[j] == list[j])
  }

  predicate Own(list: seq<Mount>, canon: seq<Mount>, i: int)
    requires |canon| == |list|
  {
    0 <= i < |list| && canon[i] == list[i]
  }

  /** The mounts among the first k whose canonical mount is m are synced, the last first. */
  function Syncs(list: seq<Mount>, canon: seq<Mount>, m: Mount, k: nat): seq<Event>
    requires |canon| == |list| && k <= |list|
  {
    if k == 0 then []
    else (if canon[k - 1] == m then [Synced(list[k - 1])] else []) + Syncs(list, canon, m, k - 1)
  }

  /** The first k mounts, the last first: each canonical mount is suspended, then it and its aliases are synced. */
  function Plan(list: seq<Mount>, canon: seq<Mount>, k: nat): seq<Event>
    requires |canon| == |list| && k <= |list|
  {
    if k == 0 then []
    else (if canon[k - 1] == list[k - 1] then [Suspended(list[k - 1])] + Syncs(list, canon, list[k - 1], |list|) else [])
         + Plan(list, canon, k - 1)
  }

  /** The canonical mounts from index i on, the last first. */
  function Tops(list: seq<Mount>, canon: seq<Mount>, i: nat): seq<Mount>
    requires |canon| == |list| && i <= |list|
    decreases |list| - i
  {
    if i == |list| then []
    else Tops(list, canon, i + 1) + (if canon[i] == list[i] then [list[i]] else [])
  }

  /** The reversal of a stack of suspensions. */
  function Undo(stack: seq<Mount>): seq<Event> {
    if stack == [] then [] else [Resumed(stack[|stack| - 1])] + Undo(stack[..|stack| - 1])
  }

  // ------------------------------------------------------------- what it means

  /** The mounts suspended in a log, in order. */
  function Suspensions(log: seq<Event>): seq<Mount> {
    if log == [] then []
    else (if log[0].Suspended? then [log[0].m] else []) + Suspensions(log[1..])
  }

  /** The mount suspended last. */
  function Current(log: seq<Event>): Option<Mount> {
    if log == [] then None
    else if Current(log[1..]).Some? then Current(log[1..])
    else if log[0].Suspended? then Some(log[0].m) else None
  }

  function Count(log: seq<Event>, e: Event): nat {
    if log == [] then 0 else (if log[0] == e then 1 else 0) + Count(log[1..], e)
  }

  lemma {:induction false} Concat(a: seq<Event>, b: seq<Event>, e: Event)
    ensures Suspensions(a + b) == Suspensions(a) + Suspensions(b)
    ensures Current(a + b) == if Current(b).Some? then Current(b) else Current(a)
    ensures Count(a + b, e) == Count(a, e) + Count(b, e)
  {
    if a == [] {
      assert a + b == b;
    } else {
      assert (a + b)[0] == a[0] && (a + b)[1..] == a[1..] + b;
      Concat(a[1..], b, e);
    }
  }

  lemma {:induction false} SyncsOnly(list: seq<Mount>, canon: seq<Mount>, m: Mount, k: nat)
    requires |canon| == |list| && k <= |list|
    ensures Suspensions(Syncs(list, canon, m, k)) == []
    ensures forall p :: 0 <= p < |Syncs(list, canon, m, k)| ==>
      Syncs(list, canon, m, k)[p].Synced? && exists j :: 0 <= j < k && canon[j] == m && Syncs(list, canon, m, k)[p].m == list[j]
  {
    if k > 0 {
      SyncsOnly(list, canon, m, k - 1);
      if canon[k - 1] == m {
        assert Syncs(list, canon, m, k)[0] == Synced(list[k - 1]);
        assert Syncs(list, canon, m, k)[1..] == Syncs(list, canon, m, k - 1);
      } else {
        assert Syncs(list, canon, m, k) == Syncs(list, canon, m, k - 1);
      }
    }
  }

  function Block(list: seq<Mount>, canon: seq<Mount>, k: nat): seq<Event>
    requires |canon| == |list| && k < |list|
  {
    if canon[k] == list[k] then [Suspended(list[k])] + Syncs(list, canon, list[k], |list|) else []
  }

  lemma {:induction false} TopsSplit(list: seq<Mount>, canon: seq<Mount>, k: nat)
    requires |canon| == |list| && k <= |list|
    ensures Tops(list, canon, k) + Suspensions(Plan(list, canon, k)) == Tops(list, canon, 0)
  {
    if k > 0 {
      TopsSplit(list, canon, k - 1);
      var b := Block(list, canon, k - 1);
      assert Plan(list, canon, k) == b + Plan(list, canon, k - 1);
      Concat(b, Plan(list, canon, k - 1), Synced(0));
      if canon[k - 1] == list[k - 1] {
        SyncsOnly(list, canon, list[k - 1], |list|);
        Concat([Suspended(list[k - 1])], Syncs(list, canon, list[k - 1], |list|), Synced(0));
        assert Suspensions([Suspended(list[k - 1])]) == [list[k - 1]];
      }
    }
  }

  /** Each canonical mount is suspended exactly once, in reverse list order. */
  lemma SuspendsInReverse(list: seq<Mount>, canon: seq<Mount>)
    requires |canon| == |list|
    ensures Suspensions(Plan(list, canon, |list|)) == Tops(list, canon, 0)
  {
    TopsSplit(list, canon, |list|);
  }

  /** Tops lists exactly the canonical mounts, none twice. */
  lemma {:induction false} TopsMeaning(list: seq<Mount>, canon: seq<Mount>, i: nat)
    requires |canon| == |list| && NoDups(list) && i <= |list|
    ensures NoDups(Tops(list, canon, i))
    ensures forall x :: x in Tops(list, canon, i) <==> exists j :: i <= j < |list| && Own(list, canon, j) && list[j] == x
    decreases |list| - i
  {
    if i < |list| {
      TopsMeaning(list, canon, i + 1);
      var t := Tops(list, canon, i + 1);
      if canon[i] == list[i] {
        assert Own(list, canon, i);
        assert list[i] !in t;
        NoDupsConcat(t, [list[i]]);
      }
    }
  }

  /** When a mount is synced, the mount suspended last is its own canonical mount. */
  lemma {:induction false} SyncedUnderCanonical(list: seq<Mount>, canon: seq<Mount>, k: nat, p: nat)
    requires |canon| == |list| && k <= |list| && p < |Plan(list, canon, k)| && Plan(list, canon, k)[p].Synced?
    ensures exists j :: 0 <= j < |list| && list[j] == Plan(list, canon, k)[p].m && Current(Plan(list, canon, k)[..p]) == Some(canon[j])
  {
    var b, rest := Block(list, canon, k - 1), Plan(list, canon, k - 1);
    var plan := Plan(list, canon, k);
    assert plan == b + rest;
    if p < |b| {
      var syncs := Syncs(list, canon, list[k - 1], |list|);
      assert b == [Suspended(list[k - 1])] + syncs;
      SyncsOnly(list, canon, list[k - 1], |list|);
      assert plan[p] == syncs[p - 1];
      assert plan[..p] == [Suspended(list[k - 1])] + syncs[..p - 1];
      Concat([Suspended(list[k - 1])], syncs[..p - 1], Synced(0));
      NoSuspension(syncs[..p - 1]);
      assert Current([Suspended(list[k - 1])]) == Some(list[k - 1]);
    } else {
      SyncedUnderCanonical(list, canon, k - 1, p - |b|);
      assert plan[p] == rest[p - |b|];
      assert plan[..p] == b + rest[..p - |b|];
      Concat(b, rest[..p - |b|], Synced(0));
    }
  }

  lemma {:induction false} NoSuspension(log: seq<Event>)
    requires forall p :: 0 <= p < |log| ==> log[p].Synced?
    ensures Current(log) == None
  {
    if log != [] {
      assert forall p :: 0 <= p < |log[1..]| ==> log[1..][p] == log[p + 1];
      NoSuspension(log[1..]);
    }
  }

  lemma {:induction false} SyncsCount(list: seq<Mount>, canon: seq<Mount>, m: Mount, k: nat, j: nat)
    requires |canon| == |list| && NoDups(list) && k <= |list| && j < |list|
    ensures Count(Syncs(list, canon, m, k), Synced(list[j])) == if j < k && canon[j] == m then 1 else 0
  {
    if k > 0 {
      SyncsCount(list, canon, m, k - 1, j);
      Concat(if canon[k - 1] == m then [Synced(list[k - 1])] else [], Syncs(list, canon, m, k - 1), Synced(list[j]));
    }
  }

  lemma {:induction false} PlanCount(list: seq<Mount>, canon: seq<Mount>, k: nat, i: nat, j: nat)
    requires |canon| == |list| && NoDups(list) && k <= |list| && i < |list| && j < |list| && canon[j] == list[i] == canon[i]
    ensures Count(Plan(list, canon, k), Synced(list[j])) == if i < k then 1 else 0
  {
    if k > 0 {
      PlanCount(list, canon, k - 1, i, j);
      BlockCount(list, canon, k - 1, i, j);
      var b := Block(list, canon, k - 1);
      assert Plan(list, canon, k) == b + Plan(list, canon, k - 1);
      hide Plan, Block, Count;
      Concat(b, Plan(list, canon, k - 1), Synced(list[j]));
    }
  }

  lemma BlockCount(list: seq<Mount>, canon: seq<Mount>, k: nat, i: nat, j: nat)
    requires |canon| == |list| && NoDups(list) && k < |list| && i < |list| && j < |list| && canon[j] == list[i] == canon[i]
    ensures Count(Block(list, canon, k), Synced(list[j])) == if i == k then 1 else 0
  {
    hide Syncs;
    assert list[k] == list[i] ==> k == i;
    if canon[k] == list[k] {
      Concat([Suspended(list[k])], Syncs(list, canon, list[k], |list|), Synced(list[j]));
      SyncsCount(list, canon, list[k], |list|, j);
    }
  }

  /** Each mount is synced exactly once. */
  lemma SyncedOnce(list: seq<Mount>, canon: seq<Mount>, j: nat)
    requires Canonical(list, canon) && j < |list|
    ensures Count(Plan(list, canon, |list|), Synced(list[j])) == 1
  {
    var i :| 0 <= i < |list| && list[i] == canon[j];
    PlanCount(list, canon, |list|, i, j);
  }

  /** The mounts resumed in a log, in order. */
  function Resumptions(log: seq<Event>): seq<Mount> {
    if log == [] then []
    else (if log[0].Resumed? then [log[0].m] else []) + Resumptions(log[1..])
  }

  /** Undo resumes exactly the reverse of the stack. */
  lemma UndoReverses(stack: seq<Mount>)
    ensures |Resumptions(Undo(stack))| == |stack|
    ensures forall i :: 0 <= i < |stack| ==> Resumptions(Undo(stack))[i] == stack[|stack| - 1 - i]
  {
    forall i | 0 <= i < |stack|
      ensures |Resumptions(Undo(stack))| == |stack| && Resumptions(Undo(stack))[i] == stack[|stack| - 1 - i]
    {
      UndoReversesAt(stack, i);
    }
    if |stack| > 0 { UndoReversesAt(stack, 0); }
  }

  lemma {:induction false} UndoReversesAt(stack: seq<Mount>, i: nat)
    requires i < |stack|
    ensures |Resumptions(Undo(stack))| == |stack| && Resumptions(Undo(stack))[i] == stack[|stack| - 1 - i]
  {
    var n := |stack| - 1;
    var rest := stack[..n];
    var u := Undo(stack);
    assert u[0] == Resumed(stack[n]) && u[1..] == Undo(rest);
    if n > 0 { UndoReversesAt(rest, if i > 0 then i - 1 else 0); }
  }

  // ------------------------------------------------- the global suspension

  /** The last canonical mount from index i on, which is suspended first; |list| if there is none. */
  lemma FirstSuspended(list: seq<Mount>, canon: seq<Mount>, i: nat) returns (g: nat)
    requires |canon| == |list| && i <= |list|
    ensures i <= g <= |list| && (forall j :: g < j < |list| ==> !Own(list, canon, j))
    ensures g < |list| ==> Own(list, canon, g) && Tops(list, canon, g + 1) == [] && Tops(list, canon, g) == [list[g]]
    ensures g == |list| ==> Tops(list, canon, i) == [] && forall j :: i <= j < |list| ==> !Own(list, canon, j)
    ensures forall j :: i <= j <= g < |list| ==> Tops(list, canon, j) != []
    decreases |list| - i
  {
    if i == |list| {
      g := i;
    } else {
      g := FirstSuspended(list, canon, i + 1);
      if g == |list| && Own(list, canon, i) { g := i; }
    }
  }
}
