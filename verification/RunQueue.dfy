/**
 * The per-CPU run queues of kern_runq.c with the wait accounting of kern_lpsched.c. A bitmap word is the set
 * of its one-bits' numbers, the least significant being 0.
 */
module RunQueue {
  import opened Words
  import opened Queues

  type Id = nat

  const PRI_COUNT: nat := 224
  const MAXPRI_USER: int := 63
  const WORDS: nat := 7

  /** The fields of struct lwp that place it on a run queue. */
  datatype Lwp = Lwp(cpu: nat, queued: bool, pri: int, boost: int, inherited: int, protect: int, aux: int, bound: bool)

  /** lwp_eprio. */
  function Eprio(l: Lwp): int {
    var pri := if l.pri <= MAXPRI_USER && l.boost > MAXPRI_USER then l.pri / 2 + l.boost else l.pri;
    Max(l.aux, pri)
  }

  predicate PrioOk(l: Lwp) { 0 <= Eprio(l) < PRI_COUNT }

  /** struct schedstate_percpu, and q_since of struct lpsched_cpu. */
  datatype Spc = Spc(queue: seq<seq<Id>>, bitmap: seq<set<int>>, count: int, mcount: int, maxpri: int, since: int)

  /** BITMAP_MSB >> (prio & BITMAP_MASK), as a bit number. */
  function Bit(p: int): int { 31 - p % 32 }

  function Word(p: int): int { p / 32 }

  // ----------------------------------------------------------------- enqueue

  /** sched_enqueue's changes to the CPU's state; head says where POSIX wants the LWP. */
  function Enqueue(s: Spc, x: Id, l: Lwp, head: bool, now: int): Spc
    requires |s.queue| == PRI_COUNT && |s.bitmap| == WORDS && PrioOk(l)
  {
    var p := Eprio(l);
    var q := s.queue[p];
    s.(queue := s.queue[p := if head then [x] + q else q + [x]],
       bitmap := if q == [] then s.bitmap[Word(p) := s.bitmap[Word(p)] + {Bit(p)}] else s.bitmap,
       count := s.count + 1,
       mcount := if l.bound then s.mcount else s.mcount + 1,
       maxpri := Max(p, s.maxpri),
       since := if s.count == 0 then now else s.since)
  }

  /** The lowest one-bit of a word. */
  function LowestBit(w: set<int>, b: int): int
    requires 0 <= b <= 32
    decreases 32 - b
  {
    if b == 32 || b in w then b else LowestBit(w, b + 1)
  }

  /** ffs: one plus the lowest one-bit. */
  function Ffs(w: set<int>): int { if w == {} then 0 else LowestBit(w, 0) + 1 }

  /** The search down the bitmap from word i. */
  function Highest(bitmap: seq<set<int>>, i: nat): int
    requires i < |bitmap|
  {
    if bitmap[i] != {} then i * 32 + (32 - Ffs(bitmap[i]))
    else if i == 0 then 0
    else Highest(bitmap, i - 1)
  }

  /** sched_dequeue's changes to the CPU's state. */
  function Dequeue(s: Spc, x: Id, l: Lwp): Spc
    requires |s.queue| == PRI_COUNT && |s.bitmap| == WORDS && PrioOk(l)
  {
    var p := Eprio(l);
    var q := Without(s.queue[p], x);
    var bitmap := if q == [] then s.bitmap[Word(p) := s.bitmap[Word(p)] - {Bit(p)}] else s.bitmap;
    s.(queue := s.queue[p := q],
       bitmap := bitmap,
       count := s.count - 1,
       mcount := if l.bound then s.mcount else s.mcount - 1,
       maxpri := if q == [] && p == s.maxpri then Highest(bitmap, Word(p)) else s.maxpri,
       since := if s.count - 1 == 0 then 0 else s.since)
  }

  // --------------------------------------------------------------- invariant

  predicate Shaped(s: Spc) { |s.queue| == PRI_COUNT && |s.bitmap| == WORDS }

  /** A bit is one if and only if its queue has somebody. */
  predicate Marked(s: Spc, p: int)
    requires Shaped(s) && 0 <= p < PRI_COUNT
  {
    Bit(p) in s.bitmap[Word(p)] <==> s.queue[p] != []
  }

  /** Words hold bits 0 to 31 only. */
  predicate WordOk(s: Spc, i: int)
    requires Shaped(s) && 0 <= i < WORDS
  {
    forall b :: b in s.bitmap[i] ==> 0 <= b < 32
  }

  predicate MaxOk(s: Spc)
    requires Shaped(s)
  {
    && 0 <= s.maxpri < PRI_COUNT
    && (s.maxpri > 0 ==> s.queue[s.maxpri] != [])
    && (forall p :: s.maxpri < p < PRI_COUNT ==> s.queue[p] == [])
  }

  /** How many LWPs the queues hold from priority p on; only those that may migrate if bound is not wanted. */
  function Total(queue: seq<seq<Id>>, lwps: map<Id, Lwp>, all: bool, p: nat): int
    requires p <= |queue|
    decreases |queue| - p
  {
    if p == |queue| then 0 else Size(queue[p], lwps, all) + Total(queue, lwps, all, p + 1)
  }

  function Size(q: seq<Id>, lwps: map<Id, Lwp>, all: bool): int {
    if q == [] then 0 else (if all || (q[0] in lwps && !lwps[q[0]].bound) then 1 else 0) + Size(q[1..], lwps, all)
  }

  /** The queues of CPU c hold exactly its queued LWPs, each at its effective priority, none twice. */
  ghost predicate Filed(s: Spc, c: nat, lwps: map<Id, Lwp>, p: int)
    requires Shaped(s) && 0 <= p < PRI_COUNT
  {
    && NoDups(s.queue[p])
    && forall x :: x in s.queue[p] <==> x in lwps && lwps[x].queued && lwps[x].cpu == c && Eprio(lwps[x]) == p
  }

  ghost predicate SpcOk(s: Spc, c: nat, lwps: map<Id, Lwp>) {
    && Shaped(s) && MaxOk(s)
    && (forall p :: 0 <= p < PRI_COUNT ==> Marked(s, p) && Filed(s, c, lwps, p))
    && (forall i :: 0 <= i < WORDS ==> WordOk(s, i))
    && s.count == Total(s.queue, lwps, true, 0) && s.mcount == Total(s.queue, lwps, false, 0)
  }

  // ------------------------------------------------------------------ bitmaps

  lemma {:induction false} LowestBitIsLowest(w: set<int>, b: int)
    requires 0 <= b <= 32
    ensures b <= LowestBit(w, b) <= 32 && (LowestBit(w, b) < 32 ==> LowestBit(w, b) in w)
    ensures forall y :: b <= y < LowestBit(w, b) ==> y !in w
    decreases 32 - b
  {
    if b < 32 && b !in w { LowestBitIsLowest(w, b + 1); }
  }

  lemma NoBits(w: set<int>)
    requires (forall b :: b in w ==> 0 <= b < 32) && LowestBit(w, 0) == 32
    ensures w == {}
  {
    LowestBitIsLowest(w, 0);
    assert forall b :: b !in w;
  }

  lemma BitInverse(p: int, q: int)
    requires 0 <= p && 0 <= q
    ensures Word(p) == Word(q) && Bit(p) == Bit(q) <==> p == q
    ensures 0 <= Bit(p) < 32
  {
  }

  /** The highest priority of a word that has a bit. */
  lemma WordHighest(s: Spc, i: nat)
    requires Shaped(s) && i < WORDS && WordOk(s, i) && s.bitmap[i] != {}
    ensures var m := i * 32 + (32 - Ffs(s.bitmap[i]));
      && i * 32 <= m < i * 32 + 32 && Bit(m) in s.bitmap[i] && Word(m) == i
      && forall p :: m < p < i * 32 + 32 ==> Bit(p) !in s.bitmap[i]
  {
    var w := s.bitmap[i];
    LowestBitIsLowest(w, 0);
    if LowestBit(w, 0) == 32 { NoBits(w); }
    var m := i * 32 + (32 - Ffs(w));
    assert Bit(m) == LowestBit(w, 0);
    forall p | m < p < i * 32 + 32 ensures Bit(p) !in w { assert Bit(p) == 31 - (p - i * 32); }
  }

  /** The search down the bitmap finds the highest non-empty queue below the word's end, or 0. */
  lemma {:induction false} HighestIsHighest(s: Spc, i: nat)
    requires Shaped(s) && i < WORDS
    requires forall p :: 0 <= p < PRI_COUNT ==> Marked(s, p)
    requires forall j :: 0 <= j < WORDS ==> WordOk(s, j)
    ensures var m := Highest(s.bitmap, i);
      && 0 <= m < i * 32 + 32 && (m > 0 ==> s.queue[m] != [])
      && forall p :: m < p < i * 32 + 32 ==> s.queue[p] == []
  {
    var m := Highest(s.bitmap, i);
    assert WordOk(s, i);
    if s.bitmap[i] != {} {
      WordHighest(s, i);
      assert Marked(s, m);
      forall p | m < p < i * 32 + 32 ensures s.queue[p] == [] { assert Marked(s, p) && Word(p) == i; }
    } else {
      if i > 0 { HighestIsHighest(s, i - 1); }
      forall p | i * 32 <= p < i * 32 + 32 ensures s.queue[p] == [] { assert Marked(s, p) && Word(p) == i; }
    }
  }

  // ------------------------------------------------------------------- counts

  lemma {:induction false} SizeConcat(a: seq<Id>, b: seq<Id>, lwps: map<Id, Lwp>, all: bool)
    ensures Size(a + b, lwps, all) == Size(a, lwps, all) + Size(b, lwps, all)
  {
    if a == [] {
      assert a + b == b;
    } else {
      assert (a + b)[0] == a[0] && (a + b)[1..] == a[1..] + b;
      SizeConcat(a[1..], b, lwps, all);
    }
  }

  lemma {:induction false} SizeWithout(q: seq<Id>, x: Id, lwps: map<Id, Lwp>, all: bool)
    requires NoDups(q) && x in q && x in lwps
    ensures Size(Without(q, x), lwps, all) == Size(q, lwps, all) - (if all || !lwps[x].bound then 1 else 0)
  {
    if q[0] == x {
      assert x !in q[1..];
    } else {
      SizeWithout(q[1..], x, lwps, all);
      var r := [q[0]] + Without(q[1..], x);
      assert r[1..] == Without(q[1..], x);
    }
  }

  lemma {:induction false} SizeFrame(q: seq<Id>, lwps: map<Id, Lwp>, lwps': map<Id, Lwp>, all: bool)
    requires forall x :: x in q ==> x in lwps && x in lwps' && lwps'[x].bound == lwps[x].bound
    ensures Size(q, lwps', all) == Size(q, lwps, all)
  {
    if q != [] { SizeFrame(q[1..], lwps, lwps', all); }
  }

  lemma {:induction false} TotalFrame(queue: seq<seq<Id>>, lwps: map<Id, Lwp>, lwps': map<Id, Lwp>, all: bool, p: nat)
    requires p <= |queue|
    requires forall k, x :: p <= k < |queue| && x in queue[k] ==> x in lwps && x in lwps' && lwps'[x].bound == lwps[x].bound
    ensures Total(queue, lwps', all, p) == Total(queue, lwps, all, p)
    decreases |queue| - p
  {
    if p < |queue| {
      SizeFrame(queue[p], lwps, lwps', all);
      TotalFrame(queue, lwps, lwps', all, p + 1);
    }
  }

  /** Replacing one queue changes the total by the difference. */
  lemma {:induction false} TotalUpdate(queue: seq<seq<Id>>, k: nat, q: seq<Id>, lwps: map<Id, Lwp>, all: bool, p: nat)
    requires k < |queue| && p <= |queue|
    ensures Total(queue[k := q], lwps, all, p) == Total(queue, lwps, all, p)
      + (if p <= k then Size(q, lwps, all) - Size(queue[k], lwps, all) else 0)
    decreases |queue| - p
  {
    if p < |queue| { TotalUpdate(queue, k, q, lwps, all, p + 1); }
  }

  lemma {:induction false} TotalNonNegative(queue: seq<seq<Id>>, lwps: map<Id, Lwp>, all: bool, p: nat)
    requires p <= |queue|
    ensures Total(queue, lwps, all, p) >= 0
    ensures all && Total(queue, lwps, all, p) == 0 ==> forall k :: p <= k < |queue| ==> queue[k] == []
    decreases |queue| - p
  {
    if p < |queue| {
      SizeNonNegative(queue[p], lwps, all);
      TotalNonNegative(queue, lwps, all, p + 1);
    }
  }

  lemma {:induction false} SizeNonNegative(q: seq<Id>, lwps: map<Id, Lwp>, all: bool)
    ensures Size(q, lwps, all) >= 0 && (all ==> Size(q, lwps, all) == |q|)
  {
    if q != [] { SizeNonNegative(q[1..], lwps, all); }
  }

  // -------------------------------------------------------- one CPU, one step

  function SetQueued(lwps: map<Id, Lwp>, x: Id, queued: bool): map<Id, Lwp>
    requires x in lwps
  {
    lwps[x := lwps[x].(queued := queued)]
  }

  lemma EnqueueMarks(s: Spc, c: nat, lwps: map<Id, Lwp>, x: Id, head: bool, now: int)
    requires SpcOk(s, c, lwps) && x in lwps && PrioOk(lwps[x])
    ensures var s' := Enqueue(s, x, lwps[x], head, now);
      && Shaped(s') && MaxOk(s') && (forall p :: 0 <= p < PRI_COUNT ==> Marked(s', p)) && (forall i :: 0 <= i < WORDS ==> WordOk(s', i))
  {
    hide Filed, Eprio;
    var s' := Enqueue(s, x, lwps[x], head, now);
    var e := Eprio(lwps[x]);
    forall p | 0 <= p < PRI_COUNT ensures Marked(s', p) {
      assert Marked(s, p) && Marked(s, e);
      BitInverse(p, e);
    }
    forall i | 0 <= i < WORDS ensures WordOk(s', i) {
      assert WordOk(s, i);
      BitInverse(e, e);
    }
  }

  lemma EnqueueFiles(s: Spc, c: nat, lwps: map<Id, Lwp>, x: Id, head: bool, now: int, p: int)
    requires SpcOk(s, c, lwps) && x in lwps && PrioOk(lwps[x]) && lwps[x].cpu == c && !lwps[x].queued && 0 <= p < PRI_COUNT
    ensures Filed(Enqueue(s, x, lwps[x], head, now), c, SetQueued(lwps, x, true), p)
  {
    var s' := Enqueue(s, x, lwps[x], head, now);
    assert Filed(s, c, lwps, p);
    var q := s.queue[p];
    if p == Eprio(lwps[x]) {
      assert x !in q;
      NoDupsConcat([x], q);
      NoDupsConcat(q, [x]);
    }
  }

  /** sched_enqueue keeps bitmap, maximum, counts and queues in step. */
  lemma EnqueueKeeps(s: Spc, c: nat, lwps: map<Id, Lwp>, x: Id, head: bool, now: int)
    requires SpcOk(s, c, lwps) && x in lwps && PrioOk(lwps[x]) && lwps[x].cpu == c && !lwps[x].queued
    ensures SpcOk(Enqueue(s, x, lwps[x], head, now), c, SetQueued(lwps, x, true))
  {
    hide MaxOk, Marked, WordOk;
    var s' := Enqueue(s, x, lwps[x], head, now);
    EnqueueMarks(s, c, lwps, x, head, now);
    forall p | 0 <= p < PRI_COUNT ensures Filed(s', c, SetQueued(lwps, x, true), p) { EnqueueFiles(s, c, lwps, x, head, now, p); }
    EnqueueCounts(s, c, lwps, x, head, now, true);
    EnqueueCounts(s, c, lwps, x, head, now, false);
  }

  lemma EnqueueCounts(s: Spc, c: nat, lwps: map<Id, Lwp>, x: Id, head: bool, now: int, all: bool)
    requires SpcOk(s, c, lwps) && x in lwps && PrioOk(lwps[x]) && lwps[x].cpu == c && !lwps[x].queued
    ensures Total(Enqueue(s, x, lwps[x], head, now).queue, SetQueued(lwps, x, true), all, 0)
      == Total(s.queue, lwps, all, 0) + (if all || !lwps[x].bound then 1 else 0)
  {
    hide MaxOk, Marked, WordOk;
    var lwps' := SetQueued(lwps, x, true);
    var p := Eprio(lwps[x]);
    var q := s.queue[p];
    forall k, y | 0 <= k < PRI_COUNT && y in s.queue[k] ensures y in lwps { assert Filed(s, c, lwps, k); }
    TotalFrame(s.queue, lwps, lwps', all, 0);
    TotalUpdate(s.queue, p, if head then [x] + q else q + [x], lwps', all, 0);
    SizeConcat([x], q, lwps', all);
    SizeConcat(q, [x], lwps', all);
    assert [x][1..] == [];
  }

  lemma DequeueMarks(s: Spc, c: nat, lwps: map<Id, Lwp>, x: Id)
    requires SpcOk(s, c, lwps) && x in lwps && PrioOk(lwps[x])
    ensures var s' := Dequeue(s, x, lwps[x]);
      && Shaped(s') && (forall p :: 0 <= p < PRI_COUNT ==> Marked(s', p)) && (forall i :: 0 <= i < WORDS ==> WordOk(s', i))
  {
    hide Filed, Eprio, Highest;
    var s' := Dequeue(s, x, lwps[x]);
    var e := Eprio(lwps[x]);
    forall p | 0 <= p < PRI_COUNT ensures Marked(s', p) {
      assert Marked(s, p) && Marked(s, e);
      BitInverse(p, e);
    }
    forall i | 0 <= i < WORDS ensures WordOk(s', i) { assert WordOk(s, i); }
  }

  /** The search that ffs and the word loop make leaves the highest non-empty priority, or 0. */
  lemma DequeueMax(s: Spc, c: nat, lwps: map<Id, Lwp>, x: Id)
    requires SpcOk(s, c, lwps) && x in lwps && PrioOk(lwps[x])
    ensures MaxOk(Dequeue(s, x, lwps[x]))
  {
    hide Filed, Marked, WordOk, Highest;
    var s' := Dequeue(s, x, lwps[x]);
    var p := Eprio(lwps[x]);
    DequeueMarks(s, c, lwps, x);
    if s'.queue[p] == [] && p == s.maxpri {
      HighestIsHighest(s', Word(p));
      assert forall k :: p < k < PRI_COUNT ==> s'.queue[k] == [];
    }
  }

  lemma DequeueFiles(s: Spc, c: nat, lwps: map<Id, Lwp>, x: Id, p: int)
    requires SpcOk(s, c, lwps) && x in lwps && PrioOk(lwps[x]) && lwps[x].cpu == c && lwps[x].queued && 0 <= p < PRI_COUNT
    ensures Filed(Dequeue(s, x, lwps[x]), c, SetQueued(lwps, x, false), p)
  {
    hide Highest;
    assert Filed(s, c, lwps, p);
    if p == Eprio(lwps[x]) { WithoutNoDups(s.queue[p], x); }
  }

  lemma DequeueCounts(s: Spc, c: nat, lwps: map<Id, Lwp>, x: Id, all: bool)
    requires SpcOk(s, c, lwps) && x in lwps && PrioOk(lwps[x]) && lwps[x].cpu == c && lwps[x].queued
    ensures Total(Dequeue(s, x, lwps[x]).queue, SetQueued(lwps, x, false), all, 0)
      == Total(s.queue, lwps, all, 0) - (if all || !lwps[x].bound then 1 else 0)
  {
    hide MaxOk, Marked, WordOk, Highest;
    var lwps' := SetQueued(lwps, x, false);
    var p := Eprio(lwps[x]);
    assert Filed(s, c, lwps, p);
    forall k, y | 0 <= k < PRI_COUNT && y in s.queue[k] ensures y in lwps { assert Filed(s, c, lwps, k); }
    TotalFrame(s.queue, lwps, lwps', all, 0);
    TotalUpdate(s.queue, p, Without(s.queue[p], x), lwps', all, 0);
    SizeWithout(s.queue[p], x, lwps', all);
  }

  /** sched_dequeue keeps bitmap, maximum, counts and queues in step. */
  lemma DequeueKeeps(s: Spc, c: nat, lwps: map<Id, Lwp>, x: Id)
    requires SpcOk(s, c, lwps) && x in lwps && PrioOk(lwps[x]) && lwps[x].cpu == c && lwps[x].queued
    ensures SpcOk(Dequeue(s, x, lwps[x]), c, SetQueued(lwps, x, false))
  {
    hide MaxOk, Marked, WordOk, Highest;
    var s' := Dequeue(s, x, lwps[x]);
    DequeueMarks(s, c, lwps, x);
    DequeueMax(s, c, lwps, x);
    forall p | 0 <= p < PRI_COUNT ensures Filed(s', c, SetQueued(lwps, x, false), p) { DequeueFiles(s, c, lwps, x, p); }
    DequeueCounts(s, c, lwps, x, true);
    DequeueCounts(s, c, lwps, x, false);
  }

  /** A CPU is untouched by changes to an LWP that is not on its queues. */
  lemma OthersKeep(s: Spc, c: nat, lwps: map<Id, Lwp>, lwps': map<Id, Lwp>, x: Id)
    requires SpcOk(s, c, lwps) && x in lwps && x in lwps' && lwps' == lwps[x := lwps'[x]]
    requires (lwps[x].queued ==> lwps[x].cpu != c) && (lwps'[x].queued ==> lwps'[x].cpu != c)
    ensures SpcOk(s, c, lwps')
  {
    hide MaxOk, Marked, WordOk, Eprio;
    forall p | 0 <= p < PRI_COUNT ensures Filed(s, c, lwps', p) { assert Filed(s, c, lwps, p); }
    forall k, y | 0 <= k < PRI_COUNT && y in s.queue[k] ensures y in lwps && y != x { assert Filed(s, c, lwps, k); }
    TotalFrame(s.queue, lwps, lwps', true, 0);
    TotalFrame(s.queue, lwps, lwps', false, 0);
  }
}
