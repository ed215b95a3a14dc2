/**
 * Lock-free readers of the timehands ring (kern_tc.c) under every interleaving with windups: every load
 * and store is a step of its own, under sequential consistency, with unbounded generations.
 */
module TimeSeqlock {

  const HANDS: nat := 10

  datatype Hand = Hand(fields: seq<int>, gen: nat)

  /** Where tc_windup is: filling the next hand, generation stored, or pointer stored. */
  datatype Writer = Idle | Filling(th: nat, ogen: nat) | Stamped(th: nat, ogen: nat) | Published(tho: nat)

  /** Where a reader's loop is: about to load the current hand, about to load its generation, loading fields, or out. */
  datatype Reader = Start | Pointed(th: nat) | Loading(th: nat, gen: nat, got: seq<int>) | Done(th: nat, gen: nat, got: seq<int>)

  /**
   * `whole` records the contents of hand h when its generation became g; `live` those contents to which
   * the published pointer has pointed. Neither is read by any step.
   */
  datatype State = State(hands: seq<Hand>, cur: nat, writer: Writer, readers: map<nat, Reader>,
                         whole: map<(nat, nat), seq<int>>, live: set<(nat, nat)>)

  datatype Step =
    | Begin | Store(k: nat, v: int) | Stamp | Publish | Retire
    | LoadPointer(r: nat) | LoadGen(r: nat) | LoadField(r: nat) | Check(r: nat) | Again(r: nat)

  predicate Enabled(s: State, step: Step) {
    match step
    case Begin => s.writer.Idle? && s.cur < HANDS == |s.hands|
    case Store(k, _) => s.writer.Filling? && s.writer.th < |s.hands| && k < |s.hands[s.writer.th].fields|
    case Stamp => s.writer.Filling? && s.writer.th < |s.hands|
    case Publish => s.writer.Stamped? && s.writer.th < |s.hands| && s.cur < |s.hands|
    case Retire => s.writer.Published? && s.writer.tho < |s.hands|
    case LoadPointer(r) => r in s.readers && s.readers[r].Start?
    case LoadGen(r) => r in s.readers && s.readers[r].Pointed? && s.readers[r].th < |s.hands|
    case LoadField(r) => r in s.readers && s.readers[r].Loading? && s.readers[r].th < |s.hands| && |s.readers[r].got| < |s.hands[s.readers[r].th].fields|
    case Check(r) => r in s.readers && s.readers[r].Loading? && s.readers[r].th < |s.hands| && |s.readers[r].got| == |s.hands[s.readers[r].th].fields|
    case Again(r) => r in s.readers && s.readers[r].Done?
  }

  function SetGen(s: State, h: nat, gen: nat): State
    requires h < |s.hands|
  {
    s.(hands := s.hands[h := s.hands[h].(gen := gen)])
  }

  function Next(s: State, step: Step): State
    requires Enabled(s, step)
  {
    match step
    case Begin =>
      var th := (s.cur + 1) % HANDS;
      SetGen(s, th, 0).(writer := Filling(th, s.hands[th].gen))
    case Store(k, v) =>
      var h := s.hands[s.writer.th];
      s.(hands := s.hands[s.writer.th := h.(fields := h.fields[k := v])])
    case Stamp =>
      var th, g := s.writer.th, s.writer.ogen + 1;
      SetGen(s, th, g).(writer := Stamped(th, s.writer.ogen), whole := s.whole[(th, g) := s.hands[th].fields])
    case Publish =>
      s.(cur := s.writer.th, writer := Published(s.cur), live := s.live + {(s.writer.th, s.hands[s.writer.th].gen)})
    case Retire =>
      var tho := s.writer.tho;
      var g := s.hands[tho].gen + 1;
      SetGen(s, tho, g).(writer := Idle, whole := s.whole[(tho, g) := s.hands[tho].fields], live := s.live + {(tho, g)})
    case LoadPointer(r) => s.(readers := s.readers[r := Pointed(s.cur)])
    case LoadGen(r) => s.(readers := s.readers[r := Loading(s.readers[r].th, s.hands[s.readers[r].th].gen, [])])
    case LoadField(r) =>
      var me := s.readers[r];
      s.(readers := s.readers[r := Loading(me.th, me.gen, me.got + [s.hands[me.th].fields[|me.got|]])])
    case Check(r) =>
      var me := s.readers[r];
      s.(readers := s.readers[r := if me.gen != 0 && me.gen == s.hands[me.th].gen then Done(me.th, me.gen, me.got) else Start])
    case Again(r) => s.(readers := s.readers[r := Start])
  }

  // --------------------------------------------------------------- invariant

  /** The generation hand h has, or had before it was zeroed for filling. */
  function Last(s: State, h: nat): nat
    requires h < |s.hands|
  {
    if s.writer.Filling? && s.writer.th == h then s.writer.ogen else s.hands[h].gen
  }

  predicate Shaped(s: State) {
    && |s.hands| == HANDS && s.cur < HANDS && s.hands[s.cur].gen != 0
    && (match s.writer
        case Idle => true
        case Filling(th, _) => th == (s.cur + 1) % HANDS && s.hands[th].gen == 0
        case Stamped(th, ogen) => th == (s.cur + 1) % HANDS && s.hands[th].gen == ogen + 1
        case Published(tho) => tho < HANDS && tho != s.cur && s.hands[tho].gen != 0)
  }

  /** A hand with a generation holds what it held when it got that generation. */
  ghost predicate HandWhole(s: State, h: nat)
    requires h < |s.hands|
  {
    s.hands[h].gen != 0 ==> (h, s.hands[h].gen) in s.whole && s.whole[(h, s.hands[h].gen)] == s.hands[h].fields
  }

  /** Generations only go up, also across the time a hand is being filled. */
  ghost predicate KeyOk(s: State, h: nat, g: nat)
    requires Shaped(s)
  {
    (h, g) in s.whole ==> h < HANDS && 1 <= g <= Last(s, h) && ((h, g) in s.live || s.writer == Stamped(h, g - 1))
  }

  ghost predicate ReaderOk(s: State, me: Reader)
    requires Shaped(s)
  {
    match me
    case Start => true
    case Pointed(th) => th < HANDS
    case Loading(th, g, got) =>
      th < HANDS && g <= Last(s, th) && (g != 0 && s.hands[th].gen == g ==> got <= s.hands[th].fields)
    case Done(th, g, got) => (th, g) in s.whole && got == s.whole[(th, g)]
  }

  ghost predicate Inv(s: State) {
    && Shaped(s)
    && (forall h :: 0 <= h < HANDS ==> HandWhole(s, h))
    && (forall h, g :: KeyOk(s, h, g))
    && (forall k :: k in s.live ==> k in s.whole)
    && (s.writer.Stamped? ==> (s.writer.th, s.writer.ogen + 1) !in s.live)
    && (forall r :: r in s.readers ==> ReaderOk(s, s.readers[r]))
  }

  /** A reader's step changes only that reader. */
  lemma ReaderStep(s: State, r: nat, me: Reader)
    requires Inv(s) && ReaderOk(s, me)
    ensures Inv(s.(readers := s.readers[r := me]))
  {
    var s' := s.(readers := s.readers[r := me]);
    forall h | 0 <= h < HANDS ensures HandWhole(s', h) { assert HandWhole(s, h); }
    forall h, g ensures KeyOk(s', h, g) { assert KeyOk(s, h, g); }
    forall q | q in s'.readers ensures ReaderOk(s', s'.readers[q]) { assert q != r ==> ReaderOk(s, s.readers[q]); }
  }

  lemma BeginKeeps(s: State)
    requires Inv(s) && Enabled(s, Begin)
    ensures Inv(Next(s, Begin))
  {
    var s' := Next(s, Begin);
    forall h | 0 <= h < HANDS ensures HandWhole(s', h) { assert HandWhole(s, h); }
    forall h, g ensures KeyOk(s', h, g) { assert KeyOk(s, h, g); }
    forall r | r in s'.readers ensures ReaderOk(s', s'.readers[r]) { assert ReaderOk(s, s.readers[r]); }
  }

  lemma StoreKeeps(s: State, k: nat, v: int)
    requires Inv(s) && Enabled(s, Store(k, v))
    ensures Inv(Next(s, Store(k, v)))
  {
    var s' := Next(s, Store(k, v));
    forall h | 0 <= h < HANDS ensures HandWhole(s', h) { assert HandWhole(s, h); }
    forall h, g ensures KeyOk(s', h, g) { assert KeyOk(s, h, g); }
    forall r | r in s'.readers ensures ReaderOk(s', s'.readers[r]) { assert ReaderOk(s, s.readers[r]); }
  }

  lemma StampKeeps(s: State)
    requires Inv(s) && Enabled(s, Stamp)
    ensures Inv(Next(s, Stamp))
  {
    var s' := Next(s, Stamp);
    forall h | 0 <= h < HANDS ensures HandWhole(s', h) { assert HandWhole(s, h); }
    forall h, g ensures KeyOk(s', h, g) { assert KeyOk(s, h, g); }
    assert KeyOk(s, s.writer.th, s.writer.ogen + 1);
    forall r | r in s'.readers ensures ReaderOk(s', s'.readers[r]) { assert ReaderOk(s, s.readers[r]); }
  }

  lemma PublishKeeps(s: State)
    requires Inv(s) && Enabled(s, Publish)
    ensures Inv(Next(s, Publish))
  {
    var s' := Next(s, Publish);
    assert HandWhole(s, s.writer.th);
    forall h | 0 <= h < HANDS ensures HandWhole(s', h) { assert HandWhole(s, h); }
    forall h, g ensures KeyOk(s', h, g) { assert KeyOk(s, h, g); }
    forall r | r in s'.readers ensures ReaderOk(s', s'.readers[r]) { assert ReaderOk(s, s.readers[r]); }
  }

  lemma RetireKeeps(s: State)
    requires Inv(s) && Enabled(s, Retire)
    ensures Inv(Next(s, Retire))
  {
    var s' := Next(s, Retire);
    assert KeyOk(s, s.writer.tho, s.hands[s.writer.tho].gen + 1);
    forall h | 0 <= h < HANDS ensures HandWhole(s', h) { assert HandWhole(s, h); }
    forall h, g ensures KeyOk(s', h, g) { assert KeyOk(s, h, g); }
    forall r | r in s'.readers ensures ReaderOk(s', s'.readers[r]) { assert ReaderOk(s, s.readers[r]); }
  }

  lemma StepKeepsInv(s: State, step: Step)
    requires Inv(s) && Enabled(s, step)
    ensures Inv(Next(s, step))
  {
    match step
    case Begin => BeginKeeps(s);
    case Store(k, v) => StoreKeeps(s, k, v);
    case Stamp => StampKeeps(s);
    case Publish => PublishKeeps(s);
    case Retire => RetireKeeps(s);
    case LoadPointer(r) => ReaderStep(s, r, Pointed(s.cur));
    case LoadGen(r) =>
      assert ReaderOk(s, s.readers[r]);
      ReaderStep(s, r, Next(s, step).readers[r]);
    case LoadField(r) =>
      assert ReaderOk(s, s.readers[r]);
      ReaderStep(s, r, Next(s, step).readers[r]);
    case Check(r) =>
      assert ReaderOk(s, s.readers[r]);
      assert HandWhole(s, s.readers[r].th);
      ReaderStep(s, r, Next(s, step).readers[r]);
    case Again(r) => ReaderStep(s, r, Start);
  }

  // --------------------------------------------------------------------- runs

  predicate CanRun(s: State, steps: seq<Step>)
    decreases |steps|
  {
    steps == [] || (Enabled(s, steps[0]) && CanRun(Next(s, steps[0]), steps[1..]))
  }

  function After(s: State, steps: seq<Step>): State
    requires CanRun(s, steps)
    decreases |steps|
  {
    if steps == [] then s else After(Next(s, steps[0]), steps[1..])
  }

  /** Boot: the first hand is published, the others have no generation yet; any number of readers. */
  predicate Boot(s: State) {
    && |s.hands| == HANDS && s.cur == 0 && s.writer.Idle? && s.hands[0].gen == 1
    && (forall h :: 1 <= h < HANDS ==> s.hands[h].gen == 0)
    && (forall r :: r in s.readers ==> s.readers[r].Start?)
    && s.whole == map[(0, 1) := s.hands[0].fields] && s.live == {(0, 1)}
  }

  lemma BootInv(s: State)
    requires Boot(s)
    ensures Inv(s)
  {
  }

  lemma {:induction false} EveryRunKeepsInv(s: State, steps: seq<Step>)
    requires Inv(s) && CanRun(s, steps)
    ensures Inv(After(s, steps))
    decreases |steps|
  {
    hide Inv, Enabled, Next;
    if steps != [] {
      StepKeepsInv(s, steps[0]);
      EveryRunKeepsInv(Next(s, steps[0]), steps[1..]);
    }
  }

  /**
   * A reader that leaves its loop has the contents of one hand as one windup completed it, never a mixture.
   * Those contents have been live if and only if the windup that made them is not between its generation and
   * pointer stores.
   */
  lemma ReaderSeesOneHand(s: State, steps: seq<Step>, r: nat)
    requires Boot(s) && CanRun(s, steps) && r in After(s, steps).readers && After(s, steps).readers[r].Done?
    ensures var s' := After(s, steps); var me := s'.readers[r];
      && (me.th, me.gen) in s'.whole && me.got == s'.whole[(me.th, me.gen)]
      && me.gen >= 1 && ((me.th, me.gen) in s'.live <==> s'.writer != Stamped(me.th, me.gen - 1))
  {
    BootInv(s);
    EveryRunKeepsInv(s, steps);
    var s' := After(s, steps);
    assert ReaderOk(s', s'.readers[r]);
    assert KeyOk(s', s'.readers[r].th, s'.readers[r].gen);
  }

  // ------------------------------------------------- a reader that is not slow

  function Publishes(steps: seq<Step>): nat {
    if steps == [] then 0 else (if steps[0] == Publish then 1 else 0) + Publishes(steps[1..])
  }

  lemma {:induction false} RunConcat(s: State, a: seq<Step>, b: seq<Step>)
    requires CanRun(s, a) && CanRun(After(s, a), b)
    ensures CanRun(s, a + b) && After(s, a + b) == After(After(s, a), b)
    decreases |a|
  {
    if a == [] {
      assert a + b == b;
    } else {
      assert (a + b)[0] == a[0] && (a + b)[1..] == a[1..] + b;
      RunConcat(Next(s, a[0]), a[1..], b);
    }
  }

  /** A run can be cut anywhere. */
  lemma {:induction false} RunSplit(s: State, steps: seq<Step>, i: nat)
    requires CanRun(s, steps) && i <= |steps|
    ensures CanRun(s, steps[..i]) && CanRun(After(s, steps[..i]), steps[i..]) && After(s, steps) == After(After(s, steps[..i]), steps[i..])
    decreases i
  {
    if i == 0 {
      assert steps[..0] == [] && steps[0..] == steps;
    } else {
      assert steps[..i][0] == steps[0] && steps[..i][1..] == steps[1..][..i - 1] && steps[i..] == steps[1..][i - 1..];
      RunSplit(Next(s, steps[0]), steps[1..], i - 1);
    }
  }

  lemma RunUncons(s: State, steps: seq<Step>)
    requires CanRun(s, steps) && steps != []
    ensures Enabled(s, steps[0]) && CanRun(Next(s, steps[0]), steps[1..]) && After(s, steps) == After(Next(s, steps[0]), steps[1..])
  {
  }

  /** While reader r waits to load the generation, each Publish takes the current hand one further round the ring. */
  lemma {:induction false} PointedRun(s: State, steps: seq<Step>, r: nat, p: nat)
    requires Inv(s) && CanRun(s, steps) && (forall k :: 0 <= k < |steps| ==> steps[k] != LoadGen(r))
    requires r in s.readers && s.readers[r].Pointed? && s.cur == (s.readers[r].th + p) % HANDS && p + Publishes(steps) < HANDS
    ensures var s' := After(s, steps);
      && Inv(s') && r in s'.readers && s'.readers[r] == s.readers[r]
      && s'.cur == (s.readers[r].th + p + Publishes(steps)) % HANDS
    decreases |steps|
  {
    hide Inv, Next, Enabled;
    if steps != [] {
      StepKeepsInv(s, steps[0]);
      PointedStep(s, steps[0], r, p);
      PointedRun(Next(s, steps[0]), steps[1..], r, if steps[0] == Publish then p + 1 else p);
    }
  }

  lemma PointedStep(s: State, step: Step, r: nat, p: nat)
    requires Inv(s) && Enabled(s, step) && step != LoadGen(r)
    requires r in s.readers && s.readers[r].Pointed? && s.cur == (s.readers[r].th + p) % HANDS
    ensures var s' := Next(s, step);
      && r in s'.readers && s'.readers[r] == s.readers[r]
      && s'.cur == (s.readers[r].th + (if step == Publish then p + 1 else p)) % HANDS
  {
  }

  /** What reader r will leave with, if it does not start over, is live. */
  predicate Settled(s: State, r: nat) {
    r in s.readers && match s.readers[r]
      case Start => true
      case Pointed(_) => false
      case Loading(th, gen, _) => gen == 0 || (th, gen) in s.live
      case Done(th, gen, _) => (th, gen) in s.live
  }

  lemma {:induction false} SettledRun(s: State, steps: seq<Step>, r: nat)
    requires CanRun(s, steps) && (forall k :: 0 <= k < |steps| ==> steps[k] != LoadPointer(r)) && Settled(s, r)
    ensures Settled(After(s, steps), r)
    decreases |steps|
  {
    if steps != [] {
      assert Settled(Next(s, steps[0]), r);
      SettledRun(Next(s, steps[0]), steps[1..], r);
    }
  }

  /** A generation loaded when the hand is not the one next in the ring is zero or that of live contents. */
  lemma LoadSettles(s: State, r: nat, p: nat)
    requires Inv(s) && Enabled(s, LoadGen(r)) && s.cur == (s.readers[r].th + p) % HANDS && p < HANDS - 1
    ensures Settled(Next(s, LoadGen(r)), r)
  {
    var th := s.readers[r].th;
    assert ReaderOk(s, s.readers[r]);
    assert HandWhole(s, th);
    assert KeyOk(s, th, s.hands[th].gen);
  }

  /**
   * The usable form: if at most eight windups publish between a reader's load of the current hand and its load of
   * that hand's generation, then what it leaves its loop with is live. Ten hands is what makes it eight.
   */
  lemma PromptReaderSeesLive(s: State, steps: seq<Step>, r: nat, i: nat, j: nat)
    requires Boot(s) && CanRun(s, steps) && i < j < |steps| && steps[i] == LoadPointer(r) && steps[j] == LoadGen(r)
    requires forall k :: i < k < j ==> steps[k] != LoadGen(r)
    requires forall k :: j < k < |steps| ==> steps[k] != LoadPointer(r)
    requires Publishes(steps[i + 1..j]) <= HANDS - 2
    requires r in After(s, steps).readers && After(s, steps).readers[r].Done?
    ensures var me := After(s, steps).readers[r]; (me.th, me.gen) in After(s, steps).live
  {
    hide Inv, Next, Enabled, Publishes, Boot, CanRun, After;
    BootInv(s);
    RunSplit(s, steps, i);
    var s1 := After(s, steps[..i]);
    EveryRunKeepsInv(s, steps[..i]);
    RunUncons(s1, steps[i..]);
    LoadsPointer(s1, r);
    PromptSlices(steps, r, i, j);
    PromptTail(Next(s1, steps[i..][0]), steps[i..][1..], r, j - i - 1);
  }

  lemma PromptSlices(steps: seq<Step>, r: nat, i: nat, j: nat)
    requires i < j < |steps|
    requires forall k :: i < k < j ==> steps[k] != LoadGen(r)
    requires forall k :: j < k < |steps| ==> steps[k] != LoadPointer(r)
    ensures var rest, n := steps[i..][1..], j - i - 1;
      && n < |rest| && rest[..n] == steps[i + 1..j] && (forall k :: 0 <= k < n ==> rest[..n][k] != LoadGen(r))
      && rest[n..][0] == steps[j] && (forall k :: 1 <= k < |rest[n..]| ==> rest[n..][k] != LoadPointer(r))
  {
    assert steps[i..][1..] == steps[i + 1..];
  }

  lemma LoadsPointer(s: State, r: nat)
    requires Inv(s) && Enabled(s, LoadPointer(r))
    ensures var s' := Next(s, LoadPointer(r)); Inv(s') && r in s'.readers && s'.readers[r] == Pointed(s'.cur) && s'.cur < HANDS
  {
    StepKeepsInv(s, LoadPointer(r));
  }

  /** The same from the load of the current hand on; the generation is loaded by step n. */
  lemma PromptTail(s: State, steps: seq<Step>, r: nat, n: nat)
    requires Inv(s) && CanRun(s, steps) && r in s.readers && s.readers[r] == Pointed(s.cur) && s.cur < HANDS
    requires n < |steps| && (forall k :: 0 <= k < n ==> steps[..n][k] != LoadGen(r)) && Publishes(steps[..n]) <= HANDS - 2
    requires steps[n..][0] == LoadGen(r) && forall k :: 1 <= k < |steps[n..]| ==> steps[n..][k] != LoadPointer(r)
    ensures Settled(After(s, steps), r)
  {
    hide Inv, Next, Enabled, Publishes, Settled, CanRun, After;
    RunSplit(s, steps, n);
    PointedRun(s, steps[..n], r, 0);
    var s', last := After(s, steps[..n]), steps[n..];
    RunUncons(s', last);
    LoadSettles(s', r, Publishes(steps[..n]));
    SettledRun(Next(s', last[0]), last[1..], r);
  }

  // --------------------------------------- a reader can be one store too early

  lemma RunCons(s: State, step: Step, rest: seq<Step>)
    requires Enabled(s, step) && CanRun(Next(s, step), rest)
    ensures CanRun(s, [step] + rest) && After(s, [step] + rest) == After(Next(s, step), rest)
    ensures Publishes([step] + rest) == (if step == Publish then 1 else 0) + Publishes(rest)
  {
    assert ([step] + rest)[1..] == rest;
  }

  lemma {:induction false} PublishesConcat(a: seq<Step>, b: seq<Step>)
    ensures Publishes(a + b) == Publishes(a) + Publishes(b)
  {
    if a == [] {
      assert a + b == b;
    } else {
      assert (a + b)[0] == a[0] && (a + b)[1..] == a[1..] + b;
      PublishesConcat(a[1..], b);
    }
  }

  /** Every hand has as many fields as vals. */
  predicate Sized(s: State, vals: seq<int>) { |s.hands| == HANDS && forall h :: 0 <= h < HANDS ==> |s.hands[h].fields| == |vals| }

  function Filled(s: State, vals: seq<int>): State
    requires s.writer.Filling? && s.writer.th < |s.hands|
  {
    s.(hands := s.hands[s.writer.th := s.hands[s.writer.th].(fields := vals)])
  }

  /** The fields of the hand being filled are stored one by one. */
  lemma {:induction false} StoreAll(s: State, vals: seq<int>, k: nat) returns (steps: seq<Step>)
    requires s.writer.Filling? && s.writer.th < |s.hands| && |s.hands[s.writer.th].fields| == |vals| && k <= |vals|
    requires s.hands[s.writer.th].fields[..k] == vals[..k]
    ensures CanRun(s, steps) && Publishes(steps) == 0 && After(s, steps) == Filled(s, vals)
    decreases |vals| - k
  {
    var th := s.writer.th;
    if k == |vals| {
      assert s.hands[th].fields == vals;
      assert s.hands[th := s.hands[th].(fields := vals)] == s.hands;
      steps := [];
    } else {
      var s1 := Next(s, Store(k, vals[k]));
      assert s1.hands[th].fields[..k + 1] == vals[..k + 1];
      var rest := StoreAll(s1, vals, k + 1);
      assert Filled(s1, vals) == Filled(s, vals) by {
        assert s1.hands[th := s1.hands[th].(fields := vals)] == s.hands[th := s.hands[th].(fields := vals)];
      }
      RunCons(s, Store(k, vals[k]), rest);
      steps := [Store(k, vals[k])] + rest;
    }
  }

  /** Begin and all the stores. */
  lemma Fill(s: State, vals: seq<int>) returns (steps: seq<Step>)
    requires Inv(s) && s.writer.Idle? && Sized(s, vals)
    ensures CanRun(s, steps) && Publishes(steps) == 0
    ensures var s1 := Next(s, Begin); s1.writer.Filling? && s1.writer.th < |s1.hands| && After(s, steps) == Filled(s1, vals)
  {
    var s1 := Next(s, Begin);
    var stores := StoreAll(s1, vals, 0);
    RunCons(s, Begin, stores);
    steps := [Begin] + stores;
  }

  /** The writer's last three steps. */
  lemma FinishSteps(s: State, vals: seq<int>)
    requires Inv(s) && s.writer.Idle? && s.cur + 1 < HANDS && Sized(s, vals)
    ensures var s1 := Next(s, Begin);
      && s1.writer.Filling? && s1.writer.th < |s1.hands|
      && var s2 := Filled(s1, vals);
      && Enabled(s2, Stamp) && Enabled(Next(s2, Stamp), Publish) && Enabled(Next(Next(s2, Stamp), Publish), Retire)
      && var s' := Next(Next(Next(s2, Stamp), Publish), Retire);
         s'.writer.Idle? && s'.cur == s.cur + 1 && s'.readers == s.readers && Sized(s', vals)
  {
  }

  lemma OneWindup(s: State, vals: seq<int>) returns (steps: seq<Step>)
    requires Inv(s) && s.writer.Idle? && s.cur + 1 < HANDS && Sized(s, vals)
    ensures CanRun(s, steps) && Publishes(steps) == 1
    ensures var s' := After(s, steps); s'.writer.Idle? && s'.cur == s.cur + 1 && s'.readers == s.readers && Sized(s', vals) && Inv(s')
  {
    var fill := Fill(s, vals);
    FinishSteps(s, vals);
    hide Next, Enabled, Inv, Sized, Filled;
    var s2 := After(s, fill);
    var s3 := Next(s2, Stamp);
    var s4 := Next(s3, Publish);
    RunCons(s4, Retire, []);
    RunCons(s3, Publish, [Retire] + []);
    RunCons(s2, Stamp, [Publish] + ([Retire] + []));
    var rest := [Stamp] + ([Publish] + ([Retire] + []));
    RunConcat(s, fill, rest);
    PublishesConcat(fill, rest);
    steps := fill + rest;
    EveryRunKeepsInv(s, steps);
  }

  /** Windups while the readers stand still, until hand 0 is the next to be filled. */
  lemma {:induction false} WindupsToLast(s: State, vals: seq<int>) returns (steps: seq<Step>)
    requires Inv(s) && s.writer.Idle? && s.cur < HANDS && Sized(s, vals)
    ensures CanRun(s, steps) && Publishes(steps) == HANDS - 1 - s.cur
    ensures var s' := After(s, steps); Inv(s') && s'.writer.Idle? && s'.cur == HANDS - 1 && s'.readers == s.readers && Sized(s', vals)
    decreases HANDS - s.cur
  {
    hide Inv, Next, Enabled, Sized;
    if s.cur == HANDS - 1 {
      steps := [];
    } else {
      var one := OneWindup(s, vals);
      var rest := WindupsToLast(After(s, one), vals);
      RunConcat(s, one, rest);
      PublishesConcat(one, rest);
      steps := one + rest;
    }
  }

  /** Hand 0 is filled with vals and stamped and its generation loaded, but it is not published. */
  predicate Early(s: State, r: nat, vals: seq<int>) {
    && |s.hands| == HANDS && s.hands[0].gen != 0 && (0, s.hands[0].gen) !in s.live && s.hands[0].fields == vals
    && r in s.readers && s.readers[r].Loading? && s.readers[r].th == 0 && s.readers[r].gen == s.hands[0].gen
    && s.readers[r].got <= vals
  }

  /** Reader r is out of its loop with vals, which are not live. */
  predicate Leaves(s: State, r: nat, vals: seq<int>) {
    r in s.readers && s.readers[r].Done? && (s.readers[r].th, s.readers[r].gen) !in s.live && s.readers[r].got == vals
  }

  /** The reader loads the fields that are left, however many, and leaves. */
  lemma {:induction false} LoadAll(s: State, r: nat, vals: seq<int>) returns (steps: seq<Step>)
    requires Early(s, r, vals)
    ensures CanRun(s, steps) && Publishes(steps) == 0 && Leaves(After(s, steps), r, vals)
    decreases |vals| - |s.readers[r].got|
  {
    if |s.readers[r].got| == |vals| {
      RunCons(s, Check(r), []);
      steps := [Check(r)] + [];
    } else {
      var s' := Next(s, LoadField(r));
      var rest := LoadAll(s', r, vals);
      RunCons(s, LoadField(r), rest);
      steps := [LoadField(r)] + rest;
    }
  }

  /** The last steps: the hand is filled and stamped, and the reader goes through before it is published. */
  lemma EarlyTail(s: State, r: nat, vals: seq<int>) returns (steps: seq<Step>)
    requires Inv(s) && s.writer.Idle? && s.cur == HANDS - 1 && r in s.readers && s.readers[r] == Pointed(0) && Sized(s, vals)
    ensures CanRun(s, steps) && Publishes(steps) == 0 && Leaves(After(s, steps), r, vals)
  {
    var fill := Fill(s, vals);
    EarlySteps(s, r, vals);
    hide Next, Enabled, Inv, Sized, Early, Leaves, Filled;
    var s2 := After(s, fill);
    var s3 := Next(s2, Stamp);
    var rest := LoadAll(Next(s3, LoadGen(r)), r, vals);
    RunCons(s3, LoadGen(r), rest);
    RunCons(s2, Stamp, [LoadGen(r)] + rest);
    var tail := [Stamp] + ([LoadGen(r)] + rest);
    RunConcat(s, fill, tail);
    PublishesConcat(fill, tail);
    steps := fill + tail;
  }

  lemma EarlySteps(s: State, r: nat, vals: seq<int>)
    requires Inv(s) && s.writer.Idle? && s.cur == HANDS - 1 && r in s.readers && s.readers[r] == Pointed(0) && Sized(s, vals)
    ensures var s1 := Next(s, Begin);
      && s1.writer.Filling? && s1.writer.th < |s1.hands|
      && var s2 := Filled(s1, vals);
      Enabled(s2, Stamp) && Enabled(Next(s2, Stamp), LoadGen(r)) && Early(Next(Next(s2, Stamp), LoadGen(r)), r, vals)
  {
    assert KeyOk(s, 0, s.hands[0].gen + 1);
  }

  /**
   * The exception is real, and eight is the most that can be allowed: a reader delayed for nine windups that each
   * store every field, whatever their number and values, can leave with a hand that is not live yet.
   */
  lemma EarlyReadHappens(s: State, r: nat, vals: seq<int>) returns (steps: seq<Step>)
    requires Boot(s) && r in s.readers && Sized(s, vals)
    ensures CanRun(s, steps) && Publishes(steps) == HANDS - 1 && Leaves(After(s, steps), r, vals)
  {
    BootInv(s);
    var s1 := Next(s, LoadPointer(r));
    StepKeepsInv(s, LoadPointer(r));
    assert s1.readers[r] == Pointed(0) && s1.writer.Idle? && s1.hands == s.hands && s1.cur == 0 && Sized(s1, vals);
    hide Next, Enabled, Inv, Boot, Leaves, Sized;
    var mid := WindupsToLast(s1, vals);
    var tail := EarlyTail(After(s1, mid), r, vals);
    RunConcat(s1, mid, tail);
    PublishesConcat(mid, tail);
    RunCons(s, LoadPointer(r), mid + tail);
    steps := [LoadPointer(r)] + (mid + tail);
  }
}
