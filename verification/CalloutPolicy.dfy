/**
 * The deferrable policy of kern_timeout.c and the generation that names it, with
 * every shared read and write a separate step.
 *
 * Writers (the kern.callout_deferrable sysctl) store the policy, then increment the generation.
 * One lock holder at a time scans the wheel (callout_next_ticks: read the generation,
 * then the policy once per callout) or notes an insertion (callout_next_note: compare
 * the generation, then read the policy). Writers take no lock.
 */
module CalloutPolicy {

  type Id = nat
  type WriterId = nat

  datatype Entry = Entry(time: int, deferrable: bool)

  datatype Holder =
    | Free
    | Scanning(tag: nat, left: set<Id>, none: bool, earliest: int)
    | Noting(id: Id, same: bool)

  datatype State = State(
    policy: bool, gen: nat, mid: set<WriterId>,
    wheel: map<Id, Entry>, nextGen: nat, nextNone: bool, nextTime: int,
    holder: Holder)

  predicate Honoured(policy: bool, e: Entry) { !policy || !e.deferrable }

  datatype Action =
    | WriterStores(w: WriterId, on: bool)
    | WriterIncrements(w: WriterId)
    | ScanReadsGen
    | ScanReadsPolicy(id: Id)
    | ScanRecords
    | Inserts(id: Id, e: Entry)
    | NoteReadsPolicy
    | Removes(id: Id)
    | Postpones(id: Id, time: int)
    | Marks(id: Id, deferrable: bool)

  predicate Enabled(s: State, a: Action) {
    match a
    case WriterStores(w, _) => w !in s.mid
    case WriterIncrements(w) => w in s.mid
    case ScanReadsGen => s.holder.Free?
    case ScanReadsPolicy(id) => s.holder.Scanning? && id in s.holder.left && id in s.wheel
    case ScanRecords => s.holder.Scanning? && s.holder.left == {}
    case Inserts(id, _) => s.holder.Free? && id !in s.wheel
    case NoteReadsPolicy => s.holder.Noting? && s.holder.id in s.wheel
    case Removes(id) => s.holder.Free? && id in s.wheel
    case Postpones(id, t) => s.holder.Free? && id in s.wheel && s.wheel[id].time <= t
    case Marks(id, _) => s.holder.Free? && id in s.wheel
  }

  function Next(s: State, a: Action): State
    requires Enabled(s, a)
  {
    match a
    case WriterStores(w, on) => s.(policy := on, mid := s.mid + {w})
    case WriterIncrements(w) => s.(gen := s.gen + 1, mid := s.mid - {w})
    case ScanReadsGen => s.(holder := Scanning(s.gen, s.wheel.Keys, true, 0))
    case ScanReadsPolicy(id) =>
      var h := s.holder.(left := s.holder.left - {id});
      var e := s.wheel[id];
      if Honoured(s.policy, e) && (h.none || e.time < h.earliest)
      then s.(holder := h.(none := false, earliest := e.time))
      else s.(holder := h)
    case ScanRecords =>
      s.(nextGen := s.holder.tag, nextNone := s.holder.none, nextTime := s.holder.earliest, holder := Free)
    case Inserts(id, e) => s.(wheel := s.wheel[id := e], holder := Noting(id, s.nextGen == s.gen))
    case NoteReadsPolicy =>
      var e := s.wheel[s.holder.id];
      if s.holder.same && Honoured(s.policy, e) && (s.nextNone || e.time < s.nextTime)
      then s.(nextNone := false, nextTime := e.time, holder := Free)
      else s.(holder := Free)
    case Removes(id) => s.(wheel := s.wheel - {id})
    case Postpones(id, t) => s.(wheel := s.wheel[id := s.wheel[id].(time := t)])
    case Marks(id, deferrable) =>
      var s' := s.(wheel := s.wheel[id := s.wheel[id].(deferrable := deferrable)]);
      if deferrable then s' else s'.(nextGen := 0)
  }

  /** (none, earliest) is exact or early for the honoured callouts among ids. */
  ghost predicate ValidOn(s: State, none: bool, earliest: int, ids: set<Id>) {
    forall id :: id in ids && id in s.wheel && Honoured(s.policy, s.wheel[id]) ==> !none && earliest <= s.wheel[id].time
  }

  ghost predicate CacheValid(s: State) { ValidOn(s, s.nextNone, s.nextTime, s.wheel.Keys) }

  /** While some writer is between its store and its increment, nothing is claimed of the current generation. */
  ghost predicate Inv(s: State) {
    && 1 <= s.gen && s.nextGen <= s.gen
    && match s.holder {
         case Free => s.nextGen == s.gen ==> s.mid != {} || CacheValid(s)
         case Scanning(tag, left, none, earliest) =>
           && tag <= s.gen
           && (tag == s.gen ==> s.mid != {} || ValidOn(s, none, earliest, s.wheel.Keys - left))
         case Noting(id, same) =>
           && id in s.wheel && (!same ==> s.nextGen < s.gen)
           && (s.nextGen == s.gen ==> s.mid != {} || ValidOn(s, s.nextNone, s.nextTime, s.wheel.Keys - {id}))
       }
  }

  lemma StepKeepsInv(s: State, a: Action)
    requires Inv(s) && Enabled(s, a)
    ensures Inv(Next(s, a))
  {
    var s' := Next(s, a);
    match a
    case WriterStores(w, on) => assert w in s'.mid;
    case _ =>
  }

  ghost predicate Run(ss: seq<State>, acts: seq<Action>) {
    && |ss| == |acts| + 1
    && forall i :: 0 <= i < |acts| ==> Enabled(ss[i], acts[i]) && ss[i + 1] == Next(ss[i], acts[i])
  }

  predicate Initial(s: State) { s.holder.Free? && s.nextGen == 0 && s.gen == 1 && s.mid == {} }

  /**
   * Over every interleaving of any number of writers with scans, insertions, removals, postponements
   * and marks: with the lock free and no writer between its store and its increment, a
   * cache that carries the current generation is exact or early for the current policy.
   */
  lemma {:induction false} GenerationNamesThePolicy(ss: seq<State>, acts: seq<Action>)
    requires Run(ss, acts) && Initial(ss[0])
    ensures Inv(ss[|acts|])
    ensures var s := ss[|acts|]; s.holder.Free? && s.mid == {} && s.nextGen == s.gen ==> CacheValid(s)
    decreases |acts|
  {
    if acts != [] {
      var n := |acts| - 1;
      GenerationNamesThePolicy(ss[..n + 1], acts[..n]);
      StepKeepsInv(ss[n], acts[n]);
    }
  }

  /**
   * Storing after the increment instead would break it: this run increments first, scans under the old
   * policy with the new generation, and only then stores.
   */
  lemma StoreMustComeFirst()
    ensures var s0 := State(true, 1, {}, map[0 := Entry(5, true)], 0, false, 0, Free);
      var s1 := s0.(gen := 2);
      var s2 := Next(Next(Next(s1, ScanReadsGen), ScanReadsPolicy(0)), ScanRecords);
      var s3 := s2.(policy := false);
      s3.nextGen == s3.gen && s3.mid == {} && !CacheValid(s3)
  {
    var s0 := State(true, 1, {}, map[0 := Entry(5, true)], 0, false, 0, Free);
    var s1 := s0.(gen := 2);
    var s2 := Next(Next(Next(s1, ScanReadsGen), ScanReadsPolicy(0)), ScanRecords);
    var s3 := s2.(policy := false);
    assert 0 in s3.wheel && Honoured(s3.policy, s3.wheel[0]);
  }
}
