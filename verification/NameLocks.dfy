/**
 * The locking of the name cache (vfs_cache.c): an entry joins and leaves the directory's tree, the LRU lists and the
 * vnode's list in separate lock regions, while lookups, reverse lookups and reclaim go on. Each region is one step.
 */
module NameLocks {
  import opened Options

  type Id = nat
  type Dir = nat
  type Vnode = nat
  type Thread = nat

  datatype Lru = Off | Active | Inactive

  /** An entry and the views it is in. */
  datatype Entry = Entry(dir: Dir, vp: Option<Vnode>, name: nat, tree: bool, lru: Lru, list: bool)

  /**
   * What the holder of a directory's write lock is at: nothing; a reclaim victim it has picked; an entry that is in
   * the tree, or in the tree and on an LRU list; an entry off the vnode's list, or off the tree too.
   */
  datatype Work = Holding | Picked(id: Id) | InTree(id: Id) | OnLru(id: Id) | OffList(id: Id) | OffTree(id: Id)

  /** A lookup under the directory's read lock, or a reverse lookup under the vnode's list lock, and what it has found. */
  datatype Reader = Reading(d: Dir) | Hit(d: Dir, id: Id) | Scanning(v: Vnode) | Found(v: Vnode, id: Id)

  /** An entry that is not in the map has been freed or never was. */
  datatype State = State(entries: map<Id, Entry>, work: map<Dir, Work>, readers: map<Thread, Reader>)

  datatype Step =
    | Lock(d: Dir) | Unlock(d: Dir)
    | AddTree(d: Dir, id: Id, vp: Option<Vnode>, name: nat) | AddLru(d: Dir) | AddList(d: Dir)     // cache_enter
    | DropList(d: Dir, id: Id) | DropTree(d: Dir) | DropLru(d: Dir)                                // cache_remove
    | Pick(d: Dir, id: Id)                                                                         // cache_reclaim
    | Deactivate(id: Id)                                                                           // cache_deactivate
    | Read(t: Thread, d: Dir) | Find(t: Thread, id: Id)                                            // cache_lookup
    | Scan(t: Thread, v: Vnode) | FindBack(t: Thread, id: Id)                                      // cache_revlookup
    | Activate(t: Thread) | Leave(t: Thread)

  /** Somebody has the directory's read lock. */
  predicate ReadHeld(s: State, d: Dir) { exists t :: t in s.readers && ((s.readers[t].Reading? || s.readers[t].Hit?) && s.readers[t].d == d) }

  /** Somebody has the list lock of the vnode of entry id. */
  predicate ListHeld(s: State, id: Id) {
    id in s.entries && s.entries[id].vp.Some? && exists t :: t in s.readers && HoldsList(s.readers[t], s.entries[id].vp.value)
  }

  predicate HoldsList(r: Reader, v: Vnode) { (r.Scanning? || r.Found?) && r.v == v }

  predicate At(s: State, d: Dir) { d in s.work }

  /** What the locks allow. That an entry to be dropped or activated is still there is not asked: it is proved. */
  predicate Enabled(s: State, step: Step) {
    match step
    case Lock(d) => !At(s, d) && !ReadHeld(s, d)
    case Unlock(d) => At(s, d) && s.work[d] == Holding
    case AddTree(d, id, _, name) =>
      At(s, d) && s.work[d] == Holding && id !in s.entries && forall x :: x in s.entries && s.entries[x].dir == d && s.entries[x].tree ==> s.entries[x].name != name
    case AddLru(d) => At(s, d) && s.work[d].InTree?
    case AddList(d) => At(s, d) && s.work[d].OnLru? && !ListHeld(s, s.work[d].id)
    case DropList(d, id) =>
      && At(s, d) && !ListHeld(s, id)
      && (s.work[d] == Picked(id) || (s.work[d] == Holding && id in s.entries && s.entries[id].dir == d && s.entries[id].tree))
    case DropTree(d) => At(s, d) && s.work[d].OffList?
    case DropLru(d) => At(s, d) && s.work[d].OffTree?
    case Pick(d, id) => !At(s, d) && !ReadHeld(s, d) && id in s.entries && s.entries[id].dir == d && s.entries[id].lru == Inactive
    case Deactivate(id) => id in s.entries && s.entries[id].lru == Active
    case Read(t, d) => t !in s.readers && !At(s, d)
    case Find(t, id) => t in s.readers && s.readers[t].Reading? && id in s.entries && s.entries[id].dir == s.readers[t].d && s.entries[id].tree
    case Scan(t, _) => t !in s.readers
    case FindBack(t, id) => t in s.readers && s.readers[t].Scanning? && id in s.entries && s.entries[id].vp == Some(s.readers[t].v) && s.entries[id].list
    case Activate(t) => t in s.readers && (s.readers[t].Hit? || s.readers[t].Found?)
    case Leave(t) => t in s.readers
  }

  function With(s: State, id: Id, e: Entry): State { s.(entries := s.entries[id := e]) }

  function Next(s: State, step: Step): State
    requires Enabled(s, step)
  {
    match step
    case Lock(d) => s.(work := s.work[d := Holding])
    case Unlock(d) => s.(work := s.work - {d})
    case AddTree(d, id, vp, name) => With(s, id, Entry(d, vp, name, true, Off, false)).(work := s.work[d := InTree(id)])
    case AddLru(d) =>
      var id := s.work[d].id;
      if id !in s.entries then s else With(s, id, s.entries[id].(lru := Active)).(work := s.work[d := OnLru(id)])
    case AddList(d) =>
      var id := s.work[d].id;
      if id !in s.entries then s else With(s, id, s.entries[id].(list := s.entries[id].vp.Some?)).(work := s.work[d := Holding])
    case DropList(d, id) =>
      if id !in s.entries then s else With(s, id, s.entries[id].(list := false)).(work := s.work[d := OffList(id)])
    case DropTree(d) =>
      var id := s.work[d].id;
      if id !in s.entries then s else With(s, id, s.entries[id].(tree := false)).(work := s.work[d := OffTree(id)])
    case DropLru(d) => s.(entries := s.entries - {s.work[d].id}, work := s.work[d := Holding])
    case Pick(d, id) => s.(work := s.work[d := Picked(id)])
    case Deactivate(id) => With(s, id, s.entries[id].(lru := Inactive))
    case Read(t, d) => s.(readers := s.readers[t := Reading(d)])
    case Find(t, id) => s.(readers := s.readers[t := Hit(s.readers[t].d, id)])
    case Scan(t, v) => s.(readers := s.readers[t := Scanning(v)])
    case FindBack(t, id) => s.(readers := s.readers[t := Found(s.readers[t].v, id)])
    case Activate(t) =>
      var id := s.readers[t].id;
      if id !in s.entries then s else With(s, id, s.entries[id].(lru := Active))
    case Leave(t) => s.(readers := s.readers - {t})
  }

  // ---------------------------------------------------------------- invariant

  /** An entry is in all its views, but for one whose directory is locked by whoever is bringing it in or out. */
  predicate EntryOk(s: State, id: Id)
    requires id in s.entries
  {
    var e := s.entries[id];
    if e.dir in s.work && s.work[e.dir] == InTree(id) then e.tree && e.lru == Off && !e.list
    else if e.dir in s.work && (s.work[e.dir] == OnLru(id) || s.work[e.dir] == OffList(id)) then e.tree && e.lru != Off && !e.list
    else if e.dir in s.work && s.work[e.dir] == OffTree(id) then !e.tree && e.lru != Off && !e.list
    else e.tree && e.lru != Off && e.list == e.vp.Some?
  }

  /** What a lock holder is at is an entry of its directory. */
  predicate WorkOk(s: State, d: Dir)
    requires d in s.work
  {
    s.work[d].Holding? || (s.work[d].id in s.entries && s.entries[s.work[d].id].dir == d)
  }

  /** A read lock excludes the write lock; what was found is still there and in the view it was found in. */
  predicate ReaderOk(s: State, r: Reader) {
    match r
    case Reading(d) => d !in s.work
    case Hit(d, id) => d !in s.work && id in s.entries && s.entries[id].dir == d
    case Scanning(_) => true
    case Found(v, id) => id in s.entries && s.entries[id].vp == Some(v) && s.entries[id].list
  }

  /** Two entries of one tree with one name. */
  predicate Same(e: Entry, f: Entry) { e.tree && f.tree && e.dir == f.dir && e.name == f.name }

  ghost predicate OneName(s: State) {
    forall x, y :: x in s.entries && y in s.entries && Same(s.entries[x], s.entries[y]) ==> x == y
  }

  ghost predicate Inv(s: State) {
    && (forall id :: id in s.entries ==> EntryOk(s, id))
    && (forall d :: d in s.work ==> WorkOk(s, d))
    && (forall t :: t in s.readers ==> ReaderOk(s, s.readers[t]))
    && OneName(s)
  }

  lemma FreshInv(s: State)
    requires s == State(map[], map[], map[])
    ensures Inv(s)
  {
  }

  /** The lock holder of d changes the views of the entry it is at and moves on. */
  lemma Moved(s: State, s': State, d: Dir, id: Id)
    requires Inv(s) && d in s.work && (s.work[d].Holding? || s.work[d].id == id) && id in s.entries && s.entries[id].dir == d
    requires id in s'.entries && d in s'.work && s' == With(s, id, s'.entries[id]).(work := s.work[d := s'.work[d]])
    requires var e, e' := s.entries[id], s'.entries[id]; e' == e.(tree := e'.tree, lru := e'.lru, list := e'.list) && (e'.tree ==> e.tree) && (e'.list || !e.list || !ListHeld(s, id))
    requires EntryOk(s', id) && (s'.work[d].Holding? || s'.work[d].id == id)
    ensures Inv(s')
  {
    forall x | x in s'.entries ensures EntryOk(s', x) { assert EntryOk(s, x); }
    forall c | c in s'.work ensures WorkOk(s', c) { assert c != d ==> WorkOk(s, c); }
    forall t | t in s'.readers ensures ReaderOk(s', s'.readers[t]) { assert ReaderOk(s, s.readers[t]); FoundElsewhere(s, id, t); }
    forall x, y | x in s'.entries && y in s'.entries && Same(s'.entries[x], s'.entries[y]) ensures x == y { assert Same(s.entries[x], s.entries[y]); }
  }

  /** Steps of the lock holders on the entry they are at. */
  lemma WorkKeeps(s: State, step: Step)
    requires Inv(s) && Enabled(s, step) && (step.AddLru? || step.AddList? || step.DropList? || step.DropTree?)
    ensures Inv(Next(s, step))
  {
    var d := step.d;
    var id := if step.DropList? then step.id else s.work[d].id;
    assert WorkOk(s, d);
    assert id in s.entries && EntryOk(s, id);
    if !step.DropList? { NotListed(s, d); }
    hide Inv;
    Moved(s, Next(s, step), d, id);
  }

  /** An entry on its way in or out is on no vnode's list, so no reverse lookup has found it. */
  lemma NotListed(s: State, d: Dir)
    requires Inv(s) && d in s.work && (s.work[d].InTree? || s.work[d].OnLru? || s.work[d].OffList?)
    ensures s.work[d].id in s.entries && !s.entries[s.work[d].id].list
  {
    assert WorkOk(s, d);
    assert EntryOk(s, s.work[d].id);
  }

  /** A reverse lookup that has found the entry holds the list lock. */
  lemma FoundElsewhere(s: State, id: Id, t: Thread)
    requires Inv(s) && id in s.entries && t in s.readers
    ensures s.readers[t].Found? && s.readers[t].id == id ==> ListHeld(s, id) && s.entries[id].list
  {
    assert ReaderOk(s, s.readers[t]);
    if s.readers[t].Found? && s.readers[t].id == id { assert HoldsList(s.readers[t], s.entries[id].vp.value); }
  }

  lemma DropLruKeeps(s: State, d: Dir)
    requires Inv(s) && Enabled(s, DropLru(d))
    ensures Inv(Next(s, DropLru(d)))
  {
    var s' := Next(s, DropLru(d));
    var id := s.work[d].id;
    assert WorkOk(s, d);
    assert EntryOk(s, id);
    forall x | x in s'.entries ensures EntryOk(s', x) { assert EntryOk(s, x); }
    forall c | c in s'.work ensures WorkOk(s', c) { assert c != d ==> WorkOk(s, c); }
    forall t | t in s'.readers ensures ReaderOk(s', s'.readers[t]) { assert ReaderOk(s, s.readers[t]); }
  }

  lemma AddTreeKeeps(s: State, d: Dir, id: Id, vp: Option<Vnode>, name: nat)
    requires Inv(s) && Enabled(s, AddTree(d, id, vp, name))
    ensures Inv(Next(s, AddTree(d, id, vp, name)))
  {
    var s' := Next(s, AddTree(d, id, vp, name));
    forall x | x in s'.entries ensures EntryOk(s', x) { assert x != id ==> EntryOk(s, x); }
    forall c | c in s'.work ensures WorkOk(s', c) { assert c != d ==> WorkOk(s, c); }
    forall t | t in s'.readers ensures ReaderOk(s', s'.readers[t]) { assert ReaderOk(s, s.readers[t]); }
  }

  /** Taking and giving back locks, and picking a victim. */
  lemma LockKeeps(s: State, step: Step)
    requires Inv(s) && Enabled(s, step) && (step.Lock? || step.Unlock? || step.Pick?)
    ensures Inv(Next(s, step))
  {
    var s' := Next(s, step);
    forall x | x in s'.entries ensures EntryOk(s', x) { assert EntryOk(s, x); }
    forall c | c in s'.work ensures WorkOk(s', c) { assert c != step.d ==> WorkOk(s, c); }
    forall t | t in s'.readers ensures ReaderOk(s', s'.readers[t]) { assert ReaderOk(s, s.readers[t]); }
  }

  /** An entry that is on an LRU list moves to another. */
  lemma LruKeeps(s: State, id: Id, lru: Lru)
    requires Inv(s) && id in s.entries && s.entries[id].lru != Off && lru != Off
    ensures Inv(With(s, id, s.entries[id].(lru := lru)))
  {
    var s' := With(s, id, s.entries[id].(lru := lru));
    forall x | x in s'.entries ensures EntryOk(s', x) { assert EntryOk(s, x); }
    forall c | c in s'.work ensures WorkOk(s', c) { assert WorkOk(s, c); }
    forall t | t in s'.readers ensures ReaderOk(s', s'.readers[t]) { assert ReaderOk(s, s.readers[t]); }
    forall x, y | x in s'.entries && y in s'.entries && Same(s'.entries[x], s'.entries[y]) ensures x == y { assert Same(s.entries[x], s.entries[y]); }
  }

  /** Lookups of either kind come, find and go. */
  lemma ReadKeeps(s: State, step: Step)
    requires Inv(s) && Enabled(s, step) && (step.Read? || step.Find? || step.Scan? || step.FindBack? || step.Leave?)
    ensures Inv(Next(s, step))
  {
    var s' := Next(s, step);
    if step.Find? || step.FindBack? { assert ReaderOk(s, s.readers[step.t]); }
    forall x | x in s'.entries ensures EntryOk(s', x) { assert EntryOk(s, x); }
    forall c | c in s'.work ensures WorkOk(s', c) { assert WorkOk(s, c); }
    forall t | t in s'.readers ensures ReaderOk(s', s'.readers[t]) { assert t in s.readers ==> ReaderOk(s, s.readers[t]); }
  }

  /** What a lookup or a reverse lookup has found is there, and on an LRU list. */
  lemma SeenIsOnLru(s: State, t: Thread)
    requires Inv(s) && t in s.readers && (s.readers[t].Hit? || s.readers[t].Found?)
    ensures s.readers[t].id in s.entries && s.entries[s.readers[t].id].lru != Off
  {
    assert ReaderOk(s, s.readers[t]);
    assert EntryOk(s, s.readers[t].id);
  }

  lemma StepKeepsInv(s: State, step: Step)
    requires Inv(s) && Enabled(s, step)
    ensures Inv(Next(s, step))
  {
    hide Inv;
    match step
    case Deactivate(id) => LruKeeps(s, id, Inactive);
    case Activate(t) =>
      SeenIsOnLru(s, t);
      LruKeeps(s, s.readers[t].id, Active);
    case AddTree(d, id, vp, name) => AddTreeKeeps(s, d, id, vp, name);
    case DropLru(d) => DropLruKeeps(s, d);
    case Lock(_) => LockKeeps(s, step);
    case Unlock(_) => LockKeeps(s, step);
    case Pick(_, _) => LockKeeps(s, step);
    case AddLru(_) => WorkKeeps(s, step);
    case AddList(_) => WorkKeeps(s, step);
    case DropList(_, _) => WorkKeeps(s, step);
    case DropTree(_) => WorkKeeps(s, step);
    case _ => ReadKeeps(s, step);
  }

  // --------------------------------------------------------------------- runs

  ghost predicate Run(trace: seq<State>, steps: seq<Step>) {
    && |trace| == |steps| + 1 && Inv(trace[0])
    && forall i :: 0 <= i < |steps| ==> Enabled(trace[i], steps[i]) && trace[i + 1] == Next(trace[i], steps[i])
  }

  lemma {:induction false} EveryRunKeepsInv(trace: seq<State>, steps: seq<Step>, k: nat)
    requires Run(trace, steps) && k < |trace|
    ensures Inv(trace[k])
  {
    hide Inv, Enabled, Next;
    if k > 0 {
      EveryRunKeepsInv(trace, steps, k - 1);
      assert trace[k - 1 + 1] == Next(trace[k - 1], steps[k - 1]);
      StepKeepsInv(trace[k - 1], steps[k - 1]);
    }
  }

  /**
   * No region touches an entry that is gone or not in the view the region takes it out of: not an activation by a
   * lookup or a reverse lookup, not reclaim after it has dropped the LRU lock, not cache_enter or cache_remove.
   */
  lemma TouchesWhatIsThere(trace: seq<State>, steps: seq<Step>, k: nat)
    requires Run(trace, steps) && k < |steps|
    ensures var s := trace[k];
      match steps[k]
      case Activate(t) => s.readers[t].id in s.entries && s.entries[s.readers[t].id].lru != Off
      case DropList(d, id) => id in s.entries && s.entries[id].dir == d && s.entries[id].tree && s.entries[id].lru != Off && s.entries[id].list == s.entries[id].vp.Some?
      case DropTree(d) => s.work[d].id in s.entries && s.entries[s.work[d].id].tree
      case DropLru(d) => s.work[d].id in s.entries && s.entries[s.work[d].id].lru != Off && !s.entries[s.work[d].id].tree && !s.entries[s.work[d].id].list
      case AddLru(d) => s.work[d].id in s.entries && s.entries[s.work[d].id].lru == Off
      case AddList(d) => s.work[d].id in s.entries && s.entries[s.work[d].id].lru != Off && !s.entries[s.work[d].id].list
      case _ => true
  {
    EveryRunKeepsInv(trace, steps, k);
    var s := trace[k];
    match steps[k]
    case Activate(t) => SeenIsOnLru(s, t);
    case DropList(d, id) => assert WorkOk(s, d); assert EntryOk(s, id);
    case DropTree(d) => assert WorkOk(s, d); assert EntryOk(s, s.work[d].id);
    case DropLru(d) => assert WorkOk(s, d); assert EntryOk(s, s.work[d].id);
    case AddLru(d) => assert WorkOk(s, d); assert EntryOk(s, s.work[d].id);
    case AddList(d) => assert WorkOk(s, d); assert EntryOk(s, s.work[d].id);
    case _ =>
  }

  /** Of a directory that is not write-locked, tree, LRU lists and vnode lists describe the same entries, one for each name. */
  lemma UnlockedViewsAgree(trace: seq<State>, steps: seq<Step>, k: nat, x: Id, y: Id)
    requires Run(trace, steps) && k < |trace| && x in trace[k].entries && trace[k].entries[x].dir !in trace[k].work
    ensures var e := trace[k].entries[x]; e.tree && e.lru != Off && e.list == e.vp.Some?
    ensures y in trace[k].entries && trace[k].entries[y].dir == trace[k].entries[x].dir && trace[k].entries[y].name == trace[k].entries[x].name ==> x == y
  {
    EveryRunKeepsInv(trace, steps, k);
    assert EntryOk(trace[k], x);
    if y in trace[k].entries && trace[k].entries[y].dir == trace[k].entries[x].dir { assert EntryOk(trace[k], y); }
  }
}
