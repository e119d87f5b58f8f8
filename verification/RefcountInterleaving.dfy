/**
  The inode store under concurrency.  Threads raise reference counts without holding the store's
  lock (or while only reading), by a load and a compare-and-swap; the one thread that holds the
  lock for writing lowers counts in the same way and removes inodes whose count it brought to
  zero.  Every load, compare-and-swap, removal and taking of migration info is a step of its own.

  An `InodeData` outlives its removal from the store while some thread still has a pointer to it,
  so `objs` keeps all of them; `stored` tells which are in the store.  IDs are never reused.
 */
module RefcountInterleaving {
  import opened InodeStores
  import opened Wrappers

  type Thread = nat

  /** How a thread that is raising a count came by the inode. */
  datatype Access =
    | Weak        // looked up by ID, lock released since
    | Locked      // looked up in an index, the store is still locked
    | Cloning     // through a strong reference that it borrows

  /** A count being raised; `seen` is the value loaded for the compare-and-swap. */
  datatype Raise = Raise(inode: Inode, access: Access, seen: Option<nat>)

  datatype Writer =
    | Unlocked
    | Inserting
    | Draining(todo: Pending)
    | Loaded(todo: Pending, seen: nat)   // about to compare-and-swap for `todo[0]`
    | Zeroed(inode: Inode, todo: Pending) // about to take `inode` out of the store
    | Taking(inode: Inode, todo: Pending) // has done so, about to take its migration info

  datatype State = State(objs: map<Inode, InodeData>,
                         stored: set<Inode>,
                         guest: multiset<Inode>,
                         strong: multiset<Inode>,
                         raises: map<Thread, Raise>,
                         writer: Writer)

  /** Raising a count. */
  datatype RaiseStep = Begin(inode: Inode, access: Access) | Load | Finish

  /** Taking the store's lock for writing, and giving it back. */
  datatype LockStep =
    | LockToInsert
    | LockToForget(requests: Pending)
    | LockToDrop(inode: Inode)
    | QueueDrop(inode: Inode)
    | Unlock

  /** Lowering counts, under the lock. */
  datatype ForgetStep = SkipMissing | LoadCount | SwapCount | RemoveZeroed | TakeInfo

  /** Moving references that the daemon holds. */
  datatype OwnerStep =
    | Insert(inode: Inode, data: InodeData)
    | Leak(inode: Inode)
    | PutInfo(inode: Inode, info: seq<Inode>)

  datatype Step = DoRaise(thread: Thread, raise: RaiseStep) | DoLock(lock: LockStep)
                | DoForget(forget: ForgetStep) | DoOwner(owner: OwnerStep)

  /** The root, with the two references the daemon starts it with. */
  ghost predicate Init(s: State) {
    exists d: InodeData | d.refcount == 2 && d.info == [] ::
      s == State(map[ROOT_ID := d], {ROOT_ID}, multiset{ROOT_ID, ROOT_ID}, multiset{}, map[], Unlocked)
  }

  predicate NoReader(s: State) {
    forall t | t in s.raises :: !s.raises[t].access.Locked?
  }

  /** A strong reference cannot be given up while it is borrowed for cloning. */
  predicate Unborrowed(s: State, strong: multiset<Inode>) {
    forall t | t in s.raises && s.raises[t].access.Cloning? :: s.raises[t].inode in strong
  }

  predicate RaiseEnabled(s: State, t: Thread, step: RaiseStep) {
    match step
    case Begin(i, access) =>
      && t !in s.raises
      && (match access
          case Weak => i in s.stored && s.writer.Unlocked?
          case Locked => i in s.stored && (s.writer.Unlocked? || s.writer.Inserting?)
          case Cloning => i in s.strong)
    case Load => t in s.raises && s.raises[t].seen.None? && s.raises[t].inode in s.objs
    case Finish => t in s.raises && s.raises[t].seen.Some? && s.raises[t].inode in s.objs
  }

  function SetCount(s: State, i: Inode, rc: nat): State
    requires i in s.objs
  {
    s.(objs := s.objs[i := s.objs[i].(refcount := rc)])
  }

  function ApplyRaise(s: State, t: Thread, step: RaiseStep): State
    requires RaiseEnabled(s, t, step)
  {
    match step
    case Begin(i, access) => s.(raises := s.raises[t := Raise(i, access, None)])
    case Load => s.(raises := s.raises[t := s.raises[t].(seen := Some(s.objs[s.raises[t].inode].refcount))])
    case Finish =>
      var Raise(i, _, seen) := s.raises[t];
      if seen.value == 0 then s.(raises := s.raises - {t})
      else if seen.value == s.objs[i].refcount then
        SetCount(s, i, seen.value + 1).(raises := s.raises - {t}, strong := s.strong + multiset{i})
      else s.(raises := s.raises[t := s.raises[t].(seen := None)])
  }

  ghost predicate LockEnabled(s: State, step: LockStep) {
    match step
    case LockToInsert => s.writer.Unlocked? && NoReader(s)
    case LockToForget(requests) => s.writer.Unlocked? && NoReader(s) && Demand(requests) <= s.guest
    case LockToDrop(i) =>
      && s.writer.Unlocked? && NoReader(s)
      && i in s.strong && Unborrowed(s, s.strong - multiset{i})
    case QueueDrop(i) => s.writer == Draining([]) && i in s.strong && Unborrowed(s, s.strong - multiset{i})
    case Unlock => s.writer == Draining([]) || (s.writer.Inserting? && NoReader(s))
  }

  ghost function ApplyLock(s: State, step: LockStep): State
    requires LockEnabled(s, step)
  {
    match step
    case LockToInsert => s.(writer := Inserting)
    case LockToForget(requests) => s.(guest := s.guest - Demand(requests), writer := Draining(requests))
    case LockToDrop(i) => s.(strong := s.strong - multiset{i}, writer := Draining([(i, 1)]))
    case QueueDrop(i) => s.(strong := s.strong - multiset{i}, writer := Draining([(i, 1)]))
    case Unlock => s.(writer := Unlocked)
  }

  predicate ForgetEnabled(s: State, step: ForgetStep) {
    match step
    case SkipMissing => s.writer.Draining? && s.writer.todo != [] && s.writer.todo[0].0 !in s.stored
    case LoadCount =>
      && s.writer.Draining? && s.writer.todo != []
      && s.writer.todo[0].0 in s.stored && s.writer.todo[0].0 in s.objs
    case SwapCount => s.writer.Loaded? && s.writer.todo != [] && s.writer.todo[0].0 in s.objs
    case RemoveZeroed => s.writer.Zeroed?
    case TakeInfo => s.writer.Taking? && s.writer.inode in s.objs
  }

  function ApplyForget(s: State, step: ForgetStep): State
    requires ForgetEnabled(s, step)
  {
    match step
    case SkipMissing => s.(writer := Draining(s.writer.todo[1..]))
    case LoadCount => s.(writer := Loaded(s.writer.todo, s.objs[s.writer.todo[0].0].refcount))
    case SwapCount =>
      var ((i, n), seen) := (s.writer.todo[0], s.writer.seen);
      if s.objs[i].refcount != seen then s.(writer := Draining(s.writer.todo))
      else
        var rc := SaturatingSub(seen, n);
        SetCount(s, i, rc).(writer := if rc == 0 then Zeroed(i, s.writer.todo[1..]) else Draining(s.writer.todo[1..]))
    case RemoveZeroed => s.(stored := s.stored - {s.writer.inode}, writer := Taking(s.writer.inode, s.writer.todo))
    case TakeInfo =>
      var i := s.writer.inode;
      s.(objs := s.objs[i := s.objs[i].(info := [])], writer := Draining(Ones(s.objs[i].info) + s.writer.todo))
  }

  predicate OwnerEnabled(s: State, step: OwnerStep) {
    match step
    case Insert(i, d) =>
      && s.writer.Inserting? && NoReader(s) && i !in s.objs
      && multiset(d.info) <= s.strong && Unborrowed(s, s.strong - multiset(d.info))
    case Leak(i) => i in s.strong && Unborrowed(s, s.strong - multiset{i})
    case PutInfo(i, info) => i in s.objs && multiset(info) <= s.strong && Unborrowed(s, s.strong - multiset(info))
  }

  function ApplyOwner(s: State, step: OwnerStep): State
    requires OwnerEnabled(s, step)
  {
    match step
    case Insert(i, d) =>
      s.(objs := s.objs[i := d.(refcount := 1)], stored := s.stored + {i},
         strong := s.strong - multiset(d.info) + multiset{i})
    case Leak(i) => s.(strong := s.strong - multiset{i}, guest := s.guest + multiset{i})
    case PutInfo(i, info) =>
      s.(objs := s.objs[i := s.objs[i].(info := info)],
         strong := s.strong - multiset(info) + multiset(s.objs[i].info))
  }

  ghost predicate Enabled(s: State, step: Step) {
    match step
    case DoRaise(t, raise) => RaiseEnabled(s, t, raise)
    case DoLock(lock) => LockEnabled(s, lock)
    case DoForget(forget) => ForgetEnabled(s, forget)
    case DoOwner(owner) => OwnerEnabled(s, owner)
  }

  ghost function Apply(s: State, step: Step): State
    requires Enabled(s, step)
  {
    match step
    case DoRaise(t, raise) => ApplyRaise(s, t, raise)
    case DoLock(lock) => ApplyLock(s, lock)
    case DoForget(forget) => ApplyForget(s, forget)
    case DoOwner(owner) => ApplyOwner(s, owner)
  }

  // ----- Invariant ---------------------------------------------------------------------------

  /** References the writer has taken over and not yet subtracted. */
  ghost function Queued(w: Writer): multiset<Inode> {
    if w.Unlocked? || w.Inserting? then multiset{} else Demand(w.todo)
  }

  function Count(objs: map<Inode, InodeData>, i: Inode): nat {
    if i in objs then objs[i].refcount else 0
  }

  ghost predicate Conserved(objs: map<Inode, InodeData>, held: multiset<Inode>) {
    forall i :: Count(objs, i) == held[i] + InfoRefs(objs)[i]
  }

  ghost function Held(s: State): multiset<Inode> {
    s.guest + s.strong + Queued(s.writer)
  }

  ghost predicate StoreInv(s: State) {
    && s.stored <= s.objs.Keys
    && (forall i | i !in s.stored :: Count(s.objs, i) == 0)
    && (forall i | i in s.stored && Count(s.objs, i) == 0 :: s.writer.Zeroed? && s.writer.inode == i)
    && (s.writer.Zeroed? ==> s.writer.inode in s.stored && Count(s.objs, s.writer.inode) == 0)
    && (s.writer.Taking? ==> s.writer.inode in s.objs && s.writer.inode !in s.stored)
    && (s.writer.Loaded? ==> s.writer.todo != [] && s.writer.todo[0].0 in s.stored)
  }

  ghost predicate RaisesInv(s: State) {
    forall t | t in s.raises ::
      var Raise(i, access, seen) := s.raises[t];
      && i in s.objs
      && (access.Cloning? ==> i in s.strong)
      && (access.Locked? ==> i in s.stored && (s.writer.Unlocked? || s.writer.Inserting?))
      && (!access.Weak? && seen.Some? ==> seen.value > 0)
  }

  ghost predicate Inv(s: State) {
    && StoreInv(s)
    && RaisesInv(s)
    && Conserved(s.objs, Held(s))
  }

  // ----- Every step keeps the invariant ------------------------------------------------------

  lemma CountChanged(objs: map<Inode, InodeData>, held: multiset<Inode>, held': multiset<Inode>, i: Inode, rc: nat)
    requires i in objs && Conserved(objs, held)
    requires held'[i] + objs[i].refcount == held[i] + rc
    requires forall j | j != i :: held'[j] == held[j]
    ensures Conserved(objs[i := objs[i].(refcount := rc)], held')
  {
    var objs' := objs[i := objs[i].(refcount := rc)];
    InfoRefsUpdate(objs, i, objs'[i]);
    forall j ensures Count(objs', j) == held'[j] + InfoRefs(objs')[j] {
      assert Count(objs, j) == held[j] + InfoRefs(objs)[j];
    }
  }

  lemma InfoChanged(objs: map<Inode, InodeData>, held: multiset<Inode>, held': multiset<Inode>, i: Inode, info: seq<Inode>)
    requires i in objs && Conserved(objs, held)
    requires held' + multiset(info) == held + multiset(objs[i].info)
    ensures Conserved(objs[i := objs[i].(info := info)], held')
  {
    var objs' := objs[i := objs[i].(info := info)];
    InfoRefsUpdate(objs, i, objs'[i]);
    forall j ensures Count(objs', j) == held'[j] + InfoRefs(objs')[j] {
      assert Count(objs, j) == held[j] + InfoRefs(objs)[j];
      assert (InfoRefs(objs') + multiset(objs[i].info))[j] == (InfoRefs(objs) + multiset(info))[j];
      assert (held' + multiset(info))[j] == (held + multiset(objs[i].info))[j];
    }
  }

  lemma ObjectAdded(objs: map<Inode, InodeData>, held: multiset<Inode>, held': multiset<Inode>, i: Inode, d: InodeData)
    requires i !in objs && Conserved(objs, held) && d.refcount == 1
    requires held' + multiset(d.info) == held + multiset{i}
    ensures Conserved(objs[i := d], held')
  {
    InfoRefsUpdate(objs, i, d);
    forall j ensures Count(objs[i := d], j) == held'[j] + InfoRefs(objs[i := d])[j] {
      assert Count(objs, j) == held[j] + InfoRefs(objs)[j];
      assert (held' + multiset(d.info))[j] == (held + multiset{i})[j];
    }
  }

  /** A reference that anyone holds keeps its inode stored, with a positive count. */
  lemma HeldIsStored(s: State, i: Inode)
    requires Inv(s) && i in Held(s) + InfoRefs(s.objs)
    ensures i in s.stored && Count(s.objs, i) > 0
  {
    assert Count(s.objs, i) == Held(s)[i] + InfoRefs(s.objs)[i];
  }

  /** Steps that leave the raises alone and do not pull away what these rely on. */
  lemma RaisesInvFrame(s: State, s': State)
    requires RaisesInv(s) && s'.raises == s.raises && s.objs.Keys <= s'.objs.Keys
    requires Unborrowed(s, s'.strong)
    requires NoReader(s) || (s.stored <= s'.stored && (s'.writer.Unlocked? || s'.writer.Inserting?))
    ensures RaisesInv(s')
  {
  }

  lemma BeginKeepsInv(s: State, t: Thread, step: RaiseStep)
    requires Inv(s) && RaiseEnabled(s, t, step) && step.Begin?
    ensures Inv(ApplyRaise(s, t, step))
  {
    assert s.strong <= Held(s);
    if step.access.Cloning? {
      HeldIsStored(s, step.inode);
    }
  }

  lemma LoadKeepsInv(s: State, t: Thread)
    requires Inv(s) && RaiseEnabled(s, t, Load)
    ensures Inv(ApplyRaise(s, t, Load))
  {
    if s.raises[t].access.Cloning? {
      HeldIsStored(s, s.raises[t].inode);
    }
  }

  lemma FinishConserves(s: State, t: Thread)
    requires Inv(s) && RaiseEnabled(s, t, Finish)
    ensures var s' := ApplyRaise(s, t, Finish); Conserved(s'.objs, Held(s'))
  {
    var s' := ApplyRaise(s, t, Finish);
    var Raise(i, _, seen) := s.raises[t];
    if seen.value != 0 && seen.value == s.objs[i].refcount {
      assert Held(s') == Held(s) + multiset{i};
      CountChanged(s.objs, Held(s), Held(s'), i, seen.value + 1);
    }
  }

  lemma FinishKeepsStoreInv(s: State, t: Thread)
    requires StoreInv(s) && RaiseEnabled(s, t, Finish)
    ensures StoreInv(ApplyRaise(s, t, Finish))
  {
  }

  lemma FinishKeepsRaisesInv(s: State, t: Thread)
    requires RaisesInv(s) && RaiseEnabled(s, t, Finish)
    ensures RaisesInv(ApplyRaise(s, t, Finish))
  {
  }

  lemma RaiseKeepsInv(s: State, t: Thread, step: RaiseStep)
    requires Inv(s) && RaiseEnabled(s, t, step)
    ensures Inv(ApplyRaise(s, t, step))
  {
    match step {
      case Begin(_, _) => BeginKeepsInv(s, t, step);
      case Load => LoadKeepsInv(s, t);
      case Finish =>
        FinishConserves(s, t);
        FinishKeepsStoreInv(s, t);
        FinishKeepsRaisesInv(s, t);
    }
  }

  lemma LockConserves(s: State, step: LockStep)
    requires LockEnabled(s, step)
    ensures Held(ApplyLock(s, step)) == Held(s)
  {
    if step.LockToDrop? || step.QueueDrop? {
      assert Demand([(step.inode, 1)]) == multiset{step.inode};
    }
  }

  lemma LockKeepsRaisesInv(s: State, step: LockStep)
    requires RaisesInv(s) && LockEnabled(s, step)
    ensures RaisesInv(ApplyLock(s, step))
  {
    RaisesInvFrame(s, ApplyLock(s, step));
  }

  lemma LockKeepsInv(s: State, step: LockStep)
    requires Inv(s) && LockEnabled(s, step)
    ensures Inv(ApplyLock(s, step))
  {
    LockConserves(s, step);
    LockKeepsRaisesInv(s, step);
  }

  lemma SwapConserves(s: State)
    requires Inv(s) && ForgetEnabled(s, SwapCount)
    ensures var s' := ApplyForget(s, SwapCount); Conserved(s'.objs, Held(s'))
  {
    var s' := ApplyForget(s, SwapCount);
    var (i, n) := s.writer.todo[0];
    if s.objs[i].refcount == s.writer.seen {
      DemandFirst(s.writer.todo, s.guest + s.strong);
      assert Count(s.objs, i) == Held(s)[i] + InfoRefs(s.objs)[i];
      CountChanged(s.objs, Held(s), Held(s'), i, SaturatingSub(s.writer.seen, n));
    }
  }

  lemma TakeConserves(s: State)
    requires Inv(s) && ForgetEnabled(s, TakeInfo)
    ensures var s' := ApplyForget(s, TakeInfo); Conserved(s'.objs, Held(s'))
  {
    var s' := ApplyForget(s, TakeInfo);
    var info := s.objs[s.writer.inode].info;
    DemandOnes(info, s.writer.todo);
    assert Held(s') + multiset([]) == Held(s) + multiset(info);
    InfoChanged(s.objs, Held(s), Held(s'), s.writer.inode, []);
  }

  lemma SkipConserves(s: State)
    requires Inv(s) && ForgetEnabled(s, SkipMissing)
    ensures Held(ApplyForget(s, SkipMissing)) == Held(s)
  {
    var (i, n) := s.writer.todo[0];
    assert Demand(s.writer.todo)[i] == Demand(s.writer.todo[1..])[i] + n;
    assert Count(s.objs, i) == Held(s)[i] + InfoRefs(s.objs)[i];
    assert Demand(s.writer.todo) == Demand(s.writer.todo[1..]);
  }

  lemma ForgetKeepsStoreInv(s: State, step: ForgetStep)
    requires Inv(s) && ForgetEnabled(s, step)
    ensures StoreInv(ApplyForget(s, step))
  {
  }

  lemma ForgetKeepsRaisesInv(s: State, step: ForgetStep)
    requires RaisesInv(s) && ForgetEnabled(s, step)
    ensures RaisesInv(ApplyForget(s, step))
  {
    RaisesInvFrame(s, ApplyForget(s, step));
  }

  lemma ForgetKeepsInv(s: State, step: ForgetStep)
    requires Inv(s) && ForgetEnabled(s, step)
    ensures Inv(ApplyForget(s, step))
  {
    ForgetKeepsRaisesInv(s, step);
    ForgetKeepsStoreInv(s, step);
    match step {
      case SkipMissing => SkipConserves(s);
      case LoadCount =>
      case SwapCount => SwapConserves(s);
      case RemoveZeroed =>
      case TakeInfo => TakeConserves(s);
    }
  }

  lemma InsertConserves(s: State, i: Inode, d: InodeData)
    requires Inv(s) && OwnerEnabled(s, Insert(i, d))
    ensures var s' := ApplyOwner(s, Insert(i, d)); Conserved(s'.objs, Held(s'))
  {
    var s' := ApplyOwner(s, Insert(i, d));
    assert Held(s') + multiset(d.info) == Held(s) + multiset{i};
    ObjectAdded(s.objs, Held(s), Held(s'), i, d.(refcount := 1));
  }

  lemma PutInfoConserves(s: State, i: Inode, info: seq<Inode>)
    requires Inv(s) && OwnerEnabled(s, PutInfo(i, info))
    ensures var s' := ApplyOwner(s, PutInfo(i, info)); Conserved(s'.objs, Held(s'))
  {
    var s' := ApplyOwner(s, PutInfo(i, info));
    assert Held(s') + multiset(info) == Held(s) + multiset(s.objs[i].info);
    InfoChanged(s.objs, Held(s), Held(s'), i, info);
  }

  lemma OwnerKeepsStoreInv(s: State, step: OwnerStep)
    requires StoreInv(s) && OwnerEnabled(s, step)
    ensures StoreInv(ApplyOwner(s, step))
  {
  }

  lemma OwnerKeepsRaisesInv(s: State, step: OwnerStep)
    requires RaisesInv(s) && OwnerEnabled(s, step)
    ensures RaisesInv(ApplyOwner(s, step))
  {
    RaisesInvFrame(s, ApplyOwner(s, step));
  }

  lemma OwnerKeepsInv(s: State, step: OwnerStep)
    requires Inv(s) && OwnerEnabled(s, step)
    ensures Inv(ApplyOwner(s, step))
  {
    OwnerKeepsStoreInv(s, step);
    OwnerKeepsRaisesInv(s, step);
    match step {
      case Insert(i, d) => InsertConserves(s, i, d);
      case Leak(i) => assert Held(ApplyOwner(s, step)) == Held(s);
      case PutInfo(i, info) => PutInfoConserves(s, i, info);
    }
  }

  lemma StepKeepsInv(s: State, step: Step)
    requires Inv(s) && Enabled(s, step)
    ensures Inv(Apply(s, step))
  {
    match step {
      case DoRaise(t, raise) => RaiseKeepsInv(s, t, raise);
      case DoLock(lock) => LockKeepsInv(s, lock);
      case DoForget(forget) => ForgetKeepsInv(s, forget);
      case DoOwner(owner) => OwnerKeepsInv(s, owner);
    }
  }

  // ----- Whole runs --------------------------------------------------------------------------

  ghost predicate IsRun(trace: seq<State>, steps: seq<Step>) {
    && |trace| == |steps| + 1
    && Init(trace[0])
    && forall k | 0 <= k < |steps| :: Enabled(trace[k], steps[k]) && trace[k + 1] == Apply(trace[k], steps[k])
  }

  lemma InitHasInv(s: State)
    requires Init(s)
    ensures Inv(s)
  {
    InfoRefsUpdate(map[], ROOT_ID, s.objs[ROOT_ID]);
    assert map[][ROOT_ID := s.objs[ROOT_ID]] == s.objs;
  }

  lemma {:induction false} RunsKeepInv(trace: seq<State>, steps: seq<Step>, k: nat)
    requires IsRun(trace, steps) && k < |trace|
    ensures Inv(trace[k])
  {
    if k > 0 {
      RunsKeepInv(trace, steps, k - 1);
      StepKeepsInv(trace[k - 1], steps[k - 1]);
    } else {
      InitHasInv(trace[0]);
    }
  }

  /** Counts equal the references held, and stored inodes count above zero when nobody writes. */
  lemma RefcountsAreHeldReferences(trace: seq<State>, steps: seq<Step>, k: nat, i: Inode)
    requires IsRun(trace, steps) && k < |trace|
    ensures Count(trace[k].objs, i) == Held(trace[k])[i] + InfoRefs(trace[k].objs)[i]
    ensures trace[k].writer.Unlocked? ==> (i in trace[k].stored <==> Count(trace[k].objs, i) > 0)
  {
    RunsKeepInv(trace, steps, k);
  }

  lemma GoneStaysGone(s: State, step: Step, i: Inode)
    requires Enabled(s, step) && i in s.objs && i !in s.stored
    ensures i in Apply(s, step).objs && i !in Apply(s, step).stored
  {
  }

  lemma RunStepStaysGone(trace: seq<State>, steps: seq<Step>, k: nat, i: Inode)
    requires IsRun(trace, steps) && k + 1 < |trace| && i in trace[k].objs && i !in trace[k].stored
    ensures i in trace[k + 1].objs && i !in trace[k + 1].stored
  {
    GoneStaysGone(trace[k], steps[k], i);
  }

  lemma GoneCountsZero(trace: seq<State>, steps: seq<Step>, k: nat, i: Inode)
    requires IsRun(trace, steps) && k < |trace| && i !in trace[k].stored
    ensures Count(trace[k].objs, i) == 0
  {
    RunsKeepInv(trace, steps, k);
  }

  /** An inode that has left the store stays out, and its count stays zero. */
  lemma {:induction false} GoneForGood(trace: seq<State>, steps: seq<Step>, k: nat, m: nat, i: Inode)
    requires IsRun(trace, steps) && k <= m < |trace|
    requires i in trace[k].objs && i !in trace[k].stored
    ensures i in trace[m].objs && i !in trace[m].stored && Count(trace[m].objs, i) == 0
    decreases m
  {
    if k < m {
      GoneForGood(trace, steps, k, m - 1, i);
      RunStepStaysGone(trace, steps, m - 1, i);
    }
    GoneCountsZero(trace, steps, m, i);
  }

  // ----- How an attempt to raise a count ends ------------------------------------------------

  /** Who has loaded a zero is right: a count of zero never rises again. */
  ghost predicate ZeroSeenIsZero(s: State) {
    forall t | t in s.raises && s.raises[t].seen == Some(0) :: Count(s.objs, s.raises[t].inode) == 0
  }

  lemma ZeroStaysInRaise(s: State, t: Thread, step: RaiseStep, i: Inode)
    requires RaiseEnabled(s, t, step) && i in s.objs && Count(s.objs, i) == 0
    ensures Count(ApplyRaise(s, t, step).objs, i) == 0
  {
  }

  lemma ZeroStaysInForget(s: State, step: ForgetStep, i: Inode)
    requires ForgetEnabled(s, step) && i in s.objs && Count(s.objs, i) == 0
    ensures Count(ApplyForget(s, step).objs, i) == 0
  {
  }

  lemma ZeroStays(s: State, step: Step, i: Inode)
    requires Enabled(s, step) && i in s.objs && Count(s.objs, i) == 0
    ensures Count(Apply(s, step).objs, i) == 0
  {
    match step {
      case DoRaise(t, raise) => ZeroStaysInRaise(s, t, raise, i);
      case DoForget(forget) => ZeroStaysInForget(s, forget, i);
      case _ =>
    }
  }

  /** The attempt of `t` is as before the step, or the step is its own. */
  lemma OthersLeaveRaise(s: State, step: Step, t: Thread)
    requires Enabled(s, step) && !(step.DoRaise? && step.thread == t)
    ensures t in Apply(s, step).raises <==> t in s.raises
    ensures t in s.raises ==> Apply(s, step).raises[t] == s.raises[t]
  {
  }

  lemma OwnStepSeesZero(s: State, t: Thread, step: RaiseStep)
    requires RaiseEnabled(s, t, step) && t in ApplyRaise(s, t, step).raises && ApplyRaise(s, t, step).raises[t].seen == Some(0)
    ensures Count(ApplyRaise(s, t, step).objs, ApplyRaise(s, t, step).raises[t].inode) == 0
  {
  }

  lemma StepKeepsZeroSeen(s: State, step: Step)
    requires RaisesInv(s) && Enabled(s, step) && ZeroSeenIsZero(s)
    ensures ZeroSeenIsZero(Apply(s, step))
  {
    var s' := Apply(s, step);
    forall t | t in s'.raises && s'.raises[t].seen == Some(0) ensures Count(s'.objs, s'.raises[t].inode) == 0 {
      if step.DoRaise? && step.thread == t {
        OwnStepSeesZero(s, t, step.raise);
      } else {
        OthersLeaveRaise(s, step, t);
        ZeroStays(s, step, s.raises[t].inode);
      }
    }
  }

  lemma {:induction false} RunsKeepZeroSeen(trace: seq<State>, steps: seq<Step>, k: nat)
    requires IsRun(trace, steps) && k < |trace|
    ensures ZeroSeenIsZero(trace[k])
  {
    if k > 0 {
      RunsKeepZeroSeen(trace, steps, k - 1);
      RunsKeepInv(trace, steps, k - 1);
      StepKeepsZeroSeen(trace[k - 1], steps[k - 1]);
    }
  }

  /** An attempt to raise the count of `i` that is over has a reference, and the count tells; or the count is zero. */
  ghost predicate EndsWell(s: State, s': State, i: Inode) {
    if Count(s.objs, i) == 0 then s'.strong == s.strong && s'.objs == s.objs
    else s'.strong == s.strong + multiset{i} && Count(s'.objs, i) == Count(s.objs, i) + 1
  }

  lemma FinishEndsWell(s: State, t: Thread)
    requires RaisesInv(s) && ZeroSeenIsZero(s) && RaiseEnabled(s, t, Finish)
    ensures var s' := ApplyRaise(s, t, Finish);
            if t in s'.raises then s'.raises[t] == s.raises[t].(seen := None) else EndsWell(s, s', s.raises[t].inode)
  {
  }

  /**
    Over any run, an attempt goes on, with the same inode, until it has its reference; it ends
    without one only if the count is zero.
   */
  lemma RaiseGoesOn(trace: seq<State>, steps: seq<Step>, k: nat, t: Thread)
    requires IsRun(trace, steps) && k + 1 < |trace| && t in trace[k].raises
    ensures var Raise(i, access, _) := trace[k].raises[t];
            if t in trace[k + 1].raises
            then trace[k + 1].raises[t].inode == i && trace[k + 1].raises[t].access == access
            else EndsWell(trace[k], trace[k + 1], i)
  {
    RunsKeepInv(trace, steps, k);
    RunsKeepZeroSeen(trace, steps, k);
    var step := steps[k];
    if step.DoRaise? && step.thread == t {
      if step.raise.Finish? {
        FinishEndsWell(trace[k], t);
      }
    } else {
      OthersLeaveRaise(trace[k], step, t);
    }
  }

  /** Left alone, an attempt has its reference after one load and one compare-and-swap, if the count is not zero. */
  lemma UndisturbedRaise(s: State, t: Thread, i: Inode, access: Access)
    requires Inv(s) && RaiseEnabled(s, t, Begin(i, access))
    ensures var begun := ApplyRaise(s, t, Begin(i, access));
            && RaiseEnabled(begun, t, Load)
            && var loaded := ApplyRaise(begun, t, Load);
               && RaiseEnabled(loaded, t, Finish)
               && EndsWell(s, ApplyRaise(loaded, t, Finish), i) && ApplyRaise(loaded, t, Finish).raises == s.raises
  {
    BeginsWithInode(s, t, i, access);
    var begun := ApplyRaise(s, t, Begin(i, access));
    var loaded := ApplyRaise(begun, t, Load);
    assert loaded.raises == s.raises[t := Raise(i, access, Some(Count(s.objs, i)))] && loaded.objs == s.objs && loaded.strong == s.strong;
    SwapEndsWell(loaded, t);
    assert loaded.raises - {t} == s.raises;
  }

  lemma BeginsWithInode(s: State, t: Thread, i: Inode, access: Access)
    requires Inv(s) && RaiseEnabled(s, t, Begin(i, access))
    ensures i in s.objs
  {
    if access.Cloning? {
      HeldIsStored(s, i);
    }
  }

  lemma SwapEndsWell(s: State, t: Thread)
    requires RaiseEnabled(s, t, Finish) && s.raises[t].seen.value == s.objs[s.raises[t].inode].refcount
    ensures var s' := ApplyRaise(s, t, Finish); EndsWell(s, s', s.raises[t].inode) && s'.raises == s.raises - {t}
  {
  }

  /** Raising a count under the lock, or through a strong reference, never meets a count of zero, nor ends without a reference. */
  lemma ClaimAndCloneSucceed(trace: seq<State>, steps: seq<Step>, k: nat, t: Thread)
    requires IsRun(trace, steps) && k < |trace|
    requires t in trace[k].raises && !trace[k].raises[t].access.Weak?
    ensures var Raise(i, _, seen) := trace[k].raises[t];
            && i in trace[k].stored && Count(trace[k].objs, i) > 0
            && (seen.Some? ==> seen.value > 0)
            && (k + 1 < |trace| && t !in trace[k + 1].raises ==>
                  trace[k + 1].strong == trace[k].strong + multiset{i} && Count(trace[k + 1].objs, i) == Count(trace[k].objs, i) + 1)
  {
    RunsKeepInv(trace, steps, k);
    var i := trace[k].raises[t].inode;
    if trace[k].raises[t].access.Cloning? {
      HeldIsStored(trace[k], i);
    }
    if k + 1 < |trace| {
      RaiseGoesOn(trace, steps, k, t);
    }
  }

  // ----- The writer's steps make up the cascade ----------------------------------------------

  /** The inodes in the store, as a store without indexes. */
  ghost function Contents(s: State): Store {
    Store(map i | i in s.objs && i in s.stored :: s.objs[i], map[], map[])
  }

  /** What the writer has left to do, as a worklist. */
  ghost function Left(s: State): Pending {
    match s.writer
    case Unlocked => []
    case Inserting => []
    case Draining(todo) => todo
    case Loaded(todo, _) => todo
    case Zeroed(i, todo) => [(i, 0)] + todo
    case Taking(i, todo) => Ones(if i in s.objs then s.objs[i].info else []) + todo
  }

  ghost function Result(s: State): Store {
    Drain(Contents(s), Left(s))
  }

  lemma SwapKeepsResult(s: State)
    requires StoreInv(s) && ForgetEnabled(s, SwapCount)
    ensures Result(ApplyForget(s, SwapCount)) == Result(s)
  {
    var s', todo := ApplyForget(s, SwapCount), s.writer.todo;
    var (i, n) := todo[0];
    if s.objs[i].refcount == s.writer.seen {
      var (next, rest) := DrainStep(Contents(s), todo);
      if SaturatingSub(s.writer.seen, n) == 0 {
        assert Left(s')[0] == (i, 0) && Left(s')[1..] == todo[1..];
        assert Unlink(Contents(s'), i) == next;
        assert DrainStep(Contents(s'), Left(s')) == (next, rest);
      } else {
        assert Contents(s') == next && Left(s') == rest;
      }
    }
  }

  lemma RemovalKeepsResult(s: State)
    requires StoreInv(s) && ForgetEnabled(s, RemoveZeroed)
    ensures Result(ApplyForget(s, RemoveZeroed)) == Result(s)
  {
    var s', i := ApplyForget(s, RemoveZeroed), s.writer.inode;
    assert Left(s)[0] == (i, 0) && Left(s)[1..] == s.writer.todo;
    assert Contents(s') == Unlink(Contents(s), i);
    assert DrainStep(Contents(s), Left(s)) == (Contents(s'), Left(s'));
  }

  lemma TakingKeepsResult(s: State)
    requires StoreInv(s) && ForgetEnabled(s, TakeInfo)
    ensures Result(ApplyForget(s, TakeInfo)) == Result(s)
  {
    assert Contents(ApplyForget(s, TakeInfo)) == Contents(s);
  }

  lemma ForgetKeepsResult(s: State, step: ForgetStep)
    requires StoreInv(s) && ForgetEnabled(s, step)
    ensures Result(ApplyForget(s, step)) == Result(s)
  {
    match step {
      case SkipMissing => assert DrainStep(Contents(s), s.writer.todo) == (Contents(s), s.writer.todo[1..]);
      case LoadCount =>
      case SwapCount => SwapKeepsResult(s);
      case RemoveZeroed => RemovalKeepsResult(s);
      case TakeInfo => TakingKeepsResult(s);
    }
  }

  ghost predicate OnlyForgets(steps: seq<Step>, k: nat, m: nat) {
    forall n | k <= n < m < |steps| + 1 :: steps[n].DoForget?
  }

  lemma RunStepKeepsResult(trace: seq<State>, steps: seq<Step>, n: nat)
    requires IsRun(trace, steps) && n < |steps| && steps[n].DoForget?
    ensures Result(trace[n + 1]) == Result(trace[n])
  {
    RunsKeepInv(trace, steps, n);
    ForgetKeepsResult(trace[n], steps[n].forget);
  }

  lemma ForgetsKeepResult(trace: seq<State>, steps: seq<Step>, k: nat, m: nat)
    requires IsRun(trace, steps) && k <= m < |trace| && OnlyForgets(steps, k, m)
    ensures Result(trace[m]) == Result(trace[k])
  {
    var results := seq(|trace|, n requires 0 <= n < |trace| => Result(trace[n]));
    forall n | k <= n < m ensures results[n + 1] == results[n] {
      RunStepKeepsResult(trace, steps, n);
    }
    Constant(results, k, m);
  }

  /** The references that a thread takes the lock to drop. */
  function Requested(step: LockStep): Pending {
    match step
    case LockToForget(requests) => requests
    case LockToDrop(i) => [(i, 1)]
    case QueueDrop(i) => [(i, 1)]
    case _ => []
  }

  ghost function Holders(s: State): multiset<Inode> {
    s.guest + s.strong
  }

  lemma LockTakesOver(s: State, step: LockStep)
    requires LockEnabled(s, step) && !step.LockToInsert? && !step.Unlock?
    ensures var s' := ApplyLock(s, step);
            && s'.writer == Draining(Requested(step)) && Contents(s') == Contents(s)
            && Holders(s') + Demand(Requested(step)) == Holders(s)
  {
    if !step.LockToForget? {
      assert Demand([(step.inode, 1)]) == multiset{step.inode};
    }
  }

  lemma RunLockTakesOver(trace: seq<State>, steps: seq<Step>, k: nat, lock: LockStep)
    requires IsRun(trace, steps) && k < |steps| && steps[k] == DoLock(lock) && !lock.LockToInsert? && !lock.Unlock?
    ensures trace[k + 1].writer == Draining(Requested(lock)) && Contents(trace[k + 1]) == Contents(trace[k])
    ensures Holders(trace[k + 1]) + Demand(Requested(lock)) == Holders(trace[k])
  {
    LockTakesOver(trace[k], lock);
  }

  lemma RunStepKeepsHolders(trace: seq<State>, steps: seq<Step>, n: nat)
    requires IsRun(trace, steps) && n < |steps| && steps[n].DoForget?
    ensures Holders(trace[n + 1]) == Holders(trace[n])
  {
  }

  lemma ForgetsKeepHolders(trace: seq<State>, steps: seq<Step>, k: nat, m: nat)
    requires IsRun(trace, steps) && k <= m < |trace| && OnlyForgets(steps, k, m)
    ensures Holders(trace[m]) == Holders(trace[k])
  {
    var holders := seq(|trace|, n requires 0 <= n < |trace| => Holders(trace[n]));
    forall n | k <= n < m ensures holders[n + 1] == holders[n] {
      RunStepKeepsHolders(trace, steps, n);
    }
    Constant(holders, k, m);
  }

  /**
    From taking the lock to having nothing left to do, if no other thread comes in between, the
    steps are one cascade over the references dropped, which nobody holds any more.
   */
  lemma StepsAreOneCascade(trace: seq<State>, steps: seq<Step>, k: nat, m: nat, lock: LockStep)
    requires IsRun(trace, steps) && k < m < |trace| && OnlyForgets(steps, k + 1, m)
    requires steps[k] == DoLock(lock) && !lock.LockToInsert? && !lock.Unlock? && trace[m].writer == Draining([])
    ensures Contents(trace[m]) == Drain(Contents(trace[k]), Requested(lock))
    ensures Holders(trace[m]) + Demand(Requested(lock)) == Holders(trace[k])
  {
    RunLockTakesOver(trace, steps, k, lock);
    ForgetsKeepResult(trace, steps, k + 1, m);
    ForgetsKeepHolders(trace, steps, k + 1, m);
  }
}
