/**
  Dropping a strong reference takes the store's lock, so the thread that holds that lock must not
  drop one, be it inside of the migration info of an inode that it drops the last pointer to.

  On top of the steps of `RefcountInterleaving` this follows every pointer to an inode: those that
  threads have from looking an inode up, and those that the thread which holds the lock drops
  before it unlocks, or keeps until after.
 */
module StoreLock {
  import opened InodeStores
  import R = RefcountInterleaving

  /** A pointer that the writer drops as soon as no more than `depth` items of its work are left. */
  datatype Pointer = Pointer(inode: Inode, depth: nat)

  datatype State = State(base: R.State,
                         pointers: multiset<Inode>,  // of threads that have looked the inode up
                         kept: multiset<Inode>,      // of a thread in `drop`, until it has unlocked
                         carried: seq<Inode>,        // in the strong references that the writer drops next
                         inHand: multiset<Pointer>)  // of removals and drops that the writer is about to finish

  datatype Step =
    | Base(step: R.Step)
    | TakePointer(inode: Inode)
    | DropPointer(inode: Inode)
    | WriterDrops(pointer: Pointer)

  /** How much work the writer has left. */
  function Depth(w: R.Writer): nat {
    if w.Unlocked? || w.Inserting? then 0 else |w.todo|
  }

  ghost predicate NothingDue(s: State) {
    forall p | p in s.inHand :: p.depth < Depth(s.base.writer)
  }

  /** The info of an inode stays locked while the references that were taken out of it are dropped. */
  ghost predicate InfoUnlocked(s: State, i: Inode) {
    forall p | p in s.inHand && p.inode == i :: Depth(s.base.writer) <= p.depth
  }

  predicate PutsInfo(step: Step) {
    step.Base? && step.step.DoOwner? && step.step.owner.PutInfo?
  }

  /** Migration info is set through a pointer; the writer clears it through the store. */
  ghost predicate MayPutInfo(s: State, i: Inode, info: seq<Inode>) {
    && InfoUnlocked(s, i)
    && (i in s.pointers + s.base.strong || (info == [] && i in s.base.stored && s.base.writer == R.Draining([])))
  }

  /** The writer does not go on, nor unlock, before it has dropped the pointers that are due. */
  predicate GoesOn(step: R.Step) {
    step in {R.DoForget(R.SkipMissing), R.DoForget(R.LoadCount), R.DoLock(R.Unlock)} || (step.DoLock? && step.lock.QueueDrop?)
  }

  ghost predicate Enabled(s: State, step: Step) {
    match step
    case Base(b) =>
      && R.Enabled(s.base, b)
      && (PutsInfo(step) ==> MayPutInfo(s, b.owner.inode, b.owner.info))
      && (GoesOn(b) ==> NothingDue(s))
    case TakePointer(i) => i in s.base.stored && s.base.writer.Unlocked?
    case DropPointer(i) => i in s.pointers
    case WriterDrops(p) => p in s.inHand && s.base.writer.Draining? && Depth(s.base.writer) <= p.depth
  }

  ghost function ApplyLock(s: State, step: R.LockStep): State
    requires R.LockEnabled(s.base, step)
  {
    var next := s.(base := R.ApplyLock(s.base, step));
    match step
    case LockToInsert => next
    case LockToForget(_) => next
    case LockToDrop(i) => next.(kept := multiset{i})
    case QueueDrop(i) => next.(carried := [i])
    case Unlock => next.(pointers := s.pointers + s.kept, kept := multiset{})
  }

  /** The pointer inside of a reference that the writer has subtracted is dropped when all that follows from it is done. */
  ghost function Subtracted(s: State, depth: nat): State {
    if s.carried == [] then s
    else s.(carried := s.carried[1..], inHand := s.inHand + multiset{Pointer(s.carried[0], depth)})
  }

  ghost function ApplyForget(s: State, step: R.ForgetStep): State
    requires R.ForgetEnabled(s.base, step)
  {
    var next := s.(base := R.ApplyForget(s.base, step));
    var w := s.base.writer;
    match step
    case SkipMissing => Subtracted(next, |w.todo| - 1)
    case LoadCount => next
    case SwapCount => if s.base.objs[w.todo[0].0].refcount == w.seen then Subtracted(next, |w.todo| - 1) else next
    case RemoveZeroed => next.(inHand := s.inHand + multiset{Pointer(w.inode, |w.todo|)})
    case TakeInfo => next.(carried := s.base.objs[w.inode].info + s.carried)
  }

  ghost function Apply(s: State, step: Step): State
    requires Enabled(s, step)
  {
    match step
    case Base(b) =>
      if b.DoLock? then ApplyLock(s, b.lock)
      else if b.DoForget? then ApplyForget(s, b.forget)
      else s.(base := R.Apply(s.base, b))
    case TakePointer(i) => s.(pointers := s.pointers + multiset{i})
    case DropPointer(i) => s.(pointers := s.pointers - multiset{i})
    case WriterDrops(p) => s.(inHand := s.inHand - multiset{p})
  }

  /** No pointer to its inode is left but `p`. */
  ghost predicate IsLast(s: State, p: Pointer) {
    var i := p.inode;
    && i !in s.base.stored && i !in s.base.strong && i !in InfoRefs(s.base.objs)
    && i !in s.pointers && i !in s.kept && i !in s.carried
    && (forall q | q in s.inHand - multiset{p} :: q.inode != i)
    && (forall t | t in s.base.raises :: s.base.raises[t].inode != i)
  }

  /** The writer drops the last pointer to an inode whose migration info holds references, and so locks again. */
  ghost predicate Relocks(s: State, step: Step) {
    && step.WriterDrops? && step.pointer.inode in s.base.objs
    && IsLast(s, step.pointer) && s.base.objs[step.pointer.inode].info != []
  }

  ghost predicate IsRun(trace: seq<State>, steps: seq<Step>) {
    && |trace| == |steps| + 1
    && R.Init(trace[0].base) && trace[0] == State(trace[0].base, multiset{}, multiset{}, [], multiset{})
    && forall k | 0 <= k < |steps| :: Enabled(trace[k], steps[k]) && trace[k + 1] == Apply(trace[k], steps[k])
  }

  // ----- Invariant ---------------------------------------------------------------------------

  ghost predicate HeadsWork(carried: seq<Inode>, w: R.Writer) {
    if w.Unlocked? || w.Inserting? then carried == []
    else |carried| <= |w.todo| && forall k | 0 <= k < |carried| :: w.todo[k] == (carried[k], 1)
  }

  ghost predicate Inv(s: State) {
    && R.Inv(s.base)
    && HeadsWork(s.carried, s.base.writer)
    && (s.base.writer.Unlocked? || s.base.writer.Inserting? ==> s.inHand == multiset{} && s.kept == multiset{})
  }

  /** The lock changes hands only when the writer has no pointer left to drop. */
  lemma LockIsEmptyHanded(s: State, step: R.LockStep)
    requires Inv(s) && R.LockEnabled(s.base, step) && (GoesOn(R.DoLock(step)) ==> NothingDue(s))
    ensures ApplyLock(s, step).inHand == multiset{}
  {
    if step.Unlock? || step.QueueDrop? {
      assert forall p :: p !in s.inHand;
    }
  }

  lemma LockKeepsInv(s: State, step: R.LockStep)
    requires Inv(s) && R.LockEnabled(s.base, step) && (GoesOn(R.DoLock(step)) ==> NothingDue(s))
    ensures Inv(ApplyLock(s, step))
  {
    R.LockKeepsInv(s.base, step);
    LockIsEmptyHanded(s, step);
  }

  lemma OnesHeadsWork(info: seq<Inode>, carried: seq<Inode>, todo: Pending)
    requires HeadsWork(carried, R.Draining(todo))
    ensures HeadsWork(info + carried, R.Draining(Ones(info) + todo))
  {
  }

  lemma ForgetKeepsHead(s: State, step: R.ForgetStep)
    requires HeadsWork(s.carried, s.base.writer) && R.ForgetEnabled(s.base, step)
    ensures HeadsWork(ApplyForget(s, step).carried, ApplyForget(s, step).base.writer)
  {
    if step.TakeInfo? {
      OnesHeadsWork(s.base.objs[s.base.writer.inode].info, s.carried, s.base.writer.todo);
    }
  }

  lemma StillWriting(s: State, step: R.ForgetStep)
    requires R.ForgetEnabled(s.base, step)
    ensures ApplyForget(s, step).base == R.ApplyForget(s.base, step)
    ensures !ApplyForget(s, step).base.writer.Unlocked? && !ApplyForget(s, step).base.writer.Inserting?
  {
  }

  lemma ForgetKeepsInv(s: State, step: R.ForgetStep)
    requires Inv(s) && R.ForgetEnabled(s.base, step)
    ensures Inv(ApplyForget(s, step))
  {
    var s' := ApplyForget(s, step);
    R.ForgetKeepsInv(s.base, step);
    ForgetKeepsHead(s, step);
    StillWriting(s, step);
    assert R.Inv(s'.base);
  }

  lemma StepKeepsInv(s: State, step: Step)
    requires Inv(s) && Enabled(s, step)
    ensures Inv(Apply(s, step))
  {
    if step.Base? {
      match step.step {
        case DoRaise(t, raise) => R.RaiseKeepsInv(s.base, t, raise);
        case DoLock(lock) => LockKeepsInv(s, lock);
        case DoForget(forget) => ForgetKeepsInv(s, forget);
        case DoOwner(owner) => R.OwnerKeepsInv(s.base, owner);
      }
    }
  }

  lemma {:induction false} RunsKeepInv(trace: seq<State>, steps: seq<Step>, k: nat)
    requires IsRun(trace, steps) && k < |trace|
    ensures Inv(trace[k])
  {
    if k > 0 {
      RunsKeepInv(trace, steps, k - 1);
      StepKeepsInv(trace[k - 1], steps[k - 1]);
    } else {
      R.InitHasInv(trace[0].base);
    }
  }

  lemma DemandHasFirst(todo: Pending)
    requires todo != [] && todo[0].1 > 0
    ensures todo[0].0 in Demand(todo)
  {
    assert Demand(todo)[todo[0].0] == Demand(todo[1..])[todo[0].0] + todo[0].1;
  }

  lemma {:induction false} DemandHas(todo: Pending, k: nat)
    requires k < |todo| && todo[k].1 > 0
    ensures todo[k].0 in Demand(todo)
  {
    if k == 0 {
      DemandHasFirst(todo);
    } else {
      DemandHas(todo[1..], k - 1);
      assert todo[1..][k - 1] == todo[k];
    }
  }

  /** An inode in a reference that is still to be subtracted is in the store. */
  lemma CarriedIsStored(s: State, i: Inode)
    requires Inv(s) && i in s.carried
    ensures i in s.base.stored
  {
    var k :| 0 <= k < |s.carried| && s.carried[k] == i;
    DemandHas(s.base.writer.todo, k);
    assert i in R.Queued(s.base.writer);
    R.HeldIsStored(s.base, i);
  }

  // ----- With the rule -----------------------------------------------------------------------

  /** The rule: info that holds references is set only through a strong reference to that inode. */
  predicate ThroughStrong(s: State, step: Step) {
    PutsInfo(step) ==> step.step.owner.info == [] || step.step.owner.inode in s.base.strong
  }

  ghost predicate ObeysRule(trace: seq<State>, steps: seq<Step>) {
    |steps| <= |trace| && forall k | 0 <= k < |steps| :: ThroughStrong(trace[k], steps[k])
  }

  ghost predicate NeverRelocks(trace: seq<State>, steps: seq<Step>) {
    |steps| <= |trace| && forall k | 0 <= k < |steps| :: !Relocks(trace[k], steps[k])
  }

  /** The inode has left the store, and its migration info has been taken. */
  ghost predicate Gone(b: R.State, i: Inode) {
    i in b.objs && i !in b.stored && !(b.writer.Taking? && b.writer.inode == i)
  }

  ghost predicate GoneIsEmpty(b: R.State) {
    forall i | Gone(b, i) :: b.objs[i].info == []
  }

  lemma RaiseKeepsGone(b: R.State, t: R.Thread, step: R.RaiseStep, i: Inode)
    requires R.RaiseEnabled(b, t, step) && Gone(R.ApplyRaise(b, t, step), i)
    ensures Gone(b, i) && R.ApplyRaise(b, t, step).objs[i].info == b.objs[i].info
  {
  }

  lemma LockKeepsGone(b: R.State, step: R.LockStep, i: Inode)
    requires R.LockEnabled(b, step) && Gone(R.ApplyLock(b, step), i)
    ensures Gone(b, i) && R.ApplyLock(b, step).objs[i].info == b.objs[i].info
  {
  }

  lemma ForgetKeepsGone(b: R.State, step: R.ForgetStep, i: Inode)
    requires R.ForgetEnabled(b, step) && Gone(R.ApplyForget(b, step), i) && R.ApplyForget(b, step).objs[i].info != []
    ensures Gone(b, i) && b.objs[i].info == R.ApplyForget(b, step).objs[i].info
  {
  }

  lemma OwnerKeepsGone(b: R.State, step: R.OwnerStep, i: Inode)
    requires R.OwnerEnabled(b, step) && Gone(R.ApplyOwner(b, step), i) && !(step.PutInfo? && step.inode == i)
    ensures Gone(b, i) && R.ApplyOwner(b, step).objs[i].info == b.objs[i].info
  {
  }

  /** Only setting the info of an inode that is gone gives it references. */
  lemma GoneWasGone(b: R.State, step: R.Step, i: Inode)
    requires R.Enabled(b, step) && Gone(R.Apply(b, step), i) && R.Apply(b, step).objs[i].info != []
    requires !(step.DoOwner? && step.owner.PutInfo? && step.owner.inode == i)
    ensures Gone(b, i) && b.objs[i].info == R.Apply(b, step).objs[i].info
  {
    match step {
      case DoRaise(t, raise) => RaiseKeepsGone(b, t, raise, i);
      case DoLock(lock) => LockKeepsGone(b, lock, i);
      case DoForget(forget) => ForgetKeepsGone(b, forget, i);
      case DoOwner(owner) => OwnerKeepsGone(b, owner, i);
    }
  }

  lemma StepKeepsGoneEmpty(b: R.State, step: R.Step)
    requires R.Inv(b) && GoneIsEmpty(b) && R.Enabled(b, step)
    requires step.DoOwner? && step.owner.PutInfo? ==> step.owner.info == [] || step.owner.inode in b.strong
    ensures GoneIsEmpty(R.Apply(b, step))
  {
    var b' := R.Apply(b, step);
    forall i | Gone(b', i) ensures b'.objs[i].info == [] {
      if b'.objs[i].info != [] {
        if step.DoOwner? && step.owner.PutInfo? && step.owner.inode == i {
          R.HeldIsStored(b, i);
          assert false;
        }
        GoneWasGone(b, step, i);
      }
    }
  }

  lemma {:induction false} RunsKeepGoneEmpty(trace: seq<State>, steps: seq<Step>, k: nat)
    requires IsRun(trace, steps) && ObeysRule(trace, steps) && k < |trace|
    ensures GoneIsEmpty(trace[k].base)
  {
    if k > 0 {
      RunsKeepGoneEmpty(trace, steps, k - 1);
      RunsKeepInv(trace, steps, k - 1);
      if steps[k - 1].Base? {
        StepKeepsGoneEmpty(trace[k - 1].base, steps[k - 1].step);
      }
    }
  }

  lemma RuleSuffices(trace: seq<State>, steps: seq<Step>)
    requires IsRun(trace, steps) && ObeysRule(trace, steps)
    ensures NeverRelocks(trace, steps)
  {
    forall k | 0 <= k < |steps| ensures !Relocks(trace[k], steps[k]) {
      RunsKeepGoneEmpty(trace, steps, k);
      if Relocks(trace[k], steps[k]) {
        assert Gone(trace[k].base, steps[k].pointer.inode);
      }
    }
  }

  // ----- When it happens ---------------------------------------------------------------------

  /** The store can be locked again in `n` steps that set no migration info. */
  ghost predicate RelocksWithin(s: State, n: nat)
    decreases n
  {
    n > 0 && exists step ::
      && Enabled(s, step) && !PutsInfo(step)
      && (Relocks(s, step) || RelocksWithin(Apply(s, step), n - 1))
  }

  ghost predicate MayRelock(s: State) {
    exists n: nat :: RelocksWithin(s, n)
  }

  /** The writer still drops a pointer to `i`, which is gone and yet holds references, before it unlocks. */
  ghost predicate Exposed(s: State, i: Inode) {
    && Gone(s.base, i) && s.base.objs[i].info != [] && i !in s.kept
    && exists p :: p in s.inHand && p.inode == i
  }

  ghost predicate AnyExposed(s: State) {
    exists i :: Exposed(s, i)
  }

  lemma SubtractedIsStored(s: State, step: R.ForgetStep, p: Pointer)
    requires Inv(s) && R.ForgetEnabled(s.base, step) && p in ApplyForget(s, step).inHand && p !in s.inHand
    ensures !Gone(ApplyForget(s, step).base, p.inode)
  {
    if !step.RemoveZeroed? {
      assert p.inode == s.carried[0];
      CarriedIsStored(s, p.inode);
    }
  }

  lemma ForgetWasExposed(s: State, step: R.ForgetStep, i: Inode)
    requires Inv(s) && R.ForgetEnabled(s.base, step) && Exposed(ApplyForget(s, step), i)
    ensures Exposed(s, i)
  {
    ForgetKeepsGone(s.base, step, i);
    var p :| p in ApplyForget(s, step).inHand && p.inode == i;
    if p !in s.inHand {
      SubtractedIsStored(s, step, p);
    }
  }

  /** Only setting migration info exposes an inode. */
  lemma WasExposed(s: State, step: Step, i: Inode)
    requires Inv(s) && Enabled(s, step) && !PutsInfo(step) && Exposed(Apply(s, step), i)
    ensures Exposed(s, i)
  {
    if step.Base? {
      match step.step {
        case DoRaise(t, raise) => RaiseKeepsGone(s.base, t, raise, i);
        case DoLock(lock) =>
          LockIsEmptyHanded(s, lock);
          assert false;
        case DoForget(forget) => ForgetWasExposed(s, forget, i);
        case DoOwner(owner) => OwnerKeepsGone(s.base, owner, i);
      }
    }
  }

  lemma RelocksIsExposed(s: State, step: Step)
    requires Enabled(s, step) && Relocks(s, step)
    ensures AnyExposed(s)
  {
    assert Exposed(s, step.pointer.inode);
  }

  lemma {:induction false} WithinIsExposed(s: State, n: nat)
    requires Inv(s) && RelocksWithin(s, n)
    ensures AnyExposed(s)
    decreases n
  {
    var step :| Enabled(s, step) && !PutsInfo(step) && (Relocks(s, step) || RelocksWithin(Apply(s, step), n - 1));
    if Relocks(s, step) {
      RelocksIsExposed(s, step);
    } else {
      StepKeepsInv(s, step);
      WithinIsExposed(Apply(s, step), n - 1);
      var i :| Exposed(Apply(s, step), i);
      WasExposed(s, step, i);
    }
  }

  // ----- An exposed inode leads there --------------------------------------------------------

  lemma Precedes(s: State, step: Step, next: State)
    requires Enabled(s, step) && !PutsInfo(step) && next == Apply(s, step) && MayRelock(next)
    ensures MayRelock(s)
  {
    var n: nat :| RelocksWithin(next, n);
    assert RelocksWithin(s, n + 1);
  }

  lemma RelocksNow(s: State, step: Step)
    requires Enabled(s, step) && Relocks(s, step)
    ensures MayRelock(s)
  {
    assert RelocksWithin(s, 1);
  }

  /** Neither a looked-up pointer nor an attempt to raise the count is left. */
  ghost predicate Unused(s: State, i: Inode) {
    i !in s.pointers && forall t | t in s.base.raises :: s.base.raises[t].inode != i
  }

  /** The writer's next step. */
  ghost predicate IsNext(s: State, step: Step) {
    match s.base.writer
    case Loaded(_, _) => step == Base(R.DoForget(R.SwapCount))
    case Zeroed(_, _) => step == Base(R.DoForget(R.RemoveZeroed))
    case Taking(_, _) => step == Base(R.DoForget(R.TakeInfo))
    case Draining(todo) =>
      if NothingDue(s) then
        && todo != []
        && step == Base(R.DoForget(if todo[0].0 in s.base.stored then R.LoadCount else R.SkipMissing))
      else step.WriterDrops? && step.pointer in s.inHand && Depth(s.base.writer) <= step.pointer.depth
    case _ => false
  }

  lemma NextStep(s: State, i: Inode) returns (step: Step)
    requires Inv(s) && Exposed(s, i)
    ensures IsNext(s, step) && Enabled(s, step) && !PutsInfo(step)
  {
    var p :| p in s.inHand && p.inode == i;
    match s.base.writer {
      case Loaded(_, _) => step := Base(R.DoForget(R.SwapCount));
      case Zeroed(_, _) => step := Base(R.DoForget(R.RemoveZeroed));
      case Taking(_, _) => step := Base(R.DoForget(R.TakeInfo));
      case Draining(todo) =>
        if NothingDue(s) {
          step := Base(R.DoForget(if todo[0].0 in s.base.stored then R.LoadCount else R.SkipMissing));
        } else {
          var q :| q in s.inHand && Depth(s.base.writer) <= q.depth;
          step := WriterDrops(q);
        }
    }
  }

  /** What the writer has left to do: inodes to remove, items, and the attempts at the first of them. */
  function Removals(b: R.State): nat {
    2 * |b.stored| + if b.writer.Taking? then 1 else 0
  }

  function Attempts(b: R.State): nat {
    match b.writer
    case Loaded(todo, seen) => if todo != [] && R.Count(b.objs, todo[0].0) == seen then 0 else 2
    case _ => 1
  }

  ghost predicate LessWork(s: State, s': State) {
    var n, n', d, d' := Removals(s.base), Removals(s'.base), Depth(s.base.writer), Depth(s'.base.writer);
    || n' < n
    || (n' == n && d' < d)
    || (n' == n && d' == d && Attempts(s'.base) < Attempts(s.base))
    || (s'.base == s.base && |s'.inHand| < |s.inHand|)
  }

  lemma SwapIsLess(b: R.State)
    requires R.StoreInv(b) && R.ForgetEnabled(b, R.SwapCount)
    ensures var b' := R.ApplyForget(b, R.SwapCount);
            Removals(b') == Removals(b) &&
            (Depth(b'.writer) < Depth(b.writer) || (Depth(b'.writer) == Depth(b.writer) && Attempts(b') < Attempts(b)))
  {
  }

  lemma RemovalIsLess(b: R.State, step: R.ForgetStep)
    requires R.StoreInv(b) && R.ForgetEnabled(b, step) && (step.RemoveZeroed? || step.TakeInfo?)
    ensures Removals(R.ApplyForget(b, step)) < Removals(b)
  {
    if step.RemoveZeroed? {
      assert b.stored == (b.stored - {b.writer.inode}) + {b.writer.inode};
    }
  }

  lemma LookIsLess(b: R.State, step: R.ForgetStep)
    requires R.ForgetEnabled(b, step) && (step.SkipMissing? || step.LoadCount?)
    ensures var b' := R.ApplyForget(b, step);
            Removals(b') == Removals(b) &&
            (Depth(b'.writer) < Depth(b.writer) || (Depth(b'.writer) == Depth(b.writer) && Attempts(b') < Attempts(b)))
  {
  }

  lemma NextIsLess(s: State, step: Step)
    requires Inv(s) && Enabled(s, step) && IsNext(s, step)
    ensures LessWork(s, Apply(s, step))
  {
    if step.Base? {
      var forget := step.step.forget;
      StillWriting(s, forget);
      match forget {
        case SwapCount => SwapIsLess(s.base);
        case SkipMissing => LookIsLess(s.base, forget);
        case LoadCount => LookIsLess(s.base, forget);
        case RemoveZeroed => RemovalIsLess(s.base, forget);
        case TakeInfo => RemovalIsLess(s.base, forget);
      }
    }
  }

  lemma StaysGone(b: R.State, step: R.ForgetStep, i: Inode)
    requires R.StoreInv(b) && R.ForgetEnabled(b, step) && Gone(b, i)
    ensures var b' := R.ApplyForget(b, step); Gone(b', i) && b'.objs[i].info == b.objs[i].info && b'.raises == b.raises
  {
  }

  lemma StaysInHand(s: State, step: R.ForgetStep, p: Pointer)
    requires R.ForgetEnabled(s.base, step) && p in s.inHand
    ensures var s' := ApplyForget(s, step); p in s'.inHand && s'.kept == s.kept && s'.pointers == s.pointers
  {
  }

  lemma NextKeepsExposed(s: State, step: Step, i: Inode)
    requires Inv(s) && Enabled(s, step) && IsNext(s, step) && Exposed(s, i) && Unused(s, i) && !Relocks(s, step)
    ensures Exposed(Apply(s, step), i) && Unused(Apply(s, step), i)
  {
    var p :| p in s.inHand && p.inode == i;
    if step.WriterDrops? {
      if !exists q :: q in Apply(s, step).inHand && q.inode == i {
        LastOne(s, step.pointer, i);
      }
    } else {
      var forget := step.step.forget;
      StillWriting(s, forget);
      StaysGone(s.base, forget, i);
      StaysInHand(s, forget, p);
    }
  }

  lemma LastOne(s: State, p: Pointer, i: Inode)
    requires Inv(s) && Exposed(s, i) && Unused(s, i) && p in s.inHand
    requires forall q | q in s.inHand - multiset{p} :: q.inode != i
    ensures p.inode == i && IsLast(s, p)
  {
    var q :| q in s.inHand && q.inode == i;
    assert q != p ==> q in s.inHand - multiset{p};
    if i in s.carried {
      CarriedIsStored(s, i);
    }
    assert R.Count(s.base.objs, i) == R.Held(s.base)[i] + InfoRefs(s.base.objs)[i];
  }

  lemma {:induction false} UnusedMayRelock(s: State, i: Inode)
    requires Inv(s) && Exposed(s, i) && Unused(s, i)
    ensures MayRelock(s)
    decreases Removals(s.base), Depth(s.base.writer), Attempts(s.base), |s.inHand|
  {
    var step := NextStep(s, i);
    if Relocks(s, step) {
      RelocksNow(s, step);
    } else {
      var next := Apply(s, step);
      StepKeepsInv(s, step);
      NextIsLess(s, step);
      NextKeepsExposed(s, step, i);
      UnusedMayRelock(next, i);
      Precedes(s, step, next);
    }
  }

  /** An attempt to raise a count that is zero ends in at most three steps. */
  lemma EndRaise(s: State, t: R.Thread) returns (s': State)
    requires t in s.base.raises && s.base.raises[t].inode in s.base.objs
    requires s.base.objs[s.base.raises[t].inode].refcount == 0
    ensures s' == s.(base := s.base.(raises := s.base.raises - {t}))
    ensures MayRelock(s') ==> MayRelock(s)
    decreases match s.base.raises[t].seen case None => 1 case Some(v) => if v == 0 then 0 else 2
  {
    var seen := s.base.raises[t].seen;
    var step := R.DoRaise(t, if seen.None? then R.Load else R.Finish);
    var next := Apply(s, Base(step));
    if seen.Some? && seen.value == 0 {
      s' := next;
    } else {
      s' := EndRaise(next, t);
      assert next.base.raises - {t} == s.base.raises - {t};
    }
    if MayRelock(s') {
      Precedes(s, Base(step), next);
    }
  }

  lemma {:induction false} RaisesEnd(s: State, i: Inode)
    requires Inv(s) && Exposed(s, i) && i !in s.pointers
    ensures MayRelock(s)
    decreases |s.base.raises|
  {
    if t :| t in s.base.raises && s.base.raises[t].inode == i {
      var s' := EndRaise(s, t);
      assert Exposed(s', i);
      assert s.base.raises.Keys == s'.base.raises.Keys + {t};
      RaisesEnd(s', i);
    } else {
      UnusedMayRelock(s, i);
    }
  }

  lemma {:induction false} ExposedMayRelock(s: State, i: Inode)
    requires Inv(s) && Exposed(s, i)
    ensures MayRelock(s)
    decreases s.pointers[i]
  {
    if i in s.pointers {
      var next := Apply(s, DropPointer(i));
      ExposedMayRelock(next, i);
      Precedes(s, DropPointer(i), next);
    } else {
      RaisesEnd(s, i);
    }
  }

  /** Some run leads from the start to `s`. */
  ghost predicate Reachable(s: State) {
    exists trace, steps :: IsRun(trace, steps) && trace[|steps|] == s
  }

  /**
    Without further migration info being set, a thread can come to drop a strong reference while it
    holds the lock if and only if an inode is exposed.
   */
  lemma RelockIff(s: State)
    requires Reachable(s)
    ensures MayRelock(s) <==> AnyExposed(s)
  {
    var trace, steps :| IsRun(trace, steps) && trace[|steps|] == s;
    RunsKeepInv(trace, steps, |steps|);
    if MayRelock(s) {
      var n: nat :| RelocksWithin(s, n);
      WithinIsExposed(s, n);
    }
    if AnyExposed(s) {
      var i :| Exposed(s, i);
      ExposedMayRelock(s, i);
    }
  }

  // ----- A run that gets there ---------------------------------------------------------------

  lemma Extend(trace: seq<State>, steps: seq<Step>, step: Step, next: State)
    requires IsRun(trace, steps) && Enabled(trace[|steps|], step) && next == Apply(trace[|steps|], step)
    ensures IsRun(trace + [next], steps + [step])
  {
    var trace', steps' := trace + [next], steps + [step];
    forall k | 0 <= k < |steps'| ensures Enabled(trace'[k], steps'[k]) && trace'[k + 1] == Apply(trace'[k], steps'[k]) {
      if k < |steps| {
        assert trace'[k] == trace[k] && trace'[k + 1] == trace[k + 1] && steps'[k] == steps[k];
      }
    }
  }

  lemma ReachNext(s: State, step: Step, next: State)
    requires Reachable(s) && Enabled(s, step) && next == Apply(s, step)
    ensures Reachable(next)
  {
    var trace, steps :| IsRun(trace, steps) && trace[|steps|] == s;
    Extend(trace, steps, step, next);
    assert (trace + [next])[|steps + [step]|] == next;
  }

  /** Steps that move no pointer. */
  lemma ReachBase(s: State, step: R.Step, next: R.State)
    requires Reachable(s) && Enabled(s, Base(step)) && next == R.Apply(s.base, step)
    requires Apply(s, Base(step)) == s.(base := next)
    ensures Reachable(s.(base := next))
  {
    ReachNext(s, Base(step), s.(base := next));
  }

  const PLAIN := InodeData(File, InodeIds(0, 0, 0), 1, [])

  /** The lock is free, and there are no pointers but `pointers`. */
  ghost predicate Quiet(s: State, pointers: multiset<Inode>) {
    s.base.raises == map[] && s == State(s.base, pointers, multiset{}, [], multiset{})
  }

  lemma ReachInsert(s: State, i: Inode) returns (s': State)
    requires Reachable(s) && s.base.writer.Inserting? && s.base.raises == map[] && i !in s.base.objs
    ensures Reachable(s')
    ensures s' == s.(base := s.base.(objs := s.base.objs[i := PLAIN], stored := s.base.stored + {i},
                                     strong := s.base.strong + multiset{i}))
  {
    var b := s.base;
    assert multiset(PLAIN.info) == multiset{} && b.strong - multiset{} == b.strong;
    s' := s.(base := b.(objs := b.objs[i := PLAIN], stored := b.stored + {i}, strong := b.strong + multiset{i}));
    ReachBase(s, R.DoOwner(R.Insert(i, PLAIN)), s'.base);
  }

  lemma ReachLocked(s: State, w: R.Writer) returns (s': State)
    requires Reachable(s) && Quiet(s, multiset{})
    requires (s.base.writer, w) in {(R.Unlocked, R.Inserting), (R.Inserting, R.Unlocked)}
    ensures Reachable(s') && s' == s.(base := s.base.(writer := w))
  {
    s' := s.(base := s.base.(writer := w));
    ReachBase(s, R.DoLock(if w.Inserting? then R.LockToInsert else R.Unlock), s'.base);
  }

  /** The start, with a root that has two references. */
  lemma ReachStart() returns (s: State)
    ensures Reachable(s) && Quiet(s, multiset{}) && s.base.writer.Unlocked?
    ensures s.base.objs.Keys == {ROOT_ID} == s.base.stored && s.base.strong == multiset{} && s.base.objs[ROOT_ID].info == []
  {
    var d := PLAIN.(refcount := 2);
    s := State(R.State(map[ROOT_ID := d], {ROOT_ID}, multiset{ROOT_ID, ROOT_ID}, multiset{}, map[], R.Unlocked),
               multiset{}, multiset{}, [], multiset{});
    assert R.Init(s.base) by {
      assert d.refcount == 2 && d.info == [];
    }
    var none: seq<Step> := [];
    assert IsRun([s], none) && [s][|none|] == s;
  }

  /** Two inodes are entered, and some thread has looked the first one up. */
  ghost predicate TwoInodes(s: State) {
    && Quiet(s, multiset{2}) && s.base.writer.Unlocked?
    && s.base.objs.Keys == {ROOT_ID, 2, 3} == s.base.stored && s.base.strong == multiset{2, 3}
    && s.base.objs[2] == s.base.objs[3] == PLAIN && s.base.objs[ROOT_ID].info == []
  }

  lemma ReachTwoInodes() returns (s: State)
    ensures Reachable(s) && TwoInodes(s)
  {
    s := ReachStart();
    s := ReachLocked(s, R.Inserting);
    s := ReachInsert(s, 2);
    s := ReachInsert(s, 3);
    s := ReachLocked(s, R.Unlocked);
    var s' := s.(pointers := s.pointers + multiset{2});
    ReachNext(s, TakePointer(2), s');
    s := s';
  }

  /** The guest gets the reference to the first one, */
  lemma ReachLeaked(s: State) returns (s': State)
    requires Reachable(s) && TwoInodes(s)
    ensures Reachable(s') && s' == s.(base := s.base.(strong := multiset{3}, guest := s.base.guest + multiset{2}))
  {
    assert s.base.strong - multiset{2} == multiset{3};
    s' := s.(base := s.base.(strong := multiset{3}, guest := s.base.guest + multiset{2}));
    ReachBase(s, R.DoOwner(R.Leak(2)), s'.base);
  }

  /** and forgets it. */
  lemma ReachForgetting(s: State, guest: multiset<Inode>) returns (s': State)
    requires Reachable(s) && Quiet(s, multiset{2}) && s.base.writer.Unlocked? && s.base.guest == guest + multiset{2}
    requires 2 in s.base.objs && 2 in s.base.stored && s.base.objs[2] == PLAIN
    ensures Reachable(s') && s' == s.(base := s.base.(guest := guest, writer := R.Loaded([(2, 1)], 1)))
  {
    var b := s.base.(guest := guest, writer := R.Draining([(2, 1)]));
    assert Demand([(2, 1)]) == multiset{2};
    ReachBase(s, R.DoLock(R.LockToForget([(2, 1)])), b);
    s' := s.(base := b.(writer := R.Loaded([(2, 1)], 1)));
    ReachBase(s.(base := b), R.DoForget(R.LoadCount), s'.base);
  }

  lemma ReachZeroed(s: State) returns (s': State)
    requires Reachable(s) && s.base.writer == R.Loaded([(2, 1)], 1) && 2 in s.base.objs && s.base.objs[2] == PLAIN
    requires s.carried == []
    ensures Reachable(s')
    ensures s' == s.(base := s.base.(objs := s.base.objs[2 := PLAIN.(refcount := 0)], writer := R.Zeroed(2, [])))
  {
    s' := s.(base := s.base.(objs := s.base.objs[2 := PLAIN.(refcount := 0)], writer := R.Zeroed(2, [])));
    assert [(2, 1)][1..] == [];
    ReachBase(s, R.DoForget(R.SwapCount), s'.base);
  }

  /** It is taken out of the store and its info, which is empty, is taken. */
  lemma ReachTakenOut(s: State) returns (s': State)
    requires Reachable(s) && s.base.writer == R.Zeroed(2, []) && 2 in s.base.objs && s.base.objs[2].info == []
    requires s.carried == []
    ensures Reachable(s')
    ensures s' == s.(base := s.base.(stored := s.base.stored - {2}, writer := R.Draining([])),
                     inHand := s.inHand + multiset{Pointer(2, 0)})
  {
    var b := s.base.(stored := s.base.stored - {2}, writer := R.Taking(2, []));
    var out := s.(base := b, inHand := s.inHand + multiset{Pointer(2, 0)});
    ReachNext(s, Base(R.DoForget(R.RemoveZeroed)), out);
    assert Ones(b.objs[2].info) + [] == [] && b.objs[2].info + s.carried == [];
    assert b.objs[2 := b.objs[2].(info := [])] == b.objs;
    s' := out.(base := b.(writer := R.Draining([])));
    ReachNext(out, Base(R.DoForget(R.TakeInfo)), s');
  }

  /** Then the thread that has looked it up sets migration info with a reference, and drops its pointer. */
  lemma ReachPut(s: State) returns (s': State)
    requires Reachable(s) && s.base.raises == map[] && 2 in s.base.objs && s.base.objs[2].info == []
    requires s.pointers == multiset{2} && s.base.strong == multiset{3}
    requires s.base.writer == R.Draining([]) && s.inHand == multiset{Pointer(2, 0)}
    ensures Reachable(s')
    ensures s' == s.(base := s.base.(objs := s.base.objs[2 := s.base.objs[2].(info := [3])], strong := multiset{}),
                     pointers := multiset{})
  {
    var b := s.base.(objs := s.base.objs[2 := s.base.objs[2].(info := [3])], strong := multiset{});
    assert multiset([3]) == multiset{3} && multiset(s.base.objs[2].info) == multiset{};
    ReachBase(s, R.DoOwner(R.PutInfo(2, [3])), b);
    s' := s.(base := b, pointers := multiset{});
    ReachNext(s.(base := b), DropPointer(2), s');
  }

  /** Now the writer's pointer is the last. */
  ghost predicate JustPut(s: State) {
    && Quiet(s.(inHand := multiset{}), multiset{}) && s.inHand == multiset{Pointer(2, 0)}
    && s.base.writer == R.Draining([]) && s.base.strong == multiset{}
    && s.base.objs.Keys == {ROOT_ID, 2, 3} && s.base.stored == {ROOT_ID, 3}
    && s.base.objs[2].info == [3] && s.base.objs[3].info == [] == s.base.objs[ROOT_ID].info
  }

  lemma ReachJustPut() returns (s: State)
    ensures Reachable(s) && JustPut(s)
  {
    s := ReachTwoInodes();
    var guest := s.base.guest;
    s := ReachLeaked(s);
    s := ReachForgetting(s, guest);
    s := ReachZeroed(s);
    s := ReachTakenOut(s);
    s := ReachPut(s);
  }

  /** Dropping it locks again. */
  lemma RelockIsReachable() returns (s: State)
    ensures Reachable(s) && Enabled(s, WriterDrops(Pointer(2, 0))) && Relocks(s, WriterDrops(Pointer(2, 0)))
  {
    s := ReachJustPut();
    if 2 in InfoRefs(s.base.objs) {
      var j := InfoRefsFrom(s.base.objs, 2);
    }
  }
}
