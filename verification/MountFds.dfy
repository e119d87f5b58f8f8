/**
  The cache of mount FDs: a map from mount ID to a weak pointer, shared by threads that look up,
  register and drop mount FDs.  The last strong pointer to a mount FD disappears in one step and
  its destructor locks the map in a later one, so a new mount FD may take its place in between.
 */
module MountFdCache {
  import opened Wrappers

  type MountId = nat
  type Fd = nat       // identifies one `MountFd` object
  type Thread = nat

  /** `strong` is the number of strong pointers; `destroyed` tells that the destructor has run. */
  datatype MountFd = MountFd(mountId: MountId, registered: bool, strong: nat, destroyed: bool)

  /**
    `opening` holds the mount ID for each thread that missed in the map and went on to open the
    mount; `held` are the pointers that were handed out and not dropped since.
   */
  datatype State = State(fds: map<Fd, MountFd>, entries: map<MountId, Fd>, tableExists: bool,
                         opening: map<Thread, MountId>, held: multiset<Fd>)

  const INITIAL := State(map[], map[], true, map[], multiset{})

  datatype Step =
    | Lookup(thread: Thread, mountId: MountId)
    | OpenFailed(thread: Thread)
    | Register(thread: Thread, fd: Fd)
    | NewRegistered(mountId: MountId, fd: Fd)
    | NewUnregistered(mountId: MountId, fd: Fd)
    | ClonePointer(fd: Fd)
    | DropPointer(fd: Fd)
    | Destroy(fd: Fd)
    | DropTable

  predicate CanUpgrade(s: State, m: MountId) {
    m in s.entries && s.entries[m] in s.fds && s.fds[s.entries[m]].strong > 0
  }

  /** Hand out one more pointer. */
  function AddPointer(s: State, fd: Fd): State
    requires fd in s.fds
  {
    s.(fds := s.fds[fd := s.fds[fd].(strong := s.fds[fd].strong + 1)], held := s.held + multiset{fd})
  }

  /** Hand out the first pointer to a new mount FD. */
  function AddMountFd(s: State, m: MountId, registered: bool, fd: Fd): State {
    s.(fds := s.fds[fd := MountFd(m, registered, 1, false)], held := s.held + multiset{fd})
  }

  function RemovePointer(s: State, fd: Fd): State
    requires fd in s.fds && s.fds[fd].strong > 0
  {
    s.(fds := s.fds[fd := s.fds[fd].(strong := s.fds[fd].strong - 1)], held := s.held - multiset{fd})
  }

  /** The part under the write lock: take a live entry if there is one, else enter a new mount FD. */
  function UpgradeOrInsert(s: State, m: MountId, fd: Fd): State {
    if CanUpgrade(s, m) then AddPointer(s, s.entries[m])
    else AddMountFd(s, m, true, fd).(entries := s.entries[m := fd])
  }

  /** The destructor removes the entry for its mount ID only if that has no strong pointers left. */
  function RunDestructor(s: State, fd: Fd): State
    requires fd in s.fds
  {
    var m := s.fds[fd].mountId;
    var s' := s.(fds := s.fds[fd := s.fds[fd].(destroyed := true)]);
    if s.fds[fd].registered && s.tableExists && m in s.entries && !CanUpgrade(s, m) then
      s'.(entries := s.entries - {m})
    else s'
  }

  predicate Enabled(s: State, step: Step) {
    match step
    case Lookup(t, _) => s.tableExists && t !in s.opening
    case OpenFailed(t) => t in s.opening
    case Register(t, fd) => t in s.opening && fd !in s.fds
    case NewRegistered(_, fd) => s.tableExists && fd !in s.fds
    case NewUnregistered(_, fd) => fd !in s.fds
    case ClonePointer(fd) => fd in s.held && fd in s.fds && s.fds[fd].strong > 0
    case DropPointer(fd) => fd in s.held && fd in s.fds && s.fds[fd].strong > 0
    case Destroy(fd) => fd in s.fds && s.fds[fd].strong == 0 && !s.fds[fd].destroyed
    case DropTable => s.tableExists && s.opening == map[]
  }

  function Apply(s: State, step: Step): State
    requires Enabled(s, step)
  {
    match step
    case Lookup(t, m) =>
      if CanUpgrade(s, m) then AddPointer(s, s.entries[m]) else s.(opening := s.opening[t := m])
    case OpenFailed(t) => s.(opening := s.opening - {t})
    case Register(t, fd) => UpgradeOrInsert(s, s.opening[t], fd).(opening := s.opening - {t})
    case NewRegistered(m, fd) => UpgradeOrInsert(s, m, fd)
    case NewUnregistered(m, fd) => AddMountFd(s, m, false, fd)
    case ClonePointer(fd) => AddPointer(s, fd)
    case DropPointer(fd) => RemovePointer(s, fd)
    case Destroy(fd) => RunDestructor(s, fd)
    case DropTable => s.(entries := map[], tableExists := false)
  }

  // ----- Invariant ---------------------------------------------------------------------------

  ghost predicate Inv(s: State) {
    // an entry names a mount FD of that mount whose destructor is still to come
    && (forall m | m in s.entries ::
          var fd := s.entries[m];
          fd in s.fds && s.fds[fd].mountId == m && s.fds[fd].registered && !s.fds[fd].destroyed)
    // a live registered mount FD is the one its entry names
    && (forall fd | fd in s.fds && s.fds[fd].registered && s.fds[fd].strong > 0 && s.tableExists ::
          s.fds[fd].mountId in s.entries && s.entries[s.fds[fd].mountId] == fd)
    && (forall fd | fd in s.fds && s.fds[fd].destroyed :: s.fds[fd].strong == 0)
    && (!s.tableExists ==> s.entries == map[] && s.opening == map[])
  }

  /** Every pointer that someone holds is counted, and no others are. */
  ghost predicate Counted(s: State) {
    && (forall fd | fd in s.held :: fd in s.fds)
    && (forall fd | fd in s.fds :: s.fds[fd].strong == s.held[fd])
  }

  lemma AddPointerCounts(s: State, fd: Fd)
    requires Counted(s) && fd in s.fds
    ensures Counted(AddPointer(s, fd))
  {
  }

  lemma AddMountFdCounts(s: State, m: MountId, registered: bool, fd: Fd)
    requires Counted(s) && fd !in s.fds
    ensures Counted(AddMountFd(s, m, registered, fd))
  {
    assert fd !in s.held;
  }

  lemma RemovePointerCounts(s: State, fd: Fd)
    requires Counted(s) && fd in s.fds && s.fds[fd].strong > 0
    ensures Counted(RemovePointer(s, fd))
  {
  }

  lemma UpgradeOrInsertCounts(s: State, m: MountId, fd: Fd)
    requires Counted(s) && fd !in s.fds
    ensures Counted(UpgradeOrInsert(s, m, fd))
  {
    if CanUpgrade(s, m) {
      AddPointerCounts(s, s.entries[m]);
    } else {
      AddMountFdCounts(s, m, true, fd);
    }
  }

  lemma StepKeepsCounted(s: State, step: Step)
    requires Counted(s) && Enabled(s, step)
    ensures Counted(Apply(s, step))
  {
    match step {
      case Lookup(_, m) => if CanUpgrade(s, m) { AddPointerCounts(s, s.entries[m]); }
      case Register(t, fd) => UpgradeOrInsertCounts(s, s.opening[t], fd);
      case NewRegistered(m, fd) => UpgradeOrInsertCounts(s, m, fd);
      case NewUnregistered(m, fd) => AddMountFdCounts(s, m, false, fd);
      case ClonePointer(fd) => AddPointerCounts(s, fd);
      case DropPointer(fd) => RemovePointerCounts(s, fd);
      case _ =>
    }
  }

  lemma UpgradeOrInsertKeepsInv(s: State, m: MountId, fd: Fd)
    requires Inv(s) && fd !in s.fds && s.tableExists
    ensures Inv(UpgradeOrInsert(s, m, fd))
  {
  }

  lemma DestructorKeepsInv(s: State, fd: Fd)
    requires Inv(s) && Enabled(s, Destroy(fd))
    ensures Inv(RunDestructor(s, fd))
  {
    var m := s.fds[fd].mountId;
    assert m in s.entries && s.entries[m] == fd ==> !CanUpgrade(s, m);
  }

  lemma PointerKeepsInv(s: State, fd: Fd)
    requires Inv(s) && fd in s.fds && s.fds[fd].strong > 0
    ensures Inv(AddPointer(s, fd)) && Inv(RemovePointer(s, fd))
  {
  }

  lemma StepKeepsInv(s: State, step: Step)
    requires Inv(s) && Enabled(s, step)
    ensures Inv(Apply(s, step))
  {
    match step {
      case Lookup(_, m) => if CanUpgrade(s, m) { PointerKeepsInv(s, s.entries[m]); }
      case Register(t, fd) => UpgradeOrInsertKeepsInv(s, s.opening[t], fd);
      case NewRegistered(m, fd) => UpgradeOrInsertKeepsInv(s, m, fd);
      case ClonePointer(fd) => PointerKeepsInv(s, fd);
      case DropPointer(fd) => PointerKeepsInv(s, fd);
      case Destroy(fd) => DestructorKeepsInv(s, fd);
      case _ =>
    }
  }

  ghost predicate IsRun(trace: seq<State>, steps: seq<Step>) {
    && |trace| == |steps| + 1
    && trace[0] == INITIAL
    && forall k | 0 <= k < |steps| :: Enabled(trace[k], steps[k]) && trace[k + 1] == Apply(trace[k], steps[k])
  }

  lemma {:induction false} RunsKeepInv(trace: seq<State>, steps: seq<Step>, k: nat)
    requires IsRun(trace, steps) && k < |trace|
    ensures Inv(trace[k])
  {
    if k > 0 {
      RunsKeepInv(trace, steps, k - 1);
      StepKeepsInv(trace[k - 1], steps[k - 1]);
    }
  }

  lemma {:induction false} RunsKeepCounted(trace: seq<State>, steps: seq<Step>, k: nat)
    requires IsRun(trace, steps) && k < |trace|
    ensures Counted(trace[k])
  {
    if k > 0 {
      RunsKeepCounted(trace, steps, k - 1);
      StepKeepsCounted(trace[k - 1], steps[k - 1]);
    }
  }

  /** At most one live registered mount FD per mount ID, and the map points to it. */
  lemma OneLivePerMount(trace: seq<State>, steps: seq<Step>, k: nat, f: Fd, g: Fd)
    requires IsRun(trace, steps) && k < |trace| && trace[k].tableExists
    requires f in trace[k].fds && trace[k].fds[f].registered && trace[k].fds[f].strong > 0
    requires g in trace[k].fds && trace[k].fds[g].registered && trace[k].fds[g].strong > 0
    requires trace[k].fds[f].mountId == trace[k].fds[g].mountId
    ensures f == g
    ensures trace[k].fds[f].mountId in trace[k].entries && trace[k].entries[trace[k].fds[f].mountId] == f
  {
    RunsKeepInv(trace, steps, k);
  }

  /**
    Between any two points of a run, a registered mount FD that has strong pointers at both keeps
    its entry throughout, whatever late destructors and new registrations come in between.
   */
  lemma {:induction false} LiveEntryStays(trace: seq<State>, steps: seq<Step>, k: nat, n: nat, m: nat, f: Fd)
    requires IsRun(trace, steps) && k <= n <= m < |trace| && trace[m].tableExists
    requires f in trace[k].fds && trace[k].fds[f].registered
    requires f in trace[m].fds && trace[m].fds[f].strong > 0
    ensures f in trace[n].fds && trace[n].fds[f].mountId == trace[k].fds[f].mountId
    ensures trace[n].fds[f].mountId in trace[n].entries && trace[n].entries[trace[n].fds[f].mountId] == f
    decreases m - n
  {
    RunsKeepInv(trace, steps, n);
    StaysKnown(trace, steps, k, n, f);
    StaysAlive(trace, steps, n, m, f);
  }

  /** `f` is still the same mount FD, and was not revived. */
  ghost predicate StillKnown(fds: map<Fd, MountFd>, fds': map<Fd, MountFd>, f: Fd) {
    && f in fds && f in fds'
    && fds'[f].mountId == fds[f].mountId && fds'[f].registered == fds[f].registered
    && (fds'[f].strong > 0 ==> fds[f].strong > 0)
  }

  lemma UpgradeOrInsertKeepsKnown(s: State, m: MountId, fd: Fd, f: Fd)
    requires fd !in s.fds && f in s.fds
    ensures StillKnown(s.fds, UpgradeOrInsert(s, m, fd).fds, f)
  {
  }

  lemma StepKeepsKnown(s: State, step: Step, f: Fd)
    requires Enabled(s, step) && f in s.fds
    ensures StillKnown(s.fds, Apply(s, step).fds, f)
    ensures Apply(s, step).tableExists ==> s.tableExists
  {
    match step {
      case Register(t, fd) => UpgradeOrInsertKeepsKnown(s, s.opening[t], fd, f);
      case NewRegistered(m, fd) => UpgradeOrInsertKeepsKnown(s, m, fd, f);
      case Destroy(fd) => assert RunDestructor(s, fd).fds == s.fds[fd := s.fds[fd].(destroyed := true)];
      case _ =>
    }
  }

  lemma RunStepKeepsKnown(trace: seq<State>, steps: seq<Step>, k: nat, f: Fd)
    requires IsRun(trace, steps) && k + 1 < |trace| && f in trace[k].fds
    ensures f in trace[k + 1].fds
    ensures trace[k + 1].fds[f].mountId == trace[k].fds[f].mountId
    ensures trace[k + 1].fds[f].registered == trace[k].fds[f].registered
    ensures trace[k + 1].fds[f].strong > 0 ==> trace[k].fds[f].strong > 0
    ensures trace[k + 1].tableExists ==> trace[k].tableExists
  {
    StepKeepsKnown(trace[k], steps[k], f);
  }

  lemma {:induction false} StaysKnown(trace: seq<State>, steps: seq<Step>, k: nat, n: nat, f: Fd)
    requires IsRun(trace, steps) && k <= n < |trace| && f in trace[k].fds
    ensures f in trace[n].fds
    ensures trace[n].fds[f].mountId == trace[k].fds[f].mountId
    ensures trace[n].fds[f].registered == trace[k].fds[f].registered
    decreases n
  {
    if k < n {
      StaysKnown(trace, steps, k, n - 1, f);
      RunStepKeepsKnown(trace, steps, n - 1, f);
    }
  }

  /** Pointers never come back once the last is gone, nor does the table. */
  lemma {:induction false} StaysAlive(trace: seq<State>, steps: seq<Step>, n: nat, m: nat, f: Fd)
    requires IsRun(trace, steps) && n <= m < |trace|
    requires f in trace[n].fds && f in trace[m].fds && trace[m].fds[f].strong > 0
    ensures trace[n].fds[f].strong > 0
    ensures trace[m].tableExists ==> trace[n].tableExists
    decreases m - n
  {
    if n < m {
      RunStepKeepsKnown(trace, steps, n, f);
      StaysAlive(trace, steps, n + 1, m, f);
    }
  }

  /** A mount FD that someone holds a pointer to is alive, and its destructor has not run. */
  lemma HeldIsAlive(trace: seq<State>, steps: seq<Step>, k: nat, fd: Fd)
    requires IsRun(trace, steps) && k < |trace| && fd in trace[k].held
    ensures fd in trace[k].fds && trace[k].fds[fd].strong == trace[k].held[fd] && !trace[k].fds[fd].destroyed
  {
    RunsKeepInv(trace, steps, k);
    RunsKeepCounted(trace, steps, k);
  }

  /** How pointers and attempts to open change hands, where `GetHandsOutTheEntry` does not say. */
  lemma PointersMove(trace: seq<State>, steps: seq<Step>, k: nat)
    requires IsRun(trace, steps) && k < |steps|
    ensures var s, s' := trace[k], trace[k + 1];
            match steps[k]
            case Lookup(t, m) => !CanUpgrade(s, m) ==> s'.held == s.held && s'.opening == s.opening[t := m]
            case OpenFailed(t) => s'.held == s.held && s'.opening == s.opening - {t}
            case Register(t, _) => s'.opening == s.opening - {t}
            case NewUnregistered(m, fd) =>
              s'.held == s.held + multiset{fd} && fd in s'.fds && s'.fds[fd].mountId == m && s'.entries == s.entries
            case ClonePointer(fd) => s'.held == s.held + multiset{fd}
            case DropPointer(fd) => s'.held + multiset{fd} == s.held
            case Destroy(fd) => s'.held == s.held
            case DropTable => s'.held == s.held && s'.entries == map[]
            case NewRegistered(_, _) => s'.opening == s.opening
  {
  }

  /** A destructor that has run leaves no entry for its mount FD, and leaves those of others alone. */
  lemma DestructorRemovesOwn(trace: seq<State>, steps: seq<Step>, k: nat, fd: Fd)
    requires IsRun(trace, steps) && k < |steps| && steps[k] == Destroy(fd)
    ensures fd in trace[k + 1].fds && trace[k + 1].fds[fd].destroyed
    ensures forall m | m in trace[k + 1].entries :: m in trace[k].entries && trace[k + 1].entries[m] == trace[k].entries[m] != fd
    ensures forall m | m in trace[k].entries && CanUpgrade(trace[k], m) :: m in trace[k + 1].entries
  {
    RunsKeepInv(trace, steps, k);
    RunsKeepInv(trace, steps, k + 1);
  }

  /** Dropping the last pointer lets the destructor run, and only that does. */
  lemma DestroyedOnceUnheld(trace: seq<State>, steps: seq<Step>, k: nat, fd: Fd)
    requires IsRun(trace, steps) && k < |trace| && fd in trace[k].fds
    ensures Enabled(trace[k], Destroy(fd)) <==> fd !in trace[k].held && !trace[k].fds[fd].destroyed
  {
    RunsKeepInv(trace, steps, k);
    RunsKeepCounted(trace, steps, k);
  }

  /** Whatever a lookup or registration hands out, one pointer, is alive and is what the map names. */
  lemma GetHandsOutTheEntry(trace: seq<State>, steps: seq<Step>, k: nat, m: MountId)
    requires IsRun(trace, steps) && k < |steps|
    requires match steps[k]
             case Lookup(_, n) => n == m && CanUpgrade(trace[k], m)
             case Register(t, _) => trace[k].opening[t] == m
             case NewRegistered(n, _) => n == m
             case _ => false
    ensures CanUpgrade(trace[k + 1], m)
    ensures trace[k + 1].fds[trace[k + 1].entries[m]].mountId == m
    ensures CanUpgrade(trace[k], m) ==> trace[k + 1].entries == trace[k].entries
    ensures trace[k + 1].held == trace[k].held + multiset{trace[k + 1].entries[m]}
  {
    RunsKeepInv(trace, steps, k + 1);
  }

  /** Once all mount FDs are dropped and all destructors have run, nothing is left in the map. */
  lemma EmptyWhenAllDestroyed(trace: seq<State>, steps: seq<Step>, k: nat)
    requires IsRun(trace, steps) && k < |trace|
    requires forall fd | fd in trace[k].fds :: trace[k].fds[fd].destroyed
    ensures trace[k].entries == map[]
  {
    RunsKeepInv(trace, steps, k);
    assert forall m :: m !in trace[k].entries;
  }

  // ----- The critical sections as the daemon writes them -------------------------------------

  class MountFds {
    var fds: map<Fd, MountFd>
    var entries: map<MountId, Fd>
    var next: Fd
    ghost var held: multiset<Fd>

    ghost function Shared(opening: map<Thread, MountId>): State
      reads this
    {
      State(fds, entries, true, opening, held)
    }

    ghost predicate Valid()
      reads this
    {
      Inv(Shared(map[])) && Counted(Shared(map[])) && forall fd | fd in fds :: fd < next
    }

    constructor ()
      ensures Valid() && Shared(map[]) == INITIAL
    {
      fds, entries, next, held := map[], map[], 0, multiset{};
    }

    method HandOut(fd: Fd)
      requires Valid() && fd in fds && fds[fd].strong > 0
      modifies this`fds, this`held
      ensures Valid() && Shared(map[]) == AddPointer(old(Shared(map[])), fd)
      ensures held == old(held) + multiset{fd} && fd in fds && fds[fd].strong > 0 && fds[fd].mountId == old(fds)[fd].mountId
    {
      PointerKeepsInv(Shared(map[]), fd);
      AddPointerCounts(Shared(map[]), fd);
      fds, held := fds[fd := fds[fd].(strong := fds[fd].strong + 1)], held + multiset{fd};
    }

    method Enter(m: MountId) returns (fd: Fd)
      requires Valid() && !CanUpgrade(Shared(map[]), m)
      modifies this
      ensures Valid() && Shared(map[]) == UpgradeOrInsert(old(Shared(map[])), m, fd) && fd == old(next)
      ensures held == old(held) + multiset{fd}
      ensures fd in fds && fds[fd].mountId == m && fds[fd].strong > 0 && m in entries && entries[m] == fd
    {
      ghost var s := Shared(map[]);
      UpgradeOrInsertKeepsInv(s, m, next);
      UpgradeOrInsertCounts(s, m, next);
      fd, next := next, next + 1;
      fds, held := fds[fd := MountFd(m, true, 1, false)], held + multiset{fd};
      entries := entries[m := fd];
      assert Shared(map[]) == UpgradeOrInsert(s, m, fd);
    }

    /** The lookup that opens `get`, under the read lock. */
    method Upgrade(m: MountId) returns (r: Option<Fd>)
      requires Valid()
      modifies this`fds, this`held
      ensures Valid()
      ensures held == old(held) + if r.Some? then multiset{r.value} else multiset{}
      ensures forall t :: Shared(if r.Some? then map[] else map[t := m]) == Apply(old(Shared(map[])), Lookup(t, m))
      ensures r.Some? ==> r.value in fds && fds[r.value].mountId == m && fds[r.value].strong > 0
    {
      r := None;
      if m in entries && fds[entries[m]].strong > 0 {
        HandOut(entries[m]);
        r := Some(entries[m]);
      }
    }

    /** The second half of `get`, and `MountFd::new`, under the write lock. */
    method GetOrRegister(m: MountId) returns (fd: Fd)
      requires Valid()
      modifies this
      ensures Valid()
      ensures Shared(map[]) == UpgradeOrInsert(old(Shared(map[])), m, old(next))
      ensures held == old(held) + multiset{fd}
      ensures fd in fds && fds[fd].mountId == m && fds[fd].strong > 0 && m in entries && entries[m] == fd
    {
      if m in entries && fds[entries[m]].strong > 0 {
        fd := entries[m];
        HandOut(fd);
      } else {
        fd := Enter(m);
      }
    }

    method DropPointer(fd: Fd)
      requires Valid() && fd in held
      modifies this`fds, this`held
      ensures Valid() && held == old(held) - multiset{fd}
      ensures Shared(map[]) == Apply(old(Shared(map[])), Step.DropPointer(fd))
    {
      ghost var s := Shared(map[]);
      PointerKeepsInv(s, fd);
      RemovePointerCounts(s, fd);
      fds, held := fds[fd := fds[fd].(strong := fds[fd].strong - 1)], held - multiset{fd};
      assert Shared(map[]) == RemovePointer(s, fd);
      assert Inv(Shared(map[])) && Counted(Shared(map[]));
    }

    method Destroy(fd: Fd)
      requires Valid() && fd in fds && fds[fd].strong == 0 && !fds[fd].destroyed
      modifies this`fds, this`entries
      ensures Valid()
      ensures Shared(map[]) == Apply(old(Shared(map[])), Step.Destroy(fd))
    {
      ghost var s := Shared(map[]);
      DestructorKeepsInv(s, fd);
      StepKeepsCounted(s, Step.Destroy(fd));
      var m := fds[fd].mountId;
      if fds[fd].registered && m in entries && fds[entries[m]].strong == 0 {
        entries := entries - {m};
      }
      fds := fds[fd := fds[fd].(destroyed := true)];
      assert Shared(map[]) == RunDestructor(s, fd);
    }
  }
}
