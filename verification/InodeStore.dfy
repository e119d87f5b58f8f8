/**
  The inode store: a reference-counted table of host inodes with two secondary indexes, whose
  entries may in turn hold counted references to other entries (in their migration info).
  Removing an entry drops those references, which may remove further entries.

  The store is first described as a value (`Store`), with the removal cascade as a worklist
  (`Drain`).  `InodeTables.InodeStore` has the daemon's recursive form and is proved to compute
  the same stores.
 */
module InodeStores {
  import opened Wrappers

  type Inode = nat

  const ROOT_ID: Inode := 1

  datatype InodeIds = InodeIds(ino: nat, dev: nat, mntId: nat)

  datatype FileHandle = FileHandle(mntId: nat, handle: seq<nat>)

  datatype FileOrHandle = File | Handle(handle: FileHandle) | Invalid

  /** `info` lists the inodes that the migration info holds strong references to. */
  datatype InodeData = InodeData(fileOrHandle: FileOrHandle, ids: InodeIds, refcount: nat, info: seq<Inode>)

  datatype Store = Store(data: map<Inode, InodeData>,
                         byIds: map<InodeIds, Inode>,
                         byHandle: map<FileHandle, Inode>)

  const EMPTY := Store(map[], map[], map[])

  /** Decrements still to be made: inode and amount. */
  type Pending = seq<(Inode, nat)>

  // ----- Spec functions ----------------------------------------------------------------------

  function InsertNew(s: Store, i: Inode, d: InodeData): Store
    requires i !in s.data
  {
    Store(s.data[i := d],
          s.byIds[d.ids := i],
          if d.fileOrHandle.Handle? then s.byHandle[d.fileOrHandle.handle := i] else s.byHandle)
  }

  /** Take `i` out of the three maps, whatever the index entries under its keys say. */
  function Unlink(s: Store, i: Inode): Store
    requires i in s.data
  {
    var d := s.data[i];
    Store(s.data - {i},
          s.byIds - {d.ids},
          if d.fileOrHandle.Handle? then s.byHandle - {d.fileOrHandle.handle} else s.byHandle)
  }

  function SetRefcount(s: Store, i: Inode, rc: nat): Store
    requires i in s.data
  {
    s.(data := s.data[i := s.data[i].(refcount := rc)])
  }

  function SetInfo(s: Store, i: Inode, info: seq<Inode>): Store
    requires i in s.data
  {
    s.(data := s.data[i := s.data[i].(info := info)])
  }

  function Ones(refs: seq<Inode>): (p: Pending)
    ensures |p| == |refs|
  {
    seq(|refs|, k requires 0 <= k < |refs| => (refs[k], 1))
  }

  function SaturatingSub(a: nat, b: nat): nat {
    if a < b then 0 else a - b
  }

  /** One decrement of the worklist; reaching zero unlinks the inode and queues its references. */
  function DrainStep(s: Store, p: Pending): (Store, Pending)
    requires p != []
  {
    var (i, n) := p[0];
    if i !in s.data then (s, p[1..])
    else
      var rc := SaturatingSub(s.data[i].refcount, n);
      if rc == 0 then (Unlink(s, i), Ones(s.data[i].info) + p[1..])
      else (SetRefcount(s, i, rc), p[1..])
  }

  /** Work through all decrements, including those the removals along the way add. */
  function Drain(s: Store, p: Pending): Store
    decreases s.data.Keys, |p|
  {
    if p == [] then s
    else
      var (s', p') := DrainStep(s, p);
      assert s'.data.Keys == s.data.Keys || s'.data.Keys < s.data.Keys;
      Drain(s', p')
  }

  /** The configuration after `k` steps of the cascade (or fewer, if it ends before). */
  function DrainFor(s: Store, p: Pending, k: nat): (Store, Pending)
    decreases k
  {
    if k == 0 || p == [] then (s, p)
    else var (s', p') := DrainStep(s, p); DrainFor(s', p', k - 1)
  }

  lemma {:induction false} DrainSplit(s: Store, p: Pending, q: Pending)
    ensures Drain(s, p + q) == Drain(Drain(s, p), q)
    decreases s.data.Keys, |p|
  {
    if p == [] {
      assert p + q == q;
    } else {
      var (s', p') := DrainStep(s, p);
      assert s'.data.Keys == s.data.Keys || s'.data.Keys < s.data.Keys;
      assert (p + q)[1..] == p[1..] + q;
      assert p' + q == DrainStep(s, p + q).1;
      DrainSplit(s', p', q);
    }
  }

  /** Survivors of a cascade keep everything but their count. */
  lemma {:induction false} DrainKeeps(s: Store, p: Pending)
    ensures Drain(s, p).data.Keys <= s.data.Keys
    ensures forall i | i in Drain(s, p).data ::
              Drain(s, p).data[i] == s.data[i].(refcount := Drain(s, p).data[i].refcount)
    decreases s.data.Keys, |p|
  {
    if p != [] {
      var (s', p') := DrainStep(s, p);
      assert s'.data.Keys == s.data.Keys || s'.data.Keys < s.data.Keys;
      DrainKeeps(s', p');
    }
  }

  // ----- Counting references -----------------------------------------------------------------

  /** All references held by the migration info of live inodes. */
  ghost function InfoRefs(data: map<Inode, InodeData>): multiset<Inode>
    decreases data.Keys
  {
    if data == map[] then multiset{}
    else
      var k :| k in data;
      multiset(data[k].info) + InfoRefs(data - {k})
  }

  lemma {:induction false} InfoRefsWithout(data: map<Inode, InodeData>, k: Inode)
    requires k in data
    ensures InfoRefs(data) == multiset(data[k].info) + InfoRefs(data - {k})
    decreases data.Keys
  {
    var k0 :| k0 in data && InfoRefs(data) == multiset(data[k0].info) + InfoRefs(data - {k0});
    if k != k0 {
      InfoRefsWithout(data - {k0}, k);
      InfoRefsWithout(data - {k}, k0);
      assert data - {k0} - {k} == data - {k} - {k0};
    }
  }

  lemma InfoRefsUpdate(data: map<Inode, InodeData>, k: Inode, d: InodeData)
    ensures k !in data ==> InfoRefs(data[k := d]) == InfoRefs(data) + multiset(d.info)
    ensures k in data ==> InfoRefs(data[k := d]) + multiset(data[k].info) == InfoRefs(data) + multiset(d.info)
    ensures k in data && data[k].info == d.info ==> InfoRefs(data[k := d]) == InfoRefs(data)
  {
    InfoRefsWithout(data[k := d], k);
    assert data[k := d] - {k} == data - {k};
    if k in data {
      InfoRefsWithout(data, k);
    } else {
      assert data - {k} == data;
    }
  }

  ghost function Demand(p: Pending): multiset<Inode> {
    if p == [] then multiset{}
    else var rest := Demand(p[1..]); rest[p[0].0 := rest[p[0].0] + p[0].1]
  }

  lemma {:induction false} DemandOnes(refs: seq<Inode>, p: Pending)
    ensures Demand(Ones(refs) + p) == multiset(refs) + Demand(p)
  {
    if refs == [] {
      assert Ones(refs) + p == p;
    } else {
      assert (Ones(refs) + p)[1..] == Ones(refs[1..]) + p;
      DemandOnes(refs[1..], p);
      assert refs == [refs[0]] + refs[1..];
    }
  }

  function Refcount(s: Store, i: Inode): nat {
    if i in s.data then s.data[i].refcount else 0
  }

  /**
    The conservation law: every inode's count is the number of references that someone holds,
    either outside of the store (`held`) or in the migration info of a live inode.  An inode is
    in the store just when that number is positive.
   */
  ghost predicate Balanced(s: Store, held: multiset<Inode>) {
    && (forall i | i in s.data :: s.data[i].refcount > 0)
    && forall i :: Refcount(s, i) == held[i] + InfoRefs(s.data)[i]
  }

  lemma UnlinkBalances(s: Store, i: Inode, n: nat, held: multiset<Inode>)
    requires i in s.data && s.data[i].refcount <= n
    requires Balanced(s, held[i := held[i] + n])
    ensures Balanced(Unlink(s, i), held + multiset(s.data[i].info))
  {
    var s' := Unlink(s, i);
    InfoRefsWithout(s.data, i);
    forall j ensures Refcount(s', j) == (held + multiset(s.data[i].info))[j] + InfoRefs(s'.data)[j] {
      assert Refcount(s, j) == held[i := held[i] + n][j] + InfoRefs(s.data)[j];
    }
  }

  lemma RecountBalances(s: Store, i: Inode, rc: nat, held: multiset<Inode>, held': multiset<Inode>)
    requires i in s.data && rc > 0 && Balanced(s, held)
    requires held'[i] + s.data[i].refcount == held[i] + rc
    requires forall j | j != i :: held'[j] == held[j]
    ensures Balanced(SetRefcount(s, i, rc), held')
  {
    var s' := SetRefcount(s, i, rc);
    InfoRefsUpdate(s.data, i, s'.data[i]);
    forall j ensures Refcount(s', j) == held'[j] + InfoRefs(s'.data)[j] {
      assert Refcount(s, j) == held[j] + InfoRefs(s.data)[j];
    }
  }

  lemma DecrementBalances(s: Store, i: Inode, n: nat, held: multiset<Inode>)
    requires i in s.data && n < s.data[i].refcount
    requires Balanced(s, held[i := held[i] + n])
    ensures Balanced(SetRefcount(s, i, s.data[i].refcount - n), held)
  {
    RecountBalances(s, i, s.data[i].refcount - n, held[i := held[i] + n], held);
  }

  lemma MissingBalances(s: Store, i: Inode, n: nat, held: multiset<Inode>)
    requires i !in s.data && Balanced(s, held[i := held[i] + n])
    ensures Balanced(s, held)
  {
    assert Refcount(s, i) == held[i := held[i] + n][i] + InfoRefs(s.data)[i];
    assert held[i := held[i] + n] == held;
  }

  lemma DemandFirst(p: Pending, held: multiset<Inode>)
    requires p != []
    ensures var rest := held + Demand(p[1..]); held + Demand(p) == rest[p[0].0 := rest[p[0].0] + p[0].1]
  {
  }

  lemma DemandOfUnlinked(info: seq<Inode>, p: Pending, held: multiset<Inode>)
    ensures held + Demand(Ones(info) + p) == held + Demand(p) + multiset(info)
  {
    DemandOnes(info, p);
    assert held + (multiset(info) + Demand(p)) == held + Demand(p) + multiset(info);
  }

  /** One step of the cascade keeps the law, counting queued decrements as held references. */
  lemma StepBalances(s: Store, p: Pending, held: multiset<Inode>)
    requires p != [] && Balanced(s, held + Demand(p))
    ensures Balanced(DrainStep(s, p).0, held + Demand(DrainStep(s, p).1))
  {
    var (i, n) := p[0];
    var rest := held + Demand(p[1..]);
    DemandFirst(p, held);
    if i !in s.data {
      MissingBalances(s, i, n, rest);
    } else if s.data[i].refcount <= n {
      UnlinkBalances(s, i, n, rest);
      DemandOfUnlinked(s.data[i].info, p[1..], held);
    } else {
      DecrementBalances(s, i, n, rest);
    }
  }

  /** Dropping what `p` says returns exactly those references and leaves the law intact. */
  lemma {:induction false} DrainBalances(s: Store, p: Pending, held: multiset<Inode>)
    requires Balanced(s, held + Demand(p))
    ensures Balanced(Drain(s, p), held)
    decreases s.data.Keys, |p|
  {
    if p == [] {
      assert held + Demand(p) == held;
    } else {
      StepBalances(s, p, held);
      var (s', p') := DrainStep(s, p);
      assert s'.data.Keys == s.data.Keys || s'.data.Keys < s.data.Keys;
      DrainBalances(s', p', held);
    }
  }

  // ----- What a cascade removes --------------------------------------------------------------

  /** Each member of `live` is held from outside, or by the migration info of another member. */
  ghost predicate SelfSupporting(s: Store, held: multiset<Inode>, live: set<Inode>) {
    && live <= s.data.Keys
    && forall i | i in live :: i in held || exists j :: j in live && i in s.data[j].info
  }

  lemma {:induction false} InfoRefsFrom(data: map<Inode, InodeData>, i: Inode) returns (j: Inode)
    requires i in InfoRefs(data)
    ensures j in data && i in data[j].info
    decreases data.Keys
  {
    var k :| k in data && InfoRefs(data) == multiset(data[k].info) + InfoRefs(data - {k});
    if i in data[k].info {
      j := k;
    } else {
      j := InfoRefsFrom(data - {k}, i);
    }
  }

  lemma SupportIsCounted(s: Store, held: multiset<Inode>, live: set<Inode>, i: Inode)
    requires SelfSupporting(s, held, live) && i in live
    ensures i in held + InfoRefs(s.data)
  {
    if i !in held {
      var j :| j in live && i in s.data[j].info;
      InfoRefsWithout(s.data, j);
    }
  }

  lemma StepSparesSupported(s: Store, p: Pending, held: multiset<Inode>, live: set<Inode>)
    requires p != [] && Balanced(s, held + Demand(p)) && SelfSupporting(s, held, live)
    ensures SelfSupporting(DrainStep(s, p).0, held, live)
  {
    var (i, n) := p[0];
    if i in live {
      SupportIsCounted(s, held, live, i);
      assert Refcount(s, i) == (held + Demand(p))[i] + InfoRefs(s.data)[i];
      assert Demand(p)[i] >= n;
    }
  }

  lemma {:induction false} SupportedSurvive(s: Store, p: Pending, held: multiset<Inode>, live: set<Inode>)
    requires Balanced(s, held + Demand(p)) && SelfSupporting(s, held, live)
    ensures live <= Drain(s, p).data.Keys
    decreases s.data.Keys, |p|
  {
    if p != [] {
      var (s', p') := DrainStep(s, p);
      StepBalances(s, p, held);
      StepSparesSupported(s, p, held, live);
      assert s'.data.Keys == s.data.Keys || s'.data.Keys < s.data.Keys;
      SupportedSurvive(s', p', held, live);
    }
  }

  /**
    A cascade keeps exactly the largest self-supporting set of inodes.
   */
  lemma Survivors(s: Store, p: Pending, held: multiset<Inode>)
    requires Balanced(s, held + Demand(p))
    ensures SelfSupporting(s, held, Drain(s, p).data.Keys)
    ensures forall live | SelfSupporting(s, held, live) :: live <= Drain(s, p).data.Keys
  {
    var r := Drain(s, p);
    DrainKeeps(s, p);
    DrainBalances(s, p, held);
    forall i | i in r.data
      ensures i in held || exists j :: j in r.data.Keys && i in s.data[j].info
    {
      assert Refcount(r, i) == held[i] + InfoRefs(r.data)[i];
      if i !in held {
        var j := InfoRefsFrom(r.data, i);
      }
    }
    forall live | SelfSupporting(s, held, live) ensures live <= r.data.Keys {
      SupportedSurvive(s, p, held, live);
    }
  }

  lemma {:induction false} SameInfosSameRefs(a: map<Inode, InodeData>, b: map<Inode, InodeData>)
    requires a.Keys == b.Keys && forall i | i in a :: a[i].info == b[i].info
    ensures InfoRefs(a) == InfoRefs(b)
    decreases a.Keys
  {
    if a != map[] {
      var k :| k in a && InfoRefs(a) == multiset(a[k].info) + InfoRefs(a - {k});
      SameInfosSameRefs(a - {k}, b - {k});
      InfoRefsWithout(b, k);
    } else {
      assert b == map[];
    }
  }

  /** A cascade takes out of the indexes exactly the keys of the inodes that it removes. */
  lemma {:induction false} DrainIndexes(s: Store, p: Pending)
    ensures var r := Drain(s, p);
            && (forall ids :: ids in r.byIds <==>
                  ids in s.byIds && forall i | i in s.data && i !in r.data :: s.data[i].ids != ids)
            && (forall ids | ids in r.byIds :: ids in s.byIds && r.byIds[ids] == s.byIds[ids])
    ensures var r := Drain(s, p);
            && (forall h :: h in r.byHandle <==>
                  h in s.byHandle && forall i | i in s.data && i !in r.data :: s.data[i].fileOrHandle != Handle(h))
            && (forall h | h in r.byHandle :: h in s.byHandle && r.byHandle[h] == s.byHandle[h])
    decreases s.data.Keys, |p|
  {
    if p != [] {
      var (s', p') := DrainStep(s, p);
      assert s'.data.Keys == s.data.Keys || s'.data.Keys < s.data.Keys;
      DrainIndexes(s', p');
      DrainKeeps(s', p');
    }
  }

  lemma SameSurvivors(s: Store, p: Pending, q: Pending, held: multiset<Inode>)
    requires Balanced(s, held + Demand(p)) && Demand(p) == Demand(q)
    ensures Drain(s, p).data == Drain(s, q).data
  {
    var a, b := Drain(s, p), Drain(s, q);
    Survivors(s, p, held);
    Survivors(s, q, held);
    assert a.data.Keys == b.data.Keys;
    DrainKeeps(s, p);
    DrainKeeps(s, q);
    SameInfosSameRefs(a.data, b.data);
    DrainBalances(s, p, held);
    DrainBalances(s, q, held);
    forall i | i in a.data ensures a.data[i] == b.data[i] {
      assert Refcount(a, i) == Refcount(b, i);
    }
  }

  /** The order in which references are dropped, and how the drops are grouped, makes no difference at all. */
  lemma DropOrderDoesNotMatter(s: Store, p: Pending, q: Pending, held: multiset<Inode>)
    requires Balanced(s, held + Demand(p)) && Demand(p) == Demand(q)
    ensures Drain(s, p) == Drain(s, q)
  {
    SameSurvivors(s, p, q, held);
    SameIds(s, p, q);
    SameHandles(s, p, q);
  }

  lemma SameIds(s: Store, p: Pending, q: Pending)
    requires Drain(s, p).data == Drain(s, q).data
    ensures Drain(s, p).byIds == Drain(s, q).byIds
  {
    DrainIndexes(s, p);
    DrainIndexes(s, q);
  }

  lemma SameHandles(s: Store, p: Pending, q: Pending)
    requires Drain(s, p).data == Drain(s, q).data
    ensures Drain(s, p).byHandle == Drain(s, q).byHandle
  {
    DrainIndexes(s, p);
    DrainIndexes(s, q);
  }

  // ----- The secondary indexes ---------------------------------------------------------------

  /** Each index entry names a live inode that carries that very key. */
  ghost predicate IndexesNameLive(s: Store) {
    && (forall ids | ids in s.byIds :: s.byIds[ids] in s.data && s.data[s.byIds[ids]].ids == ids)
    && (forall h | h in s.byHandle ::
          s.byHandle[h] in s.data && s.data[s.byHandle[h]].fileOrHandle == Handle(h))
  }

  /** Also in the middle of a cascade, after any number of its steps. */
  lemma {:induction false} CascadeKeepsIndexes(s: Store, p: Pending, k: nat)
    requires IndexesNameLive(s)
    ensures IndexesNameLive(DrainFor(s, p, k).0)
    decreases k
  {
    if k > 0 && p != [] {
      CascadeKeepsIndexes(DrainStep(s, p).0, DrainStep(s, p).1, k - 1);
    }
  }

  lemma {:induction false} DrainKeepsIndexes(s: Store, p: Pending)
    requires IndexesNameLive(s)
    ensures IndexesNameLive(Drain(s, p))
    decreases s.data.Keys, |p|
  {
    if p != [] {
      var (s', p') := DrainStep(s, p);
      assert s'.data.Keys == s.data.Keys || s'.data.Keys < s.data.Keys;
      DrainKeepsIndexes(s', p');
    }
  }

  /**
    With `withoutFd` telling which ID triples never come with an FD: a live inode is found
    under its handle if it has one, and under its ID triple if it has an FD.
   */
  ghost predicate Findable(s: Store, withoutFd: InodeIds -> bool) {
    forall i | i in s.data ::
      var d := s.data[i];
      && Classified(d, withoutFd)
      && (d.fileOrHandle.Handle? ==>
            d.fileOrHandle.handle in s.byHandle && s.byHandle[d.fileOrHandle.handle] == i)
      && (d.fileOrHandle.File? ==> d.ids in s.byIds && s.byIds[d.ids] == i)
  }

  predicate Classified(d: InodeData, withoutFd: InodeIds -> bool) {
    match d.fileOrHandle
    case File => !withoutFd(d.ids)
    case Handle(_) => withoutFd(d.ids)
    case Invalid => withoutFd(d.ids)
  }

  lemma {:induction false} DrainKeepsFindable(s: Store, p: Pending, withoutFd: InodeIds -> bool)
    requires Findable(s, withoutFd)
    ensures Findable(Drain(s, p), withoutFd)
    decreases s.data.Keys, |p|
  {
    if p != [] {
      var (s', p') := DrainStep(s, p);
      assert s'.data.Keys == s.data.Keys || s'.data.Keys < s.data.Keys;
      assert Findable(s', withoutFd);
      DrainKeepsFindable(s', p', withoutFd);
    }
  }

  // ----- Operations --------------------------------------------------------------------------

  /**
    By handle if that is known, else by ID triple, but then only an inode with an open FD.
    (The daemon panics on an index entry that names no live inode; `IndexesNameLive` excludes it.)
   */
  function Find(s: Store, handle: Option<FileHandle>, ids: InodeIds): Option<Inode> {
    if handle.Some? && handle.value in s.byHandle then Some(s.byHandle[handle.value])
    else if ids in s.byIds && s.byIds[ids] in s.data && s.data[s.byIds[ids]].fileOrHandle.File? then
      Some(s.byIds[ids])
    else None
  }

  /** A count of zero is never raised again. */
  function Increment(s: Store, i: Inode): Option<Store> {
    if i in s.data && s.data[i].refcount > 0 then Some(SetRefcount(s, i, s.data[i].refcount + 1)) else None
  }

  /** The inode claimed (if any) and the store with its count raised. */
  function Claim(s: Store, handle: Option<FileHandle>, ids: InodeIds): (Option<Inode>, Store) {
    match Find(s, handle, ids)
    case None => (None, s)
    case Some(i) => match Increment(s, i) { case None => (None, s) case Some(s') => (Some(i), s') }
  }

  function HandleOf(d: InodeData): Option<FileHandle> {
    if d.fileOrHandle.Handle? then Some(d.fileOrHandle.handle) else None
  }

  /** When `d` is not entered, the references in its migration info are dropped. */
  function GetOrInsert(s: Store, i: Inode, d: InodeData): (Option<Inode>, Store) {
    var (found, s') := Claim(s, HandleOf(d), d.ids);
    if found.Some? then (found, Drain(s', Ones(d.info)))
    else if i in s.data then (None, Drain(s, Ones(d.info)))
    else (Some(i), InsertNew(s, i, d.(refcount := 1)))
  }

  function NewInode(s: Store, i: Inode, d: InodeData): (bool, Store) {
    if i in s.data then (false, Drain(s, Ones(d.info))) else (true, InsertNew(s, i, d))
  }

  /** Take the migration info of every inode in `order` but the root, in that order. */
  function TakeInfos(s: Store, order: seq<Inode>): (Store, seq<Inode>)
    decreases |order|
  {
    if order == [] then (s, [])
    else if order[0] == ROOT_ID || order[0] !in s.data then TakeInfos(s, order[1..])
    else
      var (s', refs) := TakeInfos(SetInfo(s, order[0], []), order[1..]);
      (s', s.data[order[0]].info + refs)
  }

  function ClearMigrationInfo(s: Store, order: seq<Inode>): Store {
    var (s', refs) := TakeInfos(s, order);
    Drain(s', Ones(refs))
  }

  // ----- Runs of the whole system ------------------------------------------------------------

  /** The store, the lookups the guest holds, and the strong references the daemon holds. */
  datatype System = System(store: Store, guest: multiset<Inode>, strong: multiset<Inode>)

  datatype Op =
    | DoClaim(handle: Option<FileHandle>, ids: InodeIds)
    | GetStrong(inode: Inode)
    | CloneRef(inode: Inode)
    | Leak(inode: Inode)
    | DropRef(inode: Inode)
    | DoGetOrInsert(inode: Inode, data: InodeData)
    | DoNewInode(inode: Inode, data: InodeData)
    | Forget(requests: Pending)
    | ReplaceInfo(inode: Inode, info: seq<Inode>)
    | ClearInfo(order: seq<Inode>)

  /** References are used only by who holds them; the guest forgets no more than it was given. */
  ghost predicate Enabled(sys: System, op: Op) {
    match op
    case CloneRef(i) => i in sys.strong
    case Leak(i) => i in sys.strong
    case DropRef(i) => i in sys.strong
    case DoGetOrInsert(_, d) => multiset(d.info) <= sys.strong
    case DoNewInode(_, d) => multiset(d.info) <= sys.strong && d.refcount > 0
    case Forget(requests) => Demand(requests) <= sys.guest
    case ReplaceInfo(i, info) => i in sys.store.data && multiset(info) <= sys.strong
    case ClearInfo(order) => forall i | i in sys.store.data :: i in order
    case _ => true
  }

  ghost function Take(sys: System, i: Inode, s: Store): System {
    sys.(store := s, strong := sys.strong + multiset{i})
  }

  ghost function Apply(sys: System, op: Op): System
    requires Enabled(sys, op)
  {
    var s := sys.store;
    match op
    case DoClaim(handle, ids) =>
      var (found, s') := Claim(s, handle, ids);
      if found.Some? then Take(sys, found.value, s') else sys
    case GetStrong(i) =>
      if Increment(s, i).Some? then Take(sys, i, Increment(s, i).value) else sys
    case CloneRef(i) =>
      if Increment(s, i).Some? then Take(sys, i, Increment(s, i).value) else sys
    case Leak(i) => sys.(strong := sys.strong - multiset{i}, guest := sys.guest + multiset{i})
    case DropRef(i) => sys.(store := Drain(s, [(i, 1)]), strong := sys.strong - multiset{i})
    case DoGetOrInsert(i, d) =>
      var (found, s') := GetOrInsert(s, i, d);
      var rest := sys.(strong := sys.strong - multiset(d.info));
      if found.Some? then Take(rest, found.value, s') else rest.(store := s')
    case DoNewInode(i, d) =>
      var (ok, s') := NewInode(s, i, d);
      System(s', if ok then sys.guest[i := sys.guest[i] + d.refcount] else sys.guest, sys.strong - multiset(d.info))
    case Forget(requests) => sys.(store := Drain(s, requests), guest := sys.guest - Demand(requests))
    case ReplaceInfo(i, info) =>
      sys.(store := Drain(SetInfo(s, i, info), Ones(s.data[i].info)), strong := sys.strong - multiset(info))
    case ClearInfo(order) => sys.(store := ClearMigrationInfo(s, order))
  }

  ghost predicate Inv(sys: System) {
    Balanced(sys.store, sys.guest + sys.strong) && IndexesNameLive(sys.store)
  }

  lemma IncrementBalances(s: Store, i: Inode, held: multiset<Inode>)
    requires Balanced(s, held) && i in s.data
    ensures Increment(s, i).Some? && Balanced(Increment(s, i).value, held + multiset{i})
  {
    RecountBalances(s, i, s.data[i].refcount + 1, held, held + multiset{i});
  }

  /** Entering an inode moves the references in its migration info from outside into the store. */
  lemma InsertBalances(s: Store, i: Inode, d: InodeData, held: multiset<Inode>)
    requires i !in s.data && d.refcount > 0 && Balanced(s, held + multiset(d.info))
    ensures Balanced(InsertNew(s, i, d), held[i := held[i] + d.refcount])
  {
    var s' := InsertNew(s, i, d);
    InfoRefsUpdate(s.data, i, d);
    forall j ensures Refcount(s', j) == held[i := held[i] + d.refcount][j] + InfoRefs(s'.data)[j] {
      assert Refcount(s, j) == (held + multiset(d.info))[j] + InfoRefs(s.data)[j];
    }
  }

  lemma SetInfoBalances(s: Store, i: Inode, info: seq<Inode>, held: multiset<Inode>)
    requires i in s.data && Balanced(s, held + multiset(info))
    ensures Balanced(SetInfo(s, i, info), held + multiset(s.data[i].info))
  {
    var s' := SetInfo(s, i, info);
    InfoRefsUpdate(s.data, i, s'.data[i]);
    forall j ensures Refcount(s', j) == (held + multiset(s.data[i].info))[j] + InfoRefs(s'.data)[j] {
      assert Refcount(s, j) == (held + multiset(info))[j] + InfoRefs(s.data)[j];
      assert (InfoRefs(s'.data) + multiset(s.data[i].info))[j] == (InfoRefs(s.data) + multiset(info))[j];
    }
  }

  lemma DropRefsBalances(s: Store, refs: seq<Inode>, held: multiset<Inode>)
    requires Balanced(s, held + multiset(refs))
    ensures Balanced(Drain(s, Ones(refs)), held)
  {
    DemandOnes(refs, []);
    assert Ones(refs) + [] == Ones(refs);
    assert multiset(refs) + Demand([]) == multiset(refs);
    DrainBalances(s, Ones(refs), held);
  }

  lemma {:induction false} TakeInfosBalances(s: Store, order: seq<Inode>, held: multiset<Inode>)
    requires Balanced(s, held) && IndexesNameLive(s)
    ensures Balanced(TakeInfos(s, order).0, held + multiset(TakeInfos(s, order).1))
    ensures IndexesNameLive(TakeInfos(s, order).0)
    ensures TakeInfos(s, order).0.data.Keys == s.data.Keys
    ensures forall i | i in s.data && i in order && i != ROOT_ID :: TakeInfos(s, order).0.data[i].info == []
    ensures forall i | i in s.data :: TakeInfos(s, order).0.data[i].info in {s.data[i].info, []}
    decreases |order|
  {
    if order == [] {
      assert held + multiset(TakeInfos(s, order).1) == held;
    } else if order[0] == ROOT_ID || order[0] !in s.data {
      TakeInfosBalances(s, order[1..], held);
    } else {
      var info := s.data[order[0]].info;
      var s1 := SetInfo(s, order[0], []);
      assert held + multiset([]) == held;
      SetInfoBalances(s, order[0], [], held);
      TakeInfosBalances(s1, order[1..], held + multiset(info));
      var refs := TakeInfos(s1, order[1..]).1;
      assert held + multiset(info) + multiset(refs) == held + multiset(info + refs);
    }
  }

  lemma {:induction false} TakenInfos(s: Store, order: seq<Inode>)
    ensures var s' := TakeInfos(s, order).0;
            && s'.byIds == s.byIds && s'.byHandle == s.byHandle && s'.data.Keys == s.data.Keys
            && forall i | i in s.data ::
                 s'.data[i] == if i in order && i != ROOT_ID then s.data[i].(info := []) else s.data[i]
    decreases |order|
  {
    if order != [] {
      if order[0] == ROOT_ID || order[0] !in s.data {
        TakenInfos(s, order[1..]);
      } else {
        TakenInfos(SetInfo(s, order[0], []), order[1..]);
      }
    }
  }

  lemma TakenRefs(s: Store, refs: seq<Inode>, refs': seq<Inode>, held: multiset<Inode>)
    requires Balanced(s, held + multiset(refs)) && Balanced(s, held + multiset(refs'))
    ensures Demand(Ones(refs)) == Demand(Ones(refs'))
  {
    forall i ensures multiset(refs)[i] == multiset(refs')[i] {
      assert Refcount(s, i) == (held + multiset(refs))[i] + InfoRefs(s.data)[i];
      assert Refcount(s, i) == (held + multiset(refs'))[i] + InfoRefs(s.data)[i];
    }
    DemandOnes(refs, []);
    DemandOnes(refs', []);
    assert Ones(refs) + [] == Ones(refs) && Ones(refs') + [] == Ones(refs');
  }

  /** Clearing the migration info gives the same store in whatever order the inodes are visited. */
  lemma ClearOrderDoesNotMatter(s: Store, order: seq<Inode>, order': seq<Inode>, held: multiset<Inode>)
    requires Balanced(s, held) && IndexesNameLive(s)
    requires forall i | i in s.data :: i in order && i in order'
    ensures ClearMigrationInfo(s, order) == ClearMigrationInfo(s, order')
  {
    var (a, refs) := TakeInfos(s, order);
    var (b, refs') := TakeInfos(s, order');
    TakenInfos(s, order);
    TakenInfos(s, order');
    assert a.data == b.data;
    TakeInfosBalances(s, order, held);
    TakeInfosBalances(s, order', held);
    TakenRefs(a, refs, refs', held);
    DemandOnes(refs, []);
    assert Ones(refs) + [] == Ones(refs) && multiset(refs) + Demand([]) == multiset(refs);
    DropOrderDoesNotMatter(a, Ones(refs), Ones(refs'), held);
  }

  lemma TakeBalances(sys: System, i: Inode)
    requires Inv(sys) && i in sys.store.data
    ensures Increment(sys.store, i).Some?
    ensures var sys' := Take(sys, i, Increment(sys.store, i).value);
            Balanced(sys'.store, sys'.guest + sys'.strong)
  {
    IncrementBalances(sys.store, i, sys.guest + sys.strong);
    assert sys.guest + sys.strong + multiset{i} == sys.guest + (sys.strong + multiset{i});
  }

  lemma DropRefBalances(sys: System, i: Inode)
    requires Inv(sys) && i in sys.strong
    ensures Balanced(Drain(sys.store, [(i, 1)]), sys.guest + (sys.strong - multiset{i}))
  {
    var rest := sys.guest + (sys.strong - multiset{i});
    assert Demand([(i, 1)]) == multiset{i};
    assert sys.guest + sys.strong == rest + Demand([(i, 1)]);
    DrainBalances(sys.store, [(i, 1)], rest);
  }

  lemma ForgetBalances(sys: System, requests: Pending)
    requires Inv(sys) && Demand(requests) <= sys.guest
    ensures Balanced(Drain(sys.store, requests), sys.guest - Demand(requests) + sys.strong)
  {
    var rest := sys.guest - Demand(requests) + sys.strong;
    assert sys.guest + sys.strong == rest + Demand(requests);
    DrainBalances(sys.store, requests, rest);
  }

  lemma ReplaceInfoBalances(sys: System, i: Inode, info: seq<Inode>)
    requires Inv(sys) && i in sys.store.data && multiset(info) <= sys.strong
    ensures Balanced(Drain(SetInfo(sys.store, i, info), Ones(sys.store.data[i].info)),
                     sys.guest + (sys.strong - multiset(info)))
  {
    var rest := sys.guest + (sys.strong - multiset(info));
    assert sys.guest + sys.strong == rest + multiset(info);
    SetInfoBalances(sys.store, i, info, rest);
    DropRefsBalances(SetInfo(sys.store, i, info), sys.store.data[i].info, rest);
  }

  lemma ClearInfoBalances(sys: System, order: seq<Inode>)
    requires Inv(sys)
    ensures Balanced(ClearMigrationInfo(sys.store, order), sys.guest + sys.strong)
  {
    var held := sys.guest + sys.strong;
    TakeInfosBalances(sys.store, order, held);
    DropRefsBalances(TakeInfos(sys.store, order).0, TakeInfos(sys.store, order).1, held);
  }

  lemma ClaimedBalances(s: Store, i: Inode, info: seq<Inode>, rest: multiset<Inode>)
    requires i in s.data && Balanced(s, rest + multiset(info))
    ensures Increment(s, i).Some?
    ensures Balanced(Drain(Increment(s, i).value, Ones(info)), rest + multiset{i})
  {
    IncrementBalances(s, i, rest + multiset(info));
    assert rest + multiset(info) + multiset{i} == rest + multiset{i} + multiset(info);
    DropRefsBalances(Increment(s, i).value, info, rest + multiset{i});
  }

  lemma GetOrInsertBalances(s: Store, i: Inode, d: InodeData, rest: multiset<Inode>)
    requires Balanced(s, rest + multiset(d.info)) && IndexesNameLive(s)
    ensures var (found, s') := GetOrInsert(s, i, d);
            Balanced(s', if found.Some? then rest + multiset{found.value} else rest)
  {
    var found := Find(s, HandleOf(d), d.ids);
    if found.Some? {
      ClaimedBalances(s, found.value, d.info, rest);
    } else if i in s.data {
      DropRefsBalances(s, d.info, rest);
    } else {
      InsertBalances(s, i, d.(refcount := 1), rest);
      assert rest[i := rest[i] + 1] == rest + multiset{i};
    }
  }

  lemma DoGetOrInsertBalances(sys: System, i: Inode, d: InodeData)
    requires Inv(sys) && multiset(d.info) <= sys.strong
    ensures var sys' := Apply(sys, DoGetOrInsert(i, d));
            Balanced(sys'.store, sys'.guest + sys'.strong)
  {
    var strong := sys.strong - multiset(d.info);
    assert sys.guest + sys.strong == sys.guest + strong + multiset(d.info);
    GetOrInsertBalances(sys.store, i, d, sys.guest + strong);
    var (found, s') := GetOrInsert(sys.store, i, d);
    if found.Some? {
      assert sys.guest + strong + multiset{found.value} == sys.guest + (strong + multiset{found.value});
    }
  }

  lemma ApplyKeepsBalance(sys: System, op: Op)
    requires Inv(sys) && Enabled(sys, op)
    ensures Balanced(Apply(sys, op).store, Apply(sys, op).guest + Apply(sys, op).strong)
  {
    match op {
      case DoClaim(handle, ids) =>
        var found := Find(sys.store, handle, ids);
        if found.Some? {
          TakeBalances(sys, found.value);
        }
      case GetStrong(i) => if i in sys.store.data { TakeBalances(sys, i); }
      case CloneRef(i) => if i in sys.store.data { TakeBalances(sys, i); }
      case Leak(i) =>
        assert sys.guest + multiset{i} + (sys.strong - multiset{i}) == sys.guest + sys.strong;
      case DropRef(i) => DropRefBalances(sys, i);
      case DoGetOrInsert(i, d) => DoGetOrInsertBalances(sys, i, d);
      case DoNewInode(i, d) => NewInodeBalances(sys, i, d);
      case Forget(requests) => ForgetBalances(sys, requests);
      case ReplaceInfo(i, info) => ReplaceInfoBalances(sys, i, info);
      case ClearInfo(order) => ClearInfoBalances(sys, order);
    }
  }

  lemma NewInodeBalances(sys: System, i: Inode, d: InodeData)
    requires Inv(sys) && Enabled(sys, DoNewInode(i, d))
    ensures var sys' := Apply(sys, DoNewInode(i, d));
            Balanced(sys'.store, sys'.guest + sys'.strong)
  {
    var s, rest := sys.store, sys.guest + (sys.strong - multiset(d.info));
    var sys' := Apply(sys, DoNewInode(i, d));
    assert sys.guest + sys.strong == rest + multiset(d.info);
    if i in s.data {
      DropRefsBalances(s, d.info, rest);
    } else {
      InsertBalances(s, i, d, rest);
      assert rest[i := rest[i] + d.refcount] == sys'.guest + sys'.strong;
    }
  }

  lemma GetOrInsertKeepsIndexes(s: Store, i: Inode, d: InodeData)
    requires IndexesNameLive(s)
    ensures IndexesNameLive(GetOrInsert(s, i, d).1)
  {
    var (found, s') := Claim(s, HandleOf(d), d.ids);
    if found.Some? || i in s.data {
      DrainKeepsIndexes(s', Ones(d.info));
    }
  }

  lemma ClearKeepsIndexes(s: Store, order: seq<Inode>, held: multiset<Inode>)
    requires Balanced(s, held) && IndexesNameLive(s)
    ensures IndexesNameLive(ClearMigrationInfo(s, order))
  {
    TakeInfosBalances(s, order, held);
    DrainKeepsIndexes(TakeInfos(s, order).0, Ones(TakeInfos(s, order).1));
  }

  lemma ReplaceKeepsIndexes(s: Store, i: Inode, info: seq<Inode>)
    requires i in s.data && IndexesNameLive(s)
    ensures IndexesNameLive(Drain(SetInfo(s, i, info), Ones(s.data[i].info)))
  {
    DrainKeepsIndexes(SetInfo(s, i, info), Ones(s.data[i].info));
  }

  lemma ApplyKeepsIndexes(sys: System, op: Op)
    requires Inv(sys) && Enabled(sys, op)
    ensures IndexesNameLive(Apply(sys, op).store)
  {
    var s := sys.store;
    match op {
      case DropRef(i) => DrainKeepsIndexes(s, [(i, 1)]);
      case DoGetOrInsert(i, d) => GetOrInsertKeepsIndexes(s, i, d);
      case DoNewInode(i, d) => DrainKeepsIndexes(s, Ones(d.info));
      case Forget(requests) => DrainKeepsIndexes(s, requests);
      case ReplaceInfo(i, info) => ReplaceKeepsIndexes(s, i, info);
      case ClearInfo(order) => ClearKeepsIndexes(s, order, sys.guest + sys.strong);
      case _ =>
    }
  }

  ghost predicate IsRun(trace: seq<System>, ops: seq<Op>) {
    && |trace| == |ops| + 1
    && trace[0] == System(EMPTY, multiset{}, multiset{})
    && forall k | 0 <= k < |ops| :: Enabled(trace[k], ops[k]) && trace[k + 1] == Apply(trace[k], ops[k])
  }

  /** Conservation and sound indexes at every point of every run. */
  lemma {:induction false} RunsKeepInv(trace: seq<System>, ops: seq<Op>, k: nat)
    requires IsRun(trace, ops) && k < |trace|
    ensures Inv(trace[k])
  {
    if k > 0 {
      RunsKeepInv(trace, ops, k - 1);
      ApplyKeepsBalance(trace[k - 1], ops[k - 1]);
      ApplyKeepsIndexes(trace[k - 1], ops[k - 1]);
    }
  }

  /** A held reference, wherever it is held, names an inode in the store; cloning it succeeds. */
  lemma HeldReferencesAreLive(trace: seq<System>, ops: seq<Op>, k: nat, i: Inode)
    requires IsRun(trace, ops) && k < |trace|
    requires i in trace[k].guest + trace[k].strong + InfoRefs(trace[k].store.data)
    ensures i in trace[k].store.data && Increment(trace[k].store, i).Some?
  {
    RunsKeepInv(trace, ops, k);
    assert Refcount(trace[k].store, i) > 0;
  }

  // ----- Which inode is found ----------------------------------------------------------------

  predicate HasHandle(d: InodeData, handle: Option<FileHandle>) {
    handle.Some? && d.fileOrHandle == Handle(handle.value)
  }

  /** An ID triple tells files apart only as long as an FD keeps the file from being deleted. */
  predicate HasFd(d: InodeData, ids: InodeIds) {
    d.fileOrHandle.File? && d.ids == ids
  }

  predicate StandsFor(d: InodeData, handle: Option<FileHandle>, ids: InodeIds) {
    HasHandle(d, handle) || HasFd(d, ids)
  }

  /** The live inode with that handle, or else the one with that ID triple and an FD. */
  ghost predicate IsTheOne(s: Store, handle: Option<FileHandle>, ids: InodeIds, i: Inode) {
    && i in s.data && StandsFor(s.data[i], handle, ids)
    && (HasHandle(s.data[i], handle) || forall j | j in s.data :: !HasHandle(s.data[j], handle))
  }

  /** One reference was added, to an inode that was there. */
  ghost predicate Raised(before: map<Inode, InodeData>, after: map<Inode, InodeData>, i: Inode) {
    i in before && before[i].refcount > 0 && after == before[i := before[i].(refcount := before[i].refcount + 1)]
  }

  /** What is claimed carries the handle asked for, or has an FD and the ID triple, and gets one reference. */
  lemma ClaimedStandsFor(s: Store, handle: Option<FileHandle>, ids: InodeIds)
    requires IndexesNameLive(s)
    ensures var (found, s') := Claim(s, handle, ids);
            if found.Some? then Raised(s.data, s'.data, found.value) && StandsFor(s.data[found.value], handle, ids)
            else s' == s
  {
  }

  /** And if live inodes are findable, it is claimed if and only if there is one. */
  lemma ClaimedIff(s: Store, handle: Option<FileHandle>, ids: InodeIds, withoutFd: InodeIds -> bool)
    requires IndexesNameLive(s) && Findable(s, withoutFd) && forall i | i in s.data :: s.data[i].refcount > 0
    ensures forall i: Inode :: Claim(s, handle, ids).0 == Some(i) <==> IsTheOne(s, handle, ids, i)
    ensures Claim(s, handle, ids).0.None? <==> forall i | i in s.data :: !StandsFor(s.data[i], handle, ids)
  {
    ClaimedStandsFor(s, handle, ids);
    var found := Claim(s, handle, ids).0;
    if found.Some? {
      assert IsTheOne(s, handle, ids, found.value);
    }
  }

  /** An inode is entered under its own ID, with one reference, or one that stands for the same file is claimed. */
  lemma GetOrInsertStandsFor(s: Store, i: Inode, d: InodeData)
    requires IndexesNameLive(s)
    ensures var (found, s') := GetOrInsert(s, i, d);
            && (found.None? ==> i in s.data)
            && (found.Some? && found != Some(i) ==> found.value in s.data && StandsFor(s.data[found.value], HandleOf(d), d.ids))
            && (found == Some(i) && i in s.data ==> StandsFor(s.data[i], HandleOf(d), d.ids))
            && (found == Some(i) && i !in s.data ==> s'.data == s.data[i := d.(refcount := 1)])
  {
    ClaimedStandsFor(s, HandleOf(d), d.ids);
  }

  /** If live inodes are findable, it is entered if and only if none stands for the file and the ID is free. */
  lemma EntersIff(s: Store, i: Inode, d: InodeData, withoutFd: InodeIds -> bool)
    requires IndexesNameLive(s) && Findable(s, withoutFd) && forall j | j in s.data :: s.data[j].refcount > 0
    ensures var found := GetOrInsert(s, i, d).0;
            && (found == Some(i) && i !in s.data <==>
                  i !in s.data && forall j | j in s.data :: !StandsFor(s.data[j], HandleOf(d), d.ids))
            && (forall j | j in s.data :: found == Some(j) <==> IsTheOne(s, HandleOf(d), d.ids, j))
  {
    ClaimedIff(s, HandleOf(d), d.ids, withoutFd);
  }

  /** `new_inode` enters an inode, with the count that it has, if and only if its ID is free. */
  lemma NewInodeEnters(s: Store, i: Inode, d: InodeData)
    ensures var (ok, s') := NewInode(s, i, d);
            && (ok <==> i !in s.data)
            && (ok ==> s'.data == s.data[i := d])
            && (!ok && d.info == [] ==> s' == s)
  {
    assert d.info == [] ==> Ones(d.info) == [];
  }

  /** Which references change hands. */
  lemma ReferencesMove(sys: System, op: Op)
    requires Inv(sys) && Enabled(sys, op)
    ensures var sys' := Apply(sys, op);
            match op
            case DoClaim(handle, ids) =>
              var found := Claim(sys.store, handle, ids).0;
              sys'.guest == sys.guest && sys'.strong == sys.strong + (if found.Some? then multiset{found.value} else multiset{})
            case GetStrong(i) =>
              sys'.guest == sys.guest && sys'.strong == sys.strong + (if i in sys.store.data then multiset{i} else multiset{})
            case CloneRef(i) => sys'.guest == sys.guest && sys'.strong == sys.strong + multiset{i}
            case Leak(i) => sys'.guest == sys.guest + multiset{i} && sys'.strong + multiset{i} == sys.strong
            case DropRef(i) => sys'.guest == sys.guest && sys'.strong + multiset{i} == sys.strong
            case Forget(requests) => sys'.guest + Demand(requests) == sys.guest && sys'.strong == sys.strong
            case ReplaceInfo(_, info) => sys'.guest == sys.guest && sys'.strong + multiset(info) == sys.strong
            case ClearInfo(_) => sys'.guest == sys.guest && sys'.strong == sys.strong
            case _ => true
  {
    if op.CloneRef? {
      assert Refcount(sys.store, op.inode) == (sys.guest + sys.strong)[op.inode] + InfoRefs(sys.store.data)[op.inode];
    }
  }

  // ----- Clearing migration info -------------------------------------------------------------

  /** No inode but the root has any left, and the root keeps its own. */
  lemma ClearedInfos(s: Store, order: seq<Inode>)
    requires forall i | i in s.data :: i in order
    ensures forall i | i in ClearMigrationInfo(s, order).data ::
              i in s.data && ClearMigrationInfo(s, order).data[i].info == if i == ROOT_ID then s.data[i].info else []
  {
    TakenInfos(s, order);
    DrainKeeps(TakeInfos(s, order).0, Ones(TakeInfos(s, order).1));
  }

  // ----- One FUSE ID per host inode ----------------------------------------------------------

  /** `new_inode` only enters the first inode, and no ID triple is seen with and without an FD. */
  predicate Disciplined(sys: System, op: Op, withoutFd: InodeIds -> bool) {
    match op
    case DoGetOrInsert(_, d) => Classified(d, withoutFd)
    case DoNewInode(_, d) => Classified(d, withoutFd) && sys.store.data == map[]
    case _ => true
  }

  lemma GetOrInsertKeepsFindable(s: Store, i: Inode, d: InodeData, withoutFd: InodeIds -> bool)
    requires IndexesNameLive(s) && (forall j | j in s.data :: s.data[j].refcount > 0)
    requires Findable(s, withoutFd) && Classified(d, withoutFd)
    ensures Findable(GetOrInsert(s, i, d).1, withoutFd)
  {
    var found := Find(s, HandleOf(d), d.ids);
    if found.Some? {
      DrainKeepsFindable(Increment(s, found.value).value, Ones(d.info), withoutFd);
    } else if i in s.data {
      DrainKeepsFindable(s, Ones(d.info), withoutFd);
    } else {
      assert Findable(InsertNew(s, i, d.(refcount := 1)), withoutFd);
    }
  }

  lemma ApplyKeepsFindable(sys: System, op: Op, withoutFd: InodeIds -> bool)
    requires Inv(sys) && Enabled(sys, op) && Disciplined(sys, op, withoutFd)
    requires Findable(sys.store, withoutFd)
    ensures Findable(Apply(sys, op).store, withoutFd)
  {
    var s := sys.store;
    match op {
      case DropRef(i) => DrainKeepsFindable(s, [(i, 1)], withoutFd);
      case DoGetOrInsert(i, d) => GetOrInsertKeepsFindable(s, i, d, withoutFd);
      case DoNewInode(i, d) =>
      case Forget(requests) => DrainKeepsFindable(s, requests, withoutFd);
      case ReplaceInfo(i, info) => DrainKeepsFindable(SetInfo(s, i, info), Ones(s.data[i].info), withoutFd);
      case ClearInfo(order) =>
        TakeInfosKeepFindable(s, order, withoutFd);
        DrainKeepsFindable(TakeInfos(s, order).0, Ones(TakeInfos(s, order).1), withoutFd);
      case _ =>
    }
  }

  lemma {:induction false} TakeInfosKeepFindable(s: Store, order: seq<Inode>, withoutFd: InodeIds -> bool)
    requires Findable(s, withoutFd)
    ensures Findable(TakeInfos(s, order).0, withoutFd)
    decreases |order|
  {
    if order != [] {
      TakeInfosKeepFindable(s, order[1..], withoutFd);
      if order[0] in s.data {
        TakeInfosKeepFindable(SetInfo(s, order[0], []), order[1..], withoutFd);
      }
    }
  }

  lemma {:induction false} RunsKeepFindable(trace: seq<System>, ops: seq<Op>, k: nat, withoutFd: InodeIds -> bool)
    requires IsRun(trace, ops) && k < |trace|
    requires forall n | 0 <= n < |ops| :: Disciplined(trace[n], ops[n], withoutFd)
    ensures Findable(trace[k].store, withoutFd)
  {
    if k > 0 {
      RunsKeepFindable(trace, ops, k - 1, withoutFd);
      RunsKeepInv(trace, ops, k - 1);
      ApplyKeepsFindable(trace[k - 1], ops[k - 1], withoutFd);
    }
  }

  /** The two inodes stand for the same host inode: same file handle, or same ID triple with an FD. */
  predicate SameHostInode(a: InodeData, b: InodeData) {
    a.fileOrHandle == b.fileOrHandle && !a.fileOrHandle.Invalid? && (a.fileOrHandle.File? ==> a.ids == b.ids)
  }

  /** No host inode has two FUSE IDs. */
  ghost predicate OneIdEach(s: Store) {
    forall i, j | i in s.data && j in s.data && SameHostInode(s.data[i], s.data[j]) :: i == j
  }

  ghost predicate AlwaysOneId(trace: seq<System>) {
    forall k | 0 <= k < |trace| :: OneIdEach(trace[k].store)
  }

  lemma OneIdPerHostInode(trace: seq<System>, ops: seq<Op>, withoutFd: InodeIds -> bool)
    requires IsRun(trace, ops)
    requires forall n | 0 <= n < |ops| :: Disciplined(trace[n], ops[n], withoutFd)
    ensures AlwaysOneId(trace)
  {
    forall k | 0 <= k < |trace| ensures OneIdEach(trace[k].store) {
      RunsKeepFindable(trace, ops, k, withoutFd);
    }
  }

  /** Inodes are entered only with what the host is `seen` to give, and by `new_inode` only the first. */
  ghost predicate DrawsFrom(trace: seq<System>, ops: seq<Op>, seen: (FileOrHandle, InodeIds) -> bool) {
    |ops| <= |trace| && forall n | 0 <= n < |ops| ::
      match ops[n]
      case DoGetOrInsert(_, d) => seen(d.fileOrHandle, d.ids)
      case DoNewInode(_, d) => seen(d.fileOrHandle, d.ids) && trace[n].store.data == map[]
      case _ => true
  }

  /** No ID triple occurs both with and without an FD. */
  ghost predicate Unmixed(seen: (FileOrHandle, InodeIds) -> bool) {
    forall fh, ids :: seen(File, ids) && seen(fh, ids) ==> fh == File
  }

  /**
    A host whose ID triples are mixed gets one of them under two IDs: removing the inode without
    FD takes away the ID entry of the one with FD, so the next lookup enters that triple again.
   */
  lemma MixedTripleGetsTwoIds(seen: (FileOrHandle, InodeIds) -> bool, fh: FileOrHandle, ids: InodeIds)
    returns (trace: seq<System>, ops: seq<Op>)
    requires seen(File, ids) && seen(fh, ids) && fh != File
    ensures IsRun(trace, ops) && DrawsFrom(trace, ops, seen) && !AlwaysOneId(trace)
  {
    var other, withFd := InodeData(fh, ids, 1, []), InodeData(File, ids, 1, []);
    trace, ops := EnterBoth(other, withFd);
    trace, ops := LoseAndEnter(trace, ops, other, withFd);
    assert !OneIdEach(trace[4].store) by {
      assert SameHostInode(trace[4].store.data[3], trace[4].store.data[4]);
    }
  }

  lemma ExtendRun(trace: seq<System>, ops: seq<Op>, op: Op, next: System)
    requires IsRun(trace, ops) && Enabled(trace[|ops|], op) && next == Apply(trace[|ops|], op)
    ensures IsRun(trace + [next], ops + [op])
  {
    var trace', ops' := trace + [next], ops + [op];
    forall k | 0 <= k < |ops'| ensures Enabled(trace'[k], ops'[k]) && trace'[k + 1] == Apply(trace'[k], ops'[k]) {
      if k < |ops| {
        assert trace'[k] == trace[k] && trace'[k + 1] == trace[k + 1] && ops'[k] == ops[k];
      }
    }
  }

  lemma EnterBoth(other: InodeData, withFd: InodeData) returns (trace: seq<System>, ops: seq<Op>)
    requires other == InodeData(other.fileOrHandle, withFd.ids, 1, []) && !other.fileOrHandle.File?
    requires withFd == InodeData(File, withFd.ids, 1, [])
    ensures IsRun(trace, ops) && ops == [DoGetOrInsert(2, other), DoGetOrInsert(3, withFd)]
    ensures var s := trace[2];
            s.store.data == map[2 := other, 3 := withFd] && s.store.byIds == map[withFd.ids := 3] && 2 in s.strong
  {
    var s0 := System(EMPTY, multiset{}, multiset{});
    var s1 := Entered(s0, 2, other);
    var s2 := Entered(s1, 3, withFd);
    ExtendRun([s0], [], DoGetOrInsert(2, other), s1);
    ExtendRun([s0] + [s1], [] + [DoGetOrInsert(2, other)], DoGetOrInsert(3, withFd), s2);
    trace, ops := [s0] + [s1] + [s2], [] + [DoGetOrInsert(2, other)] + [DoGetOrInsert(3, withFd)];
  }

  lemma LoseAndEnter(trace: seq<System>, ops: seq<Op>, other: InodeData, withFd: InodeData)
    returns (trace': seq<System>, ops': seq<Op>)
    requires other == InodeData(other.fileOrHandle, withFd.ids, 1, []) && !other.fileOrHandle.File?
    requires withFd == InodeData(File, withFd.ids, 1, [])
    requires IsRun(trace, ops) && |ops| == 2
    requires var s := trace[2];
             s.store.data == map[2 := other, 3 := withFd] && s.store.byIds == map[withFd.ids := 3] && 2 in s.strong
    ensures IsRun(trace', ops') && ops' == ops + [DropRef(2)] + [DoGetOrInsert(4, withFd)]
    ensures trace'[4].store.data == map[3 := withFd, 4 := withFd]
  {
    var s3 := Removed(trace[2], 2);
    var s4 := Entered(s3, 4, withFd);
    ExtendRun(trace, ops, DropRef(2), s3);
    ExtendRun(trace + [s3], ops + [DropRef(2)], DoGetOrInsert(4, withFd), s4);
    trace', ops' := trace + [s3] + [s4], ops + [DropRef(2)] + [DoGetOrInsert(4, withFd)];
  }

  /** Entering an inode that is not found, without migration info. */
  ghost function Entered(sys: System, i: Inode, d: InodeData): (sys': System)
    requires i !in sys.store.data && d.info == [] && d.refcount == 1 && Find(sys.store, HandleOf(d), d.ids) == None
    ensures Enabled(sys, DoGetOrInsert(i, d)) && sys' == Apply(sys, DoGetOrInsert(i, d))
  {
    assert multiset(d.info) == multiset{};
    assert sys.strong - multiset{} == sys.strong;
    Take(sys, i, InsertNew(sys.store, i, d))
  }

  /** Dropping the last reference to an inode without migration info. */
  ghost function Removed(sys: System, i: Inode): (sys': System)
    requires i in sys.store.data && sys.store.data[i].refcount == 1 && sys.store.data[i].info == [] && i in sys.strong
    ensures Enabled(sys, DropRef(i)) && sys' == Apply(sys, DropRef(i))
  {
    assert Ones([]) + [(i, 1)][1..] == [];
    assert Drain(sys.store, [(i, 1)]) == Drain(Unlink(sys.store, i), []);
    sys.(store := Unlink(sys.store, i), strong := sys.strong - multiset{i})
  }

  /** No run gives a host inode two FUSE IDs, if and only if no ID triple occurs with and without an FD. */
  lemma OneIdIff(seen: (FileOrHandle, InodeIds) -> bool)
    ensures Unmixed(seen) <==> forall trace, ops | IsRun(trace, ops) && DrawsFrom(trace, ops, seen) :: AlwaysOneId(trace)
  {
    if Unmixed(seen) {
      forall trace, ops | IsRun(trace, ops) && DrawsFrom(trace, ops, seen) ensures AlwaysOneId(trace) {
        UnmixedIsDisciplined(trace, ops, seen);
        OneIdPerHostInode(trace, ops, ids => !seen(File, ids));
      }
    } else {
      var fh, ids :| seen(File, ids) && seen(fh, ids) && fh != File;
      var trace, ops := MixedTripleGetsTwoIds(seen, fh, ids);
    }
  }

  lemma UnmixedIsDisciplined(trace: seq<System>, ops: seq<Op>, seen: (FileOrHandle, InodeIds) -> bool)
    requires IsRun(trace, ops) && DrawsFrom(trace, ops, seen) && Unmixed(seen)
    ensures forall n | 0 <= n < |ops| :: Disciplined(trace[n], ops[n], ids => !seen(File, ids))
  {
    forall n | 0 <= n < |ops| ensures Disciplined(trace[n], ops[n], ids => !seen(File, ids)) {
      match ops[n] {
        case DoGetOrInsert(_, d) => assert seen(d.fileOrHandle, d.ids);
        case DoNewInode(_, d) => assert seen(d.fileOrHandle, d.ids);
        case _ =>
      }
    }
  }
}
