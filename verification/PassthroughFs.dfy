/**
  Requests that change both the inode store and the dentry index, handled one at a time and
  without migration tracking: lookups, forgets, and the requests that make, move and remove
  names.  (Forgets also with it, where they may leave dentries behind.)  What the host kernel
  answers is a parameter of each request.

  The file system is first a value (`Fs`) with a function for each request; `PassthroughFs` has
  the daemon's form and is proved to compute the same values.
 */
module Passthrough {
  import opened Bytes
  import opened InodeStores
  import opened InodeTables
  import opened DentryIndexes
  import opened Wrappers

  /** What the host knows about a looked-up name, and whether the steps that may fail succeed. */
  datatype HostFile = HostFile(ids: InodeIds, handle: Option<FileHandle>, storable: bool, attrOk: bool)

  /** The inode store, the dentries, and the next inode ID. */
  datatype Fs = Fs(store: Store, forward: map<Key, Inode>, next: Inode)

  // ----- Requests ----------------------------------------------------------------------------

  function Described(h: HostFile): InodeData {
    InodeData(if h.handle.Some? then Handle(h.handle.value) else File, h.ids, 1, [])
  }

  /** The root's count starts at 2. */
  function Mounted(root: HostFile): Fs {
    Fs(InsertNew(EMPTY, ROOT_ID, Described(root).(refcount := 2)), map[], ROOT_ID + 1)
  }

  /** Take a reference to the inode for `h`, entering it under the next ID if it is not there. */
  function Acquire(fs: Fs, h: HostFile): (Option<Inode>, Fs) {
    var (found, claimed) := Claim(fs.store, h.handle, h.ids);
    if found.Some? then (found, fs.(store := claimed))
    else if !h.storable then (None, fs)
    else
      var (i, s) := GetOrInsert(fs.store, fs.next, Described(h));
      (i, fs.(store := s, next := fs.next + 1))
  }

  /** A reference that cannot be reported is dropped again. */
  function LookUp(fs: Fs, parent: Inode, name: Name, host: Option<HostFile>): (Option<Inode>, Fs) {
    if parent !in fs.store.data || host.None? then (None, fs)
    else
      var (i, fs') := Acquire(fs, host.value);
      if i.None? then (None, fs')
      else if !host.value.attrOk then (None, fs'.(store := Drain(fs'.store, [(i.value, 1)])))
      else (i, fs'.(forward := fs'.forward[Key(parent, name) := i.value]))
  }

  /** The dentries whose child is still there. */
  function Remaining(f: map<Key, Inode>, live: set<Inode>): map<Key, Inode> {
    map k | k in f && f[k] in live :: f[k]
  }

  predicate Lists(requests: Pending, i: Inode) {
    exists k :: 0 <= k < |requests| && requests[k].0 == i
  }

  /** The dentries whose child is still there, or is not listed. */
  function Cleaned(f: map<Key, Inode>, requests: Pending, live: set<Inode>): map<Key, Inode> {
    map k | k in f && (f[k] in live || !Lists(requests, f[k])) :: f[k]
  }

  /** Of the inodes that leave the store, only those that the guest lists lose their dentries. */
  function ForgetListed(fs: Fs, requests: Pending): Fs {
    var s := Drain(fs.store, requests);
    fs.(store := s, forward := Cleaned(fs.forward, requests, s.data.Keys))
  }

  /** What it amounts to without migration tracking: all of them do. */
  function ForgetAll(fs: Fs, requests: Pending): Fs {
    var s := Drain(fs.store, requests);
    fs.(store := s, forward := Remaining(fs.forward, s.data.Keys))
  }

  /**
    `done` tells whether the host made, removed or renamed the name.  `replaced` is what it finds
    under that name before, and `host` what it finds there after.
   */
  datatype Request =
    | LookupRequest(parent: Inode, name: Name, host: Option<HostFile>)
    | ForgetRequest(inode: Inode, count: nat)
    | BatchForgetRequest(forgets: Pending)
    | UnlinkRequest(parent: Inode, name: Name, replaced: Option<HostFile>, done: bool)
    | RenameRequest(oldDir: Inode, oldName: Name, newDir: Inode, newName: Name, replaced: Option<HostFile>, done: bool)
    | MakeRequest(parent: Inode, name: Name, replaced: Option<HostFile>, done: bool, host: Option<HostFile>)
    | LinkRequest(inode: Inode, parent: Inode, name: Name, replaced: Option<HostFile>, done: bool, host: Option<HostFile>)
    | CreateRequest(parent: Inode, name: Name, done: bool, host: Option<HostFile>)

  function Next(fs: Fs, request: Request): Fs {
    var live := fs.store.data.Keys;
    match request
    case LookupRequest(parent, name, host) => LookUp(fs, parent, name, host).1
    case ForgetRequest(inode, count) => ForgetListed(fs, [(inode, count)])
    case BatchForgetRequest(forgets) => ForgetListed(fs, forgets)
    case UnlinkRequest(parent, name, _, done) =>
      if done && parent in live then fs.(forward := fs.forward - {Key(parent, name)}) else fs
    case RenameRequest(oldDir, oldName, newDir, newName, _, done) =>
      if done && oldDir in live && newDir in live
      then fs.(forward := Renamed(fs.forward, Key(oldDir, oldName), Key(newDir, newName)))
      else fs
    case MakeRequest(parent, name, _, done, host) => if done then LookUp(fs, parent, name, host).1 else fs
    case LinkRequest(inode, parent, name, _, done, host) =>
      if done && inode in live then LookUp(fs, parent, name, host).1 else fs
    case CreateRequest(parent, name, done, host) => if done then LookUp(fs, parent, name, host).1 else fs
  }

  // ----- What every request keeps ------------------------------------------------------------

  /** A store as it is without migration tracking: no inode holds references to others. */
  ghost predicate Tracked(s: Store) {
    && IndexesNameLive(s)
    && forall i | i in s.data :: s.data[i].refcount > 0 && s.data[i].info == []
  }

  /** Above all: every child that the dentry index knows is live in the inode store. */
  ghost predicate Sound(fs: Fs) {
    && Tracked(fs.store)
    && ROOT_ID < fs.next && (forall i | i in fs.store.data :: 0 < i < fs.next)
    && ChildrenLive(fs)
  }

  ghost predicate ChildrenLive(fs: Fs) {
    forall k | k in fs.forward :: fs.forward[k] in fs.store.data
  }

  /** Exactly one reference was added, and it is to `i`. */
  ghost predicate OneMore(before: map<Inode, InodeData>, after: map<Inode, InodeData>, i: Inode) {
    && i in after && after.Keys == before.Keys + {i}
    && (i in before ==> after[i] == before[i].(refcount := before[i].refcount + 1))
    && (i !in before ==> after[i].refcount == 1)
    && forall j | j in before && j != i :: after[j] == before[j]
  }

  /** The inode is the file that the host found: it has its handle, or an FD and its ID triple. */
  predicate IsFor(fs: Fs, i: Inode, h: HostFile) {
    i in fs.store.data && StandsFor(fs.store.data[i], h.handle, h.ids)
  }

  /** At first only the root is known, with two references and no names. */
  lemma MountedHasRoot(root: HostFile)
    ensures var fs := Mounted(root);
            && Sound(fs) && fs.store.data.Keys == {ROOT_ID} && fs.store.data[ROOT_ID].refcount == 2
            && IsFor(fs, ROOT_ID, root) && fs.forward == map[]
  {
  }

  lemma ClaimAddsOne(fs: Fs, h: HostFile, i: Inode)
    requires Sound(fs) && Find(fs.store, h.handle, h.ids) == Some(i)
    ensures var (found, fs') := Acquire(fs, h);
            && found == Some(i) && Sound(fs') && OneMore(fs.store.data, fs'.store.data, i) && fs'.forward == fs.forward
            && IsFor(fs, i, h) && IsFor(fs', i, h)
  {
    assert Acquire(fs, h) == (Some(i), fs.(store := SetRefcount(fs.store, i, fs.store.data[i].refcount + 1)));
  }

  lemma InsertAddsOne(fs: Fs, h: HostFile)
    requires Sound(fs) && Find(fs.store, h.handle, h.ids) == None && h.storable
    ensures var (found, fs') := Acquire(fs, h);
            && found == Some(fs.next) && Sound(fs') && OneMore(fs.store.data, fs'.store.data, fs.next)
            && fs'.forward == fs.forward && IsFor(fs', fs.next, h)
  {
    assert Acquire(fs, h) == (Some(fs.next), fs.(store := InsertNew(fs.store, fs.next, Described(h)), next := fs.next + 1));
  }

  /** One reference is added to an inode that is the file, be it a known one or a new one under the next ID. */
  lemma AcquireAddsOne(fs: Fs, h: HostFile)
    requires Sound(fs)
    ensures var (i, fs') := Acquire(fs, h);
            var known := Claim(fs.store, h.handle, h.ids).0;
            && (i.Some? <==> known.Some? || h.storable)
            && (i.Some? ==> && Sound(fs') && OneMore(fs.store.data, fs'.store.data, i.value) && i.value != 0
                            && i.value == (if known.Some? then known.value else fs.next)
                            && IsFor(fs', i.value, h) && (known.Some? ==> IsFor(fs, i.value, h)))
            && fs'.forward == fs.forward && (i.None? ==> fs' == fs)
  {
    var found := Find(fs.store, h.handle, h.ids);
    if found.Some? {
      ClaimAddsOne(fs, h, found.value);
    } else if h.storable {
      InsertAddsOne(fs, h);
    }
  }

  /** Where live inodes are findable: the inode that is the file, if there is one, and else the next ID. */
  lemma AcquireFinds(fs: Fs, h: HostFile, withoutFd: InodeIds -> bool)
    requires Sound(fs) && Findable(fs.store, withoutFd)
    ensures var i := Acquire(fs, h).0;
            && (forall j: Inode | j in fs.store.data :: i == Some(j) <==> IsTheOne(fs.store, h.handle, h.ids, j))
            && (i == Some(fs.next) <==> h.storable && forall j :: !IsFor(fs, j, h))
            && (i.None? <==> !h.storable && forall j :: !IsFor(fs, j, h))
  {
    ClaimedIff(fs.store, h.handle, h.ids, withoutFd);
    AcquireAddsOne(fs, h);
    var found := Claim(fs.store, h.handle, h.ids).0;
    if found.None? && h.storable {
      InsertAddsOne(fs, h);
    }
  }

  lemma {:induction false} DrainRemovesOnlyListed(s: Store, p: Pending)
    requires Tracked(s)
    ensures Tracked(Drain(s, p))
    ensures forall i | i in s.data && i !in Drain(s, p).data :: exists k :: 0 <= k < |p| && p[k].0 == i
    decreases |p|
  {
    if p != [] {
      var (s', p') := DrainStep(s, p);
      assert Ones([]) + p[1..] == p[1..];
      DrainRemovesOnlyListed(s', p[1..]);
      forall i | i in s.data && i !in Drain(s, p).data ensures exists k :: 0 <= k < |p| && p[k].0 == i {
        if i in s'.data {
          var k :| 0 <= k < |p[1..]| && p[1..][k].0 == i;
          assert p[k + 1].0 == i;
        } else {
          assert p[0].0 == i;
        }
      }
    }
  }

  /** Dropping a reference that was just added leaves the same inodes with the same counts. */
  lemma DropUndoes(s: Store, s': Store, i: Inode)
    requires Tracked(s) && Tracked(s') && OneMore(s.data, s'.data, i)
    ensures Drain(s', [(i, 1)]).data == s.data
    ensures i in s.data ==> Drain(s', [(i, 1)]) == s'.(data := s.data)
  {
    var (s2, p2) := DrainStep(s', [(i, 1)]);
    assert Ones([]) + [(i, 1)][1..] == [] && [(i, 1)][1..] == [];
    assert s2.data == s.data;
    assert Drain(s2, []) == s2;
  }

  /** A lookup gives the guest one reference, recorded under its name, or changes neither counts nor dentries. */
  lemma LookUpAddsOne(fs: Fs, parent: Inode, name: Name, host: Option<HostFile>)
    requires Sound(fs)
    ensures var (i, fs') := LookUp(fs, parent, name, host);
            && Sound(fs')
            && (i.Some? <==> && parent in fs.store.data && host.Some? && host.value.attrOk
                             && (Claim(fs.store, host.value.handle, host.value.ids).0.Some? || host.value.storable))
            && (i.Some? ==> && OneMore(fs.store.data, fs'.store.data, i.value) && i.value != 0
                            && IsFor(fs', i.value, host.value) && (i.value == fs.next || IsFor(fs, i.value, host.value))
                            && fs'.forward == fs.forward[Key(parent, name) := i.value])
            && (i.None? ==> fs'.store.data == fs.store.data && fs'.forward == fs.forward)
  {
    if parent in fs.store.data && host.Some? {
      AcquireAddsOne(fs, host.value);
      var (i, fs') := Acquire(fs, host.value);
      if i.Some? && !host.value.attrOk {
        DropUndoes(fs.store, fs'.store, i.value);
        DrainRemovesOnlyListed(fs'.store, [(i.value, 1)]);
      }
    }
  }

  lemma ForgetKeepsSound(fs: Fs, requests: Pending)
    requires Sound(fs)
    ensures Sound(ForgetListed(fs, requests)) && ForgetListed(fs, requests) == ForgetAll(fs, requests)
  {
    DrainKeeps(fs.store, requests);
    DrainRemovesOnlyListed(fs.store, requests);
    var s := Drain(fs.store, requests);
    forall k | k in fs.forward && fs.forward[k] !in s.data ensures Lists(requests, fs.forward[k]) {
      var j :| 0 <= j < |requests| && requests[j].0 == fs.forward[k];
    }
    assert Cleaned(fs.forward, requests, s.data.Keys) == Remaining(fs.forward, s.data.Keys);
  }

  lemma NextKeepsSound(fs: Fs, request: Request)
    requires Sound(fs)
    ensures Sound(Next(fs, request))
  {
    match request {
      case LookupRequest(parent, name, host) => LookUpAddsOne(fs, parent, name, host);
      case ForgetRequest(inode, count) => ForgetKeepsSound(fs, [(inode, count)]);
      case BatchForgetRequest(forgets) => ForgetKeepsSound(fs, forgets);
      case UnlinkRequest(_, _, _, _) =>
      case RenameRequest(_, _, _, _, _, _) =>
      case MakeRequest(parent, name, _, _, host) => LookUpAddsOne(fs, parent, name, host);
      case LinkRequest(_, parent, name, _, _, host) => LookUpAddsOne(fs, parent, name, host);
      case CreateRequest(parent, name, _, host) => LookUpAddsOne(fs, parent, name, host);
    }
  }

  // ----- What requests do to names -----------------------------------------------------------

  /** Only the names in `keys` may lead elsewhere now. */
  ghost predicate OthersStay(f: map<Key, Inode>, f': map<Key, Inode>, keys: set<Key>) {
    forall k: Key | k !in keys :: (k in f' <==> k in f) && (k in f ==> f'[k] == f[k])
  }

  lemma OneName(f: map<Key, Inode>, parent: Inode, name: Name)
    ensures Walk(f, parent, [name]) == if Key(parent, name) in f then Some(f[Key(parent, name)]) else None
  {
    assert [name][1..] == [];
  }

  /** After an unlink the name leads nowhere. */
  lemma UnlinkForgetsName(fs: Fs, parent: Inode, name: Name, replaced: Option<HostFile>)
    requires parent in fs.store.data
    ensures var fs' := Next(fs, UnlinkRequest(parent, name, replaced, true));
            && Walk(fs'.forward, parent, [name]).None?
            && OthersStay(fs.forward, fs'.forward, {Key(parent, name)}) && fs'.store == fs.store
  {
    OneName(Next(fs, UnlinkRequest(parent, name, replaced, true)).forward, parent, name);
  }

  /** After a rename the new name leads where the old one did, if anywhere, and the old one nowhere. */
  lemma RenameMovesName(fs: Fs, oldDir: Inode, oldName: Name, newDir: Inode, newName: Name, replaced: Option<HostFile>)
    requires oldDir in fs.store.data && newDir in fs.store.data
    ensures var fs' := Next(fs, RenameRequest(oldDir, oldName, newDir, newName, replaced, true));
            && Walk(fs'.forward, oldDir, [oldName]).None?
            && (Key(oldDir, oldName) != Key(newDir, newName) ==>
                  Walk(fs'.forward, newDir, [newName]) == Walk(fs.forward, oldDir, [oldName]))
            && OthersStay(fs.forward, fs'.forward, {Key(oldDir, oldName), Key(newDir, newName)}) && fs'.store == fs.store
  {
    var fs' := Next(fs, RenameRequest(oldDir, oldName, newDir, newName, replaced, true));
    OneName(fs'.forward, oldDir, oldName);
    OneName(fs'.forward, newDir, newName);
    OneName(fs.forward, oldDir, oldName);
  }

  /** A name that was looked up leads to the inode that the guest got; a failed lookup changes no name. */
  lemma LookUpSetsName(fs: Fs, parent: Inode, name: Name, host: Option<HostFile>)
    requires Sound(fs)
    ensures var (i, fs') := LookUp(fs, parent, name, host);
            && (i.Some? ==> Walk(fs'.forward, parent, [name]) == i && OthersStay(fs.forward, fs'.forward, {Key(parent, name)}))
            && (i.None? ==> fs'.forward == fs.forward)
  {
    LookUpAddsOne(fs, parent, name, host);
    OneName(LookUp(fs, parent, name, host).1.forward, parent, name);
  }

  predicate MakesName(request: Request) {
    request.MakeRequest? || request.LinkRequest? || request.CreateRequest?
  }

  /**
    If the host made the file, and knows the inode to link to, the name leads to it, with one more
    reference to it; if not, nothing happens at all.
   */
  lemma MakingSetsName(fs: Fs, request: Request)
    requires Sound(fs) && MakesName(request)
    ensures var fs', parent, name := Next(fs, request), request.parent, request.name;
            var made := request.done && (request.LinkRequest? ==> request.inode in fs.store.data);
            && (!made ==> fs' == fs)
            && (made && parent in fs.store.data && request.host.Some? && request.host.value.attrOk && request.host.value.storable ==>
                  var i := Walk(fs'.forward, parent, [name]);
                  i.Some? && IsFor(fs', i.value, request.host.value) && OneMore(fs.store.data, fs'.store.data, i.value))
            && OthersStay(fs.forward, fs'.forward, {Key(parent, name)})
  {
    LookUpAddsOne(fs, request.parent, request.name, request.host);
    LookUpSetsName(fs, request.parent, request.name, request.host);
  }

  /** A request that the host refuses, or whose directory is not known, changes nothing. */
  lemma RefusedChangesNothing(fs: Fs, request: Request)
    requires match request
             case UnlinkRequest(parent, _, _, done) => !done || parent !in fs.store.data
             case RenameRequest(oldDir, _, newDir, _, _, done) => !done || oldDir !in fs.store.data || newDir !in fs.store.data
             case MakeRequest(parent, _, _, done, _) => !done || parent !in fs.store.data
             case LinkRequest(inode, parent, _, _, done, _) => !done || inode !in fs.store.data || parent !in fs.store.data
             case CreateRequest(parent, _, done, _) => !done || parent !in fs.store.data
             case LookupRequest(parent, _, host) => parent !in fs.store.data || host.None?
             case _ => false
    ensures Next(fs, request) == fs
  {
  }

  /** A forget takes away names of inodes that are gone and no others. */
  lemma ForgetKeepsNames(fs: Fs, requests: Pending, key: Key)
    requires key in fs.forward
    ensures var fs' := ForgetListed(fs, requests);
            && (fs.forward[key] in fs'.store.data ==> key in fs'.forward)
            && (fs.forward[key] !in fs'.store.data && Lists(requests, fs.forward[key]) ==> key !in fs'.forward)
            && OthersStay(fs'.forward, fs.forward, fs.forward.Keys - fs'.forward.Keys)
  {
  }

  // ----- Which files are known ---------------------------------------------------------------

  function HostOf(request: Request): Option<HostFile> {
    if request.LookupRequest? || MakesName(request) then request.host else None
  }

  /** No ID triple is seen with and without an FD. */
  predicate Sorted(request: Request, withoutFd: InodeIds -> bool) {
    HostOf(request).Some? ==> Classified(Described(HostOf(request).value), withoutFd)
  }

  lemma AcquireKeepsFindable(fs: Fs, h: HostFile, withoutFd: InodeIds -> bool)
    requires Sound(fs) && Findable(fs.store, withoutFd) && Classified(Described(h), withoutFd)
    ensures Findable(Acquire(fs, h).1.store, withoutFd)
  {
    var found := Find(fs.store, h.handle, h.ids);
    if found.Some? {
      assert Acquire(fs, h).1.store == SetRefcount(fs.store, found.value, fs.store.data[found.value].refcount + 1);
    } else if h.storable {
      GetOrInsertKeepsFindable(fs.store, fs.next, Described(h), withoutFd);
    }
  }

  lemma LookUpKeepsFindable(fs: Fs, parent: Inode, name: Name, host: Option<HostFile>, withoutFd: InodeIds -> bool)
    requires Sound(fs) && Findable(fs.store, withoutFd) && (host.Some? ==> Classified(Described(host.value), withoutFd))
    ensures Findable(LookUp(fs, parent, name, host).1.store, withoutFd)
  {
    if parent in fs.store.data && host.Some? {
      AcquireKeepsFindable(fs, host.value, withoutFd);
      var (i, fs') := Acquire(fs, host.value);
      if i.Some? {
        DrainKeepsFindable(fs'.store, [(i.value, 1)], withoutFd);
      }
    }
  }

  lemma NextKeepsFindable(fs: Fs, request: Request, withoutFd: InodeIds -> bool)
    requires Sound(fs) && Findable(fs.store, withoutFd) && Sorted(request, withoutFd)
    ensures Findable(Next(fs, request).store, withoutFd)
  {
    match request {
      case ForgetRequest(inode, count) => DrainKeepsFindable(fs.store, [(inode, count)], withoutFd);
      case BatchForgetRequest(forgets) => DrainKeepsFindable(fs.store, forgets, withoutFd);
      case UnlinkRequest(_, _, _, _) =>
      case RenameRequest(_, _, _, _, _, _) =>
      case _ => LookUpKeepsFindable(fs, request.parent, request.name, request.host, withoutFd);
    }
  }

  // ----- Forgetting with migration tracking --------------------------------------------------

  /**
    In a store whose inodes may hold references to others, a forget leaves every child of the
    index live if and only if each child is listed, or is among inodes that other references keep.
   */
  lemma ForgetKeepsLiveIff(fs: Fs, requests: Pending, held: multiset<Inode>)
    requires ChildrenLive(fs) && Balanced(fs.store, held + Demand(requests))
    ensures ChildrenLive(ForgetListed(fs, requests)) <==>
            exists live ::
              && SelfSupporting(fs.store, held, live)
              && forall k | k in fs.forward :: fs.forward[k] in live || Lists(requests, fs.forward[k])
  {
    Survivors(fs.store, requests, held);
    var fs' := ForgetListed(fs, requests);
    if ChildrenLive(fs') {
      forall k | k in fs.forward ensures fs.forward[k] in fs'.store.data.Keys || Lists(requests, fs.forward[k]) {
        assert k in fs'.forward || (fs.forward[k] !in fs'.store.data && Lists(requests, fs.forward[k]));
      }
    }
  }

  /** The root has directory 2, which has file 3; the guest knows only the file, whose info refers to its parent. */
  function FileAndParent(dir: Name, file: Name): Fs {
    var root, two := InodeData(File, InodeIds(1, 0, 0), 2, []), InodeData(File, InodeIds(2, 0, 0), 1, []);
    var three := InodeData(File, InodeIds(3, 0, 0), 1, [2]);
    Fs(Store(map[ROOT_ID := root, 2 := two, 3 := three], map[root.ids := ROOT_ID, two.ids := 2, three.ids := 3], map[]),
       map[Key(ROOT_ID, dir) := 2, Key(2, file) := 3], 4)
  }

  /** When it forgets the file, the directory leaves as well, and its dentry stays behind. */
  lemma StaleAfterForget(dir: Name, file: Name)
    ensures var fs := FileAndParent(dir, file);
            var fs' := ForgetListed(fs, [(3, 1)]);
            && ChildrenLive(fs) && fs'.store.data.Keys == {ROOT_ID} && fs'.forward == map[Key(ROOT_ID, dir) := 2]
            && !ChildrenLive(fs')
  {
    var fs := FileAndParent(dir, file);
    var s, p: Pending := fs.store, [(3, 1)];
    var s1, s2 := Unlink(s, 3), Unlink(Unlink(s, 3), 2);
    assert Ones([2]) + p[1..] == [(2, 1)] && Ones([]) + [(2, 1)][1..] == [];
    assert DrainStep(s, p) == (s1, [(2, 1)]) && DrainStep(s1, [(2, 1)]) == (s2, []);
    assert Drain(s, p) == Drain(s1, [(2, 1)]) == Drain(s2, []) == s2;
    assert s2.data.Keys == {ROOT_ID};
    assert p[0].0 == 3 && !Lists(p, 2);
    assert Cleaned(fs.forward, p, s2.data.Keys) == map[Key(ROOT_ID, dir) := 2];
    assert Key(ROOT_ID, dir) in ForgetListed(fs, p).forward;
  }

  // ----- Whole runs --------------------------------------------------------------------------

  ghost predicate IsRun(root: HostFile, trace: seq<Fs>, requests: seq<Request>) {
    && |trace| == |requests| + 1
    && trace[0] == Mounted(root)
    && forall k | 0 <= k < |requests| :: trace[k + 1] == Next(trace[k], requests[k])
  }

  lemma {:induction false} RunsKeepSound(root: HostFile, trace: seq<Fs>, requests: seq<Request>, k: nat)
    requires IsRun(root, trace, requests) && k < |trace|
    ensures Sound(trace[k])
  {
    if k > 0 {
      RunsKeepSound(root, trace, requests, k - 1);
      NextKeepsSound(trace[k - 1], requests[k - 1]);
    }
  }

  ghost predicate AllSorted(root: HostFile, requests: seq<Request>, withoutFd: InodeIds -> bool) {
    && Classified(Described(root), withoutFd)
    && forall k | 0 <= k < |requests| :: Sorted(requests[k], withoutFd)
  }

  lemma {:induction false} RunsKeepFindable(root: HostFile, trace: seq<Fs>, requests: seq<Request>, k: nat, withoutFd: InodeIds -> bool)
    requires IsRun(root, trace, requests) && k < |trace| && AllSorted(root, requests, withoutFd)
    ensures Findable(trace[k].store, withoutFd)
  {
    if k > 0 {
      RunsKeepFindable(root, trace, requests, k - 1, withoutFd);
      RunsKeepSound(root, trace, requests, k - 1);
      NextKeepsFindable(trace[k - 1], requests[k - 1], withoutFd);
    }
  }

  /**
    In every run on a host that does not mix ID triples, a lookup finds the inode for the file if
    and only if there is one, and else a new one is entered.
   */
  lemma LookupsFindTheFile(root: HostFile, trace: seq<Fs>, requests: seq<Request>, k: nat, parent: Inode, name: Name,
                           h: HostFile, withoutFd: InodeIds -> bool)
    requires IsRun(root, trace, requests) && k < |trace| && AllSorted(root, requests, withoutFd)
    requires parent in trace[k].store.data && h.attrOk
    ensures var fs, i := trace[k], LookUp(trace[k], parent, name, Some(h)).0;
            && (forall j: Inode | j in fs.store.data :: i == Some(j) <==> IsTheOne(fs.store, h.handle, h.ids, j))
            && (i == Some(fs.next) <==> h.storable && forall j :: !IsFor(fs, j, h))
  {
    RunsKeepSound(root, trace, requests, k);
    RunsKeepFindable(root, trace, requests, k, withoutFd);
    AcquireFinds(trace[k], h, withoutFd);
  }

  /** At every point of every run, each prefix of a host path leads to the root or to a live inode. */
  lemma PathsStayLive(root: HostFile, trace: seq<Fs>, requests: seq<Request>, k: nat, segments: seq<Name>, j: nat)
    requires IsRun(root, trace, requests) && k < |trace| && j <= |segments|
    ensures Walk(trace[k].forward, ROOT_ID, segments[..j]).Some? ==>
              var inode := Walk(trace[k].forward, ROOT_ID, segments[..j]).value;
              inode == ROOT_ID || inode in trace[k].store.data
  {
    RunsKeepSound(root, trace, requests, k);
    if j > 0 && Walk(trace[k].forward, ROOT_ID, segments[..j]).Some? {
      WalkEndsAtChild(trace[k].forward, ROOT_ID, segments[..j]);
    }
  }

  lemma CleanedMore(f: map<Key, Inode>, requests: Pending, more: (Inode, nat), live: set<Inode>)
    ensures Cleaned(f, requests + [more], live) ==
            if more.0 in live then Cleaned(f, requests, live) else Forgotten(Cleaned(f, requests, live), more.0)
  {
    forall i ensures Lists(requests + [more], i) <==> Lists(requests, i) || i == more.0 {
      if Lists(requests, i) {
        var k :| 0 <= k < |requests| && requests[k].0 == i;
        assert (requests + [more])[k].0 == i;
      }
      assert (requests + [more])[|requests|] == more;
    }
  }

  // ----- The file system ---------------------------------------------------------------------

  /** The name leads to `i`, which is the file that the host found and has one more reference. */
  ghost predicate Named(i: Inode, fs: Fs, fs': Fs, parent: Inode, name: Name, host: Option<HostFile>) {
    && Walk(fs'.forward, parent, [name]) == Some(i) && OthersStay(fs.forward, fs'.forward, {Key(parent, name)})
    && host.Some? && IsFor(fs', i, host.value) && OneMore(fs.store.data, fs'.store.data, i)
  }

  class PassthroughFs {
    const inodes: InodeStore
    const index: DentryIndex
    var nextInode: Inode

    ghost function State(): Fs
      reads this, inodes, index
    {
      Fs(inodes.State(), index.forward, nextInode)
    }

    ghost predicate Valid()
      reads this, inodes, index
    {
      index.Valid() && Sound(State())
    }

    constructor (root: HostFile)
      ensures Valid() && fresh(inodes) && fresh(index)
      ensures State() == Mounted(root)
    {
      var inodes := new InodeStore();
      var index := new DentryIndex();
      var _ := inodes.NewInode(ROOT_ID, Described(root).(refcount := 2));
      this.inodes, this.index, nextInode := inodes, index, ROOT_ID + 1;
    }

    method AcquireInode(h: HostFile) returns (inode: Option<Inode>)
      requires Valid()
      modifies inodes, `nextInode
      ensures (inode, State()) == Acquire(old(State()), h)
    {
      inode := inodes.Claim(h.handle, h.ids);
      if inode.None? && h.storable {
        nextInode := nextInode + 1;
        inode := inodes.GetOrInsert(nextInode - 1, Described(h));
      }
    }

    method DoLookup(parent: Inode, name: Name, host: Option<HostFile>) returns (entry: Option<Inode>)
      requires Valid()
      modifies inodes, index, `nextInode
      ensures Valid() && (entry, State()) == LookUp(old(State()), parent, name, host)
      ensures entry.Some? ==> Named(entry.value, old(State()), State(), parent, name, host)
    {
      LookUpAddsOne(State(), parent, name, host);
      LookUpSetsName(State(), parent, name, host);
      entry := None;
      if parent in inodes.data && host.Some? {
        var inode := AcquireInode(host.value);
        if inode.Some? {
          if host.value.attrOk {
            index.Insert(parent, name, inode.value);
            entry := inode;
          } else {
            inodes.ForgetOne(inode.value, 1);
          }
        }
      }
    }

    /** Without migration tracking the dentries go of all inodes that leave the store, and of no others. */
    method Forget(inode: Inode, count: nat)
      requires index.Valid()
      modifies inodes, index
      ensures index.Valid() && State() == ForgetListed(old(State()), [(inode, count)])
      ensures old(Valid()) ==> Valid() && State() == ForgetAll(old(State()), [(inode, count)])
    {
      ghost var requests := [(inode, count)];
      if Sound(State()) {
        ForgetKeepsSound(State(), requests);
      }
      inodes.ForgetOne(inode, count);
      if inode !in inodes.data {
        index.ForgetInode(inode);
      }
      assert requests[0].0 == inode && forall i :: Lists(requests, i) ==> i == inode;
      assert index.forward == Cleaned(old(index.forward), requests, inodes.data.Keys);
    }

    method BatchForget(requests: Pending)
      requires index.Valid()
      modifies inodes, index
      ensures index.Valid() && State() == ForgetListed(old(State()), requests)
      ensures old(Valid()) ==> Valid() && State() == ForgetAll(old(State()), requests)
    {
      if Sound(State()) {
        ForgetKeepsSound(State(), requests);
      }
      inodes.ForgetMany(requests);
      ForgetGone(requests);
    }

    /** Take out the dentries of those listed inodes that are no longer in the store. */
    method ForgetGone(requests: Pending)
      requires index.Valid()
      modifies index
      ensures index.Valid() && index.forward == Cleaned(old(index.forward), requests, inodes.data.Keys)
    {
      for k := 0 to |requests|
        invariant index.Valid()
        invariant index.forward == Cleaned(old(index.forward), requests[..k], inodes.data.Keys)
      {
        CleanedMore(old(index.forward), requests[..k], requests[k], inodes.data.Keys);
        assert requests[..k] + [requests[k]] == requests[..k + 1];
        if requests[k].0 !in inodes.data {
          index.ForgetInode(requests[k].0);
        }
      }
      assert requests[..|requests|] == requests;
    }

    /** A reference to what is about to be replaced is held for the time of the system call. */
    method HoldAndDrop(replaced: Option<HostFile>)
      requires Valid()
      modifies inodes
      ensures State() == old(State())
    {
      if replaced.Some? {
        ghost var s := inodes.State();
        var held := inodes.Claim(replaced.value.handle, replaced.value.ids);
        if held.Some? {
          DropUndoes(s, inodes.State(), held.value);
          inodes.ForgetOne(held.value, 1);
        }
      }
    }

    method DoUnlink(parent: Inode, name: Name, replaced: Option<HostFile>, done: bool) returns (ok: bool)
      requires Valid()
      modifies inodes, index
      ensures Valid() && State() == Next(old(State()), UnlinkRequest(parent, name, replaced, done))
      ensures ok == (parent in inodes.data && done)
      ensures ok ==> Walk(index.forward, parent, [name]).None? && OthersStay(old(index.forward), index.forward, {Key(parent, name)})
    {
      if parent in inodes.data {
        UnlinkForgetsName(State(), parent, name, replaced);
      }
      ok := false;
      if parent in inodes.data {
        HoldAndDrop(replaced);
        if done {
          index.Remove(parent, name);
          ok := true;
        }
      }
    }

    method Rename(oldDir: Inode, oldName: Name, newDir: Inode, newName: Name, replaced: Option<HostFile>, done: bool)
      returns (ok: bool)
      requires Valid()
      modifies inodes, index
      ensures Valid() && State() == Next(old(State()), RenameRequest(oldDir, oldName, newDir, newName, replaced, done))
      ensures ok == (oldDir in inodes.data && newDir in inodes.data && done)
      ensures ok ==>
                && Walk(index.forward, oldDir, [oldName]).None?
                && (Key(oldDir, oldName) != Key(newDir, newName) ==>
                      Walk(index.forward, newDir, [newName]) == Walk(old(index.forward), oldDir, [oldName]))
                && OthersStay(old(index.forward), index.forward, {Key(oldDir, oldName), Key(newDir, newName)})
    {
      if oldDir in inodes.data && newDir in inodes.data {
        RenameMovesName(State(), oldDir, oldName, newDir, newName, replaced);
      }
      ok := false;
      if oldDir in inodes.data && newDir in inodes.data {
        HoldAndDrop(replaced);
        if done {
          index.Rename(oldDir, oldName, newDir, newName);
          ok := true;
        }
      }
    }

    /** `mkdir`, `mknod` and `symlink`. */
    method Make(parent: Inode, name: Name, replaced: Option<HostFile>, done: bool, host: Option<HostFile>)
      returns (entry: Option<Inode>)
      requires Valid()
      modifies inodes, index, `nextInode
      ensures Valid() && State() == Next(old(State()), MakeRequest(parent, name, replaced, done, host))
      ensures entry == if done then LookUp(old(State()), parent, name, host).0 else None
      ensures entry.Some? ==> Named(entry.value, old(State()), State(), parent, name, host)
    {
      entry := None;
      if parent in inodes.data {
        HoldAndDrop(replaced);
        if done {
          entry := DoLookup(parent, name, host);
        }
      }
    }

    method Link(inode: Inode, parent: Inode, name: Name, replaced: Option<HostFile>, done: bool, host: Option<HostFile>)
      returns (entry: Option<Inode>)
      requires Valid()
      modifies inodes, index, `nextInode
      ensures Valid() && State() == Next(old(State()), LinkRequest(inode, parent, name, replaced, done, host))
      ensures entry == if done && inode in old(inodes.data) then LookUp(old(State()), parent, name, host).0 else None
      ensures entry.Some? ==> Named(entry.value, old(State()), State(), parent, name, host)
    {
      entry := None;
      if inode in inodes.data && parent in inodes.data {
        HoldAndDrop(replaced);
        if done {
          entry := DoLookup(parent, name, host);
        }
      }
    }

    /** `done`: the file was made, or is there and need not be new.  Opening it may fail after the lookup. */
    method Create(parent: Inode, name: Name, done: bool, host: Option<HostFile>, opens: bool)
      returns (entry: Option<Inode>)
      requires Valid()
      modifies inodes, index, `nextInode
      ensures Valid() && State() == Next(old(State()), CreateRequest(parent, name, done, host))
      ensures entry == if done && opens then LookUp(old(State()), parent, name, host).0 else None
      ensures entry.Some? ==> Named(entry.value, old(State()), State(), parent, name, host)
    {
      entry := None;
      if parent in inodes.data && done {
        entry := DoLookup(parent, name, host);
        if !opens {
          entry := None;
        }
      }
    }

    method Serve(request: Request)
      requires Valid()
      modifies this, inodes, index
      ensures Valid() && State() == Next(old(State()), request)
    {
      match request {
        case LookupRequest(parent, name, host) => var _ := DoLookup(parent, name, host);
        case ForgetRequest(inode, count) => Forget(inode, count);
        case BatchForgetRequest(forgets) => BatchForget(forgets);
        case UnlinkRequest(parent, name, replaced, done) => var _ := DoUnlink(parent, name, replaced, done);
        case RenameRequest(oldDir, oldName, newDir, newName, replaced, done) =>
          var _ := Rename(oldDir, oldName, newDir, newName, replaced, done);
        case MakeRequest(parent, name, replaced, done, host) => var _ := Make(parent, name, replaced, done, host);
        case LinkRequest(inode, parent, name, replaced, done, host) =>
          var _ := Link(inode, parent, name, replaced, done, host);
        case CreateRequest(parent, name, done, host) =>
          var opens: bool := *;
          var _ := Create(parent, name, done, host, opens);
      }
    }
  }

  /** Serving any requests is a run, at whose end a host path resolves to the root or a live inode. */
  method ServeAndResolve(root: HostFile, requests: seq<Request>, segments: seq<Name>)
    returns (fs: PassthroughFs, inode: Inode, remaining: seq<Name>, ghost trace: seq<Fs>)
    ensures IsRun(root, trace, requests) && fs.State() == trace[|requests|]
    ensures Resolves(fs.index.forward, ROOT_ID, segments, inode, remaining)
    ensures inode == ROOT_ID || inode in fs.inodes.data
  {
    fs := new PassthroughFs(root);
    trace := [fs.State()];
    for k := 0 to |requests|
      invariant fs.Valid() && fresh(fs) && fresh(fs.inodes) && fresh(fs.index)
      invariant IsRun(root, trace, requests[..k]) && fs.State() == trace[k]
    {
      fs.Serve(requests[k]);
      trace := trace + [fs.State()];
    }
    assert requests[..|requests|] == requests;
    inode, remaining := fs.index.ResolvePath(ROOT_ID, segments);
    PathsStayLive(root, trace, requests, |requests|, segments, |segments| - |remaining|);
  }
}
