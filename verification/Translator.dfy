/**
  Translating host file system events into FUSE invalidations through the dentry index.  Each
  event has a list of notifications, sent in order until the notifier refuses one.
 */
module Translators {
  import opened Bytes
  import opened InodeStores
  import opened DentryIndexes
  import opened Wrappers

  datatype Component = Normal(name: Name) | ParentDir | CurDir | RootDir

  type Path = seq<Component>

  datatype Notification = InvalInode(inode: Inode) | InvalEntry(parent: Inode, name: Name)

  // ----- What an event calls for -------------------------------------------------------------

  function Plain(c: Component): seq<Name> {
    if c.Normal? then [c.name] else []
  }

  /** Only the plain components of a path take part in its resolution. */
  function Segments(path: Path): seq<Name> {
    if path == [] then [] else Plain(path[0]) + Segments(path[1..])
  }

  /** The path below the shared directory, if it is below. */
  function Relativize(sharedDir: Path, hostPath: Path): Option<Path> {
    if sharedDir <= hostPath then Some(hostPath[|sharedDir|..]) else None
  }

  /** The dentry that a path names, if its parent is known: parent inode and last component. */
  function EntryOf(f: map<Key, Inode>, root: Inode, rel: Path): Option<Key> {
    if rel == [] || !rel[|rel| - 1].Normal? then None
    else
      match Walk(f, root, Segments(rel[..|rel| - 1]))
      case None => None
      case Some(parent) => Some(Key(parent, rel[|rel| - 1].name))
  }

  /** The inode, other than the root, that a path leads to. */
  function LeafOf(f: map<Key, Inode>, root: Inode, rel: Path): Option<Inode> {
    var leaf := Walk(f, root, Segments(rel));
    if leaf.Some? && leaf.value != root then leaf else None
  }

  function EntryNotes(f: map<Key, Inode>, root: Inode, rel: Option<Path>): seq<Notification> {
    if rel.None? then [] else DentryNotes(EntryOf(f, root, rel.value))
  }

  function DentryNotes(key: Option<Key>): seq<Notification> {
    if key.None? then [] else [InvalEntry(key.value.parent, key.value.name)]
  }

  function InodeNotes(inode: Option<Inode>): seq<Notification> {
    if inode.None? then [] else [InvalInode(inode.value)]
  }

  function LeafNotes(f: map<Key, Inode>, root: Inode, rel: Option<Path>): seq<Notification> {
    if rel.None? then [] else InodeNotes(LeafOf(f, root, rel.value))
  }

  function ModifyNotes(f: map<Key, Inode>, root: Inode, rel: Option<Path>): seq<Notification> {
    if rel.None? then [] else InodeNotes(Walk(f, root, Segments(rel.value)))
  }

  function RemoveNotes(f: map<Key, Inode>, root: Inode, rel: Option<Path>): seq<Notification> {
    EntryNotes(f, root, rel) + LeafNotes(f, root, rel)
  }

  function RenameNotes(f: map<Key, Inode>, root: Inode, from: Option<Path>, to: Option<Path>): seq<Notification> {
    EntryNotes(f, root, from) + EntryNotes(f, root, to) + LeafNotes(f, root, from)
  }

  // ----- Sending notifications ---------------------------------------------------------------

  /** Keeps what it was given; `accepts(n)` tells whether the attempt after `n` others gets through. */
  class Notifier {
    const accepts: nat -> bool
    var tried: seq<Notification>

    method Send(n: Notification) returns (ok: bool)
      modifies this
      ensures ok == accepts(|old(tried)|) && tried == old(tried) + [n]
    {
      ok := accepts(|tried|);
      tried := tried + [n];
    }
  }

  /** The notifications that got through. */
  function Sent(accepts: nat -> bool, tried: seq<Notification>): seq<Notification> {
    if tried == [] then []
    else
      var n := |tried| - 1;
      Sent(accepts, tried[..n]) + if accepts(n) then [tried[n]] else []
  }

  /** `notes` are tried in order, up to the first refusal, which is reported. */
  ghost predicate Delivers(accepts: nat -> bool, before: seq<Notification>, notes: seq<Notification>,
                           after: seq<Notification>, ok: bool) {
    if ok then after == before + notes && forall j | |before| <= j < |after| :: accepts(j)
    else
      && |before| < |after| <= |before| + |notes| && after == before + notes[..|after| - |before|]
      && !accepts(|after| - 1) && forall j | |before| <= j < |after| - 1 :: accepts(j)
  }

  lemma DeliversInTurn(accepts: nat -> bool, before: seq<Notification>, a: seq<Notification>,
                       mid: seq<Notification>, b: seq<Notification>, after: seq<Notification>, ok: bool)
    requires Delivers(accepts, before, a, mid, true) && Delivers(accepts, mid, b, after, ok)
    ensures Delivers(accepts, before, a + b, after, ok)
  {
    if !ok {
      assert (a + b)[..|after| - |before|] == a + b[..|after| - |mid|];
    }
  }

  lemma DeliversNoMore(accepts: nat -> bool, before: seq<Notification>, a: seq<Notification>,
                       after: seq<Notification>, b: seq<Notification>)
    requires Delivers(accepts, before, a, after, false)
    ensures Delivers(accepts, before, a + b, after, false)
  {
    assert (a + b)[..|after| - |before|] == a[..|after| - |before|];
  }

  // ----- The translator ----------------------------------------------------------------------

  class Translator {
    const rootInode: Inode
    const sharedDir: Path
    const index: DentryIndex
    const notifier: Notifier

    constructor (rootInode: Inode, sharedDir: Path, index: DentryIndex, notifier: Notifier)
      ensures this.rootInode == rootInode && this.sharedDir == sharedDir
      ensures this.index == index && this.notifier == notifier
    {
      this.rootInode, this.sharedDir, this.index, this.notifier := rootInode, sharedDir, index, notifier;
    }

    /** The event's notifications, each if it is called for, in order and up to the first refusal. */
    twostate predicate Delivered(notes: seq<Notification>, ok: bool)
      reads notifier
    {
      Delivers(notifier.accepts, old(notifier.tried), notes, notifier.tried, ok)
    }

    /** Try `notes`, of which there is at most one. */
    method SendIfAny(notes: seq<Notification>) returns (ok: bool)
      requires |notes| <= 1
      modifies notifier
      ensures Delivered(notes, ok)
    {
      ok := true;
      if notes != [] {
        ok := notifier.Send(notes[0]);
        assert notes == [notes[0]] && notes[..1] == notes;
      }
    }

    /** The inode that a whole path leads to, if known. */
    method KnownInode(rel: Option<Path>) returns (inode: Option<Inode>)
      ensures inode == if rel.None? then None else Walk(index.forward, rootInode, Segments(rel.value))
    {
      inode := None;
      if rel.Some? {
        var i, remaining := index.ResolvePath(rootInode, Segments(rel.value));
        ResolvedFully(index.forward, rootInode, Segments(rel.value), i, remaining);
        if remaining == [] {
          inode := Some(i);
        }
      }
    }

    /** The dentry that a path names, if its parent is known. */
    method KnownEntry(rel: Option<Path>) returns (key: Option<Key>)
      ensures key == if rel.None? then None else EntryOf(index.forward, rootInode, rel.value)
    {
      key := None;
      if rel.Some? && rel.value != [] && rel.value[|rel.value| - 1].Normal? {
        var parent := KnownInode(Some(rel.value[..|rel.value| - 1]));
        if parent.Some? {
          key := Some(Key(parent.value, rel.value[|rel.value| - 1].name));
        }
      }
    }

    method HandleModify(hostPath: Path) returns (ok: bool)
      modifies notifier
      ensures Delivered(ModifyNotes(index.forward, rootInode, Relativize(sharedDir, hostPath)), ok)
    {
      var inode := KnownInode(Relativize(sharedDir, hostPath));
      ok := SendIfAny(InodeNotes(inode));
    }

    method HandleParentChange(hostPath: Path) returns (ok: bool)
      modifies notifier
      ensures Delivered(EntryNotes(index.forward, rootInode, Relativize(sharedDir, hostPath)), ok)
    {
      var key := KnownEntry(Relativize(sharedDir, hostPath));
      ok := SendIfAny(DentryNotes(key));
    }

    /** The inode at the end of a path, if known and not the root. */
    method CachedLeaf(rel: Option<Path>) returns (leaf: Option<Inode>)
      ensures leaf == if rel.None? then None else LeafOf(index.forward, rootInode, rel.value)
    {
      leaf := KnownInode(rel);
      if leaf == Some(rootInode) {
        leaf := None;
      }
    }

    method HandleRemove(hostPath: Path) returns (ok: bool)
      modifies notifier
      ensures Delivered(RemoveNotes(index.forward, rootInode, Relativize(sharedDir, hostPath)), ok)
    {
      var rel := Relativize(sharedDir, hostPath);
      ghost var entries, leaves := EntryNotes(index.forward, rootInode, rel), LeafNotes(index.forward, rootInode, rel);
      ok := HandleParentChange(hostPath);
      if !ok {
        DeliversNoMore(notifier.accepts, old(notifier.tried), entries, notifier.tried, leaves);
        return;
      }
      ghost var mid := notifier.tried;
      var leaf := CachedLeaf(rel);
      ok := SendIfAny(InodeNotes(leaf));
      DeliversInTurn(notifier.accepts, old(notifier.tried), entries, mid, leaves, notifier.tried, ok);
    }

    /** The path below the shared directory of an event that may lack one. */
    function Below(hostPath: Option<Path>): Option<Path> {
      if hostPath.Some? then Relativize(sharedDir, hostPath.value) else None
    }

    method HandleParentChangeIfAny(hostPath: Option<Path>) returns (ok: bool)
      modifies notifier
      ensures Delivered(EntryNotes(index.forward, rootInode, Below(hostPath)), ok)
    {
      ok := true;
      if hostPath.Some? {
        ok := HandleParentChange(hostPath.value);
      }
    }

    method HandleBothParents(from: Option<Path>, to: Option<Path>) returns (ok: bool)
      modifies notifier
      ensures Delivered(EntryNotes(index.forward, rootInode, Below(from)) + EntryNotes(index.forward, rootInode, Below(to)), ok)
    {
      ghost var a, b := EntryNotes(index.forward, rootInode, Below(from)), EntryNotes(index.forward, rootInode, Below(to));
      ok := HandleParentChangeIfAny(from);
      if !ok {
        DeliversNoMore(notifier.accepts, old(notifier.tried), a, notifier.tried, b);
        return;
      }
      ghost var mid := notifier.tried;
      ok := HandleParentChangeIfAny(to);
      DeliversInTurn(notifier.accepts, old(notifier.tried), a, mid, b, notifier.tried, ok);
    }

    method HandleRename(from: Option<Path>, to: Option<Path>) returns (ok: bool)
      modifies notifier
      ensures Delivered(RenameNotes(index.forward, rootInode, Below(from), Below(to)), ok)
    {
      ghost var entries := EntryNotes(index.forward, rootInode, Below(from)) + EntryNotes(index.forward, rootInode, Below(to));
      ghost var leaves := LeafNotes(index.forward, rootInode, Below(from));
      var renamed := CachedLeaf(Below(from));
      ok := HandleBothParents(from, to);
      if !ok {
        DeliversNoMore(notifier.accepts, old(notifier.tried), entries, notifier.tried, leaves);
        return;
      }
      ghost var mid := notifier.tried;
      ok := SendIfAny(InodeNotes(renamed));
      DeliversInTurn(notifier.accepts, old(notifier.tried), entries, mid, leaves, notifier.tried, ok);
    }

    /**
      Every inode that some entry has as its child, other than the root, is tried exactly once, and
      nothing else is; refusals are ignored.
     */
    method BulkInvalidate()
      requires index.Valid()
      modifies notifier
      ensures old(notifier.tried) <= notifier.tried
      ensures IsBulk(index.forward, rootInode, notifier.tried[|old(notifier.tried)|..])
    {
      var inodes := index.AllInodes();
      ghost var added := [];
      for k := 0 to |inodes|
        invariant notifier.tried == old(notifier.tried) + added
        invariant forall i :: InvalInode(i) in added <==> i != rootInode && i in inodes[..k]
        invariant (forall n | n in added :: n.InvalInode?) && NoRepeats(added)
      {
        if inodes[k] == rootInode {
          continue;
        }
        assert inodes[k] !in inodes[..k];
        var ok := notifier.Send(InvalInode(inodes[k]));
        added := added + [InvalInode(inodes[k])];
      }
      assert inodes[..|inodes|] == inodes;
      assert notifier.tried[|old(notifier.tried)|..] == added;
    }
  }

  // ----- Which notifications come together ---------------------------------------------------

  lemma {:induction false} SegmentsAppend(path: Path, c: Component)
    ensures Segments(path + [c]) == Segments(path) + Plain(c)
  {
    if path == [] {
      assert path + [c] == [c] && Segments([c][1..]) == [];
    } else {
      SegmentsAppend(path[1..], c);
      assert (path + [c])[1..] == path[1..] + [c];
      assert Plain(path[0]) + (Segments(path[1..]) + Plain(c)) == Plain(path[0]) + Segments(path[1..]) + Plain(c);
    }
  }

  /** The leaf's own dentry, that is, one whose child is the leaf, is the one that the path names. */
  predicate LeafHasItsEntry(f: map<Key, Inode>, root: Inode, rel: Path) {
    LeafOf(f, root, rel).Some? ==>
      var key := EntryOf(f, root, rel);
      key.Some? && key.value in f && f[key.value] == LeafOf(f, root, rel).value
  }

  /** A relative path that does not end in a component like `..`, or has no plain component at all. */
  predicate EndsPlainly(rel: Path) {
    rel == [] || rel[|rel| - 1].Normal? || Segments(rel) == []
  }

  lemma PlainEndHasEntry(f: map<Key, Inode>, root: Inode, rel: Path)
    requires EndsPlainly(rel)
    ensures LeafHasItsEntry(f, root, rel)
  {
    if rel != [] && rel[|rel| - 1].Normal? {
      var front, last := rel[..|rel| - 1], rel[|rel| - 1];
      SegmentsAppend(front, last);
      assert front + [last] == rel;
      WalkLast(f, root, Segments(front), last.name);
    }
  }

  /** An index that knows one path: from inode 1 its segments lead to inodes 2, 3 and so on. */
  function Chain(segments: seq<Name>): map<Key, Inode> {
    map k: nat | k < |segments| :: Key(k + 1, segments[k]) := k + 2
  }

  lemma {:induction false} WalkChain(segments: seq<Name>, k: nat)
    requires k <= |segments|
    ensures Walk(Chain(segments), k + 1, segments[k..]) == Some(|segments| + 1)
    decreases |segments| - k
  {
    if k < |segments| {
      assert Key(k + 1, segments[k]) in Chain(segments);
      assert segments[k..][1..] == segments[k + 1..];
      WalkChain(segments, k + 1);
    }
  }

  /**
    Whether a leaf is only ever invalidated together with its own dentry depends on the path
    alone: it is so for every index if and only if the path ends plainly.  (A trailing `..` is
    skipped when resolving the leaf, but leaves no dentry to invalidate.)
   */
  lemma LeafHasItsEntryIff(rel: Path)
    ensures EndsPlainly(rel) <==> forall f, root :: LeafHasItsEntry(f, root, rel)
  {
    if EndsPlainly(rel) {
      forall f, root ensures LeafHasItsEntry(f, root, rel) {
        PlainEndHasEntry(f, root, rel);
      }
    } else {
      var segments := Segments(rel);
      WalkChain(segments, 0);
      assert segments[0..] == segments;
      assert !LeafHasItsEntry(Chain(segments), 1, rel);
    }
  }

  /** For `a/..` below a root that has `a`, the inode of `a` is the leaf, and no dentry goes with it. */
  lemma ParentOfLeafHasNoEntry(a: Name)
    ensures var f: map<Key, Inode>, rel := map[Key(1, a) := 2], [Normal(a), ParentDir];
            RemoveNotes(f, 1, Some(rel)) == [InvalInode(2)] && !LeafHasItsEntry(f, 1, rel)
  {
    var f: map<Key, Inode>, rel := map[Key(1, a) := 2], [Normal(a), ParentDir];
    assert rel[1..] == [ParentDir] && rel[1..][1..] == [] && Segments([ParentDir]) == [];
    assert Segments(rel) == [a] && [a][1..] == [];
    assert Walk(f, 1, [a]) == Walk(f, 2, []) == Some(2);
  }

  /** So a remove or rename whose path ends plainly tries a leaf only after that leaf's dentry got through. */
  lemma LeafOnlyAfterItsEntry(accepts: nat -> bool, f: map<Key, Inode>, root: Inode, rel: Path, to: Option<Path>,
                              notes: seq<Notification>, before: seq<Notification>, after: seq<Notification>, ok: bool, leaf: Inode)
    requires EndsPlainly(rel)
    requires notes == RemoveNotes(f, root, Some(rel)) || notes == RenameNotes(f, root, Some(rel), to)
    requires Delivers(accepts, before, notes, after, ok)
    requires InvalInode(leaf) in after[|before|..]
    ensures exists key :: key in f && f[key] == leaf && after[|before|] == InvalEntry(key.parent, key.name)
    ensures accepts(|before|)
  {
    var a, b, c := EntryNotes(f, root, Some(rel)), EntryNotes(f, root, to), LeafNotes(f, root, Some(rel));
    PlainEndHasEntry(f, root, rel);
    assert InvalInode(leaf) in notes;
    assert InvalInode(leaf) in c by {
      assert InvalInode(leaf) !in a && InvalInode(leaf) !in b;
    }
    var key := EntryOf(f, root, rel).value;
    assert key in f && f[key] == leaf && a == [InvalEntry(key.parent, key.name)];
    assert a <= notes && after[|before|] == notes[0];
    var j :| |before| <= j < |after| && after[j] == InvalInode(leaf);
    assert j > |before|;
  }

  // ----- What must be sent -------------------------------------------------------------------

  /** Paths below the shared directory are taken relative to it, and others are none of our business. */
  lemma RelativizeIff(sharedDir: Path, hostPath: Path, rel: Path)
    ensures Relativize(sharedDir, hostPath) == Some(rel) <==> hostPath == sharedDir + rel
  {
  }

  lemma OutsideSendsNothing(f: map<Key, Inode>, root: Inode, sharedDir: Path, hostPath: Path)
    requires !(sharedDir <= hostPath)
    ensures var rel := Relativize(sharedDir, hostPath);
            ModifyNotes(f, root, rel) == EntryNotes(f, root, rel) == RemoveNotes(f, root, rel) == []
  {
  }

  lemma Below(sharedDir: Path, rel: Path)
    ensures Relativize(sharedDir, sharedDir + rel) == Some(rel)
  {
    RelativizeIff(sharedDir, sharedDir + rel, rel);
  }

  /** A change of contents is reported for the inode of the whole path, if that is known. */
  lemma ModifyReaches(f: map<Key, Inode>, root: Inode, sharedDir: Path, rel: Path)
    ensures ModifyNotes(f, root, Relativize(sharedDir, sharedDir + rel)) ==
            match Walk(f, root, Segments(rel)) case Some(i) => [InvalInode(i)] case None => []
  {
    Below(sharedDir, rel);
  }

  /** The child, other than the root, that a directory is known to have under a name. */
  function KnownChild(f: map<Key, Inode>, root: Inode, dir: Inode, name: Name): seq<Notification> {
    if Key(dir, name) in f && f[Key(dir, name)] != root then [InvalInode(f[Key(dir, name)])] else []
  }

  lemma PlainPath(f: map<Key, Inode>, root: Inode, dir: Path, name: Name)
    ensures var rel, parent := dir + [Normal(name)], Walk(f, root, Segments(dir));
            && EntryNotes(f, root, Some(rel)) == (match parent case Some(p) => [InvalEntry(p, name)] case None => [])
            && LeafNotes(f, root, Some(rel)) == (match parent case Some(p) => KnownChild(f, root, p, name) case None => [])
  {
    SegmentsAppend(dir, Normal(name));
    WalkLast(f, root, Segments(dir), name);
    assert (dir + [Normal(name)])[..|dir|] == dir;
  }

  /** A new name is reported as an entry of its directory, if that is known. */
  lemma EntryReaches(f: map<Key, Inode>, root: Inode, sharedDir: Path, dir: Path, name: Name)
    ensures EntryNotes(f, root, Relativize(sharedDir, sharedDir + (dir + [Normal(name)]))) ==
            match Walk(f, root, Segments(dir)) case Some(p) => [InvalEntry(p, name)] case None => []
  {
    Below(sharedDir, dir + [Normal(name)]);
    PlainPath(f, root, dir, name);
  }

  /** A removal as an entry of its directory, if that is known, and then as the inode, if that is known. */
  lemma RemoveReaches(f: map<Key, Inode>, root: Inode, sharedDir: Path, dir: Path, name: Name)
    ensures RemoveNotes(f, root, Relativize(sharedDir, sharedDir + (dir + [Normal(name)]))) ==
            match Walk(f, root, Segments(dir))
            case Some(p) => [InvalEntry(p, name)] + KnownChild(f, root, p, name)
            case None => []
  {
    Below(sharedDir, dir + [Normal(name)]);
    PlainPath(f, root, dir, name);
  }

  /** A rename as both entries, and then as the inode that had the old name. */
  lemma RenameReaches(f: map<Key, Inode>, root: Inode, sharedDir: Path, fromDir: Path, from: Name, toDir: Path, to: Name,
                      p: Inode, q: Inode)
    requires Walk(f, root, Segments(fromDir)) == Some(p) && Walk(f, root, Segments(toDir)) == Some(q)
    ensures RenameNotes(f, root, Relativize(sharedDir, sharedDir + (fromDir + [Normal(from)])),
                        Relativize(sharedDir, sharedDir + (toDir + [Normal(to)]))) ==
            [InvalEntry(p, from), InvalEntry(q, to)] + KnownChild(f, root, p, from)
  {
    Below(sharedDir, fromDir + [Normal(from)]);
    Below(sharedDir, toDir + [Normal(to)]);
    PlainPath(f, root, fromDir, from);
    PlainPath(f, root, toDir, to);
  }

  // ----- Bulk invalidation -------------------------------------------------------------------

  ghost predicate NoRepeats(notes: seq<Notification>) {
    forall j, k | 0 <= j < k < |notes| :: notes[j] != notes[k]
  }

  /** The children of the index other than the root, each once. */
  ghost predicate IsBulk(f: map<Key, Inode>, root: Inode, notes: seq<Notification>) {
    && NoRepeats(notes) && (forall n | n in notes :: n.InvalInode?)
    && (forall i :: InvalInode(i) in notes <==> i != root && exists k :: k in f && f[k] == i)
  }

  /** If all are accepted, every inode but the root that any path leads to has been sent an invalidation. */
  lemma BulkReachesEveryPath(accepts: nat -> bool, f: map<Key, Inode>, root: Inode, before: seq<Notification>,
                             notes: seq<Notification>, segments: seq<Name>)
    requires IsBulk(f, root, notes) && forall j | |before| <= j < |before| + |notes| :: accepts(j)
    requires Walk(f, root, segments).Some? && Walk(f, root, segments).value != root
    ensures InvalInode(Walk(f, root, segments).value) in Sent(accepts, before + notes)
  {
    WalkEndsAtChild(f, root, segments);
    AcceptedIsSent(accepts, before, notes, InvalInode(Walk(f, root, segments).value));
  }

  lemma AcceptedIsSent(accepts: nat -> bool, before: seq<Notification>, notes: seq<Notification>, n: Notification)
    requires n in notes && forall j | |before| <= j < |before| + |notes| :: accepts(j)
    ensures n in Sent(accepts, before + notes)
  {
    var k :| 0 <= k < |notes| && notes[k] == n;
    var tried := before + notes;
    assert tried[|before| + k] == n;
    SentHas(accepts, tried, |before| + k);
  }

  lemma {:induction false} SentHas(accepts: nat -> bool, tried: seq<Notification>, k: nat)
    requires k < |tried| && accepts(k)
    ensures tried[k] in Sent(accepts, tried)
  {
    var n := |tried| - 1;
    if k < n {
      SentHas(accepts, tried[..n], k);
    } else {
      assert Sent(accepts, tried)[|Sent(accepts, tried)| - 1] == tried[n];
    }
  }
}
