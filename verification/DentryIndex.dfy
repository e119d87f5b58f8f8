/**
  The dentry index: a map from (parent, name) to the child inode and its reverse, kept in step.
  Host event paths are resolved through it, segment by segment.
 */
module DentryIndexes {
  import opened Bytes
  import opened InodeStores
  import opened Wrappers

  datatype Key = Key(parent: Inode, name: Name)

  // ----- The plain map that the index stands for ---------------------------------------------

  /** The destination is dropped first, so renaming an entry onto itself removes it. */
  function Renamed(f: map<Key, Inode>, from: Key, to: Key): map<Key, Inode> {
    var g := f - {to};
    if from in g then (g - {from})[to := g[from]] else g
  }

  /** A rename keeps the entry, under its new name, if and only if that is not its old one. */
  lemma RenameKeepsEntryIff(f: map<Key, Inode>, from: Key, to: Key)
    requires from in f
    ensures to in Renamed(f, from, to) && Renamed(f, from, to)[to] == f[from] <==> from != to
    ensures from !in Renamed(f, from, to)
    ensures forall k | k != from && k != to :: k in Renamed(f, from, to) <==> k in f
  {
    assert from != to ==> from in f - {to};
  }

  /** So a rename of `a` to `a`, which the host accepts and ignores, makes the path unknown. */
  lemma RenameOntoItselfForgets(f: map<Key, Inode>, parent: Inode, name: Name)
    requires Key(parent, name) in f
    ensures Walk(f, parent, [name]).Some?
    ensures Walk(Renamed(f, Key(parent, name), Key(parent, name)), parent, [name]).None?
  {
    RenameKeepsEntryIff(f, Key(parent, name), Key(parent, name));
    assert [name][1..] == [];
  }

  function Forgotten(f: map<Key, Inode>, inode: Inode): map<Key, Inode> {
    map k | k in f && f[k] != inode :: f[k]
  }

  function NamesOf(f: map<Key, Inode>, inode: Inode): set<Key> {
    set k | k in f && f[k] == inode
  }

  /** Where a path leads from `at`, if every segment of it is known. */
  function Walk(f: map<Key, Inode>, at: Inode, segments: seq<Name>): Option<Inode>
    decreases |segments|
  {
    if segments == [] then Some(at)
    else if Key(at, segments[0]) in f then Walk(f, f[Key(at, segments[0])], segments[1..])
    else None
  }

  lemma {:induction false} WalkLast(f: map<Key, Inode>, at: Inode, segments: seq<Name>, last: Name)
    ensures var front := Walk(f, at, segments);
            Walk(f, at, segments + [last]) ==
            if front.Some? && Key(front.value, last) in f then Some(f[Key(front.value, last)]) else None
    decreases |segments|
  {
    if segments == [] {
      assert segments + [last] == [last] && [last][1..] == [];
    } else {
      assert (segments + [last])[1..] == segments[1..] + [last];
      if Key(at, segments[0]) in f {
        WalkLast(f, f[Key(at, segments[0])], segments[1..], last);
      }
    }
  }

  /** A path cannot be known beyond a segment that is not. */
  lemma {:induction false} WalkStuck(f: map<Key, Inode>, at: Inode, segments: seq<Name>, j: nat, k: nat)
    requires j <= k <= |segments| && Walk(f, at, segments[..j]).None?
    ensures Walk(f, at, segments[..k]).None?
    decreases k
  {
    if j < k {
      WalkStuck(f, at, segments, j, k - 1);
      WalkLast(f, at, segments[..k - 1], segments[k - 1]);
      assert segments[..k - 1] + [segments[k - 1]] == segments[..k];
    }
  }

  /** Whatever a path leads to, other than where it starts, is the child of some entry. */
  lemma {:induction false} WalkEndsAtChild(f: map<Key, Inode>, at: Inode, segments: seq<Name>)
    requires segments != [] && Walk(f, at, segments).Some?
    ensures exists k :: k in f && f[k] == Walk(f, at, segments).value
    decreases |segments|
  {
    var k := Key(at, segments[0]);
    if |segments| == 1 {
      assert k in f && f[k] == Walk(f, at, segments).value;
    } else {
      WalkEndsAtChild(f, f[k], segments[1..]);
    }
  }

  // ----- The index ---------------------------------------------------------------------------

  class DentryIndex {
    var forward: map<Key, Inode>
    var reverse: map<Inode, set<Key>>

    /** The two maps are inverse to each other, and no empty set is kept. */
    ghost predicate Valid()
      reads this
    {
      && (forall k | k in forward :: forward[k] in reverse && k in reverse[forward[k]])
      && (forall c | c in reverse :: reverse[c] != {})
      && (forall c, k | c in reverse && k in reverse[c] :: k in forward && forward[k] == c)
    }

    constructor ()
      ensures Valid() && forward == map[]
    {
      forward, reverse := map[], map[];
    }

    /** Take `key` out of the names of `child`. */
    method DropName(child: Inode, key: Key)
      modifies this`reverse
      ensures child !in old(reverse) ==> reverse == old(reverse)
      ensures child in old(reverse) ==>
                reverse == if old(reverse)[child] - {key} == {} then old(reverse) - {child}
                           else old(reverse)[child := old(reverse)[child] - {key}]
    {
      if child in reverse {
        var names := reverse[child] - {key};
        reverse := if names == {} then reverse - {child} else reverse[child := names];
      }
    }

    method Insert(parent: Inode, name: Name, child: Inode)
      requires Valid()
      modifies this
      ensures Valid() && forward == old(forward)[Key(parent, name) := child]
    {
      var key := Key(parent, name);
      var prev := if key in forward then Some(forward[key]) else None;
      forward := forward[key := child];
      if prev.Some? && prev.value != child {
        DropName(prev.value, key);
      }
      ghost var kept := reverse;
      reverse := reverse[child := (if child in reverse then reverse[child] else {}) + {key}];
      forall k | k in forward ensures forward[k] in reverse && k in reverse[forward[k]] {
        if k != key {
          var c := old(forward)[k];
          assert c in old(reverse) && k in old(reverse)[c];
          assert c in kept && k in kept[c] by {
            assert k in old(reverse)[c] - {key};
          }
        }
      }
    }

    method Remove(parent: Inode, name: Name)
      requires Valid()
      modifies this
      ensures Valid() && forward == old(forward) - {Key(parent, name)}
    {
      var key := Key(parent, name);
      if key in forward {
        var child := forward[key];
        forward := forward - {key};
        DropName(child, key);
      }
    }

    method Rename(oldParent: Inode, oldName: Name, newParent: Inode, newName: Name)
      requires Valid()
      modifies this
      ensures Valid() && forward == Renamed(old(forward), Key(oldParent, oldName), Key(newParent, newName))
    {
      var oldKey, newKey := Key(oldParent, oldName), Key(newParent, newName);
      Remove(newParent, newName);
      if oldKey in forward {
        var child := forward[oldKey];
        forward := (forward - {oldKey})[newKey := child];
        reverse := reverse[child := reverse[child] - {oldKey} + {newKey}];
      }
    }

    method ForgetInode(inode: Inode)
      requires Valid()
      modifies this
      ensures Valid() && forward == Forgotten(old(forward), inode)
    {
      if inode in reverse {
        var names := reverse[inode];
        reverse := reverse - {inode};
        while names != {}
          invariant reverse == old(reverse) - {inode} && names <= old(reverse)[inode]
          invariant forward == old(forward) - (old(reverse)[inode] - names)
          decreases names
        {
          var key :| key in names;
          forward := forward - {key};
          names := names - {key};
        }
      }
    }

    method NamesFor(inode: Inode) returns (names: set<Key>)
      requires Valid()
      ensures names == NamesOf(forward, inode)
    {
      names := if inode in reverse then reverse[inode] else {};
    }

    /** Every inode that some entry has as its child, once. */
    method AllInodes() returns (inodes: seq<Inode>)
      requires Valid()
      ensures forall i :: i in inodes <==> exists k :: k in forward && forward[k] == i
      ensures forall j, k | 0 <= j < k < |inodes| :: inodes[j] != inodes[k]
    {
      inodes := [];
      var todo := reverse.Keys;
      while todo != {}
        invariant todo <= reverse.Keys
        invariant forall i :: i in inodes <==> i in reverse.Keys - todo
        invariant forall j, k | 0 <= j < k < |inodes| :: inodes[j] != inodes[k]
        decreases todo
      {
        var i :| i in todo;
        assert forall x :: x in inodes + [i] <==> x in inodes || x == i;
        assert i !in inodes;
        inodes, todo := inodes + [i], todo - {i};
      }
      forall i ensures i in inodes <==> exists k :: k in forward && forward[k] == i {
        if i in reverse {
          var k :| k in reverse[i];
          assert k in forward && forward[k] == i;
        }
      }
    }

    /** The part of the path that is known: where it leads, and the segments beyond it. */
    method ResolvePath(root: Inode, segments: seq<Name>) returns (inode: Inode, remaining: seq<Name>)
      ensures Resolves(forward, root, segments, inode, remaining)
    {
      inode := root;
      var consumed := 0;
      while consumed < |segments| && Key(inode, segments[consumed]) in forward
        invariant consumed <= |segments|
        invariant Walk(forward, root, segments[..consumed]) == Some(inode)
      {
        WalkLast(forward, root, segments[..consumed], segments[consumed]);
        assert segments[..consumed] + [segments[consumed]] == segments[..consumed + 1];
        inode, consumed := forward[Key(inode, segments[consumed])], consumed + 1;
      }
      remaining := segments[consumed..];
      assert segments[..consumed] == segments[..|segments| - |remaining|];
    }
  }

  /** All but `remaining` leads to `inode`, which has no entry for the next segment. */
  ghost predicate Resolves(f: map<Key, Inode>, root: Inode, segments: seq<Name>, inode: Inode, remaining: seq<Name>) {
    && |remaining| <= |segments|
    && remaining == segments[|segments| - |remaining|..]
    && Walk(f, root, segments[..|segments| - |remaining|]) == Some(inode)
    && (remaining != [] ==> Key(inode, remaining[0]) !in f)
  }

  /** What is resolved is the longest part of the path that is known at all. */
  lemma ResolvedIsLongest(f: map<Key, Inode>, root: Inode, segments: seq<Name>, inode: Inode, remaining: seq<Name>, j: nat)
    requires Resolves(f, root, segments, inode, remaining) && j <= |segments|
    ensures Walk(f, root, segments[..j]).Some? <==> j <= |segments| - |remaining|
  {
    var k := |segments| - |remaining|;
    if j > k {
      assert remaining[0] == segments[k];
      WalkLast(f, root, segments[..k], segments[k]);
      assert segments[..k] + [segments[k]] == segments[..k + 1];
      WalkStuck(f, root, segments, k + 1, j);
    } else if Walk(f, root, segments[..j]).None? {
      WalkStuck(f, root, segments, j, k);
    }
  }

  /** So nothing remains just when the whole path is known. */
  lemma ResolvedFully(f: map<Key, Inode>, root: Inode, segments: seq<Name>, inode: Inode, remaining: seq<Name>)
    requires Resolves(f, root, segments, inode, remaining)
    ensures Walk(f, root, segments) == if remaining == [] then Some(inode) else None
  {
    ResolvedIsLongest(f, root, segments, inode, remaining, |segments|);
    assert segments[..|segments|] == segments;
  }
}
