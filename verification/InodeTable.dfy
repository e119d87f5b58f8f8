/**
  The inode store as the daemon keeps it: three maps changed in place, and a removal that recurses
  through the references in the migration info.  Every method is tied to `InodeStores`.
 */
module InodeTables {
  import opened InodeStores
  import opened Wrappers

  class InodeStore {
    var data: map<Inode, InodeData>
    var byIds: map<InodeIds, Inode>
    var byHandle: map<FileHandle, Inode>

    ghost function State(): Store
      reads this
    {
      Store(data, byIds, byHandle)
    }

    constructor ()
      ensures State() == EMPTY
    {
      data, byIds, byHandle := map[], map[], map[];
    }

    method InsertNew(i: Inode, d: InodeData)
      requires i !in data
      modifies this
      ensures State() == InodeStores.InsertNew(old(State()), i, d)
    {
      byIds := byIds[d.ids := i];
      if d.fileOrHandle.Handle? {
        byHandle := byHandle[d.fileOrHandle.handle := i];
      }
      data := data[i := d];
    }

    method Remove(i: Inode)
      modifies this
      ensures State() == if i in old(data) then Drain(Unlink(old(State()), i), Ones(old(data[i].info))) else old(State())
      ensures data.Keys <= old(data.Keys)
      decreases data.Keys, 0
    {
      if i !in data {
        return;
      }
      var d := data[i];
      data := data - {i};
      if d.fileOrHandle.Handle? {
        byHandle := byHandle - {d.fileOrHandle.handle};
      }
      byIds := byIds - {d.ids};
      assert State() == Unlink(old(State()), i);
      DropAllUnlocked(d.info);
    }

    /** Drop strong references while the store is locked for writing. */
    method DropAllUnlocked(refs: seq<Inode>)
      modifies this
      ensures State() == Drain(old(State()), Ones(refs))
      ensures data.Keys <= old(data.Keys)
      decreases data.Keys, 2
    {
      ghost var s0, keys := State(), data.Keys;
      for k := 0 to |refs|
        invariant data.Keys <= keys
        invariant Drain(s0, Ones(refs)) == Drain(State(), Ones(refs[k..]))
      {
        assert Ones(refs[k..]) == [(refs[k], 1)] + Ones(refs[k + 1..]);
        DrainSplit(State(), [(refs[k], 1)], Ones(refs[k + 1..]));
        ForgetOne(refs[k], 1);
      }
    }

    method ForgetOne(i: Inode, count: nat)
      modifies this
      ensures State() == Drain(old(State()), [(i, count)])
      ensures data.Keys <= old(data.Keys)
      decreases data.Keys, 1
    {
      if i in data {
        var newCount := SaturatingSub(data[i].refcount, count);
        if newCount == 0 {
          assert Ones(data[i].info) + [(i, count)][1..] == Ones(data[i].info);
          Remove(i);
        } else {
          data := data[i := data[i].(refcount := newCount)];
        }
      }
    }

    method ForgetMany(requests: Pending)
      modifies this
      ensures State() == Drain(old(State()), requests)
    {
      ghost var s0 := State();
      for k := 0 to |requests|
        invariant Drain(s0, requests) == Drain(State(), requests[k..])
      {
        assert requests[k..] == [requests[k]] + requests[k + 1..];
        DrainSplit(State(), [requests[k]], requests[k + 1..]);
        ForgetOne(requests[k].0, requests[k].1);
      }
    }

    /** Raise the count of an inode, unless it is zero, as it is for one that is no longer stored. */
    method IncrementRefcount(i: Inode) returns (ok: bool)
      modifies this`data
      ensures ok == (Refcount(old(State()), i) > 0)
      ensures State() == if ok then Increment(old(State()), i).value else old(State())
    {
      ok := i in data && data[i].refcount > 0;
      if ok {
        data := data[i := data[i].(refcount := data[i].refcount + 1)];
      }
    }

    /** The index lookups cannot miss, so none of their unwraps can fail. */
    method Claim(handle: Option<FileHandle>, ids: InodeIds) returns (found: Option<Inode>)
      requires IndexesNameLive(State())
      modifies this`data
      ensures (found, State()) == InodeStores.Claim(old(State()), handle, ids)
      ensures found.Some? ==> Raised(old(data), data, found.value) && StandsFor(old(data)[found.value], handle, ids)
    {
      ClaimedStandsFor(State(), handle, ids);
      found := None;
      if handle.Some? && handle.value in byHandle {
        found := Some(byHandle[handle.value]);
      } else if ids in byIds && data[byIds[ids]].fileOrHandle.File? {
        found := Some(byIds[ids]);
      }
      if found.Some? {
        var ok := IncrementRefcount(found.value);
        if !ok {
          found := None;
        }
      }
    }

    method GetOrInsert(i: Inode, d: InodeData) returns (found: Option<Inode>)
      requires IndexesNameLive(State())
      modifies this
      ensures (found, State()) == InodeStores.GetOrInsert(old(State()), i, d)
      ensures found.Some? && found.value in old(data) ==> StandsFor(old(data)[found.value], HandleOf(d), d.ids)
      ensures found.Some? && found.value !in old(data) ==> found.value == i && data == old(data)[i := d.(refcount := 1)]
    {
      GetOrInsertStandsFor(State(), i, d);
      found := Claim(HandleOf(d), d.ids);
      if found.Some? || i in data {
        DropAllUnlocked(d.info);
        return;
      }
      InsertNew(i, d.(refcount := 1));
      found := Some(i);
    }

    method NewInode(i: Inode, d: InodeData) returns (ok: bool)
      modifies this
      ensures (ok, State()) == InodeStores.NewInode(old(State()), i, d)
    {
      ok := i !in data;
      if ok {
        InsertNew(i, d);
      } else {
        DropAllUnlocked(d.info);
      }
    }

    /** The order is the map's own; by `ClearOrderDoesNotMatter` it makes no difference. */
    method ClearMigrationInfo() returns (ghost order: seq<Inode>)
      modifies this
      ensures forall i | i in old(data) :: i in order
      ensures State() == InodeStores.ClearMigrationInfo(old(State()), order)
      ensures forall i | i in data :: i in old(data) && data[i].info == if i == ROOT_ID then old(data)[i].info else []
    {
      var todo, refs := data.Keys, [];
      order := [];
      while todo != {}
        invariant todo <= data.Keys == old(data.Keys)
        invariant forall i | i in data.Keys - todo :: i in order
        invariant (State(), refs) == TakeInfos(old(State()), order)
        decreases todo
      {
        var i :| i in todo;
        TakeInfosAppend(old(State()), order, i);
        if i != ROOT_ID {
          refs := refs + data[i].info;
          data := data[i := data[i].(info := [])];
        }
        todo, order := todo - {i}, order + [i];
      }
      ClearedInfos(old(State()), order);
      DropAllUnlocked(refs);
    }
  }

  lemma {:induction false} TakeInfosAppend(s: Store, order: seq<Inode>, i: Inode)
    ensures var (s', refs) := TakeInfos(s, order);
            TakeInfos(s, order + [i]) ==
            if i == ROOT_ID || i !in s'.data then (s', refs) else (SetInfo(s', i, []), refs + s'.data[i].info)
    decreases |order|
  {
    if order == [] {
      assert order + [i] == [i];
      if i in s.data {
        assert [] + s.data[i].info == s.data[i].info + [];
      }
    } else {
      assert (order + [i])[1..] == order[1..] + [i];
      if order[0] == ROOT_ID || order[0] !in s.data {
        TakeInfosAppend(s, order[1..], i);
      } else {
        TakeInfosAppend(SetInfo(s, order[0], []), order[1..], i);
        var (s', refs) := TakeInfos(SetInfo(s, order[0], []), order[1..]);
        if i in s'.data {
          assert s.data[order[0]].info + (refs + s'.data[i].info) == s.data[order[0]].info + refs + s'.data[i].info;
        }
      }
    }
  }
}
