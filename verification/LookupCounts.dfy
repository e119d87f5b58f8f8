/**
  READDIRPLUS on the file system proper: what its lookups and forgets, as far as it keeps them
  paired, do to the counts in the inode store.
 */
module LookupCounts {
  import opened Bytes
  import opened DirectoryReplies
  import Dirents
  import opened InodeStores
  import opened Passthrough
  import opened Wrappers

  /** The file system turns `before` into `after` when it is asked for `e`, with that outcome. */
  ghost predicate Answers(before: Fs, e: Event, after: Fs) {
    match e
    case LookedUp(i) => exists parent, name, host :: LookUp(before, parent, name, host) == (Some(i), after)
    case LookupFailed => exists parent, name, host :: LookUp(before, parent, name, host) == (None, after)
    case Forgot(i) => after == ForgetAll(before, [(i, 1)])
  }

  ghost predicate Serves(trace: seq<Fs>, events: seq<Event>) {
    && |trace| == |events| + 1
    && forall k | 0 <= k < |events| :: Answers(trace[k], events[k], trace[k + 1])
  }

  /** Dropping one reference lowers that count by one and no other. */
  lemma DropLowers(s: Store, j: Inode, i: Inode)
    requires Tracked(s)
    ensures Refcount(Drain(s, [(j, 1)]), i) == Refcount(s, i) - if i == j && j in s.data then 1 else 0
  {
    var (s', p') := DrainStep(s, [(j, 1)]);
    assert Ones([]) + [(j, 1)][1..] == [] && [(j, 1)][1..] == [];
    assert Drain(s', []) == s';
  }

  lemma AnswerCounts(before: Fs, e: Event, after: Fs, i: Inode)
    requires Sound(before) && Answers(before, e, after)
    ensures Sound(after)
    ensures e == LookedUp(i) ==> Refcount(after.store, i) == Refcount(before.store, i) + 1
    ensures e.Forgot? && e.inode == i && Refcount(before.store, i) > 0 ==>
              Refcount(after.store, i) == Refcount(before.store, i) - 1
    ensures e != LookedUp(i) && e != Forgot(i) ==> Refcount(after.store, i) == Refcount(before.store, i)
  {
    match e {
      case LookedUp(j) =>
        var parent, name, host :| LookUp(before, parent, name, host) == (Some(j), after);
        LookUpAddsOne(before, parent, name, host);
      case LookupFailed =>
        var parent, name, host :| LookUp(before, parent, name, host) == (None, after);
        LookUpAddsOne(before, parent, name, host);
      case Forgot(j) =>
        ForgetKeepsSound(before, [(j, 1)]);
        DropLowers(before.store, j, i);
    }
  }

  /** Counts follow the lookups and forgets, since no forget comes without its lookup. */
  lemma {:induction false} CountsFollow(trace: seq<Fs>, events: seq<Event>, i: Inode)
    requires Serves(trace, events) && Sound(trace[0]) && Paired(events) && i != 0
    ensures var last := trace[|events|];
            && Sound(last) && Refcount(last.store, i) == Refcount(trace[0].store, i) + Net(events, i)
            && (events != [] && events[|events| - 1] == LookedUp(i) ==> Refcount(last.store, i) > 0)
    decreases |events|
  {
    if events != [] {
      var n := |events| - 1;
      CountsFollow(trace[..n + 1], events[..n], i);
      assert Answers(trace[n], events[n], trace[n + 1]);
      AnswerCounts(trace[n], events[n], trace[n + 1], i);
    }
  }

  /** After READDIRPLUS each stored count has risen by exactly the number of records that name the inode. */
  lemma ReaddirplusRaisesCounts(trace: seq<Fs>, events: seq<Event>, records: seq<Dirents.Record>, i: Inode)
    requires Serves(trace, events) && Sound(trace[0]) && Accounted(events, records) && i != 0
    ensures Refcount(trace[|events|].store, i) == Refcount(trace[0].store, i) + Naming(records, i)
  {
    CountsFollow(trace, events, i);
  }
}
