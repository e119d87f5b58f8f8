/**
  Mapping UIDs or GIDs between guest and host: the command line's entries are turned into two
  range maps, whose ranges must not intersect.  IDs that no range covers stay as they are.
 */
module IdMaps {
  import opened Wrappers

  const ID_LIMIT: nat := 0x1_0000_0000

  /** A 32-bit ID or count. */
  type Id = x: nat | x < ID_LIMIT

  // ----- Range maps --------------------------------------------------------------------------

  datatype MapEntry =
    | Squash(start: Id, end: nat, to: Id)
    | Shift(start: Id, end: nat, base: Id)
    | Fail(start: Id, end: nat)

  type RangeMap = seq<MapEntry>

  datatype Mapped = To(id: Id) | Forbidden | Overflow

  predicate Covers(e: MapEntry, id: nat) {
    e.start <= id < e.end
  }

  predicate Overlap(a: MapEntry, b: MapEntry) {
    a.start < b.end && b.start < a.end && a.start < a.end && b.start < b.end
  }

  function Map(e: MapEntry, id: Id): Mapped
    requires Covers(e, id)
  {
    match e
    case Squash(_, _, to) => To(to)
    case Shift(start, _, base) => if base + (id - start) < ID_LIMIT then To(base + (id - start)) else Overflow
    case Fail(_, _) => Forbidden
  }

  function Get(ranges: RangeMap, id: Id): (e: Option<MapEntry>)
    ensures e.Some? ==> Covers(e.value, id) && e.value in ranges
  {
    if ranges == [] then None else if Covers(ranges[0], id) then Some(ranges[0]) else Get(ranges[1..], id)
  }

  /** An ID that is not covered is mapped to itself. */
  function MapId(ranges: RangeMap, id: Id): Mapped {
    match Get(ranges, id)
    case None => To(id)
    case Some(e) => Map(e, id)
  }

  ghost predicate Disjoint(ranges: RangeMap) {
    forall i, j | 0 <= i < j < |ranges| :: !Overlap(ranges[i], ranges[j])
  }

  /** Ranges overlap if and only if some ID is in both. */
  lemma OverlapIff(a: MapEntry, b: MapEntry)
    ensures Overlap(a, b) <==> exists id: nat :: Covers(a, id) && Covers(b, id)
  {
    if Overlap(a, b) {
      var id := if a.start < b.start then b.start else a.start;
      assert Covers(a, id) && Covers(b, id);
    }
  }

  /** The one entry that covers an ID is found wherever it stands. */
  lemma {:induction false} GetFinds(ranges: RangeMap, id: Id, e: MapEntry)
    requires Disjoint(ranges) && e in ranges && Covers(e, id)
    ensures Get(ranges, id) == Some(e)
  {
    if !Covers(ranges[0], id) {
      GetFinds(ranges[1..], id, e);
    } else {
      var k :| 0 <= k < |ranges| && ranges[k] == e;
      assert k > 0 ==> Overlap(ranges[0], ranges[k]);
    }
  }

  lemma {:induction false} GetMisses(ranges: RangeMap, id: Id)
    requires Get(ranges, id).None?
    ensures forall e | e in ranges :: !Covers(e, id)
  {
    if ranges != [] {
      GetMisses(ranges[1..], id);
    }
  }

  // ----- The command line --------------------------------------------------------------------

  datatype Argument =
    | Guest(fromGuest: Id, toHost: Id, count: Id)
    | Host(fromHost: Id, toGuest: Id, count: Id)
    | SquashGuest(fromGuest: Id, toHost: Id, count: Id)
    | SquashHost(fromHost: Id, toGuest: Id, count: Id)
    | Bidirectional(guest: Id, host: Id, count: Id)
    | ForbidGuest(fromGuest: Id, count: Id)

  /** The ends of all its ranges are themselves IDs. */
  predicate Fits(a: Argument) {
    match a
    case Guest(from, _, count) => from + count < ID_LIMIT
    case Host(from, _, count) => from + count < ID_LIMIT
    case SquashGuest(from, _, count) => from + count < ID_LIMIT
    case SquashHost(from, _, count) => from + count < ID_LIMIT
    case Bidirectional(guest, host, count) => guest + count < ID_LIMIT && host + count < ID_LIMIT
    case ForbidGuest(from, count) => from + count < ID_LIMIT
  }

  /** What an argument says about guest IDs. */
  function GuestSide(a: Argument): RangeMap {
    match a
    case Guest(from, to, count) => [Shift(from, from + count, to)]
    case SquashGuest(from, to, count) => [Squash(from, from + count, to)]
    case Bidirectional(guest, host, count) => [Shift(guest, guest + count, host)]
    case ForbidGuest(from, count) => [Fail(from, from + count)]
    case Host(_, _, _) => []
    case SquashHost(_, _, _) => []
  }

  /** What an argument says about host IDs. */
  function HostSide(a: Argument): RangeMap {
    match a
    case Host(from, to, count) => [Shift(from, from + count, to)]
    case SquashHost(from, to, count) => [Squash(from, from + count, to)]
    case Bidirectional(guest, host, count) => [Shift(host, host + count, guest)]
    case Guest(_, _, _) => []
    case SquashGuest(_, _, _) => []
    case ForbidGuest(_, _) => []
  }

  /** An argument fits if and only if all its ranges end at 32-bit numbers. */
  lemma FitsIff(a: Argument)
    ensures Fits(a) <==> forall e | e in GuestSide(a) + HostSide(a) :: e.end < 0x1_0000_0000
  {
    assert GuestSide(a) != [] ==> GuestSide(a)[0] in GuestSide(a) + HostSide(a);
    assert HostSide(a) != [] ==> HostSide(a)[0] in GuestSide(a) + HostSide(a);
  }

  predicate AllFit(args: seq<Argument>) {
    forall k | 0 <= k < |args| :: Fits(args[k])
  }

  /** The entries that `side` gives for all arguments, in their order. */
  function Collect(side: Argument -> RangeMap, args: seq<Argument>): RangeMap {
    if args == [] then [] else Collect(side, args[..|args| - 1]) + side(args[|args| - 1])
  }

  function GuestEntries(args: seq<Argument>): RangeMap {
    Collect(GuestSide, args)
  }

  function HostEntries(args: seq<Argument>): RangeMap {
    Collect(HostSide, args)
  }

  /** Nothing but the ranges decides whether a command line is accepted. */
  ghost predicate Acceptable(args: seq<Argument>) {
    AllFit(args) && Disjoint(GuestEntries(args)) && Disjoint(HostEntries(args))
  }

  class IdMap {
    var guestToHost: RangeMap
    var hostToGuest: RangeMap

    constructor ()
      ensures guestToHost == [] && hostToGuest == []
    {
      guestToHost, hostToGuest := [], [];
    }

    function MapGuest(id: Id): Mapped
      reads this
    {
      MapId(guestToHost, id)
    }

    function MapHost(id: Id): Mapped
      reads this
    {
      MapId(hostToGuest, id)
    }

    static method DoPush(ranges: RangeMap, entry: MapEntry) returns (ok: bool, pushed: RangeMap)
      ensures pushed == if ok then ranges + [entry] else ranges
      ensures ok <==> forall k | 0 <= k < |ranges| :: !Overlap(ranges[k], entry)
    {
      pushed := ranges;
      for k := 0 to |ranges|
        invariant forall j | 0 <= j < k :: !Overlap(ranges[j], entry)
      {
        if Overlap(ranges[k], entry) {
          return false, ranges;
        }
      }
      return true, ranges + [entry];
    }

    method PushGuestToHost(entry: MapEntry) returns (ok: bool)
      requires Disjoint(guestToHost)
      modifies `guestToHost
      ensures ok <==> Disjoint(old(guestToHost) + [entry])
      ensures guestToHost == if ok then old(guestToHost) + [entry] else old(guestToHost)
    {
      PushKeepsDisjoint(guestToHost, entry);
      ok, guestToHost := DoPush(guestToHost, entry);
    }

    method PushHostToGuest(entry: MapEntry) returns (ok: bool)
      requires Disjoint(hostToGuest)
      modifies `hostToGuest
      ensures ok <==> Disjoint(old(hostToGuest) + [entry])
      ensures hostToGuest == if ok then old(hostToGuest) + [entry] else old(hostToGuest)
    {
      PushKeepsDisjoint(hostToGuest, entry);
      ok, hostToGuest := DoPush(hostToGuest, entry);
    }

    method Push(a: Argument) returns (ok: bool)
      requires Disjoint(guestToHost) && Disjoint(hostToGuest)
      modifies this
      ensures ok <==> Fits(a) && Disjoint(old(guestToHost) + GuestSide(a)) && Disjoint(old(hostToGuest) + HostSide(a))
      ensures ok ==> guestToHost == old(guestToHost) + GuestSide(a) && hostToGuest == old(hostToGuest) + HostSide(a)
    {
      if !Fits(a) {
        return false;
      }
      assert guestToHost + [] == guestToHost && hostToGuest + [] == hostToGuest;
      ok := true;
      if GuestSide(a) != [] {
        ok := PushGuestToHost(GuestSide(a)[0]);
      }
      if ok && HostSide(a) != [] {
        ok := PushHostToGuest(HostSide(a)[0]);
      }
    }
  }

  lemma PushKeepsDisjoint(ranges: RangeMap, entry: MapEntry)
    requires Disjoint(ranges)
    ensures Disjoint(ranges + [entry]) <==> forall k | 0 <= k < |ranges| :: !Overlap(ranges[k], entry)
  {
    if Disjoint(ranges + [entry]) {
      forall k | 0 <= k < |ranges| ensures !Overlap(ranges[k], entry) {
        assert (ranges + [entry])[k] == ranges[k] && (ranges + [entry])[|ranges|] == entry;
      }
    }
  }

  /** None is an error, or a panic where the end of a `forbid-guest` range overflows. */
  method TryFrom(args: seq<Argument>) returns (r: Option<IdMap>)
    ensures r.Some? <==> Acceptable(args)
    ensures r.Some? ==> fresh(r.value) && r.value.guestToHost == GuestEntries(args)
                        && r.value.hostToGuest == HostEntries(args)
    ensures r.Some? ==> forall a, id | a in args && a.Bidirectional? && a.guest <= id < a.guest + a.count ::
                          r.value.MapGuest(id).To? && r.value.MapHost(r.value.MapGuest(id).id) == To(id)
  {
    var idMap := new IdMap();
    for k := 0 to |args|
      invariant Acceptable(args[..k])
      invariant idMap.guestToHost == GuestEntries(args[..k]) && idMap.hostToGuest == HostEntries(args[..k])
      invariant fresh(idMap)
    {
      assert args[..k + 1][..k] == args[..k] && args[..k + 1][k] == args[k];
      var ok := idMap.Push(args[k]);
      if !ok {
        PrefixAcceptable(args, k + 1);
        return None;
      }
    }
    assert args[..|args|] == args;
    forall a, id | a in args && a.Bidirectional? && a.guest <= id < a.guest + a.count
      ensures idMap.MapGuest(id).To? && idMap.MapHost(idMap.MapGuest(id).id) == To(id)
    {
      MapRoundTrip(args, a.guest, a.host, a.count, id);
    }
    return Some(idMap);
  }

  lemma {:induction false} PrefixAcceptable(args: seq<Argument>, k: nat)
    requires k <= |args|
    ensures Acceptable(args) ==> Acceptable(args[..k])
    decreases |args|
  {
    if k == |args| {
      assert args[..k] == args;
    } else if Acceptable(args) {
      var front := args[..|args| - 1];
      DisjointPrefix(GuestEntries(front), GuestSide(args[|args| - 1]));
      DisjointPrefix(HostEntries(front), HostSide(args[|args| - 1]));
      PrefixAcceptable(front, k);
      assert front[..k] == args[..k];
    }
  }

  lemma DisjointPrefix(a: RangeMap, b: RangeMap)
    requires Disjoint(a + b)
    ensures Disjoint(a)
  {
    forall i, j | 0 <= i < j < |a| ensures !Overlap(a[i], a[j]) {
      assert (a + b)[i] == a[i] && (a + b)[j] == a[j];
    }
  }

  // ----- What an accepted command line means -------------------------------------------------

  lemma {:induction false} CollectHas(side: Argument -> RangeMap, args: seq<Argument>, a: Argument, e: MapEntry)
    requires a in args && e in side(a)
    ensures e in Collect(side, args)
  {
    var front, last := args[..|args| - 1], args[|args| - 1];
    assert args == front + [last];
    if a != last {
      CollectHas(side, front, a, e);
    }
  }

  function ShiftedTo(id: nat): Mapped {
    if id < ID_LIMIT then To(id) else Overflow
  }

  /** What becomes of the guest IDs that an argument is about. */
  lemma ArgumentMapsGuest(args: seq<Argument>, a: Argument, id: Id)
    requires Acceptable(args) && a in args
    ensures var mapped := MapId(GuestEntries(args), id);
            match a
            case Guest(from, to, count) => from <= id < from + count ==> mapped == ShiftedTo(to + (id - from))
            case SquashGuest(from, to, count) => from <= id < from + count ==> mapped == To(to)
            case Bidirectional(guest, host, count) => guest <= id < guest + count ==> mapped == To(host + (id - guest))
            case ForbidGuest(from, count) => from <= id < from + count ==> mapped == Forbidden
            case Host(_, _, _) => true
            case SquashHost(_, _, _) => true
  {
    if GuestSide(a) != [] && Covers(GuestSide(a)[0], id) {
      CollectHas(GuestSide, args, a, GuestSide(a)[0]);
      GetFinds(GuestEntries(args), id, GuestSide(a)[0]);
    }
  }

  /** And of the host IDs. */
  lemma ArgumentMapsHost(args: seq<Argument>, a: Argument, id: Id)
    requires Acceptable(args) && a in args
    ensures var mapped := MapId(HostEntries(args), id);
            match a
            case Host(from, to, count) => from <= id < from + count ==> mapped == ShiftedTo(to + (id - from))
            case SquashHost(from, to, count) => from <= id < from + count ==> mapped == To(to)
            case Bidirectional(guest, host, count) => host <= id < host + count ==> mapped == To(guest + (id - host))
            case Guest(_, _, _) => true
            case SquashGuest(_, _, _) => true
            case ForbidGuest(_, _) => true
  {
    if HostSide(a) != [] && Covers(HostSide(a)[0], id) {
      CollectHas(HostSide, args, a, HostSide(a)[0]);
      GetFinds(HostEntries(args), id, HostSide(a)[0]);
    }
  }

  /** The argument is about this guest ID. */
  predicate NamesGuest(a: Argument, id: Id) {
    match a
    case Guest(from, _, count) => from <= id < from + count
    case SquashGuest(from, _, count) => from <= id < from + count
    case Bidirectional(guest, _, count) => guest <= id < guest + count
    case ForbidGuest(from, count) => from <= id < from + count
    case _ => false
  }

  predicate NamesHost(a: Argument, id: Id) {
    match a
    case Host(from, _, count) => from <= id < from + count
    case SquashHost(from, _, count) => from <= id < from + count
    case Bidirectional(_, host, count) => host <= id < host + count
    case _ => false
  }

  /** IDs that no argument is about stay as they are. */
  lemma OthersStay(args: seq<Argument>, id: Id)
    ensures (forall a | a in args :: !NamesGuest(a, id)) ==> MapId(GuestEntries(args), id) == To(id)
    ensures (forall a | a in args :: !NamesHost(a, id)) ==> MapId(HostEntries(args), id) == To(id)
  {
    var g, h := Get(GuestEntries(args), id), Get(HostEntries(args), id);
    if g.Some? {
      var a := CollectFrom(GuestSide, args, g.value);
    }
    if h.Some? {
      var a := CollectFrom(HostSide, args, h.value);
    }
  }

  /** Each ID in the guest range of a `map` argument goes to the host and back unharmed. */
  lemma MapRoundTrip(args: seq<Argument>, guest: Id, host: Id, count: Id, id: Id)
    requires Acceptable(args) && Bidirectional(guest, host, count) in args && guest <= id < guest + count
    ensures MapId(GuestEntries(args), id).To?
    ensures MapId(HostEntries(args), MapId(GuestEntries(args), id).id) == To(id)
  {
    var a := Bidirectional(guest, host, count);
    CollectHas(GuestSide, args, a, Shift(guest, guest + count, host));
    CollectHas(HostSide, args, a, Shift(host, host + count, guest));
    GetFinds(GuestEntries(args), id, Shift(guest, guest + count, host));
    GetFinds(HostEntries(args), host + (id - guest), Shift(host, host + count, guest));
  }

  /** And so does each ID in its host range. */
  lemma MapRoundTripFromHost(args: seq<Argument>, guest: Id, host: Id, count: Id, id: Id)
    requires Acceptable(args) && Bidirectional(guest, host, count) in args && host <= id < host + count
    ensures MapId(HostEntries(args), id).To?
    ensures MapId(GuestEntries(args), MapId(HostEntries(args), id).id) == To(id)
  {
    var a := Bidirectional(guest, host, count);
    CollectHas(GuestSide, args, a, Shift(guest, guest + count, host));
    CollectHas(HostSide, args, a, Shift(host, host + count, guest));
    GetFinds(HostEntries(args), id, Shift(host, host + count, guest));
    GetFinds(GuestEntries(args), guest + (id - host), Shift(guest, guest + count, host));
  }

  // ----- The order of the arguments ----------------------------------------------------------

  /** `Disjoint`, said of the entries without their order. */
  ghost predicate DisjointEntries(m: multiset<MapEntry>) {
    forall a, b | a in m && b in m - multiset{a} :: !Overlap(a, b)
  }

  lemma SplitOff(ranges: RangeMap, i: nat)
    requires i < |ranges|
    ensures multiset(ranges) - multiset{ranges[i]} == multiset(ranges[..i]) + multiset(ranges[i + 1..])
  {
    assert ranges == ranges[..i] + [ranges[i]] + ranges[i + 1..];
  }

  lemma DisjointHasNoOrder(ranges: RangeMap)
    ensures Disjoint(ranges) <==> DisjointEntries(multiset(ranges))
  {
    if Disjoint(ranges) {
      forall a, b | a in multiset(ranges) && b in multiset(ranges) - multiset{a} ensures !Overlap(a, b) {
        var i :| 0 <= i < |ranges| && ranges[i] == a;
        SplitOff(ranges, i);
        if b in ranges[..i] {
          var j :| 0 <= j < i && ranges[..i][j] == b;
        } else {
          var j :| 0 <= j < |ranges| - i - 1 && ranges[i + 1..][j] == b;
          assert ranges[i + 1 + j] == b;
        }
      }
    }
    if DisjointEntries(multiset(ranges)) {
      forall i, j | 0 <= i < j < |ranges| ensures !Overlap(ranges[i], ranges[j]) {
        SplitOff(ranges, i);
        assert ranges[j] == ranges[i + 1..][j - i - 1];
      }
    }
  }

  lemma {:induction false} CollectConcat(side: Argument -> RangeMap, a: seq<Argument>, b: seq<Argument>)
    ensures Collect(side, a + b) == Collect(side, a) + Collect(side, b)
    decreases |b|
  {
    if b == [] {
      assert a + b == a;
    } else {
      var front := b[..|b| - 1];
      assert (a + b)[..|a + b| - 1] == a + front;
      CollectConcat(side, a, front);
    }
  }

  lemma CollectWithout(side: Argument -> RangeMap, a: seq<Argument>, x: Argument, b: seq<Argument>)
    ensures multiset(Collect(side, a + [x] + b)) == multiset(Collect(side, a + b)) + multiset(side(x))
  {
    CollectConcat(side, a + [x], b);
    CollectConcat(side, a, b);
    assert (a + [x])[..|a|] == a;
  }

  lemma TakeOut(front: seq<Argument>, x: Argument, a: seq<Argument>, b: seq<Argument>)
    requires multiset(front + [x]) == multiset(a + [x] + b)
    ensures multiset(front) == multiset(a + b)
  {
    var m, n := multiset(front), multiset(a + b);
    assert m + multiset{x} == multiset(front + [x]);
    assert n + multiset{x} == multiset(a + [x] + b);
    forall y ensures m[y] == n[y] {
      assert (m + multiset{x})[y] == (n + multiset{x})[y];
    }
  }

  lemma {:induction false} CollectHasNoOrder(side: Argument -> RangeMap, args: seq<Argument>, args': seq<Argument>)
    requires multiset(args) == multiset(args')
    ensures multiset(Collect(side, args)) == multiset(Collect(side, args'))
    decreases |args|
  {
    if args == [] {
      assert multiset(args') == multiset{};
    } else {
      var front, last := args[..|args| - 1], args[|args| - 1];
      assert args == front + [last];
      assert last in multiset(args');
      var k :| 0 <= k < |args'| && args'[k] == last;
      var a, b := args'[..k], args'[k + 1..];
      assert args' == a + [last] + b;
      TakeOut(front, last, a, b);
      CollectHasNoOrder(side, front, a + b);
      CollectWithout(side, a, last, b);
    }
  }

  lemma MapHasNoOrder(ranges: RangeMap, ranges': RangeMap, id: Id)
    requires multiset(ranges) == multiset(ranges') && Disjoint(ranges) && Disjoint(ranges')
    ensures MapId(ranges, id) == MapId(ranges', id)
  {
    var e := Get(ranges, id);
    if e.Some? {
      assert e.value in multiset(ranges');
      GetFinds(ranges', id, e.value);
    } else if Get(ranges', id).Some? {
      GetMisses(ranges, id);
      assert Get(ranges', id).value in multiset(ranges);
    }
  }

  lemma AllFitHasNoOrder(args: seq<Argument>, args': seq<Argument>)
    requires multiset(args) == multiset(args') && AllFit(args)
    ensures AllFit(args')
  {
    forall k | 0 <= k < |args'| ensures Fits(args'[k]) {
      assert args'[k] in multiset(args);
    }
  }

  /** The order of the arguments decides neither whether they are accepted nor what they map. */
  lemma OrderDoesNotMatter(args: seq<Argument>, args': seq<Argument>)
    requires multiset(args) == multiset(args')
    ensures Acceptable(args) <==> Acceptable(args')
    ensures Acceptable(args) ==> forall id ::
              && MapId(GuestEntries(args), id) == MapId(GuestEntries(args'), id)
              && MapId(HostEntries(args), id) == MapId(HostEntries(args'), id)
  {
    if AllFit(args) || AllFit(args') {
      if AllFit(args) {
        AllFitHasNoOrder(args, args');
      } else {
        AllFitHasNoOrder(args', args);
      }
      CollectHasNoOrder(GuestSide, args, args');
      CollectHasNoOrder(HostSide, args, args');
      DisjointHasNoOrder(GuestEntries(args));
      DisjointHasNoOrder(GuestEntries(args'));
      DisjointHasNoOrder(HostEntries(args));
      DisjointHasNoOrder(HostEntries(args'));
      if Acceptable(args) {
        forall id ensures MapId(GuestEntries(args), id) == MapId(GuestEntries(args'), id)
                          && MapId(HostEntries(args), id) == MapId(HostEntries(args'), id) {
          MapHasNoOrder(GuestEntries(args), GuestEntries(args'), id);
          MapHasNoOrder(HostEntries(args), HostEntries(args'), id);
        }
      }
    }
  }

  // ----- When two IDs can meet ---------------------------------------------------------------

  lemma {:induction false} CollectFrom(side: Argument -> RangeMap, args: seq<Argument>, e: MapEntry) returns (a: Argument)
    requires e in Collect(side, args)
    ensures a in args && e in side(a)
  {
    var front, last := args[..|args| - 1], args[|args| - 1];
    assert args == front + [last];
    if e in side(last) {
      a := last;
    } else {
      a := CollectFrom(side, front, e);
    }
  }

  ghost predicate Mentions(ranges: RangeMap, id: nat) {
    exists e :: e in ranges && Covers(e, id)
  }

  ghost predicate Injective(ranges: RangeMap) {
    forall x, y :: MapId(ranges, x) == MapId(ranges, y) ==> x == y
  }

  predicate OnlyMaps(args: seq<Argument>) {
    forall k | 0 <= k < |args| :: args[k].Bidirectional?
  }

  /** A guest ID that a `map` argument mentions has its host ID mentioned, and comes back from there. */
  lemma MentionedGuest(args: seq<Argument>, id: Id)
    requires Acceptable(args) && OnlyMaps(args) && Mentions(GuestEntries(args), id)
    ensures MapId(GuestEntries(args), id).To? && Mentions(HostEntries(args), MapId(GuestEntries(args), id).id)
    ensures MapId(HostEntries(args), MapId(GuestEntries(args), id).id) == To(id)
  {
    var e :| e in GuestEntries(args) && Covers(e, id);
    var a := CollectFrom(GuestSide, args, e);
    CollectHas(HostSide, args, a, HostSide(a)[0]);
    GetFinds(GuestEntries(args), id, e);
    assert Covers(HostSide(a)[0], a.host + (id - a.guest));
    MapRoundTrip(args, a.guest, a.host, a.count, id);
  }

  lemma MentionedHost(args: seq<Argument>, id: Id)
    requires Acceptable(args) && OnlyMaps(args) && Mentions(HostEntries(args), id)
    ensures MapId(HostEntries(args), id).To? && Mentions(GuestEntries(args), MapId(HostEntries(args), id).id)
    ensures MapId(GuestEntries(args), MapId(HostEntries(args), id).id) == To(id)
  {
    var e :| e in HostEntries(args) && Covers(e, id);
    var a := CollectFrom(HostSide, args, e);
    CollectHas(GuestSide, args, a, GuestSide(a)[0]);
    GetFinds(HostEntries(args), id, e);
    assert Covers(GuestSide(a)[0], a.guest + (id - a.host));
    MapRoundTripFromHost(args, a.guest, a.host, a.count, id);
  }

  lemma UnmentionedStays(ranges: RangeMap, id: Id)
    requires !Mentions(ranges, id)
    ensures MapId(ranges, id) == To(id)
  {
    assert Get(ranges, id).None?;
  }

  /**
    With `map` arguments only, no two guest IDs get the same host ID if and only if every host ID
    that is mentioned is mentioned as a guest ID, too.
   */
  lemma InjectiveIff(args: seq<Argument>)
    requires Acceptable(args) && OnlyMaps(args)
    ensures Injective(GuestEntries(args)) <==>
            forall id: Id :: Mentions(HostEntries(args), id) ==> Mentions(GuestEntries(args), id)
  {
    var g, h := GuestEntries(args), HostEntries(args);
    if forall id: Id :: Mentions(h, id) ==> Mentions(g, id) {
      forall x, y | MapId(g, x) == MapId(g, y) ensures x == y {
        MeetingIsEqual(args, x, y);
      }
    }
    if Injective(g) {
      forall id: Id | Mentions(h, id) ensures Mentions(g, id) {
        MentionedHost(args, id);
        if !Mentions(g, id) {
          UnmentionedStays(g, id);
        }
      }
    }
  }

  lemma MeetingIsEqual(args: seq<Argument>, x: Id, y: Id)
    requires Acceptable(args) && OnlyMaps(args)
    requires forall id: Id :: Mentions(HostEntries(args), id) ==> Mentions(GuestEntries(args), id)
    requires MapId(GuestEntries(args), x) == MapId(GuestEntries(args), y)
    ensures x == y
  {
    var g := GuestEntries(args);
    if Mentions(g, x) {
      MentionedGuest(args, x);
    } else {
      UnmentionedStays(g, x);
    }
    if Mentions(g, y) {
      MentionedGuest(args, y);
    } else {
      UnmentionedStays(g, y);
    }
  }

  /** No two IDs that are mapped at all share an ID on the other side. */
  ghost predicate Apart(ranges: RangeMap) {
    forall x: Id, y: Id | MapId(ranges, x).To? && MapId(ranges, x) == MapId(ranges, y) :: x == y
  }

  /** The IDs an entry maps to are those from `Low` to below `High`. */
  function Low(e: MapEntry): nat {
    match e
    case Squash(_, _, to) => to
    case Shift(_, _, base) => base
    case Fail(_, _) => 0
  }

  function High(e: MapEntry): nat {
    if e.end <= e.start then Low(e)
    else
      match e
      case Squash(_, _, to) => to + 1
      case Shift(start, end, base) => base + (end - start)
      case Fail(_, _) => 0
  }

  predicate Hits(e: MapEntry, id: nat) {
    Low(e) <= id < High(e)
  }

  /** Both entries map some ID to the same one. */
  predicate Meet(a: MapEntry, b: MapEntry) {
    Low(a) < High(b) && Low(b) < High(a) && Low(a) < High(a) && Low(b) < High(b)
  }

  /** No range of two is squashed, no two entries map to one ID, and an ID that is mapped to is itself in some range. */
  ghost predicate Separate(ranges: RangeMap) {
    && (forall e | e in ranges && e.Squash? :: e.end <= e.start + 1)
    && (forall i, j | 0 <= i < j < |ranges| :: !Meet(ranges[i], ranges[j]))
    && (forall e, id: Id | e in ranges && Hits(e, id) :: Mentions(ranges, id))
  }

  ghost predicate Bounded(ranges: RangeMap) {
    forall e | e in ranges :: e.end <= ID_LIMIT
  }

  lemma MapHits(e: MapEntry, id: Id)
    requires Covers(e, id) && Map(e, id).To?
    ensures Hits(e, Map(e, id).id)
  {
  }

  /** An ID that is mapped to. */
  lemma Origin(ranges: RangeMap, e: MapEntry, id: Id) returns (x: Id)
    requires Disjoint(ranges) && Bounded(ranges) && e in ranges && Hits(e, id)
    ensures Covers(e, x) && MapId(ranges, x) == To(id)
  {
    x := if e.Squash? then e.start else e.start + (id - Low(e));
    GetFinds(ranges, x, e);
  }

  lemma MeetsSomewhere(a: MapEntry, b: MapEntry, id: nat)
    requires Hits(a, id) && Hits(b, id)
    ensures Meet(a, b) && Meet(b, a)
  {
  }

  lemma SameEntryApart(e: MapEntry, x: Id, y: Id)
    requires e.Squash? ==> e.end <= e.start + 1
    requires Covers(e, x) && Covers(e, y) && Map(e, x).To? && Map(e, x) == Map(e, y)
    ensures x == y
  {
  }

  lemma MentionedApart(ranges: RangeMap, x: Id, y: Id)
    requires Separate(ranges) && Mentions(ranges, x)
    requires MapId(ranges, x).To? && MapId(ranges, x) == MapId(ranges, y)
    ensures x == y
  {
    if Get(ranges, x).None? {
      GetMisses(ranges, x);
    }
    var e, id := Get(ranges, x).value, MapId(ranges, x).id;
    MapHits(e, x);
    if Get(ranges, y).None? {
      GetMisses(ranges, y);
    } else {
      var e' := Get(ranges, y).value;
      MapHits(e', y);
      var i :| 0 <= i < |ranges| && ranges[i] == e;
      var j :| 0 <= j < |ranges| && ranges[j] == e';
      MeetsSomewhere(e, e', id);
      SameEntryApart(e, x, y);
    }
  }

  lemma SeparateIsApart(ranges: RangeMap)
    requires Separate(ranges)
    ensures Apart(ranges)
  {
    forall x: Id, y: Id | MapId(ranges, x).To? && MapId(ranges, x) == MapId(ranges, y) ensures x == y {
      if Mentions(ranges, x) {
        MentionedApart(ranges, x, y);
      } else if Mentions(ranges, y) {
        MentionedApart(ranges, y, x);
      } else {
        UnmentionedStays(ranges, x);
        UnmentionedStays(ranges, y);
      }
    }
  }

  lemma SquashedMeet(ranges: RangeMap, e: MapEntry)
    requires Disjoint(ranges) && Bounded(ranges) && e in ranges && e.Squash? && e.start + 1 < e.end
    ensures MapId(ranges, e.start) == MapId(ranges, e.start + 1) == To(e.to)
  {
    GetFinds(ranges, e.start, e);
    GetFinds(ranges, e.start + 1, e);
  }

  lemma ApartDoNotMeet(ranges: RangeMap, i: nat, j: nat)
    requires Disjoint(ranges) && Bounded(ranges) && Apart(ranges) && i < j < |ranges|
    ensures !Meet(ranges[i], ranges[j])
  {
    if Meet(ranges[i], ranges[j]) {
      var id := if Low(ranges[i]) < Low(ranges[j]) then Low(ranges[j]) else Low(ranges[i]);
      var x := Origin(ranges, ranges[i], id);
      var y := Origin(ranges, ranges[j], id);
      assert false;
    }
  }

  lemma ApartMentions(ranges: RangeMap, e: MapEntry, id: Id)
    requires Disjoint(ranges) && Bounded(ranges) && Apart(ranges) && e in ranges && Hits(e, id)
    ensures Mentions(ranges, id)
  {
    if !Mentions(ranges, id) {
      UnmentionedStays(ranges, id);
      var x := Origin(ranges, e, id);
    }
  }

  lemma ApartRangesIff(ranges: RangeMap)
    requires Disjoint(ranges) && Bounded(ranges)
    ensures Apart(ranges) <==> Separate(ranges)
  {
    if Separate(ranges) {
      SeparateIsApart(ranges);
    }
    if Apart(ranges) {
      forall e | e in ranges && e.Squash? ensures e.end <= e.start + 1 {
        if e.start + 1 < e.end {
          SquashedMeet(ranges, e);
        }
      }
      forall i, j | 0 <= i < j < |ranges| ensures !Meet(ranges[i], ranges[j]) {
        ApartDoNotMeet(ranges, i, j);
      }
      forall e, id: Id | e in ranges && Hits(e, id) ensures Mentions(ranges, id) {
        ApartMentions(ranges, e, id);
      }
    }
  }

  lemma EntriesBounded(args: seq<Argument>)
    requires AllFit(args)
    ensures Bounded(GuestEntries(args)) && Bounded(HostEntries(args))
  {
    forall e | e in GuestEntries(args) ensures e.end <= ID_LIMIT {
      var a := CollectFrom(GuestSide, args, e);
    }
    forall e | e in HostEntries(args) ensures e.end <= ID_LIMIT {
      var a := CollectFrom(HostSide, args, e);
    }
  }

  /** Whatever the arguments: when IDs that are mapped stay apart, in either direction. */
  lemma ApartIff(args: seq<Argument>)
    requires Acceptable(args)
    ensures Apart(GuestEntries(args)) <==> Separate(GuestEntries(args))
    ensures Apart(HostEntries(args)) <==> Separate(HostEntries(args))
  {
    EntriesBounded(args);
    ApartRangesIff(GuestEntries(args));
    ApartRangesIff(HostEntries(args));
  }

  /** An ID that no argument mentions stays as it is, and so meets the one that is mapped to it. */
  lemma UnmappedMeetsMapped(args: seq<Argument>, guest: Id, host: Id, count: Id, id: Id, unmapped: Id)
    requires Acceptable(args) && Bidirectional(guest, host, count) in args && guest <= id < guest + count
    requires unmapped == host + (id - guest) && Get(GuestEntries(args), unmapped).None?
    ensures MapId(GuestEntries(args), id) == MapId(GuestEntries(args), unmapped)
  {
    CollectHas(GuestSide, args, Bidirectional(guest, host, count), Shift(guest, guest + count, host));
    GetFinds(GuestEntries(args), id, Shift(guest, guest + count, host));
  }
}
