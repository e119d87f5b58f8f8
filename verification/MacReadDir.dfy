/**
  The macOS reader of host directories: it reads the whole directory each time, takes the guest's
  offset for a number of entries to skip, and gives each entry its number as its offset.

  `Advance` says what the reader does on any bytes; on what the kernel returns, it yields the
  entries after the ones skipped, so that listings are complete as they are on Linux.
 */
module MacReadDirs {
  import opened Bytes
  import opened Dirents
  import D = DirectoryPaging
  import opened DescriptorUtils
  import opened DirectoryReplies
  import opened R = ReadDirs
  import opened Wrappers

  const NAME_OFFSET := 21
  const CHUNK_SIZE := 0x8000

  // ----- Reading any bytes -------------------------------------------------------------------

  /** `Panic` is a name without a NUL. */
  datatype Outcome = Found(entry: DirEntry) | NoEntry | Panic

  /** The bytes that are left, how many entries to skip, and the number of the last entry. */
  datatype Position = Position(left: seq<byte>, skip: nat, index: nat)

  predicate HasRecord(bs: seq<byte>) {
    |bs| >= NAME_OFFSET && 0 < FromLe(bs[16..18]) <= |bs|
  }

  /** The entry at the front, under the name that its length tells, or else up to the first NUL. */
  function Front(bs: seq<byte>, index: nat): Outcome
    requires HasRecord(bs)
  {
    var end := NAME_OFFSET + FromLe(bs[18..20]);
    if end > |bs| then NoEntry
    else if end < |bs| && bs[end] == 0 then Found(DirEntry(FromLe(bs[..8]), index, bs[20], bs[NAME_OFFSET..end]))
    else if 0 in bs[NAME_OFFSET..end] then Found(DirEntry(FromLe(bs[..8]), index, bs[20], Stripped(bs[NAME_OFFSET..end])))
    else Panic
  }

  function Stripped(bs: seq<byte>): Name {
    if bs == [] || bs[0] == 0 then [] else [bs[0]] + Stripped(bs[1..])
  }

  function Advance(p: Position): (Outcome, Position)
    decreases |p.left|
  {
    if !HasRecord(p.left) then (NoEntry, p)
    else
      var left := p.left[FromLe(p.left[16..18])..];
      if p.skip > 0 then Advance(Position(left, p.skip - 1, p.index + 1))
      else (Front(p.left, p.index + 1), Position(left, 0, p.index + 1))
  }

  lemma {:induction false} StrippedIs(bs: seq<byte>, name: Name)
    requires name < bs && 0 !in name && bs[|name|] == 0
    ensures Stripped(bs) == name
  {
    if name != [] {
      assert bs[0] == name[0] && bs[0] in name;
      StrippedIs(bs[1..], name[1..]);
      assert name == [name[0]] + name[1..];
    }
  }

  /** A name that no NUL follows ends at the first NUL within it; there must be one. */
  lemma FrontStrips(bs: seq<byte>, index: nat)
    requires HasRecord(bs) && NAME_OFFSET + FromLe(bs[18..20]) <= |bs|
    requires var end := NAME_OFFSET + FromLe(bs[18..20]); end == |bs| || bs[end] != 0
    ensures var field := bs[NAME_OFFSET..NAME_OFFSET + FromLe(bs[18..20])];
            && (Front(bs, index).Panic? <==> 0 !in field)
            && (0 in field ==> Front(bs, index).Found? && Front(bs, index).entry.name + [0] <= field && 0 !in Front(bs, index).entry.name)
  {
    var field := bs[NAME_OFFSET..NAME_OFFSET + FromLe(bs[18..20])];
    if 0 in field {
      StrippedEnds(field);
    }
  }

  lemma {:induction false} StrippedEnds(bs: seq<byte>)
    requires 0 in bs
    ensures Stripped(bs) + [0] <= bs && 0 !in Stripped(bs)
  {
    if bs[0] != 0 {
      assert bs == [bs[0]] + bs[1..];
      StrippedEnds(bs[1..]);
    }
  }

  class MacReadDir {
    const dirBuf: seq<byte>
    var current: nat
    var skipRemaining: nat
    var entryIndex: nat

    ghost predicate Valid()
      reads this
    {
      current <= |dirBuf|
    }

    ghost function State(): Position
      requires Valid()
      reads this
    {
      Position(dirBuf[current..], skipRemaining, entryIndex)
    }

    constructor (dirBuf: seq<byte>, skip: nat)
      ensures Valid() && State() == Position(dirBuf, skip, 0)
    {
      this.dirBuf, current, skipRemaining, entryIndex := dirBuf, 0, skip, 0;
    }

    method Next() returns (r: Outcome)
      requires Valid()
      modifies this
      ensures Valid() && (r, State()) == Advance(old(State()))
    {
      while true
        invariant Valid() && Advance(State()) == Advance(old(State()))
        decreases |dirBuf| - current
      {
        ghost var before := State();
        var rem := dirBuf[current..];
        if |rem| < NAME_OFFSET {
          return NoEntry;
        }
        var reclen, namlen := FromLe(rem[16..18]), FromLe(rem[18..20]);
        if reclen == 0 || reclen > |rem| {
          return NoEntry;
        }
        current, entryIndex := current + reclen, entryIndex + 1;
        assert dirBuf[current..] == rem[reclen..];
        if skipRemaining > 0 {
          skipRemaining := skipRemaining - 1;
          continue;
        }
        var end := NAME_OFFSET + namlen;
        if end > |rem| {
          return NoEntry;
        }
        var name := rem[NAME_OFFSET..end];
        if end == |rem| || rem[end] != 0 {
          var stripped := StripPadding(name);
          if stripped.None? {
            return Panic;
          }
          StrippedIs(name, stripped.value);
          name := stripped.value;
        }
        return Found(DirEntry(FromLe(rem[..8]), entryIndex, rem[20], name));
      }
    }
  }

  // ----- What the kernel returns -------------------------------------------------------------

  /** Its own seek offset is of no use; after the name come a NUL and any padding. */
  datatype MacRecord = MacRecord(ino: nat, seekOffset: nat, kind: byte, name: Name, padding: seq<byte>)

  function RecordSize(m: MacRecord): nat {
    NAME_OFFSET + |m.name| + 1 + |m.padding|
  }

  predicate IsRecord(m: MacRecord) {
    IsU64(m.ino) && IsU64(m.seekOffset) && |m.name| <= NAME_MAX && 0 !in m.name && RecordSize(m) <= CHUNK_SIZE
  }

  predicate AreRecords(ms: seq<MacRecord>) {
    forall k | 0 <= k < |ms| :: IsRecord(ms[k])
  }

  function Header(m: MacRecord): (bs: seq<byte>)
    ensures |bs| == NAME_OFFSET
  {
    Le(m.ino, U64_SIZE) + Le(m.seekOffset, U64_SIZE) + Le(RecordSize(m), 2) + Le(|m.name|, 2) + [m.kind]
  }

  function RecordBytes(m: MacRecord): (bs: seq<byte>)
    ensures |bs| == RecordSize(m)
  {
    Header(m) + (m.name + ([0] + m.padding))
  }

  function AllBytes(ms: seq<MacRecord>): seq<byte> {
    if ms == [] then [] else RecordBytes(ms[0]) + AllBytes(ms[1..])
  }

  lemma {:induction false} BytesAppend(ms: seq<MacRecord>, m: MacRecord)
    ensures AllBytes(ms + [m]) == AllBytes(ms) + RecordBytes(m)
  {
    if ms == [] {
      assert ms + [m] == [m] && [m][1..] == [];
    } else {
      assert (ms + [m])[1..] == ms[1..] + [m];
      BytesAppend(ms[1..], m);
    }
  }

  lemma {:induction false} BytesConcat(a: seq<MacRecord>, b: seq<MacRecord>)
    ensures AllBytes(a + b) == AllBytes(a) + AllBytes(b)
  {
    if a == [] {
      assert a + b == b;
    } else {
      assert (a + b)[1..] == a[1..] + b;
      BytesConcat(a[1..], b);
    }
  }

  lemma Fields(m: MacRecord, tail: seq<byte>)
    requires IsRecord(m)
    ensures var bs := Header(m) + tail;
            && FromLe(bs[..8]) == m.ino && FromLe(bs[16..18]) == RecordSize(m)
            && FromLe(bs[18..20]) == |m.name| && bs[20] == m.kind
  {
    var bs := Header(m) + tail;
    PowersOf256();
    LeRoundTrip(m.ino, U64_SIZE);
    LeRoundTrip(RecordSize(m), 2);
    LeRoundTrip(|m.name|, 2);
    assert bs[..8] == Le(m.ino, U64_SIZE);
    assert bs[16..18] == Le(RecordSize(m), 2);
    assert bs[18..20] == Le(|m.name|, 2);
  }

  /** The entry for the record with that number. */
  function Entry(m: MacRecord, index: nat): DirEntry {
    DirEntry(m.ino, index, m.kind, m.name)
  }

  lemma FrontOf(m: MacRecord, rest: seq<byte>, index: nat)
    requires IsRecord(m)
    ensures var bs := RecordBytes(m) + rest;
            && HasRecord(bs) && FromLe(bs[16..18]) == RecordSize(m) && bs[RecordSize(m)..] == rest
            && Front(bs, index) == Found(Entry(m, index))
  {
    var bs, tail := RecordBytes(m) + rest, m.name + ([0] + m.padding) + rest;
    assert bs == Header(m) + tail;
    Fields(m, tail);
    var end := NAME_OFFSET + |m.name|;
    assert bs[NAME_OFFSET..end] == m.name && bs[end] == 0;
  }

  // ----- Listings ----------------------------------------------------------------------------

  /** The directory as the guest sees it: every entry's offset is its number. */
  function Numbered(ms: seq<MacRecord>): (es: seq<DirEntry>)
    ensures |es| == |ms|
  {
    seq(|ms|, k requires 0 <= k < |ms| => Entry(ms[k], k + 1))
  }

  /** All entries that a reader yields, up to the first time that it has none. */
  function Yields(p: Position): seq<DirEntry>
    decreases |p.left|
  {
    var (outcome, next) := Advance(p);
    if outcome.Found? && |next.left| < |p.left| then [outcome.entry] + Yields(next) else []
  }

  /** What a reader does that has these records left. */
  function Advanced(ms: seq<MacRecord>, skip: nat, index: nat): (Outcome, Position) {
    Advance(Position(AllBytes(ms), skip, index))
  }

  lemma {:induction false} SkipsOne(ms: seq<MacRecord>, skip: nat, index: nat)
    requires AreRecords(ms) && ms != [] && skip > 0
    ensures Advanced(ms, skip, index) == Advanced(ms[1..], skip - 1, index + 1)
  {
    FrontOf(ms[0], AllBytes(ms[1..]), index + 1);
  }

  lemma {:induction false} GivesFirst(ms: seq<MacRecord>, index: nat)
    requires AreRecords(ms) && ms != []
    ensures Advanced(ms, 0, index) == (Found(Entry(ms[0], index + 1)), Position(AllBytes(ms[1..]), 0, index + 1))
  {
    FrontOf(ms[0], AllBytes(ms[1..]), index + 1);
  }

  lemma GivesNone(skip: nat, index: nat)
    ensures Advanced([], skip, index) == (NoEntry, Position([], skip, index))
  {
  }

  lemma {:induction false} SkipsMany(ms: seq<MacRecord>, skip: nat, index: nat, m: nat)
    requires AreRecords(ms) && m <= skip && m <= |ms|
    ensures Advanced(ms, skip, index) == Advanced(ms[m..], skip - m, index + m)
  {
    var xs := seq(m + 1, n requires 0 <= n <= m => Advanced(ms[n..], skip - n, index + n));
    forall n | 0 <= n < m ensures xs[n + 1] == xs[n] {
      SkipsOne(ms[n..], skip - n, index + n);
      assert ms[n..][1..] == ms[n + 1..];
    }
    Constant(xs, 0, m);
    assert ms[0..] == ms;
  }

  /** The next entry is the one after those to skip, under its number; at the end there is none. */
  lemma {:induction false} AdvanceSkips(ms: seq<MacRecord>, skip: nat, index: nat)
    requires AreRecords(ms)
    ensures Advanced(ms, skip, index) ==
            if skip < |ms|
            then (Found(Entry(ms[skip], index + skip + 1)), Position(AllBytes(ms[skip + 1..]), 0, index + skip + 1))
            else (NoEntry, Position([], skip - |ms|, index + |ms|))
  {
    if skip < |ms| {
      SkipsMany(ms, skip, index, skip);
      GivesFirst(ms[skip..], index + skip);
      assert ms[skip..][1..] == ms[skip + 1..];
    } else {
      SkipsMany(ms, skip, index, |ms|);
      assert ms[|ms|..] == [];
      GivesNone(skip - |ms|, index + |ms|);
    }
  }

  lemma {:induction false} BytesLonger(ms: seq<MacRecord>, k: nat)
    requires k <= |ms|
    ensures |AllBytes(ms[k..])| + k <= |AllBytes(ms)|
  {
    if k > 0 {
      assert ms[k..] == ms[1..][k - 1..];
      BytesLonger(ms[1..], k - 1);
    } else {
      assert ms[0..] == ms;
    }
  }

  /** What a reader yields that has these records left, has `skip` of them to skip, and is at number `index`. */
  ghost predicate YieldsThese(ms: seq<MacRecord>, skip: nat, index: nat, es: seq<DirEntry>) {
    Yields(Position(AllBytes(ms), skip, index)) == es
  }

  lemma YieldsNext(ms: seq<MacRecord>, skip: nat, index: nat, es: seq<DirEntry>)
    requires AreRecords(ms) && skip < |ms| && YieldsThese(ms[skip + 1..], 0, index + skip + 1, es)
    ensures YieldsThese(ms, skip, index, [Entry(ms[skip], index + skip + 1)] + es)
  {
    AdvanceSkips(ms, skip, index);
    BytesLonger(ms, skip + 1);
  }

  lemma YieldsNone(ms: seq<MacRecord>, skip: nat, index: nat)
    requires AreRecords(ms) && |ms| <= skip
    ensures YieldsThese(ms, skip, index, [])
  {
    AdvanceSkips(ms, skip, index);
  }

  lemma NumberedFrom(ms: seq<MacRecord>, k: nat)
    requires k < |ms|
    ensures Numbered(ms)[k..] == [Entry(ms[k], k + 1)] + Numbered(ms)[k + 1..]
  {
  }

  lemma {:induction false} YieldsRest(all: seq<MacRecord>, at: nat, skip: nat)
    requires AreRecords(all) && at <= |all|
    ensures YieldsThese(all[at..], skip, at, if at + skip <= |all| then Numbered(all)[at + skip..] else [])
    decreases |all| - at
  {
    var next := at + skip + 1;
    if next <= |all| {
      assert all[at..][skip + 1..] == all[next..] && all[at..][skip] == all[at + skip];
      YieldsRest(all, next, 0);
      YieldsNext(all[at..], skip, at, Numbered(all)[next..]);
      NumberedFrom(all, at + skip);
    } else {
      YieldsNone(all[at..], skip, at);
    }
  }

  /** Numbers are offsets by which a listing can be resumed. */
  lemma NumbersAreCookies(ms: seq<MacRecord>, offset: nat)
    ensures UniqueCookies(Numbered(ms))
    ensures IsCookie(Numbered(ms), offset) <==> offset <= |ms|
    ensures offset <= |ms| ==> After(Numbered(ms), offset) == Numbered(ms)[offset..]
  {
    if 0 < offset <= |ms| {
      assert Numbered(ms)[offset - 1].offset == offset;
      PastAt(Numbered(ms), offset - 1);
    }
  }

  /** An open, unchanging directory and the position of its descriptor. */
  class MacDir {
    const records: seq<MacRecord>
    var pos: nat

    ghost predicate Valid()
      reads this
    {
      AreRecords(records) && pos <= |records|
    }

    method Rewind()
      requires Valid()
      modifies this
      ensures Valid() && pos == 0
    {
      pos := 0;
    }

    /** `__getdirentries64`: some whole records, and none only at the end. */
    method GetDirEntries() returns (bs: seq<byte>)
      requires Valid()
      modifies this
      ensures Valid() && old(pos) <= pos && bs == AllBytes(records[old(pos)..pos]) && |bs| <= CHUNK_SIZE
      ensures bs == [] <==> old(pos) == |records|
      ensures bs == [] ==> pos == old(pos)
    {
      bs := [];
      var more := pos < |records|;
      while more
        invariant old(pos) <= pos <= |records|
        invariant bs == AllBytes(records[old(pos)..pos]) && |bs| <= CHUNK_SIZE
        invariant more ==> pos < |records| && |bs| + RecordSize(records[pos]) <= CHUNK_SIZE
        invariant bs == [] ==> pos == old(pos) && (more || pos == |records|)
        decreases more, |records| - pos
      {
        BytesAppend(records[old(pos)..pos], records[pos]);
        assert records[old(pos)..pos] + [records[pos]] == records[old(pos)..pos + 1];
        bs, pos := bs + RecordBytes(records[pos]), pos + 1;
        more := *;
        more := more && pos < |records| && |bs| + RecordSize(records[pos]) <= CHUNK_SIZE;
      }
    }
  }

  /** Read everything from the position on, chunk by chunk. */
  method ReadWhole(dir: MacDir) returns (dirBuf: seq<byte>)
    requires dir.Valid()
    modifies dir
    ensures dir.Valid() && dirBuf == AllBytes(dir.records[old(dir.pos)..])
  {
    dirBuf := [];
    ghost var start := dir.pos;
    while true
      invariant dir.Valid() && start <= dir.pos && dirBuf == AllBytes(dir.records[start..dir.pos])
      decreases |dir.records| - dir.pos
    {
      ghost var from := dir.pos;
      var chunk := dir.GetDirEntries();
      if chunk == [] {
        assert dir.records[start..dir.pos] == dir.records[start..];
        return;
      }
      BytesConcat(dir.records[start..from], dir.records[from..dir.pos]);
      assert dir.records[start..from] + dir.records[from..dir.pos] == dir.records[start..dir.pos];
      dirBuf := dirBuf + chunk;
    }
  }

  /** A reader that yields the entries after number `offset`, wherever the descriptor stood. */
  method NewMacReadDir(dir: MacDir, offset: nat) returns (rd: MacReadDir)
    requires dir.Valid()
    modifies dir
    ensures dir.Valid() && fresh(rd) && rd.Valid()
    ensures Yields(rd.State()) == if offset <= |dir.records| then After(Numbered(dir.records), offset) else []
  {
    dir.Rewind();
    var dirBuf := ReadWhole(dir);
    rd := new MacReadDir(dirBuf, offset);
    assert dir.records[0..] == dir.records;
    YieldsRest(dir.records, 0, offset);
    NumbersAreCookies(dir.records, offset);
  }

  lemma NumberedAreHostEntries(ms: seq<MacRecord>)
    requires AreRecords(ms) && |ms| <= USIZE_MAX
    ensures HostEntries(Numbered(ms))
  {
  }

  /** What of these entries fits into a reply is a page of the numbered directory, */
  lemma MacPage(ms: seq<MacRecord>, offset: nat, requested: nat)
    requires AreRecords(ms) && offset <= |ms| <= USIZE_MAX
    ensures var yielded := if requested == 0 then [] else After(Numbered(ms), offset);
            D.IsPage(D.Fitting(yielded, Min(requested, MAX_BUFFER_SIZE)), Numbered(ms), offset, requested)
  {
    var es := Numbered(ms);
    NumberedAreHostEntries(ms);
    var yielded := if requested == 0 then [] else After(es, offset);
    assert After(es, offset) + es[|es|..] == After(es, offset);
    D.PageFromReader(yielded, es, |es|, offset, requested);
  }

  /** so that pages, each resumed at the last number of the one before, make up the whole directory. */
  lemma MacListingIsComplete(ms: seq<MacRecord>, pages: seq<seq<DirEntry>>, sizes: nat -> nat)
    requires D.IsListing(Numbered(ms), pages, sizes) && forall n :: D.TakesAnyEntry(Numbered(ms), sizes(n))
    ensures |pages| <= |ms| + 1
    ensures pages != [] && pages[|pages| - 1] == [] ==> D.Joined(pages) == Numbered(ms)
  {
    NumbersAreCookies(ms, 0);
    D.ListingIsComplete(Numbered(ms), pages, sizes);
  }
}
