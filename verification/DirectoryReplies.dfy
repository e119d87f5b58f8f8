/**
  The READDIRPLUS handler.  It looks up every entry it reports, which counts as a lookup by the
  guest, and must take back lookups that it cannot report.
 */
module DirectoryReplies {
  import opened Bytes
  import opened DescriptorUtils
  import opened Dirents
  import opened Wrappers

  const OUT_HEADER_SIZE := 16
  const MAX_BUFFER_SIZE := 0x10_0000

  /** Error numbers are positive. */
  type Errno = e: nat | 0 < e < 0x8000_0000 witness 1

  const ENOMEM: Errno := 12
  const EIO: Errno := 5

  /** `Panicked`: the header did not fit into the writer. */
  datatype Reply = Done(len: nat) | Failed(errno: Errno) | Panicked

  /** The outcome of a call into the file system. */
  datatype IoResult<+T> = Success(value: T) | Failure(errno: Errno)

  /** What a file system is asked for.  Inode 0 stands for "no inode" and is never counted. */
  datatype Event = LookedUp(inode: nat) | LookupFailed | Forgot(inode: nat)

  class FileSystem {
    var log: seq<Event>

    method Lookup(outcome: IoResult<Entry>) returns (r: IoResult<Entry>)
      modifies this
      ensures r == outcome
      ensures log == old(log) + [if r.Success? then LookedUp(r.value.inode) else LookupFailed]
    {
      r := outcome;
      log := log + [if r.Success? then LookedUp(r.value.inode) else LookupFailed];
    }

    method Forget(inode: nat)
      modifies this
      ensures log == old(log) + [Forgot(inode)]
    {
      log := log + [Forgot(inode)];
    }
  }

  /** Lookups minus forgets. */
  ghost function Net(events: seq<Event>, i: nat): int {
    if events == [] then 0
    else
      var last := events[|events| - 1];
      Net(events[..|events| - 1], i) + if last == LookedUp(i) then 1 else if last == Forgot(i) then -1 else 0
  }

  /** A lookup is taken back only right after it was made. */
  ghost predicate Paired(events: seq<Event>) {
    events == [] ||
      var front, last := events[..|events| - 1], events[|events| - 1];
      Paired(front) && (last.Forgot? && last.inode != 0 ==> front != [] && front[|front| - 1] == LookedUp(last.inode))
  }

  // ----- The header of a reply ---------------------------------------------------------------

  /** `error` is 0, or an error number with its sign changed. */
  datatype OutHeader = OutHeader(len: nat, error: int, unique: U64)

  predicate IsOutHeader(h: OutHeader) {
    IsU32(h.len) && -0x8000_0000 <= h.error < 0x8000_0000
  }

  function EncodeOutHeader(h: OutHeader): (bs: seq<byte>)
    requires IsOutHeader(h)
    ensures |bs| == OUT_HEADER_SIZE
  {
    Le(h.len, U32_SIZE) + Le(if h.error < 0 then 0x1_0000_0000 + h.error else h.error, U32_SIZE) + Le(h.unique, U64_SIZE)
  }

  /** As the guest reads it: length, error in two's complement, and the number of the request. */
  function DecodeOutHeader(bs: seq<byte>): OutHeader
    requires |bs| == OUT_HEADER_SIZE
  {
    FromLeRoundTrip(bs[8..16]);
    PowersOf256();
    var error := FromLe(bs[4..8]);
    OutHeader(FromLe(bs[..4]), if error < 0x8000_0000 then error else error - 0x1_0000_0000, FromLe(bs[8..16]))
  }

  lemma OutHeaderReadsBack(h: OutHeader)
    requires IsOutHeader(h)
    ensures DecodeOutHeader(EncodeOutHeader(h)) == h
  {
    var bs, error := EncodeOutHeader(h), if h.error < 0 then 0x1_0000_0000 + h.error else h.error;
    PowersOf256();
    LeRoundTrip(h.len, U32_SIZE);
    LeRoundTrip(error, U32_SIZE);
    LeRoundTrip(h.unique, U64_SIZE);
    assert bs[..4] == Le(h.len, U32_SIZE) && bs[4..8] == Le(error, U32_SIZE) && bs[8..16] == Le(h.unique, U64_SIZE);
  }

  // ----- Entries -----------------------------------------------------------------------------

  predicate IsDot(name: seq<byte>) {
    name == [46] || name == [46, 46]
  }

  /** A negative entry with just the inode number and the file type. */
  function DotEntry(d: DirEntry): Entry {
    Entry(0, Zeros(32) + Le(d.ino, U64_SIZE) + Zeros(52) + Le(d.kind * 0x1000, U32_SIZE) + Zeros(24))
  }

  /** The guest finds the number and the type in the attributes, and no inode to hold on to. */
  lemma DotEntryFields(d: DirEntry)
    requires WellFormedDirent(d) && d.kind < 0x10_0000
    ensures var bs := EncodeEntry(Some(DotEntry(d)));
            && |bs| == ENTRY_OUT_SIZE && FromLe(bs[..8]) == 0
            && FromLe(bs[40..48]) == d.ino && FromLe(bs[100..104]) == d.kind * 0x1000
  {
    var bs := EncodeEntry(Some(DotEntry(d)));
    PowersOf256();
    LeRoundTrip(0, U64_SIZE);
    LeRoundTrip(d.ino, U64_SIZE);
    LeRoundTrip(d.kind * 0x1000, U32_SIZE);
    assert bs[..8] == Le(0, U64_SIZE);
    assert bs[40..48] == Le(d.ino, U64_SIZE);
    assert bs[100..104] == Le(d.kind * 0x1000, U32_SIZE);
  }

  ghost function Naming(records: seq<Record>, i: nat): nat {
    if records == [] then 0
    else (if records[0].entry.Some? && records[0].entry.value.inode == i then 1 else 0) + Naming(records[1..], i)
  }

  lemma {:induction false} NamingAppend(records: seq<Record>, r: Record, i: nat)
    ensures Naming(records + [r], i) ==
            Naming(records, i) + if r.entry.Some? && r.entry.value.inode == i then 1 else 0
  {
    if records == [] {
      assert records + [r] == [r] && [r][1..] == [];
    } else {
      assert (records + [r])[1..] == records[1..] + [r];
      NamingAppend(records[1..], r, i);
    }
  }

  /** What `handle_dirent` gives for an entry, if looking it up has the given outcome. */
  function EntryFor(d: DirEntry, outcome: IoResult<Entry>): IoResult<Entry> {
    if IsDot(d.name) then Success(DotEntry(d)) else outcome
  }

  function RecordFor(d: DirEntry, outcome: IoResult<Entry>): Record {
    Record(if EntryFor(d, outcome).Success? then Some(EntryFor(d, outcome).value) else None, d)
  }

  /** The entry of a record is the one looked up, but `.` and `..` are not looked up and name no inode. */
  lemma RecordNames(d: DirEntry, outcome: IoResult<Entry>)
    ensures d.name !in {[46], [46, 46]} && outcome.Success? ==> RecordFor(d, outcome) == Record(Some(outcome.value), d)
    ensures d.name in {[46], [46, 46]} ==> RecordFor(d, outcome).entry.Some? && RecordFor(d, outcome).entry.value.inode == 0
    ensures d.name in {[46], [46, 46]} ==> TurnEvents(IsDot(d.name), EntryFor(d, outcome), true) == []
  {
  }

  /** With `max` bytes left of the requested size and `space` in the buffer, the record can be added. */
  predicate Adds(d: DirEntry, outcome: IoResult<Entry>, max: nat, space: nat) {
    && EntryFor(d, outcome).Success? && IsU32(|d.name|)
    && |Encode(RecordFor(d, outcome))| <= max && |Encode(RecordFor(d, outcome))| <= space
  }

  /** It cannot, and not just because the requested size is used up. */
  predicate Errs(d: DirEntry, outcome: IoResult<Entry>, max: nat, space: nat) {
    || EntryFor(d, outcome).Failure? || !IsU32(|d.name|)
    || space < |Encode(RecordFor(d, outcome))| <= max
  }

  /** The error of the lookup, or EIO if the record cannot be written. */
  function ErrnoOf(d: DirEntry, outcome: IoResult<Entry>): Errno {
    if EntryFor(d, outcome).Failure? then EntryFor(d, outcome).errno else EIO
  }

  /** The records are those of the first entries, in order. */
  ghost predicate Reports(records: seq<Record>, entries: seq<DirEntry>, outcomes: seq<IoResult<Entry>>) {
    && |records| <= |entries| && |records| <= |outcomes|
    && forall k | 0 <= k < |records| ::
         WellFormed(records[k]) && records[k].entry.Some? && records[k] == RecordFor(entries[k], outcomes[k])
  }

  /** The next entry after the records, if any, is one that cannot be added. */
  ghost predicate Full(records: seq<Record>, entries: seq<DirEntry>, outcomes: seq<IoResult<Entry>>, size: nat, space: nat) {
    |records| < |entries| && |records| < |outcomes| ==>
      var total := |EncodeAll(records)|;
      total <= size && total <= space
      && !Adds(entries[|records|], outcomes[|records|], size - total, space - total)
  }

  /** A reply is an error only if the very first entry makes it one. */
  predicate FirstErrs(entries: seq<DirEntry>, outcomes: seq<IoResult<Entry>>, size: nat, space: nat) {
    entries != [] && outcomes != [] && Errs(entries[0], outcomes[0], size, space)
  }

  ghost predicate ValidInput(entries: seq<DirEntry>, outcomes: seq<IoResult<Entry>>) {
    && |outcomes| == |entries|
    && forall k | 0 <= k < |entries| ::
         WellFormedDirent(entries[k]) && (outcomes[k].Success? ==> WellFormedEntry(outcomes[k].value))
  }

  /** `cursor` holds `bs`, having started out over `stream` in memory `mem0`. */
  ghost predicate Holds(cursor: DescriptorChainConsumer, mem: array<byte>, mem0: seq<byte>, stream: seq<nat>, bs: seq<byte>)
    reads cursor, mem
  {
    && cursor.Valid() && InBounds(stream, mem.Length) && |mem0| == mem.Length
    && |bs| <= |stream| && cursor.Stream() == stream[|bs|..]
    && mem[..] == StoreAt(mem0, stream, bs)
  }

  /** Append one record to the bytes there, or leave part of it behind them. */
  method AppendRecord(cursor: DescriptorChainConsumer, mem: array<byte>, max: nat, d: DirEntry, entry: Option<Entry>,
                      ghost mem0: seq<byte>, ghost stream: seq<nat>, ghost before: seq<byte>)
    returns (r: Result<nat, Error>, ghost tail: seq<byte>)
    requires Holds(cursor, mem, mem0, stream, before)
    requires WellFormedDirent(d) && (entry.Some? ==> WellFormedEntry(entry.value))
    modifies cursor, mem
    ensures var bs := Encode(Record(entry, d));
            && (r == Ok(0) <==> IsU32(|d.name|) && max < |bs|)
            && (r.Ok? && r.value > 0 <==> IsU32(|d.name|) && |bs| <= max && |before| + |bs| <= |stream|)
            && (r.Ok? && r.value > 0 ==> r.value == |bs| && Holds(cursor, mem, mem0, stream, before + bs))
            && ((r.Ok? ==> r.value == 0) ==> mem[..] == StoreAt(mem0, stream, before + tail))
  {
    r, tail := AddDirent(cursor, mem, max, d, entry);
    StoreAtConcat(mem0, stream, before, tail);
  }

  /** One lookup is kept for each record that names an inode, and all others were taken back at once. */
  ghost predicate Accounted(events: seq<Event>, records: seq<Record>) {
    Paired(events) && forall i | i != 0 :: Net(events, i) == Naming(records, i)
  }

  /** What one turn of the loop asks the file system for, when `e` is the entry or the error it gets. */
  function TurnEvents(dot: bool, e: IoResult<Entry>, added: bool): seq<Event> {
    if e.Failure? then [LookupFailed]
    else if dot then if added then [] else [Forgot(e.value.inode)]
    else if added then [LookedUp(e.value.inode)]
    else [LookedUp(e.value.inode), Forgot(e.value.inode)]
  }

  lemma OneEvent(events: seq<Event>, e: Event)
    ensures Paired(events + [e]) <==>
            Paired(events) && (e.Forgot? && e.inode != 0 ==> events != [] && events[|events| - 1] == LookedUp(e.inode))
    ensures forall i :: Net(events + [e], i) == Net(events, i) + if e == LookedUp(i) then 1 else if e == Forgot(i) then -1 else 0
  {
    assert (events + [e])[..|events|] == events;
  }

  lemma KeptAccounts(events: seq<Event>, records: seq<Record>, r: Record)
    requires Accounted(events, records) && r.entry.Some?
    ensures Accounted(events + [LookedUp(r.entry.value.inode)], records + [r])
    ensures r.entry.value.inode == 0 ==> Accounted(events, records + [r])
  {
    OneEvent(events, LookedUp(r.entry.value.inode));
    NamingAppendAll(records, r);
  }

  lemma TakenBackAccounts(events: seq<Event>, records: seq<Record>, i: nat)
    requires Accounted(events, records)
    ensures Accounted(events + [LookedUp(i), Forgot(i)], records)
    ensures i == 0 ==> Accounted(events + [Forgot(i)], records)
    ensures Accounted(events + [LookupFailed], records)
  {
    OneEvent(events, LookedUp(i));
    OneEvent(events + [LookedUp(i)], Forgot(i));
    assert events + [LookedUp(i)] + [Forgot(i)] == events + [LookedUp(i), Forgot(i)];
    OneEvent(events, Forgot(i));
    OneEvent(events, LookupFailed);
  }

  lemma Account(log: seq<Event>, events: seq<Event>, records: seq<Record>, dot: bool, e: IoResult<Entry>, added: bool, r: Record)
    returns (events': seq<Event>)
    requires Accounted(events, records) && (added ==> e.Success?) && (dot ==> e.Success? && e.value.inode == 0)
    requires e.Success? ==> r.entry == Some(e.value)
    ensures log + events' == log + events + TurnEvents(dot, e, added)
    ensures Accounted(events', if added then records + [r] else records)
  {
    events' := events + TurnEvents(dot, e, added);
    if added {
      KeptAccounts(events, records, r);
      assert events + [] == events;
    } else {
      TakenBackAccounts(events, records, if e.Success? then e.value.inode else 0);
    }
  }

  /**
    One turn of the loop of `readdirplus`: look the entry up and append its record.  A result of 0
    (no space left) or an error means that the record is not there and its lookup is taken back.
   */
  method LookUpAndAppend(cursor: DescriptorChainConsumer, mem: array<byte>, fs: FileSystem, max: nat,
                         d: DirEntry, outcome: IoResult<Entry>,
                         ghost mem0: seq<byte>, ghost stream: seq<nat>, ghost before: seq<byte>)
    returns (r: IoResult<nat>, ghost more: Record, ghost tail: seq<byte>)
    requires Holds(cursor, mem, mem0, stream, before)
    requires WellFormedDirent(d) && (outcome.Success? ==> WellFormedEntry(outcome.value))
    modifies cursor, mem, fs
    ensures r.Success? && r.value > 0 <==> Adds(d, outcome, max, |stream| - |before|)
    ensures r.Failure? <==> Errs(d, outcome, max, |stream| - |before|)
    ensures r.Failure? ==> r.errno == ErrnoOf(d, outcome)
    ensures r.Success? && r.value > 0 ==>
              && more == RecordFor(d, outcome) && WellFormed(more) && more.entry.Some?
              && r.value == |Encode(more)|
              && Holds(cursor, mem, mem0, stream, before + Encode(more))
    ensures r.Failure? || r.value == 0 ==> mem[..] == StoreAt(mem0, stream, before + tail)
    ensures fs.log == old(fs.log) + TurnEvents(IsDot(d.name), EntryFor(d, outcome), r.Success? && r.value > 0)
  {
    var e := Success(DotEntry(d));
    if !IsDot(d.name) {
      e := fs.Lookup(outcome);
    }
    if e.Failure? {
      tail := [];
      assert before + tail == before;
      return Failure(e.errno), Record(None, d), tail;
    }
    more := Record(Some(e.value), d);
    var w;
    w, tail := AppendRecord(cursor, mem, max, d, Some(e.value), mem0, stream, before);
    if w.Err? || w.value == 0 {
      fs.Forget(e.value.inode);
    }
    r := if w.Err? then Failure(EIO) else Success(w.value);
  }

  /** So far `records` were written for the first entries, and nothing else was done. */
  ghost predicate Filling(cursor: DescriptorChainConsumer, mem: array<byte>, mem0: seq<byte>, stream: seq<nat>,
                          size: nat, records: seq<Record>)
    reads cursor, mem
  {
    && Holds(cursor, mem, mem0, stream, EncodeAll(records))
    && |EncodeAll(records)| <= size && (records != [] ==> EncodeAll(records) != [])
  }

  /** The turn, seen from the records that are already there. */
  method AddPlus(cursor: DescriptorChainConsumer, mem: array<byte>, fs: FileSystem, max: nat,
                 d: DirEntry, outcome: IoResult<Entry>,
                 ghost mem0: seq<byte>, ghost stream: seq<nat>, ghost records: seq<Record>)
    returns (r: IoResult<nat>, ghost more: Record, ghost tail: seq<byte>)
    requires Filling(cursor, mem, mem0, stream, |EncodeAll(records)| + max, records)
    requires WellFormedDirent(d) && (outcome.Success? ==> WellFormedEntry(outcome.value))
    modifies cursor, mem, fs
    ensures r.Success? && r.value > 0 <==> Adds(d, outcome, max, |stream| - |EncodeAll(records)|)
    ensures r.Failure? <==> Errs(d, outcome, max, |stream| - |EncodeAll(records)|)
    ensures r.Failure? ==> r.errno == ErrnoOf(d, outcome)
    ensures r.Success? && r.value > 0 ==>
              && more == RecordFor(d, outcome) && WellFormed(more) && more.entry.Some?
              && |EncodeAll(records + [more])| == |EncodeAll(records)| + r.value
              && Filling(cursor, mem, mem0, stream, |EncodeAll(records)| + max, records + [more])
    ensures r.Failure? || r.value == 0 ==> mem[..] == StoreAt(mem0, stream, EncodeAll(records) + tail)
    ensures fs.log == old(fs.log) + TurnEvents(IsDot(d.name), EntryFor(d, outcome), r.Success? && r.value > 0)
  {
    r, more, tail := LookUpAndAppend(cursor, mem, fs, max, d, outcome, mem0, stream, EncodeAll(records));
    if r.Success? && r.value > 0 {
      EncodeAllAppend(records, more);
    }
  }

  lemma ReportsMore(records: seq<Record>, entries: seq<DirEntry>, outcomes: seq<IoResult<Entry>>, more: Record)
    requires Reports(records, entries, outcomes) && |records| < |entries| && |records| < |outcomes|
    requires WellFormed(more) && more.entry.Some? && more == RecordFor(entries[|records|], outcomes[|records|])
    ensures Reports(records + [more], entries, outcomes)
  {
  }

  /** And from the whole listing. */
  method AddNext(cursor: DescriptorChainConsumer, mem: array<byte>, fs: FileSystem, total: nat, size: nat,
                 entries: seq<DirEntry>, outcomes: seq<IoResult<Entry>>, k: nat,
                 ghost mem0: seq<byte>, ghost stream: seq<nat>, ghost log: seq<Event>, ghost events: seq<Event>,
                 ghost records: seq<Record>)
    returns (r: IoResult<nat>, ghost records': seq<Record>, ghost tail: seq<byte>, ghost events': seq<Event>)
    requires ValidInput(entries, outcomes) && k == |records| < |entries|
    requires total == |EncodeAll(records)| && Reports(records, entries, outcomes)
    requires Filling(cursor, mem, mem0, stream, size, records)
    requires fs.log == log + events && Accounted(events, records)
    modifies cursor, mem, fs
    ensures k == 0 ==> (r.Failure? <==> FirstErrs(entries, outcomes, size, |stream|))
    ensures r.Failure? ==> r.errno == ErrnoOf(entries[k], outcomes[k])
    ensures r.Success? && r.value > 0 ==>
              && |records'| == k + 1 && Reports(records', entries, outcomes)
              && total + r.value == |EncodeAll(records')|
              && Filling(cursor, mem, mem0, stream, size, records')
    ensures r.Failure? || r.value == 0 ==>
              && records' == records && Full(records, entries, outcomes, size, |stream|)
              && mem[..] == StoreAt(mem0, stream, EncodeAll(records) + tail)
    ensures fs.log == log + events' && Accounted(events', records')
  {
    ghost var d, outcome := entries[k], outcomes[k];
    ghost var more;
    r, more, tail := AddPlus(cursor, mem, fs, size - total, entries[k], outcomes[k], mem0, stream, records);
    ghost var added := r.Success? && r.value > 0;
    records' := records;
    if added {
      ReportsMore(records, entries, outcomes, more);
      records' := records + [more];
    }
    events' := Account(log, events, records, IsDot(d.name), EntryFor(d, outcome), added, RecordFor(d, outcome));
  }

  /** The loop of `readdirplus`.  `tail` are bytes beyond those that the reply will declare. */
  method FillPlus(cursor: DescriptorChainConsumer, mem: array<byte>, fs: FileSystem,
                  entries: seq<DirEntry>, outcomes: seq<IoResult<Entry>>, size: nat)
    returns (r: IoResult<nat>, ghost records: seq<Record>, ghost tail: seq<byte>, ghost events: seq<Event>)
    requires cursor.Valid() && InBounds(cursor.Stream(), mem.Length) && ValidInput(entries, outcomes)
    modifies cursor, mem, fs
    ensures Reports(records, entries, outcomes) && Full(records, entries, outcomes, size, |old(cursor.Stream())|)
    ensures r.Failure? <==> FirstErrs(entries, outcomes, size, |old(cursor.Stream())|)
    ensures r.Failure? ==> r.errno == ErrnoOf(entries[0], outcomes[0])
    ensures r.Success? ==> r.value == |EncodeAll(records)| <= size && r.value <= |old(cursor.Stream())|
    ensures r.Failure? ==> records == []
    ensures mem[..] == StoreAt(old(mem[..]), old(cursor.Stream()), EncodeAll(records) + tail)
    ensures fs.log == old(fs.log) + events && Accounted(events, records)
  {
    ghost var mem0, stream, log := mem[..], cursor.Stream(), fs.log;
    var total: nat := 0;
    records, tail, events := [], [], [];
    for k := 0 to |entries|
      invariant |records| == k && Reports(records, entries, outcomes)
      invariant Filling(cursor, mem, mem0, stream, size, records)
      invariant fs.log == log + events && Accounted(events, records)
      invariant total == |EncodeAll(records)|
      invariant k > 0 ==> !FirstErrs(entries, outcomes, size, |stream|) && total > 0
    {
      var w;
      w, records, tail, events :=
        AddNext(cursor, mem, fs, total, size, entries, outcomes, k, mem0, stream, log, events, records);
      if w.Failure? || w.value == 0 {
        return if w.Failure? && total == 0 then w else Success(total), records, tail, events;
      }
      total := total + w.value;
    }
    tail := [];
    assert EncodeAll(records) + [] == EncodeAll(records);
    r := Success(total);
  }

  lemma NamingAppendAll(records: seq<Record>, r: Record)
    requires r.entry.Some?
    ensures forall i :: Naming(records + [r], i) == Naming(records, i) + if r.entry.value.inode == i then 1 else 0
  {
    forall i ensures Naming(records + [r], i) == Naming(records, i) + if r.entry.value.inode == i then 1 else 0 {
      NamingAppend(records, r, i);
    }
  }

  // ----- The whole reply ---------------------------------------------------------------------

  /** Memory with a body, and anything behind it, and then a header. */
  ghost function WithReply(mem: seq<byte>, stream: seq<nat>, header: seq<byte>, body: seq<byte>): (mem': seq<byte>)
    requires InBounds(stream, |mem|) && OUT_HEADER_SIZE <= |stream|
    ensures |mem'| == |mem|
  {
    StoreAt(StoreAt(mem, stream[OUT_HEADER_SIZE..], body), stream[..OUT_HEADER_SIZE], header)
  }

  lemma ReplyHeaderReadsBack(mem: seq<byte>, stream: seq<nat>, header: seq<byte>, body: seq<byte>)
    requires InBounds(stream, |mem|) && Distinct(stream) && |header| == OUT_HEADER_SIZE <= |stream|
    ensures LoadAt(WithReply(mem, stream, header, body), stream[..OUT_HEADER_SIZE]) == header
  {
    var mem' := WithReply(mem, stream, header, body);
    forall k | 0 <= k < OUT_HEADER_SIZE ensures mem'[stream[..OUT_HEADER_SIZE][k]] == header[k] {
      ReplyByte(mem, stream, body, header, k);
    }
  }

  lemma ReplyBodyReadsBack(mem: seq<byte>, stream: seq<nat>, header: seq<byte>, body: seq<byte>, n: nat)
    requires InBounds(stream, |mem|) && Distinct(stream) && |header| == OUT_HEADER_SIZE
    requires n <= |body| && OUT_HEADER_SIZE + n <= |stream|
    ensures LoadAt(WithReply(mem, stream, header, body), stream[OUT_HEADER_SIZE..OUT_HEADER_SIZE + n]) == body[..n]
  {
    var mem', addrs := WithReply(mem, stream, header, body), stream[OUT_HEADER_SIZE..OUT_HEADER_SIZE + n];
    forall k | 0 <= k < n ensures mem'[addrs[k]] == body[k] {
      ReplyByte(mem, stream, body, header, OUT_HEADER_SIZE + k);
      assert addrs[k] == stream[OUT_HEADER_SIZE + k];
    }
  }

  /** Header and body are both read back from guest memory, whatever was written after the body. */
  lemma ReplyReadsBack(mem: seq<byte>, stream: seq<nat>, body: seq<byte>, tail: seq<byte>, header: seq<byte>)
    requires InBounds(stream, |mem|) && Distinct(stream) && |header| == OUT_HEADER_SIZE
    requires OUT_HEADER_SIZE + |body| <= |stream|
    ensures var mem' := WithReply(mem, stream, header, body + tail);
            && LoadAt(mem', stream[..OUT_HEADER_SIZE]) == header
            && LoadAt(mem', stream[OUT_HEADER_SIZE..OUT_HEADER_SIZE + |body|]) == body
  {
    ReplyHeaderReadsBack(mem, stream, header, body + tail);
    ReplyBodyReadsBack(mem, stream, header, body + tail, |body|);
    assert (body + tail)[..|body|] == body;
  }

  lemma ReplyByte(mem: seq<byte>, stream: seq<nat>, body: seq<byte>, header: seq<byte>, k: nat)
    requires InBounds(stream, |mem|) && Distinct(stream) && |header| == OUT_HEADER_SIZE
    requires k < OUT_HEADER_SIZE + |body| && OUT_HEADER_SIZE <= |stream| && k < |stream|
    ensures WithReply(mem, stream, header, body)[stream[k]] == (header + body)[k]
  {
    var front, back := stream[..OUT_HEADER_SIZE], stream[OUT_HEADER_SIZE..];
    if k < OUT_HEADER_SIZE {
      LoadStored(StoreAt(mem, back, body), front, header, k);
    } else {
      assert stream[k] == back[k - OUT_HEADER_SIZE] && stream[k] !in front;
      StoreElsewhere(StoreAt(mem, back, body), front, header, stream[k]);
      LoadStored(mem, back, body, k - OUT_HEADER_SIZE);
    }
  }

  /** Write the header of a reply into the space set aside for it. */
  method WriteHeader(w: DescriptorChainConsumer, mem: array<byte>, header: OutHeader)
    requires w.Valid() && InBounds(w.Stream(), mem.Length) && IsOutHeader(header)
    modifies w, mem
    ensures mem[..] == StoreAt(old(mem[..]), old(w.Stream()), EncodeOutHeader(header))
  {
    var ok := w.WriteAll(mem, EncodeOutHeader(header));
  }

  /** Put the header in front of a body that is already there. */
  method CompleteReply(w: DescriptorChainConsumer, mem: array<byte>, len: nat, unique: U64,
                       ghost mem0: seq<byte>, ghost stream: seq<nat>, ghost body: seq<byte>, ghost tail: seq<byte>)
    requires w.Valid() && InBounds(stream, mem.Length) && Distinct(stream) && |mem0| == mem.Length
    requires IsU32(len) && len == OUT_HEADER_SIZE + |body| <= |stream|
    requires w.Stream() == stream[..OUT_HEADER_SIZE] && mem[..] == StoreAt(mem0, stream[OUT_HEADER_SIZE..], body + tail)
    modifies w, mem
    ensures DecodeOutHeader(LoadAt(mem[..], stream[..OUT_HEADER_SIZE])) == OutHeader(len, 0, unique)
    ensures LoadAt(mem[..], stream[OUT_HEADER_SIZE..len]) == body
  {
    var header := OutHeader(len, 0, unique);
    WriteHeader(w, mem, header);
    OutHeaderReadsBack(header);
    ReplyReadsBack(mem0, stream, body, tail, EncodeOutHeader(header));
  }

  lemma HeaderReadsBack(mem: seq<byte>, stream: seq<nat>, front: seq<nat>, header: seq<byte>)
    requires InBounds(stream, |mem|) && Distinct(stream) && |header| == OUT_HEADER_SIZE <= |stream|
    requires front == stream || front == stream[..OUT_HEADER_SIZE]
    ensures LoadAt(StoreAt(mem, front, header), stream[..OUT_HEADER_SIZE]) == header
  {
    forall k | 0 <= k < OUT_HEADER_SIZE ensures StoreAt(mem, front, header)[stream[k]] == header[k] {
      LoadStored(mem, front, header, k);
    }
  }

  /** The guest finds an error reply. */
  ghost predicate ErrorReceived(mem: seq<byte>, stream: seq<nat>, errno: Errno, unique: U64) {
    && InBounds(stream, |mem|) && OUT_HEADER_SIZE <= |stream|
    && DecodeOutHeader(LoadAt(mem, stream[..OUT_HEADER_SIZE])) == OutHeader(OUT_HEADER_SIZE, -(errno as int), unique)
  }

  /** The guest finds `records` after the header of a reply. */
  ghost predicate Received(mem: seq<byte>, stream: seq<nat>, len: nat, unique: U64, records: seq<Record>) {
    && InBounds(stream, |mem|) && len == OUT_HEADER_SIZE + |EncodeAll(records)| <= |stream|
    && DecodeOutHeader(LoadAt(mem, stream[..OUT_HEADER_SIZE])) == OutHeader(len, 0, unique)
    && LoadAt(mem, stream[OUT_HEADER_SIZE..len]) == EncodeAll(records)
  }

  /** `w` has the space for the header and `cursor` the rest of `stream`. */
  method ReplyPlus(w: DescriptorChainConsumer, cursor: DescriptorChainConsumer, mem: array<byte>, fs: FileSystem,
                   size: nat, unique: U64, entries: seq<DirEntry>, outcomes: seq<IoResult<Entry>>,
                   ghost stream: seq<nat>)
    returns (reply: Reply, ghost records: seq<Record>, ghost events: seq<Event>)
    requires w != cursor && w.Valid() && cursor.Valid() && ValidInput(entries, outcomes)
    requires InBounds(stream, mem.Length) && Distinct(stream) && OUT_HEADER_SIZE <= |stream|
    requires w.Stream() == stream[..OUT_HEADER_SIZE] && cursor.Stream() == stream[OUT_HEADER_SIZE..]
    requires size <= MAX_BUFFER_SIZE
    modifies w, cursor, mem, fs
    ensures !reply.Panicked? && fs.log == old(fs.log) + events && Accounted(events, records)
    ensures reply.Done? <==> !FirstErrs(entries, outcomes, size, |stream| - OUT_HEADER_SIZE)
    ensures reply.Failed? ==> records == [] && ErrorReceived(mem[..], stream, reply.errno, unique)
    ensures reply.Failed? ==> reply.errno == ErrnoOf(entries[0], outcomes[0])
    ensures reply.Done? ==>
              && Reports(records, entries, outcomes) && Full(records, entries, outcomes, size, |stream| - OUT_HEADER_SIZE)
              && |EncodeAll(records)| <= size && Received(mem[..], stream, reply.len, unique, records)
  {
    var filled; ghost var tail;
    filled, records, tail, events := FillPlus(cursor, mem, fs, entries, outcomes, size);
    if filled.Failure? {
      ReplyError(w, mem, filled.errno, unique, stream);
      return Failed(filled.errno), records, events;
    }
    reply := Done(OUT_HEADER_SIZE + filled.value);
    CompleteReply(w, mem, reply.len, unique, old(mem[..]), stream, EncodeAll(records), tail);
  }

  /**
    `readdirplus`.  On success the guest finds, after the header, exactly `records`, as many as
    can be added, and holds one lookup for each that names an inode; on an error reply it holds none.
   */
  method Readdirplus(w: DescriptorChainConsumer, mem: array<byte>, fs: FileSystem, unique: U64, requested: nat,
                     listing: IoResult<seq<DirEntry>>, outcomes: seq<IoResult<Entry>>)
    returns (reply: Reply, ghost records: seq<Record>, ghost events: seq<Event>)
    requires w.Valid() && InBounds(w.Stream(), mem.Length) && Distinct(w.Stream())
    requires listing.Success? ==> ValidInput(listing.value, outcomes)
    modifies w, mem, fs
    ensures fs.log == old(fs.log) + events && Accounted(events, records)
    ensures var size, len := Min(requested, MAX_BUFFER_SIZE), |old(w.Stream())|;
            && (reply.Panicked? <==> size <= len < OUT_HEADER_SIZE)
            && (len < size ==> reply == Failed(ENOMEM))
            && (size <= len && OUT_HEADER_SIZE <= len && listing.Failure? ==> reply == Failed(listing.errno))
            && (size <= len && reply.Failed? && listing.Success? ==>
                  && listing.value != [] && outcomes != []
                  && var looked := listing.value[0].name !in {[46], [46, 46]} && outcomes[0].Failure?;
                     reply == Failed(if looked then outcomes[0].errno else EIO))
            && (reply.Done? <==> && size <= len && OUT_HEADER_SIZE <= len && listing.Success?
                                 && !FirstErrs(listing.value, outcomes, size, len - OUT_HEADER_SIZE))
            && (reply.Done? ==> && Reports(records, listing.value, outcomes)
                                && Full(records, listing.value, outcomes, size, len - OUT_HEADER_SIZE)
                                && |EncodeAll(records)| <= size && |EncodeAll(records)| % 8 == 0)
    ensures reply.Done? ==>
              && Received(mem[..], old(w.Stream()), reply.len, unique, records)
              && DecodeAll(EncodeAll(records), true) == Some(records)
    ensures !reply.Done? ==> records == []
    ensures reply.Failed? && OUT_HEADER_SIZE <= |old(w.Stream())| ==>
              ErrorReceived(mem[..], old(w.Stream()), reply.errno, unique)
  {
    records, events := [], [];
    var size := Min(requested, MAX_BUFFER_SIZE);
    var available := w.AvailableBytes();
    if available < size {
      ReplyError(w, mem, ENOMEM, unique, w.Stream());
      return Failed(ENOMEM), records, events;
    }
    ghost var stream := w.Stream();
    var split := w.SplitAt(OUT_HEADER_SIZE);
    if split.Err? {
      return Panicked, records, events;
    }
    if listing.Failure? {
      ReplyError(w, mem, listing.errno, unique, stream);
      return Failed(listing.errno), records, events;
    }
    reply, records, events := ReplyPlus(w, split.value, mem, fs, size, unique, listing.value, outcomes, stream);
    if reply.Done? {
      EncodeAllAligned(records);
      DecodeEncoded(records, true);
    }
  }

  method ReplyError(w: DescriptorChainConsumer, mem: array<byte>, errno: Errno, unique: U64, ghost stream: seq<nat>)
    requires w.Valid() && InBounds(stream, mem.Length) && Distinct(stream)
    requires w.Stream() == stream || (OUT_HEADER_SIZE <= |stream| && w.Stream() == stream[..OUT_HEADER_SIZE])
    modifies w, mem
    ensures OUT_HEADER_SIZE <= |stream| ==> ErrorReceived(mem[..], stream, errno, unique)
  {
    var header := OutHeader(OUT_HEADER_SIZE, -(errno as int), unique);
    OutHeaderReadsBack(header);
    if OUT_HEADER_SIZE <= |stream| {
      HeaderReadsBack(mem[..], stream, w.Stream(), EncodeOutHeader(header));
    }
    WriteHeader(w, mem, header);
  }
}
