/**
  Reading a host directory in batches of `getdents64` records, from a cookie that an earlier
  entry carried.  Cookies too large for `lseek64` are reached by walking from the start.
 */
module ReadDirs {
  import opened Bytes
  import opened Dirents
  import opened Wrappers

  const LINUX_DIRENT_SIZE := 19
  const I64_MAX: nat := 0x7FFF_FFFF_FFFF_FFFF
  const NAME_MAX := 255

  datatype Error = Einval

  // ----- Kernel records ----------------------------------------------------------------------

  /** An entry as the kernel returns it: the name has no NUL and at most 255 bytes. */
  predicate HostEntry(d: DirEntry) {
    IsU64(d.ino) && IsU64(d.offset) && d.kind < 0x100 && |d.name| <= NAME_MAX && 0 !in d.name
  }

  predicate HostEntries(es: seq<DirEntry>) {
    forall k | 0 <= k < |es| :: HostEntry(es[k])
  }

  /** Name, a NUL, and padding to 8 bytes. */
  function RecordLen(d: DirEntry): nat {
    RoundUp8(LINUX_DIRENT_SIZE + |d.name| + 1)
  }

  function KernelHeader(d: DirEntry): (bs: seq<byte>)
    requires d.kind < 0x100
    ensures |bs| == LINUX_DIRENT_SIZE
  {
    Le(d.ino, U64_SIZE) + Le(d.offset, U64_SIZE) + Le(RecordLen(d), 2) + [d.kind]
  }

  function KernelRecord(d: DirEntry): (bs: seq<byte>)
    requires d.kind < 0x100
    ensures |bs| == RecordLen(d)
  {
    KernelHeader(d) + (d.name + Zeros(RecordLen(d) - LINUX_DIRENT_SIZE - |d.name|))
  }

  function KernelRecords(es: seq<DirEntry>): seq<byte>
    requires HostEntries(es)
  {
    if es == [] then [] else KernelRecord(es[0]) + KernelRecords(es[1..])
  }

  lemma {:induction false} KernelRecordsAppend(es: seq<DirEntry>, d: DirEntry)
    requires HostEntries(es) && HostEntry(d)
    ensures KernelRecords(es + [d]) == KernelRecords(es) + KernelRecord(d)
  {
    if es == [] {
      assert es + [d] == [d] && [d][1..] == [];
    } else {
      assert (es + [d])[1..] == es[1..] + [d];
      KernelRecordsAppend(es[1..], d);
    }
  }

  /** Everything before the first NUL; none is the panic if there is no NUL. */
  method StripPadding(bs: seq<byte>) returns (name: Option<seq<byte>>)
    ensures name.Some? <==> 0 in bs
    ensures name.Some? ==> name.value < bs && 0 !in name.value && bs[|name.value|] == 0
  {
    var pos := 0;
    while pos < |bs| && bs[pos] != 0
      invariant pos <= |bs| && 0 !in bs[..pos]
    {
      pos := pos + 1;
    }
    if pos < |bs| {
      name := Some(bs[..pos]);
    } else {
      assert bs[..pos] == bs;
      name := None;
    }
  }

  lemma KernelFields(d: DirEntry, tail: seq<byte>)
    requires HostEntry(d)
    ensures var bs := KernelHeader(d) + tail;
            && FromLe(bs[..8]) == d.ino && FromLe(bs[8..16]) == d.offset
            && FromLe(bs[16..18]) == RecordLen(d) && bs[18] == d.kind
  {
    var bs := KernelHeader(d) + tail;
    PowersOf256();
    LeRoundTrip(d.ino, U64_SIZE);
    LeRoundTrip(d.offset, U64_SIZE);
    LeRoundTrip(RecordLen(d), 2);
    assert bs[..8] == Le(d.ino, U64_SIZE);
    assert bs[8..16] == Le(d.offset, U64_SIZE);
    assert bs[16..18] == Le(RecordLen(d), 2);
  }

  // ----- Where a cookie resumes --------------------------------------------------------------

  /** No two entries share a cookie, and none has the cookie that stands for the start. */
  ghost predicate UniqueCookies(es: seq<DirEntry>) {
    && (forall k | 0 <= k < |es| :: es[k].offset != 0)
    && (forall j, k | 0 <= j < k < |es| :: es[j].offset != es[k].offset)
  }

  ghost predicate IsCookie(es: seq<DirEntry>, cookie: nat) {
    cookie == 0 || exists k :: 0 <= k < |es| && es[k].offset == cookie
  }

  /** The entries after the one that carries `cookie`. */
  function Past(es: seq<DirEntry>, cookie: nat): seq<DirEntry> {
    if es == [] then [] else if es[0].offset == cookie then es[1..] else Past(es[1..], cookie)
  }

  function After(es: seq<DirEntry>, cookie: nat): seq<DirEntry> {
    if cookie == 0 then es else Past(es, cookie)
  }

  lemma {:induction false} PastAt(es: seq<DirEntry>, k: nat)
    requires UniqueCookies(es) && k < |es|
    ensures Past(es, es[k].offset) == es[k + 1..]
  {
    if k > 0 {
      PastAt(es[1..], k - 1);
    }
  }

  lemma {:induction false} PastNone(es: seq<DirEntry>, more: seq<DirEntry>, cookie: nat)
    requires forall k | 0 <= k < |es| :: es[k].offset != cookie
    ensures Past(es + more, cookie) == Past(more, cookie)
  {
    if es == [] {
      assert es + more == more;
    } else {
      assert (es + more)[1..] == es[1..] + more;
      PastNone(es[1..], more, cookie);
    }
  }

  /** `After` is a suffix of the directory. */
  lemma {:induction false} PastIsSuffix(es: seq<DirEntry>, cookie: nat)
    ensures |Past(es, cookie)| <= |es| && Past(es, cookie) == es[|es| - |Past(es, cookie)|..]
  {
    if es != [] && es[0].offset != cookie {
      PastIsSuffix(es[1..], cookie);
    }
  }

  /** Resuming at the last entry of a page continues right after that page. */
  lemma ResumeAfterPage(es: seq<DirEntry>, cookie: nat, page: seq<DirEntry>)
    requires UniqueCookies(es) && page <= After(es, cookie) && page != []
    ensures IsCookie(es, page[|page| - 1].offset)
    ensures After(es, page[|page| - 1].offset) == After(es, cookie)[|page|..]
  {
    PastIsSuffix(es, cookie);
    var k := |es| - |After(es, cookie)| + |page| - 1;
    assert After(es, cookie) == es[|es| - |After(es, cookie)|..];
    assert page[|page| - 1] == es[k];
    PastAt(es, k);
  }

  // ----- The directory and its reader --------------------------------------------------------

  /** An open, unchanging host directory: its entries, and the position of the file descriptor. */
  class HostDir {
    const entries: seq<DirEntry>
    var pos: nat

    ghost predicate Valid()
      reads this
    {
      HostEntries(entries) && UniqueCookies(entries) && pos <= |entries|
    }

    /** `lseek64`: an offset above `i64::MAX` becomes negative and is refused. */
    method Seek(offset: nat) returns (ok: bool)
      requires Valid()
      modifies this
      ensures Valid()
      ensures ok <==> offset <= I64_MAX
      ensures ok && IsCookie(entries, offset) ==> entries[pos..] == After(entries, offset)
    {
      ok := offset <= I64_MAX;
      if ok {
        pos := 0;
        if offset != 0 {
          while pos < |entries| && entries[pos].offset != offset
            invariant Valid()
            invariant forall k | 0 <= k < pos :: entries[k].offset != offset
          {
            pos := pos + 1;
          }
          if pos < |entries| {
            PastAt(entries, pos);
            pos := pos + 1;
          }
        }
      }
    }

    /**
      `getdents64` into `size` bytes: some whole records from the position on, at least one unless
      at the end; an error if not even one fits.
     */
    method GetDents(size: nat) returns (r: Result<seq<byte>, Error>, ghost batch: seq<DirEntry>)
      requires Valid()
      modifies this
      ensures Valid()
      ensures r.Err? <==> old(pos) < |entries| && RecordLen(entries[old(pos)]) > size
      ensures r.Err? ==> unchanged(this) && batch == []
      ensures r.Ok? ==>
                && old(entries[pos..]) == batch + entries[pos..]
                && HostEntries(batch) && r.value == KernelRecords(batch) && |r.value| <= size
                && (old(pos) < |entries| ==> batch != [])
    {
      batch := [];
      if pos == |entries| {
        return Ok([]), batch;
      }
      if RecordLen(entries[pos]) > size {
        return Err(Einval), batch;
      }
      var buf: seq<byte> := [];
      var more: bool := true;
      while more
        invariant pos <= |entries| && old(pos) + |batch| == pos
        invariant batch == entries[old(pos)..pos]
        invariant buf == KernelRecords(batch) && |buf| <= size
        invariant more ==> pos < |entries| && |buf| + RecordLen(entries[pos]) <= size
        invariant !more ==> batch != []
        decreases more, |entries| - pos
      {
        KernelRecordsAppend(batch, entries[pos]);
        buf, batch, pos := buf + KernelRecord(entries[pos]), batch + [entries[pos]], pos + 1;
        more := *;
        more := more && pos < |entries| && |buf| + RecordLen(entries[pos]) <= size;
      }
      r := Ok(buf);
    }
  }

  /** One batch of records, read from the front.  `rest` are the entries still in it. */
  class ReadDir {
    var buf: seq<byte>
    var current: nat
    ghost var rest: seq<DirEntry>

    ghost predicate Valid()
      reads this
    {
      current <= |buf| && HostEntries(rest) && buf[current..] == KernelRecords(rest)
    }

    constructor (buf: seq<byte>, ghost batch: seq<DirEntry>)
      requires HostEntries(batch) && buf == KernelRecords(batch)
      ensures Valid() && rest == batch
    {
      this.buf, this.current, this.rest := buf, 0, batch;
    }

    method Remaining() returns (n: nat)
      requires Valid()
      ensures n == |KernelRecords(rest)|
      ensures n == 0 <==> rest == []
    {
      n := |buf| - current;
      assert n == |buf[current..]|;
    }

    method Next() returns (r: Option<DirEntry>)
      requires Valid()
      modifies this
      ensures Valid()
      ensures old(rest) == [] ==> r == None && rest == []
      ensures old(rest) != [] ==> r == Some(old(rest)[0]) && rest == old(rest)[1..]
    {
      var rem := buf[current..];
      if rem == [] {
        return None;
      }
      ghost var d := rest[0];
      ghost var padded := d.name + Zeros(RecordLen(d) - LINUX_DIRENT_SIZE - |d.name|);
      ghost var others := KernelRecords(rest[1..]);
      assert rem == KernelHeader(d) + (padded + others);
      KernelFields(d, padded + others);
      var reclen := FromLe(rem[16..18]);
      var back := rem[LINUX_DIRENT_SIZE..reclen];
      assert back == padded;
      assert padded[|d.name|] == 0;
      var name := StripPadding(back);
      SameName(name.value, d.name, padded);
      current, rest := current + reclen, rest[1..];
      assert buf[current..] == rem[reclen..] == others;
      r := Some(DirEntry(FromLe(rem[..8]), FromLe(rem[8..16]), rem[18], name.value));
    }

    /** Skip entries up to and including the one with cookie `target`. */
    method MovePast(target: nat) returns (found: bool)
      requires Valid()
      modifies this
      ensures Valid()
      ensures found <==> exists k :: 0 <= k < |old(rest)| && old(rest)[k].offset == target
      ensures rest == Past(old(rest), target)
    {
      ghost var n := 0;
      while true
        invariant Valid()
        invariant n <= |old(rest)| && rest == old(rest)[n..]
        invariant forall k | 0 <= k < n :: old(rest)[k].offset != target
        decreases |rest|
      {
        PastNone(old(rest)[..n], rest, target);
        assert old(rest)[..n] + rest == old(rest);
        var entry := Next();
        if entry.None? {
          return false;
        }
        if entry.value.offset == target {
          assert old(rest)[n].offset == target;
          return true;
        }
        n := n + 1;
      }
    }
  }

  lemma SameName(a: seq<byte>, b: seq<byte>, padded: seq<byte>)
    requires a < padded && b < padded && 0 !in a && 0 !in b
    requires padded[|a|] == 0 && padded[|b|] == 0
    ensures a == b
  {
  }

  method NewNoSeek(dir: HostDir, size: nat) returns (r: Result<ReadDir, Error>)
    requires dir.Valid()
    modifies dir
    ensures dir.Valid()
    ensures r.Err? <==> old(dir.pos) < |dir.entries| && RecordLen(dir.entries[old(dir.pos)]) > size
    ensures r.Ok? ==>
              && fresh(r.value) && r.value.Valid()
              && r.value.rest + dir.entries[dir.pos..] == old(dir.entries[dir.pos..])
              && (old(dir.pos) < |dir.entries| ==> r.value.rest != [])
  {
    var bs; ghost var batch;
    bs, batch := dir.GetDents(size);
    match bs {
      case Err(e) => r := Err(e);
      case Ok(bytes) =>
        var rd := new ReadDir(bytes, batch);
        r := Ok(rd);
    }
  }

  /** The buffer takes any one record of the directory. */
  ghost predicate TakesAnyRecord(es: seq<DirEntry>, size: nat) {
    forall k | 0 <= k < |es| :: RecordLen(es[k]) <= size
  }

  /** Rewind and skip entries until the one with cookie `target`; nothing remains if there is none. */
  method NewWalkTo(dir: HostDir, target: nat, size: nat) returns (r: Result<ReadDir, Error>)
    requires dir.Valid()
    modifies dir
    ensures dir.Valid()
    ensures TakesAnyRecord(dir.entries, size) ==> r.Ok?
    ensures r.Ok? ==>
              && fresh(r.value) && r.value.Valid()
              && r.value.rest + dir.entries[dir.pos..] == Past(dir.entries, target)
              && (Past(dir.entries, target) != [] ==> r.value.rest != [])
  {
    var ok := dir.Seek(0);
    assert dir.entries[dir.pos..] == dir.entries;
    while true
      invariant dir.Valid()
      invariant Past(dir.entries[dir.pos..], target) == Past(dir.entries, target)
      decreases |dir.entries| - dir.pos
    {
      ghost var left := dir.entries[dir.pos..];
      r := NewNoSeek(dir, size);
      if r.Err? {
        return;
      }
      var rd := r.value;
      ghost var batch := rd.rest;
      var remaining := rd.Remaining();
      if remaining == 0 {
        return;
      }
      var found := rd.MovePast(target);
      if found {
        PastFound(batch, dir.entries[dir.pos..], target);
        remaining := rd.Remaining();
        if remaining == 0 {
          assert rd.rest + dir.entries[dir.pos..] == dir.entries[dir.pos..];
          r := NewNoSeek(dir, size);
        }
        return;
      }
      PastNone(batch, dir.entries[dir.pos..], target);
    }
  }

  lemma {:induction false} PastFound(es: seq<DirEntry>, more: seq<DirEntry>, cookie: nat)
    requires exists k :: 0 <= k < |es| && es[k].offset == cookie
    ensures Past(es + more, cookie) == Past(es, cookie) + more
  {
    assert (es + more)[1..] == es[1..] + more;
    if es[0].offset != cookie {
      PastFound(es[1..], more, cookie);
    }
  }

  /**
    A reader that continues after the entry with cookie `offset`: seeking and walking leave the
    same entries to come, partly in the batch and partly beyond the descriptor's position.
   */
  method NewReadDir(dir: HostDir, offset: nat, size: nat) returns (r: Result<ReadDir, Error>)
    requires dir.Valid()
    modifies dir
    ensures dir.Valid()
    ensures TakesAnyRecord(dir.entries, size) ==> r.Ok?
    ensures r.Ok? ==> fresh(r.value) && r.value.Valid()
    ensures r.Ok? && (IsCookie(dir.entries, offset) || offset > I64_MAX) ==>
              && r.value.rest + dir.entries[dir.pos..] == After(dir.entries, offset)
              && (After(dir.entries, offset) != [] ==> r.value.rest != [])
  {
    var ok := dir.Seek(offset);
    if ok {
      r := NewNoSeek(dir, size);
    } else {
      r := NewWalkTo(dir, offset, size);
    }
  }
}
