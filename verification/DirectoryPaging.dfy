/**
  READDIR as the guest sees it: pages of a directory, each resuming at the offset of the last
  entry of the page before.
 */
module DirectoryPaging {
  import opened Bytes
  import opened DescriptorUtils
  import opened Dirents
  import opened DirectoryReplies
  import R = ReadDirs
  import opened Wrappers

  function Plain(d: DirEntry): Record {
    Record(None, d)
  }

  function PlainAll(es: seq<DirEntry>): (rs: seq<Record>)
    ensures |rs| == |es|
  {
    seq(|es|, k requires 0 <= k < |es| => Plain(es[k]))
  }

  /** The entries, from the first on, whose records fit into `max` bytes. */
  function Fitting(es: seq<DirEntry>, max: nat): seq<DirEntry> {
    if es == [] || |Encode(Plain(es[0]))| > max then []
    else [es[0]] + Fitting(es[1..], max - |Encode(Plain(es[0]))|)
  }

  lemma {:induction false} FittingIsPrefix(es: seq<DirEntry>, max: nat)
    ensures Fitting(es, max) <= es
    ensures |EncodeAll(PlainAll(Fitting(es, max)))| <= max
  {
    if es != [] && |Encode(Plain(es[0]))| <= max {
      FittingIsPrefix(es[1..], max - |Encode(Plain(es[0]))|);
      assert PlainAll(Fitting(es, max))[1..] == PlainAll(Fitting(es[1..], max - |Encode(Plain(es[0]))|));
    }
  }

  /** It stops only where the next record would be too much. */
  lemma {:induction false} FittingIsLongest(es: seq<DirEntry>, max: nat)
    requires |Fitting(es, max)| < |es|
    ensures |EncodeAll(PlainAll(Fitting(es, max)))| + |Encode(Plain(es[|Fitting(es, max)|]))| > max
  {
    if |Encode(Plain(es[0]))| <= max {
      var left := max - |Encode(Plain(es[0]))|;
      FittingIsLongest(es[1..], left);
      assert PlainAll(Fitting(es, max))[1..] == PlainAll(Fitting(es[1..], left));
    }
  }

  /** After `k` entries the page holds `bs`, and continues with whatever still fits. */
  ghost predicate PageSoFar(es: seq<DirEntry>, k: nat, size: nat, bs: seq<byte>) {
    && k <= |es| && |bs| <= size
    && bs == EncodeAll(PlainAll(es[..k]))
    && Fitting(es, size) == es[..k] + Fitting(es[k..], size - |bs|)
  }

  lemma PageGrows(es: seq<DirEntry>, k: nat, size: nat, bs: seq<byte>)
    requires PageSoFar(es, k, size, bs) && k < |es| && |bs| + |Encode(Plain(es[k]))| <= size
    ensures PageSoFar(es, k + 1, size, bs + Encode(Plain(es[k])))
  {
    var one := Encode(Plain(es[k]));
    assert bs + one == EncodeAll(PlainAll(es[..k + 1])) by {
      assert PlainAll(es[..k + 1]) == PlainAll(es[..k]) + [Plain(es[k])];
      EncodeAllAppend(PlainAll(es[..k]), Plain(es[k]));
    }
    var rest := Fitting(es[k + 1..], size - |bs + one|);
    assert Fitting(es[k..], size - |bs|) == [es[k]] + rest by {
      assert es[k..][1..] == es[k + 1..];
    }
    assert es[..k] + ([es[k]] + rest) == es[..k + 1] + rest;
  }

  lemma PageEnds(es: seq<DirEntry>, k: nat, size: nat, bs: seq<byte>)
    requires PageSoFar(es, k, size, bs)
    requires k < |es| ==> |bs| + |Encode(Plain(es[k]))| > size
    ensures Fitting(es, size) == es[..k]
    ensures bs == EncodeAll(PlainAll(Fitting(es, size)))
  {
    assert es[..k] + [] == es[..k];
  }

  lemma {:induction false} EncodeAllGrows(a: seq<Record>, b: seq<Record>)
    ensures |EncodeAll(a)| <= |EncodeAll(a + b)|
  {
    if a != [] {
      assert (a + b)[1..] == a[1..] + b;
      EncodeAllGrows(a[1..], b);
    }
  }

  /** A record that fits into the size asked for but not into the buffer is part of the page. */
  lemma PageOverflows(es: seq<DirEntry>, k: nat, size: nat, bs: seq<byte>)
    requires PageSoFar(es, k, size, bs) && k < |es| && |bs| + |Encode(Plain(es[k]))| <= size
    ensures |EncodeAll(PlainAll(Fitting(es, size)))| >= |bs| + |Encode(Plain(es[k]))|
  {
    PageGrows(es, k, size, bs);
    var one := Encode(Plain(es[k]));
    var rest := Fitting(es[k + 1..], size - |bs + one|);
    assert PlainAll(Fitting(es, size)) == PlainAll(es[..k + 1]) + PlainAll(rest);
    EncodeAllGrows(PlainAll(es[..k + 1]), PlainAll(rest));
  }

  /** The loop of `readdir`: as many records as fit into `size`; any error spoils the whole reply. */
  method Fill(cursor: DescriptorChainConsumer, mem: array<byte>, rd: R.ReadDir, size: nat)
    returns (r: Result<nat, Error>, ghost bs: seq<byte>, ghost tail: seq<byte>)
    requires cursor.Valid() && InBounds(cursor.Stream(), mem.Length) && rd.Valid()
    modifies cursor, mem, rd
    ensures r.Err? <==> |EncodeAll(PlainAll(Fitting(old(rd.rest), size)))| > |old(cursor.Stream())|
    ensures r.Ok? ==>
              && bs == EncodeAll(PlainAll(Fitting(old(rd.rest), size)))
              && r.value == |bs| <= |old(cursor.Stream())|
              && mem[..] == StoreAt(old(mem[..]), old(cursor.Stream()), bs + tail)
  {
    ghost var es, k := rd.rest, 0;
    var total: nat := 0;
    bs, tail := [], [];
    while true
      invariant rd.Valid() && k <= |es| && rd.rest == es[k..] && R.HostEntries(es)
      invariant PageSoFar(es, k, size, bs)
      invariant Holds(cursor, mem, old(mem[..]), old(cursor.Stream()), bs)
      invariant total == |bs|
      decreases |es| - k
    {
      var d := rd.Next();
      if d.None? {
        break;
      }
      var w;
      w, tail := AppendRecord(cursor, mem, size - total, d.value, None, old(mem[..]), old(cursor.Stream()), bs);
      if w.Err? {
        PageOverflows(es, k, size, bs);
        return Err(w.error), bs, tail;
      }
      if w.value == 0 {
        PageEnds(es, k, size, bs);
        return Ok(total), bs, tail;
      }
      PageGrows(es, k, size, bs);
      total, k, bs := total + w.value, k + 1, bs + Encode(Plain(d.value));
    }
    PageEnds(es, k, size, bs);
    tail := [];
    assert bs + [] == bs;
    r := Ok(total);
  }

  const EINVAL: Errno := 22

  /** Any one entry of the directory fits into a page. */
  ghost predicate TakesAnyEntry(es: seq<DirEntry>, size: nat) {
    forall k | 0 <= k < |es| :: |Encode(Plain(es[k]))| <= size
  }

  /** Then so does its kernel record; and the limit on the size of a reply never gets in the way. */
  lemma KernelRecordIsSmaller(d: DirEntry, size: nat)
    requires R.HostEntry(d) && |Encode(Plain(d))| <= size
    ensures R.RecordLen(d) <= Min(size, MAX_BUFFER_SIZE) && |Encode(Plain(d))| <= Min(size, MAX_BUFFER_SIZE)
  {
    EncodeLength(Plain(d));
  }

  lemma PageDecodes(es: seq<DirEntry>)
    requires R.HostEntries(es)
    ensures DecodeAll(EncodeAll(PlainAll(es)), false) == Some(PlainAll(es))
  {
    DecodeEncoded(PlainAll(es), false);
  }

  lemma SizesSuffice(es: seq<DirEntry>, size: nat)
    requires R.HostEntries(es) && TakesAnyEntry(es, size)
    ensures R.TakesAnyRecord(es, Min(size, MAX_BUFFER_SIZE)) && TakesAnyEntry(es, Min(size, MAX_BUFFER_SIZE))
  {
    forall k | 0 <= k < |es|
      ensures R.RecordLen(es[k]) <= Min(size, MAX_BUFFER_SIZE)
      ensures |Encode(Plain(es[k]))| <= Min(size, MAX_BUFFER_SIZE)
    {
      KernelRecordIsSmaller(es[k], size);
    }
  }

  /** The guest finds the records of `page` after the header of a reply. */
  ghost predicate PageReceived(mem: seq<byte>, stream: seq<nat>, reply: Reply, unique: U64, page: seq<DirEntry>) {
    reply.Done? && Received(mem, stream, reply.len, unique, PlainAll(page))
  }

  /** Fill the space after the header from `rd` and complete the reply. */
  method ReplyFrom(w: DescriptorChainConsumer, cursor: DescriptorChainConsumer, mem: array<byte>, rd: R.ReadDir,
                   size: nat, unique: U64, ghost stream: seq<nat>)
    returns (reply: Reply)
    requires w != cursor && w.Valid() && cursor.Valid() && rd.Valid()
    requires InBounds(stream, mem.Length) && Distinct(stream) && OUT_HEADER_SIZE <= |stream|
    requires w.Stream() == stream[..OUT_HEADER_SIZE] && cursor.Stream() == stream[OUT_HEADER_SIZE..]
    requires size <= MAX_BUFFER_SIZE
    modifies w, cursor, mem, rd
    ensures !reply.Panicked?
    ensures reply.Done? <==> OUT_HEADER_SIZE + |EncodeAll(PlainAll(Fitting(old(rd.rest), size)))| <= |stream|
    ensures reply.Done? ==> PageReceived(mem[..], stream, reply, unique, Fitting(old(rd.rest), size))
    ensures reply.Failed? ==> reply.errno == EIO && ErrorReceived(mem[..], stream, reply.errno, unique)
  {
    var filled; ghost var bs, tail;
    filled, bs, tail := Fill(cursor, mem, rd, size);
    if filled.Err? {
      ReplyError(w, mem, EIO, unique, stream);
      return Failed(EIO);
    }
    reply := Done(OUT_HEADER_SIZE + filled.value);
    FittingIsPrefix(old(rd.rest), size);
    CompleteReply(w, mem, reply.len, unique, old(mem[..]), stream, bs, tail);
  }

  /** The file system's side of the request: no reading at all for a size of zero. */
  method OpenReader(dir: R.HostDir, offset: nat, requested: nat) returns (r: Option<R.ReadDir>)
    requires dir.Valid()
    modifies dir
    ensures dir.Valid()
    ensures TakesAnyEntry(dir.entries, requested) ==> r.Some?
    ensures r.Some? ==> fresh(r.value) && r.value.Valid()
    ensures r.Some? && R.IsCookie(dir.entries, offset) ==>
              IsPage(Fitting(r.value.rest, Min(requested, MAX_BUFFER_SIZE)), dir.entries, offset, requested)
  {
    var size := Min(requested, MAX_BUFFER_SIZE);
    var rd: R.ReadDir;
    if size == 0 {
      rd := new R.ReadDir([], []);
    } else {
      if TakesAnyEntry(dir.entries, requested) {
        SizesSuffice(dir.entries, requested);
      }
      var reader := R.NewReadDir(dir, offset, size);
      if reader.Err? {
        return None;
      }
      rd := reader.value;
    }
    if R.IsCookie(dir.entries, offset) {
      PageFromReader(rd.rest, dir.entries, dir.pos, offset, requested);
    }
    r := Some(rd);
  }

  /**
    `readdir`.  On success the guest finds, after the header, the records of `page`: the next
    entries after the one whose offset the guest sent, and at least one if any are left.
   */
  method Readdir(w: DescriptorChainConsumer, mem: array<byte>, unique: U64, requested: nat, dir: R.HostDir, offset: nat)
    returns (reply: Reply, ghost page: seq<DirEntry>)
    requires w.Valid() && InBounds(w.Stream(), mem.Length) && Distinct(w.Stream())
    requires dir.Valid()
    modifies w, mem, dir
    ensures dir.Valid()
    ensures reply.Done? ==>
              && PageReceived(mem[..], old(w.Stream()), reply, unique, page)
              && reply.len <= OUT_HEADER_SIZE + Min(requested, MAX_BUFFER_SIZE)
              && (R.IsCookie(dir.entries, offset) ==> IsPage(page, dir.entries, offset, requested))
    ensures reply.Panicked? <==> Min(requested, MAX_BUFFER_SIZE) <= |old(w.Stream())| < OUT_HEADER_SIZE
    ensures |old(w.Stream())| < Min(requested, MAX_BUFFER_SIZE) ==> reply == Failed(ENOMEM)
    ensures TakesAnyEntry(dir.entries, requested) && OUT_HEADER_SIZE + Min(requested, MAX_BUFFER_SIZE) <= |old(w.Stream())| ==>
              reply.Done?
    ensures reply.Failed? && OUT_HEADER_SIZE <= |old(w.Stream())| ==>
              ErrorReceived(mem[..], old(w.Stream()), reply.errno, unique)
    ensures reply.Failed? && Min(requested, MAX_BUFFER_SIZE) <= |old(w.Stream())| ==> reply.errno in {EINVAL, EIO}
  {
    page := [];
    var size := Min(requested, MAX_BUFFER_SIZE);
    ghost var stream := w.Stream();
    var available := w.AvailableBytes();
    if available < size {
      ReplyError(w, mem, ENOMEM, unique, stream);
      return Failed(ENOMEM), page;
    }
    var split := w.SplitAt(OUT_HEADER_SIZE);
    if split.Err? {
      return Panicked, page;
    }
    var rd := OpenReader(dir, offset, requested);
    if rd.None? {
      ReplyError(w, mem, EINVAL, unique, stream);
      return Failed(EINVAL), page;
    }
    page := Fitting(rd.value.rest, size);
    FittingIsPrefix(rd.value.rest, size);
    reply := ReplyFrom(w, split.value, mem, rd.value, size, unique, stream);
  }

  /** The beginning of what comes after `offset`, within the size asked for, and not empty if one entry fits. */
  ghost predicate IsPage(page: seq<DirEntry>, es: seq<DirEntry>, offset: nat, requested: nat) {
    && page <= R.After(es, offset) && R.HostEntries(page)
    && |EncodeAll(PlainAll(page))| <= Min(requested, MAX_BUFFER_SIZE)
    && (TakesAnyEntry(es, requested) && R.After(es, offset) != [] ==> page != [])
  }

  /** A page cut from what the reader holds is the beginning of what is left of the directory. */
  lemma PageFromReader(rest: seq<DirEntry>, es: seq<DirEntry>, pos: nat, offset: nat, requested: nat)
    requires R.HostEntries(es)
    requires if requested == 0 then rest == []
             else pos <= |es| && rest + es[pos..] == R.After(es, offset) && (R.After(es, offset) != [] ==> rest != [])
    ensures IsPage(Fitting(rest, Min(requested, MAX_BUFFER_SIZE)), es, offset, requested)
  {
    var size := Min(requested, MAX_BUFFER_SIZE);
    FittingIsPrefix(rest, size);
    R.PastIsSuffix(es, offset);
    var page, after := Fitting(rest, size), R.After(es, offset);
    assert after == es[|es| - |after|..];
    if requested > 0 {
      assert forall k | 0 <= k < |page| :: page[k] == after[k] == es[|es| - |after| + k];
      if after != [] && TakesAnyEntry(es, requested) {
        SizesSuffice(es, requested);
        assert rest[0] == after[0] == es[|es| - |after|];
      }
    } else if after != [] {
      EncodeLength(Plain(es[|es| - |after|]));
    }
  }

  // ----- A guest that reads the whole directory ----------------------------------------------

  /** One request of the guest, and what it makes of its memory afterwards: an error, or a page. */
  method FetchPage(dir: R.HostDir, mem: array<byte>, bufs: seq<Slice>, size: nat, unique: U64, offset: nat)
    returns (r: Result<seq<DirEntry>, Errno>)
    requires dir.Valid() && R.IsCookie(dir.entries, offset)
    requires InBounds(Flatten(bufs), mem.Length) && Distinct(Flatten(bufs)) && |Flatten(bufs)| <= USIZE_MAX
    requires OUT_HEADER_SIZE <= |Flatten(bufs)|
    modifies mem, dir
    ensures dir.Valid()
    ensures r.Ok? ==> IsPage(r.value, dir.entries, offset, size)
    ensures |Flatten(bufs)| < Min(size, MAX_BUFFER_SIZE) ==> r == Err(ENOMEM)
    ensures TakesAnyEntry(dir.entries, size) && OUT_HEADER_SIZE + Min(size, MAX_BUFFER_SIZE) <= |Flatten(bufs)| ==> r.Ok?
  {
    var w := new DescriptorChainConsumer(bufs, 0);
    var reply; ghost var sent;
    reply, sent := Readdir(w, mem, unique, size, dir, offset);
    r := ReadReply(mem, bufs, reply, unique, sent);
  }

  /** The guest goes by its memory alone: first the header, and if that has no error, as many bytes as it tells. */
  method ReadReply(mem: array<byte>, bufs: seq<Slice>, ghost reply: Reply, ghost unique: U64, ghost page: seq<DirEntry>)
    returns (r: Result<seq<DirEntry>, Errno>)
    requires InBounds(Flatten(bufs), mem.Length) && OUT_HEADER_SIZE <= |Flatten(bufs)|
    requires match reply
             case Done(_) => PageReceived(mem[..], Flatten(bufs), reply, unique, page) && R.HostEntries(page)
             case Failed(errno) => ErrorReceived(mem[..], Flatten(bufs), errno, unique)
             case Panicked => false
    ensures r == if reply.Done? then Ok(page) else Err(reply.errno)
  {
    var bytes := Gather(mem, bufs, OUT_HEADER_SIZE);
    var header := DecodeOutHeader(bytes);
    if header.error != 0 {
      return Err(-header.error);
    }
    bytes := Gather(mem, bufs, header.len);
    BodyOf(mem[..], Flatten(bufs), header.len);
    PageDecodes(page);
    var records := DecodeAll(bytes[OUT_HEADER_SIZE..], false).value;
    r := Ok(seq(|records|, k requires 0 <= k < |records| => records[k].dirent));
    assert r.value == page;
  }

  lemma BodyOf(mem: seq<byte>, stream: seq<nat>, len: nat)
    requires InBounds(stream, |mem|) && OUT_HEADER_SIZE <= len <= |stream|
    ensures LoadAt(mem, stream[..len])[OUT_HEADER_SIZE..] == LoadAt(mem, stream[OUT_HEADER_SIZE..len])
  {
  }

  /** With enough room for any one entry it is a page. */
  method FetchNext(dir: R.HostDir, mem: array<byte>, bufs: seq<Slice>, size: nat, offset: nat) returns (page: seq<DirEntry>)
    requires dir.Valid() && R.IsCookie(dir.entries, offset)
    requires InBounds(Flatten(bufs), mem.Length) && Distinct(Flatten(bufs)) && |Flatten(bufs)| <= USIZE_MAX
    requires TakesAnyEntry(dir.entries, size) && OUT_HEADER_SIZE + Min(size, MAX_BUFFER_SIZE) <= |Flatten(bufs)|
    modifies mem, dir
    ensures dir.Valid()
    ensures IsPage(page, dir.entries, offset, size)
  {
    var unique: U64 := *;
    var r := FetchPage(dir, mem, bufs, size, unique, offset);
    page := r.value;
  }

  /** Where a guest that got these pages goes on. */
  function Offset(pages: seq<seq<DirEntry>>): nat {
    if pages == [] then 0
    else
      var last := pages[|pages| - 1];
      if last == [] then Offset(pages[..|pages| - 1]) else last[|last| - 1].offset
  }

  function Joined(pages: seq<seq<DirEntry>>): seq<DirEntry> {
    if pages == [] then [] else Joined(pages[..|pages| - 1]) + pages[|pages| - 1]
  }

  /** Page after page, each resuming at the last offset of the one before, until one is empty. */
  ghost predicate IsListing(es: seq<DirEntry>, pages: seq<seq<DirEntry>>, sizes: nat -> nat) {
    pages == [] ||
      var front, last := pages[..|pages| - 1], pages[|pages| - 1];
      && IsListing(es, front, sizes) && (front != [] ==> front[|front| - 1] != [])
      && IsPage(last, es, Offset(front), sizes(|front|))
  }

  /** The pages are the beginning of the directory, each entry once and in order. */
  lemma {:induction false} ListingSoFar(es: seq<DirEntry>, pages: seq<seq<DirEntry>>, sizes: nat -> nat)
    requires R.UniqueCookies(es) && IsListing(es, pages, sizes)
    ensures R.IsCookie(es, Offset(pages)) && Joined(pages) + R.After(es, Offset(pages)) == es
    ensures |pages| <= |Joined(pages)| + 1
  {
    if pages != [] {
      var front, last := pages[..|pages| - 1], pages[|pages| - 1];
      ListingSoFar(es, front, sizes);
      if last != [] {
        NextPage(es, Offset(front), Joined(front), last);
      } else {
        assert Joined(front) + [] == Joined(front);
      }
      NoEmptyPages(es, front, sizes);
    }
  }

  lemma {:induction false} NoEmptyPages(es: seq<DirEntry>, pages: seq<seq<DirEntry>>, sizes: nat -> nat)
    requires IsListing(es, pages, sizes) && (pages != [] ==> pages[|pages| - 1] != [])
    ensures |pages| <= |Joined(pages)|
  {
    if pages != [] {
      NoEmptyPages(es, pages[..|pages| - 1], sizes);
    }
  }

  /**
    Whatever sizes the guest asks for, if each holds any one entry: once a page is empty the pages
    make up the directory, and that is after at most one page for each entry.
   */
  lemma ListingIsComplete(es: seq<DirEntry>, pages: seq<seq<DirEntry>>, sizes: nat -> nat)
    requires R.UniqueCookies(es) && IsListing(es, pages, sizes) && forall n :: TakesAnyEntry(es, sizes(n))
    ensures |pages| <= |es| + 1
    ensures pages != [] && pages[|pages| - 1] == [] ==> Joined(pages) == es
  {
    ListingSoFar(es, pages, sizes);
    if pages != [] && pages[|pages| - 1] == [] {
      var front := pages[..|pages| - 1];
      assert TakesAnyEntry(es, sizes(|front|));
      assert Offset(pages) == Offset(front) && R.After(es, Offset(front)) == [];
    }
  }

  /** A guest that does so, decoding each page from its memory. */
  method ListDirectory(dir: R.HostDir, mem: array<byte>, bufs: seq<Slice>, sizes: nat -> nat)
    returns (out: seq<DirEntry>, ghost pages: seq<seq<DirEntry>>)
    requires dir.Valid()
    requires InBounds(Flatten(bufs), mem.Length) && Distinct(Flatten(bufs)) && |Flatten(bufs)| <= USIZE_MAX
    requires forall n :: TakesAnyEntry(dir.entries, sizes(n)) && OUT_HEADER_SIZE + Min(sizes(n), MAX_BUFFER_SIZE) <= |Flatten(bufs)|
    modifies mem, dir
    ensures IsListing(dir.entries, pages, sizes) && pages != [] && pages[|pages| - 1] == []
    ensures out == Joined(pages) == dir.entries
  {
    var offset, calls := 0, 0;
    out, pages := [], [];
    while true
      invariant dir.Valid() && R.IsCookie(dir.entries, offset)
      invariant IsListing(dir.entries, pages, sizes) && (pages != [] ==> pages[|pages| - 1] != [])
      invariant offset == Offset(pages) && calls == |pages| && out == Joined(pages)
      decreases |dir.entries| + 1 - |pages|
    {
      var page := FetchNext(dir, mem, bufs, sizes(calls), offset);
      MorePages(dir.entries, pages, sizes, page);
      pages := pages + [page];
      ListingIsComplete(dir.entries, pages, sizes);
      ListingSoFar(dir.entries, pages, sizes);
      out := out + page;
      if page == [] {
        break;
      }
      offset, calls := page[|page| - 1].offset, calls + 1;
    }
  }

  lemma MorePages(es: seq<DirEntry>, pages: seq<seq<DirEntry>>, sizes: nat -> nat, page: seq<DirEntry>)
    requires IsListing(es, pages, sizes) && (pages != [] ==> pages[|pages| - 1] != [])
    requires IsPage(page, es, Offset(pages), sizes(|pages|))
    ensures IsListing(es, pages + [page], sizes) && Joined(pages + [page]) == Joined(pages) + page
    ensures page != [] ==> Offset(pages + [page]) == page[|page| - 1].offset
  {
    assert (pages + [page])[..|pages|] == pages;
  }

  lemma NextPage(es: seq<DirEntry>, offset: nat, out: seq<DirEntry>, page: seq<DirEntry>)
    requires R.UniqueCookies(es) && out + R.After(es, offset) == es
    requires page <= R.After(es, offset) && page != []
    ensures var next := page[|page| - 1].offset;
            && R.IsCookie(es, next)
            && (out + page) + R.After(es, next) == es
            && |R.After(es, next)| < |R.After(es, offset)|
  {
    R.ResumeAfterPage(es, offset, page);
    var after := R.After(es, offset);
    assert out + after == out + page + after[|page|..];
  }
}
