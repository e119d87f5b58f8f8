/**
  The zero-copy loops of the server: move up to `count` bytes between a descriptor chain and a
  file at a given offset, by vectored transfers that may each be short or fail.
 */
module ZeroCopy {
  import opened Bytes
  import opened DescriptorUtils
  import opened Wrappers

  const U64_MAX: nat := 0xFFFF_FFFF_FFFF_FFFF

  /** The file with `bs` at offset `off`. */
  function Patch(content: map<nat, byte>, off: nat, bs: seq<byte>): map<nat, byte>
    decreases |bs|
  {
    if bs == [] then content else Patch(content[off := bs[0]], off + 1, bs[1..])
  }

  /** The patched bytes are found where they were put, and no other byte changed. */
  lemma {:induction false} PatchAt(content: map<nat, byte>, off: nat, bs: seq<byte>, k: nat)
    ensures off <= k < off + |bs| ==> k in Patch(content, off, bs) && Patch(content, off, bs)[k] == bs[k - off]
    ensures !(off <= k < off + |bs|) ==> (k in Patch(content, off, bs) <==> k in content)
    ensures !(off <= k < off + |bs|) && k in content ==> Patch(content, off, bs)[k] == content[k]
    decreases |bs|
  {
    if bs != [] {
      PatchAt(content[off := bs[0]], off + 1, bs[1..], k);
    }
  }

  predicate Covers(content: map<nat, byte>, off: nat, n: nat) {
    forall k | off <= k < off + n :: k in content
  }

  /** The `n` bytes of the file from `off` on. */
  function Extract(content: map<nat, byte>, off: nat, n: nat): (bs: seq<byte>)
    requires Covers(content, off, n)
    ensures |bs| == n
  {
    seq(n, k requires 0 <= k < n => content[off + k])
  }

  lemma {:induction false} PatchConcat(content: map<nat, byte>, off: nat, x: seq<byte>, y: seq<byte>)
    ensures Patch(Patch(content, off, x), off + |x|, y) == Patch(content, off, x + y)
    decreases |x|
  {
    if x == [] {
      assert x + y == y;
    } else {
      assert (x + y)[1..] == x[1..] + y;
      PatchConcat(content[off := x[0]], off + 1, x[1..], y);
    }
  }

  lemma ExtractConcat(content: map<nat, byte>, off: nat, m: nat, n: nat)
    requires Covers(content, off, m) && Covers(content, off + m, n)
    ensures Covers(content, off, m + n)
    ensures Extract(content, off, m) + Extract(content, off + m, n) == Extract(content, off, m + n)
  {
  }

  lemma StoreMoreOfFile(content: map<nat, byte>, off: nat, mem: seq<byte>, stream: seq<nat>, m: nat, n: nat)
    requires InBounds(stream, |mem|) && m + n <= |stream|
    requires Covers(content, off, m) && Covers(content, off + m, n)
    ensures Covers(content, off, m + n)
    ensures StoreAt(StoreAt(mem, stream, Extract(content, off, m)), stream[m..], Extract(content, off + m, n)) ==
            StoreAt(mem, stream, Extract(content, off, m + n))
  {
    ExtractConcat(content, off, m, n);
    StoreAtConcat(mem, stream, Extract(content, off, m), Extract(content, off + m, n));
  }

  lemma PatchMore(content: map<nat, byte>, off: nat, mem: seq<byte>, stream: seq<nat>, m: nat, n: nat)
    requires InBounds(stream, |mem|) && m + n <= |stream|
    ensures Patch(Patch(content, off, LoadAt(mem, stream[..m])), off + m, LoadAt(mem, stream[m..][..n])) ==
            Patch(content, off, LoadAt(mem, stream[..m + n]))
  {
    var x, y := LoadAt(mem, stream[..m]), LoadAt(mem, stream[m..][..n]);
    PatchConcat(content, off, x, y);
    assert stream[..m + n] == stream[..m] + stream[m..][..n];
    assert x + y == LoadAt(mem, stream[..m + n]);
  }

  /** How many transfers moved nothing, and how many failed. */
  datatype Tally = Tally(stalls: nat, failures: nat)

  function Count(t: Tally, r: Result<nat, Error>): Tally {
    match r
    case Err(_) => t.(failures := t.failures + 1)
    case Ok(n) => if n == 0 then t.(stalls := t.stalls + 1) else t
  }

  /** The host file.  Each transfer moves any number of the bytes it is offered, or fails. */
  class HostFile {
    var content: map<nat, byte>
    var tally: Tally

    method WriteVectoredAt(mem: array<byte>, bufs: seq<Slice>, off: nat) returns (r: Result<nat, Error>)
      requires InBounds(Flatten(bufs), mem.Length)
      modifies this
      ensures tally == Count(old(tally), r)
      ensures r.Err? ==> content == old(content)
      ensures r.Ok? ==> r.value <= |Flatten(bufs)|
                        && content == Patch(old(content), off, LoadAt(mem[..], Flatten(bufs)[..r.value]))
    {
      var fails: bool := *;
      if fails {
        r := Err(IoError);
        tally := Count(tally, r);
        return;
      }
      var limit: nat := *;
      var bs := Gather(mem, bufs, limit);
      content := Patch(content, off, bs);
      r := Ok(|bs|);
      tally := Count(tally, r);
    }

    method ReadVectoredAt(mem: array<byte>, bufs: seq<Slice>, off: nat) returns (r: Result<nat, Error>)
      requires InBounds(Flatten(bufs), mem.Length)
      modifies mem, `tally
      ensures tally == Count(old(tally), r)
      ensures r.Err? ==> mem[..] == old(mem[..])
      ensures r.Ok? ==> r.value <= |Flatten(bufs)| && Covers(content, off, r.value)
                        && mem[..] == StoreAt(old(mem[..]), Flatten(bufs), Extract(content, off, r.value))
    {
      var fails: bool := *;
      if fails {
        r := Err(IoError);
        tally := Count(tally, r);
        return;
      }
      var limit: nat := *;
      var n: nat := 0;
      while n < limit && off + n in content
        invariant Covers(content, off, n)
      {
        n := n + 1;
      }
      var bs := Extract(content, off, n);
      var m := Scatter(mem, bufs, bs);
      StoreAtPrefix(old(mem[..]), Flatten(bufs), Flatten(bufs), bs);
      assert bs[..m] == Extract(content, off, m);
      r := Ok(m);
      tally := Count(tally, r);
    }
  }

  /** From one tally to a later one: an error is a failure, moving nothing a stall unless the chain was used up. */
  predicate Explains(before: Tally, after: Tally, rest: seq<nat>, count: nat, r: Result<nat, Error>) {
    && before.stalls <= after.stalls && before.failures <= after.failures
    && (r.Err? ==> before.failures < after.failures)
    && (r == Ok(0) && count > 0 ==> rest == [] || before.stalls < after.stalls)
  }

  /** Why a loop over transfers moved less than `count` bytes, or failed. */
  predicate Ended(before: Tally, after: Tally, rest: seq<nat>, count: nat, start: nat, moved: nat, r: Result<nat, Error>) {
    && (r.Ok? ==> r.value == moved <= count && start + moved <= U64_MAX && (moved < count ==> rest == [] || before.stalls < after.stalls))
    && (r.Err? ==> before.failures < after.failures || moved > count || start + moved > U64_MAX)
  }

  // ----- How much a loop over transfers can move ---------------------------------------------

  function Total(parts: seq<nat>): nat {
    if parts == [] then 0 else Total(parts[..|parts| - 1]) + parts[|parts| - 1]
  }

  /** The chain after transfers of these sizes. */
  function Rest(bufs: seq<Slice>, parts: seq<nat>): seq<Slice> {
    if parts == [] then bufs else Dropped(Rest(bufs, parts[..|parts| - 1]), parts[|parts| - 1])
  }

  /**
    The sizes that transfers can have in one loop: each is within what is handed over for the
    bytes still wanted, and the loop goes on only while bytes are wanted and were moved.
   */
  ghost predicate CanMove(bufs: seq<Slice>, count: nat, parts: seq<nat>) {
    parts == [] ||
      var front, last := parts[..|parts| - 1], parts[|parts| - 1];
      && CanMove(bufs, count, front) && (front != [] ==> front[|front| - 1] > 0)
      && Total(front) < count
      && last <= |Flatten(Handed(Rest(bufs, front), count - Total(front)))|
  }

  lemma {:induction false} TightMoves(bufs: seq<Slice>, count: nat, parts: seq<nat>)
    requires CanMove(bufs, count, parts) && Tight(bufs, count)
    ensures Total(parts) <= count && Tight(Rest(bufs, parts), count - Total(parts))
  {
    if parts != [] {
      var front, last := parts[..|parts| - 1], parts[|parts| - 1];
      TightMoves(bufs, count, front);
      HandedWithinIff(Rest(bufs, front), count - Total(front));
      HandedIsPrefix(Rest(bufs, front), count - Total(front));
      DroppedTight(Rest(bufs, front), count - Total(front), last);
    }
  }

  /** A loop can move more bytes than it is asked to if and only if a slice straddles the limit. */
  lemma MovesTooMuchIff(bufs: seq<Slice>, count: nat)
    ensures (exists parts :: CanMove(bufs, count, parts) && Total(parts) > count) <==> !Tight(bufs, count)
  {
    if Tight(bufs, count) {
      forall parts | CanMove(bufs, count, parts) ensures Total(parts) <= count {
        TightMoves(bufs, count, parts);
      }
    } else {
      HandedWithinIff(bufs, count);
      assert count > 0 by {
        assert |Flatten(bufs[..0])| == 0;
      }
      OneTransfer(bufs, count, |Flatten(Handed(bufs, count))|);
    }
  }

  /** Asked to move four bytes of a slice of eight, a loop may move all eight, and then fails. */
  lemma FourMayMoveEight(base: nat)
    ensures CanMove([Slice(base, 8)], 4, [8]) && Total([8]) == 8
  {
    HandedMayExceed(base);
    OneTransfer([Slice(base, 8)], 4, 8);
  }

  lemma OneTransfer(bufs: seq<Slice>, count: nat, n: nat)
    requires count > 0 && n <= |Flatten(Handed(bufs, count))|
    ensures CanMove(bufs, count, [n]) && Total([n]) == n
  {
    var parts := [n];
    var front := parts[..|parts| - 1];
    assert front == [];
    assert Total(front) == 0 && Rest(bufs, front) == bufs && CanMove(bufs, count, front);
    assert Total(parts) == Total(front) + parts[|parts| - 1];
  }

  /** One transfer as a loop sees it. */
  ghost predicate Moved(before: Tally, after: Tally, bufs: seq<Slice>, bufs': seq<Slice>, count: nat, r: Result<nat, Error>) {
    && Explains(before, after, Flatten(bufs'), count, r)
    && (r.Err? ==> bufs' == bufs)
    && (r.Ok? ==> r.value <= |Flatten(Handed(bufs, count))|)
    && (r.Ok? && r.value > 0 ==> bufs' == Dropped(bufs, r.value))
  }

  /** If no slice straddles the limit, a transfer keeps to it, and none straddles what is left of it. */
  lemma TightStays(before: Tally, after: Tally, bufs: seq<Slice>, bufs': seq<Slice>, count: nat, n: nat)
    requires Moved(before, after, bufs, bufs', count, Ok(n)) && n > 0
    ensures Tight(bufs, count) ==> n <= count && Tight(bufs', count - n)
  {
    if Tight(bufs, count) {
      HandedWithinIff(bufs, count);
      HandedIsPrefix(bufs, count);
      DroppedTight(bufs, count, n);
    }
  }

  /** `Reader::write_to_file_at`: one transfer out of the chain. */
  method TransferOut(chain: DescriptorChainConsumer, mem: array<byte>, file: HostFile, count: nat, off: nat)
    returns (r: Result<nat, Error>)
    requires chain.Valid() && InBounds(chain.Stream(), mem.Length)
    modifies chain, file
    ensures chain.Valid()
    ensures Moved(old(file.tally), file.tally, old(chain.buffers), chain.buffers, count, r)
    ensures r.Err? ==> unchanged(chain) && file.content == old(file.content)
    ensures r.Ok? ==>
              && r.value <= |old(chain.Stream())|
              && chain.Stream() == old(chain.Stream())[r.value..]
              && file.content == Patch(old(file.content), off, LoadAt(mem[..], old(chain.Stream())[..r.value]))
  {
    var bufs := chain.HandOver(count);
    if bufs == [] {
      return Ok(0);
    }
    ghost var stream := chain.Stream();
    r := file.WriteVectoredAt(mem, bufs, off);
    if r.Ok? {
      assert Flatten(bufs)[..r.value] == stream[..r.value];
      r := chain.Advance(r.value);
    }
  }

  /** `Writer::read_from_file_at`: one transfer into the chain. */
  method TransferIn(chain: DescriptorChainConsumer, mem: array<byte>, file: HostFile, count: nat, off: nat)
    returns (r: Result<nat, Error>)
    requires chain.Valid() && InBounds(chain.Stream(), mem.Length)
    modifies chain, mem, file`tally
    ensures chain.Valid()
    ensures Moved(old(file.tally), file.tally, old(chain.buffers), chain.buffers, count, r)
    ensures r.Err? ==> unchanged(chain) && mem[..] == old(mem[..])
    ensures r.Ok? ==>
              && r.value <= |old(chain.Stream())|
              && chain.Stream() == old(chain.Stream())[r.value..]
              && Covers(file.content, off, r.value)
              && mem[..] == StoreAt(old(mem[..]), old(chain.Stream()), Extract(file.content, off, r.value))
  {
    var bufs := chain.HandOver(count);
    if bufs == [] {
      return Ok(0);
    }
    ghost var stream := chain.Stream();
    r := file.ReadVectoredAt(mem, bufs, off);
    if r.Ok? {
      StoreAtPrefix(old(mem[..]), Flatten(bufs), stream, Extract(file.content, off, r.value));
      r := chain.Advance(r.value);
    }
  }

  /** After `moved` bytes of the chain, which started out with `stream`, went into the file with `content0`. */
  ghost predicate Drained(chain: DescriptorChainConsumer, mem: array<byte>, file: HostFile, start: nat,
                          content0: map<nat, byte>, stream: seq<nat>, moved: nat)
    reads chain, mem, file
  {
    && chain.Valid() && InBounds(stream, mem.Length)
    && moved <= |stream| && chain.Stream() == stream[moved..]
    && file.content == Patch(content0, start, LoadAt(mem[..], stream[..moved]))
  }

  method DrainMore(chain: DescriptorChainConsumer, mem: array<byte>, file: HostFile, count: nat, off: nat,
                   ghost start: nat, ghost content0: map<nat, byte>, ghost stream: seq<nat>, ghost moved: nat)
    returns (r: Result<nat, Error>)
    requires off == start + moved && Drained(chain, mem, file, start, content0, stream, moved)
    modifies chain, file
    ensures Moved(old(file.tally), file.tally, old(chain.buffers), chain.buffers, count, r)
    ensures r.Err? ==> Drained(chain, mem, file, start, content0, stream, moved)
    ensures r.Ok? ==> Drained(chain, mem, file, start, content0, stream, moved + r.value)
  {
    r := TransferOut(chain, mem, file, count, off);
    if r.Ok? {
      PatchMore(content0, start, mem[..], stream, moved, r.value);
    }
  }

  /**
    `ZcReader::write_to_file_at`.  Whatever the transfers do, the bytes that left the chain are in
    the file at the start offset; the result is their number, at most `count`.
   */
  method WriteToFileAt(chain: DescriptorChainConsumer, mem: array<byte>, file: HostFile, count: nat, start: nat)
    returns (r: Result<nat, Error>, ghost moved: nat)
    requires chain.Valid() && InBounds(chain.Stream(), mem.Length) && start <= U64_MAX
    modifies chain, file
    ensures Drained(chain, mem, file, start, old(file.content), old(chain.Stream()), moved)
    ensures Ended(old(file.tally), file.tally, chain.Stream(), count, start, moved, r)
    ensures Tight(old(chain.buffers), count) ==> moved <= count
  {
    var remaining, off := count, start;
    ghost var stream, bufs, content := chain.Stream(), chain.buffers, file.content;
    moved := 0;
    while remaining > 0
      invariant moved == off - start && moved + remaining == count && off <= U64_MAX
      invariant Tight(bufs, count) ==> Tight(chain.buffers, remaining)
      invariant Explains(old(file.tally), file.tally, chain.Stream(), 0, Ok(0))
      invariant Drained(chain, mem, file, start, content, stream, moved)
    {
      ghost var left, before := chain.buffers, file.tally;
      var t := DrainMore(chain, mem, file, remaining, off, start, content, stream, moved);
      if t.Err? {
        return Err(IoError), moved;
      }
      moved := moved + t.value;
      if t.value == 0 {
        break;
      }
      TightStays(before, file.tally, left, chain.buffers, remaining, t.value);
      off := off + t.value;
      if off > U64_MAX || t.value > remaining {
        return Err(IoError), moved;
      }
      remaining := remaining - t.value;
    }
    r := Ok(off - start);
  }

  /** After `moved` bytes of the file went into the chain, which started out with `mem0` and `stream`. */
  ghost predicate Filled(chain: DescriptorChainConsumer, mem: array<byte>, file: HostFile, start: nat,
                         mem0: seq<byte>, stream: seq<nat>, moved: nat)
    reads chain, mem, file
  {
    && chain.Valid() && InBounds(stream, mem.Length) && |mem0| == mem.Length
    && moved <= |stream| && chain.Stream() == stream[moved..]
    && Covers(file.content, start, moved)
    && mem[..] == StoreAt(mem0, stream, Extract(file.content, start, moved))
  }

  method FillMore(chain: DescriptorChainConsumer, mem: array<byte>, file: HostFile, count: nat, off: nat,
                  ghost start: nat, ghost mem0: seq<byte>, ghost stream: seq<nat>, ghost moved: nat)
    returns (r: Result<nat, Error>)
    requires off == start + moved && Filled(chain, mem, file, start, mem0, stream, moved)
    modifies chain, mem, file`tally
    ensures Moved(old(file.tally), file.tally, old(chain.buffers), chain.buffers, count, r)
    ensures r.Err? ==> Filled(chain, mem, file, start, mem0, stream, moved)
    ensures r.Ok? ==> Filled(chain, mem, file, start, mem0, stream, moved + r.value)
  {
    r := TransferIn(chain, mem, file, count, off);
    if r.Ok? {
      StoreMoreOfFile(file.content, start, mem0, stream, moved, r.value);
    }
  }

  /** `ZcWriter::read_from_file_at`: the first bytes of the chain are the file's from `start` on. */
  method ReadFromFileAt(chain: DescriptorChainConsumer, mem: array<byte>, file: HostFile, count: nat, start: nat)
    returns (r: Result<nat, Error>, ghost moved: nat)
    requires chain.Valid() && InBounds(chain.Stream(), mem.Length) && start <= U64_MAX
    modifies chain, mem, file`tally
    ensures Filled(chain, mem, file, start, old(mem[..]), old(chain.Stream()), moved)
    ensures Ended(old(file.tally), file.tally, chain.Stream(), count, start, moved, r)
    ensures Tight(old(chain.buffers), count) ==> moved <= count
  {
    var remaining, off := count, start;
    ghost var stream, bufs, mem0 := chain.Stream(), chain.buffers, mem[..];
    moved := 0;
    assert Extract(file.content, start, 0) == [];
    while remaining > 0
      invariant moved == off - start && moved + remaining == count && off <= U64_MAX
      invariant Tight(bufs, count) ==> Tight(chain.buffers, remaining)
      invariant Explains(old(file.tally), file.tally, chain.Stream(), 0, Ok(0))
      invariant Filled(chain, mem, file, start, mem0, stream, moved)
    {
      ghost var left, before := chain.buffers, file.tally;
      var t := FillMore(chain, mem, file, remaining, off, start, mem0, stream, moved);
      if t.Err? {
        return Err(IoError), moved;
      }
      moved := moved + t.value;
      if t.value == 0 {
        break;
      }
      TightStays(before, file.tally, left, chain.buffers, remaining, t.value);
      off := off + t.value;
      if off > U64_MAX || t.value > remaining {
        return Err(IoError), moved;
      }
      remaining := remaining - t.value;
    }
    r := Ok(off - start);
  }
}
