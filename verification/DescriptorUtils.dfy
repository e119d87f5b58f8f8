/**
  Descriptor chains as byte streams.  A chain is a queue of slices of guest memory; reading and
  writing consume it from the front, cutting slices where needed.
 */
module DescriptorUtils {
  import opened Bytes
  import opened Wrappers

  /** `len` bytes of guest memory from `base` on. */
  datatype Slice = Slice(base: nat, len: nat)

  datatype Error = DescriptorChainOverflow | FindMemoryRegion | VolatileMemoryError | IoError | SplitOutOfBounds

  // ----- The stream a chain stands for -------------------------------------------------------

  function Addrs(s: Slice): (a: seq<nat>)
    ensures |a| == s.len
  {
    seq(s.len, k requires 0 <= k < s.len => s.base + k)
  }

  /** The addresses of the bytes of a chain, in stream order. */
  function Flatten(bufs: seq<Slice>): seq<nat> {
    if bufs == [] then [] else Addrs(bufs[0]) + Flatten(bufs[1..])
  }

  lemma {:induction false} FlattenConcat(a: seq<Slice>, b: seq<Slice>)
    ensures Flatten(a + b) == Flatten(a) + Flatten(b)
  {
    if a == [] {
      assert a + b == b;
    } else {
      assert (a + b)[1..] == a[1..] + b;
      FlattenConcat(a[1..], b);
    }
  }

  lemma FlattenPrefix(bufs: seq<Slice>, k: nat)
    requires k <= |bufs|
    ensures Flatten(bufs) == Flatten(bufs[..k]) + Flatten(bufs[k..])
  {
    assert bufs == bufs[..k] + bufs[k..];
    FlattenConcat(bufs[..k], bufs[k..]);
  }

  lemma FlattenStep(bufs: seq<Slice>, k: nat)
    requires k < |bufs|
    ensures Flatten(bufs[..k + 1]) == Flatten(bufs[..k]) + Addrs(bufs[k])
    ensures Flatten(bufs[k..]) == Addrs(bufs[k]) + Flatten(bufs[k + 1..])
  {
    assert bufs[..k + 1] == bufs[..k] + [bufs[k]];
    FlattenConcat(bufs[..k], [bufs[k]]);
    assert Flatten([bufs[k]]) == Addrs(bufs[k]) by {
      assert [bufs[k]][1..] == [];
    }
  }

  lemma AddrsSplit(s: Slice, k: nat)
    requires k <= s.len
    ensures Addrs(Slice(s.base, k)) == Addrs(s)[..k]
    ensures Addrs(Slice(s.base + k, s.len - k)) == Addrs(s)[k..]
  {
  }

  function Min(a: nat, b: nat): nat {
    if a < b then a else b
  }

  // ----- What is handed over, and what is left -----------------------------------------------

  /** Whole slices from the front, as few as hold `count` bytes, or all. */
  function Handed(bufs: seq<Slice>, count: nat): seq<Slice> {
    if bufs == [] || count == 0 then []
    else [bufs[0]] + Handed(bufs[1..], if count < bufs[0].len then 0 else count - bufs[0].len)
  }

  /** The chain without its first `n` bytes. */
  function Dropped(bufs: seq<Slice>, n: nat): seq<Slice> {
    if bufs == [] then []
    else if n < bufs[0].len then [Slice(bufs[0].base + n, bufs[0].len - n)] + bufs[1..]
    else Dropped(bufs[1..], n - bufs[0].len)
  }

  lemma {:induction false} HandedIsPrefix(bufs: seq<Slice>, count: nat)
    ensures Handed(bufs, count) <= bufs && Flatten(Handed(bufs, count)) <= Flatten(bufs)
    ensures |Flatten(Handed(bufs, count))| < count ==> Handed(bufs, count) == bufs
  {
    if bufs != [] && count > 0 {
      HandedIsPrefix(bufs[1..], if count < bufs[0].len then 0 else count - bufs[0].len);
    }
  }

  /** As few as hold `count` bytes: without the last of them they would not. */
  lemma {:induction false} HandedIsLeast(bufs: seq<Slice>, count: nat)
    requires Handed(bufs, count) != []
    ensures |Flatten(Handed(bufs, count)[..|Handed(bufs, count)| - 1])| < count
  {
    var handed, rest := Handed(bufs, count), if count < bufs[0].len then 0 else count - bufs[0].len;
    if |handed| > 1 {
      HandedIsLeast(bufs[1..], rest);
      assert handed[..|handed| - 1][1..] == Handed(bufs[1..], rest)[..|handed| - 2];
    } else {
      assert handed[..0] == [];
    }
  }

  lemma HandedStep(bufs: seq<Slice>, k: nat, rem: nat)
    requires k < |bufs| && rem > 0
    ensures bufs[..k] + Handed(bufs[k..], rem) ==
            bufs[..k + 1] + Handed(bufs[k + 1..], rem - if rem < bufs[k].len then rem else bufs[k].len)
  {
    var rest := Handed(bufs[k + 1..], rem - if rem < bufs[k].len then rem else bufs[k].len);
    assert bufs[k..][1..] == bufs[k + 1..] && Handed(bufs[k..], rem) == [bufs[k]] + rest;
  }

  lemma {:induction false} DroppedStream(bufs: seq<Slice>, n: nat)
    ensures Flatten(Dropped(bufs, n)) == Flatten(bufs)[Min(n, |Flatten(bufs)|)..]
  {
    if bufs != [] {
      if n < bufs[0].len {
        AddrsSplit(bufs[0], n);
        assert Dropped(bufs, n)[1..] == bufs[1..];
      } else {
        DroppedStream(bufs[1..], n - bufs[0].len);
      }
    }
  }

  /** Some slice of the chain ends after `count` bytes. */
  ghost predicate EndsAt(bufs: seq<Slice>, count: nat) {
    exists k :: 0 <= k <= |bufs| && |Flatten(bufs[..k])| == count
  }

  /** No slice straddles the limit of `count` bytes. */
  ghost predicate Tight(bufs: seq<Slice>, count: nat) {
    |Flatten(bufs)| <= count || EndsAt(bufs, count)
  }

  lemma EndsAtStep(bufs: seq<Slice>, count: nat)
    requires bufs != []
    ensures EndsAt(bufs, count) <==> count == 0 || (bufs[0].len <= count && EndsAt(bufs[1..], count - bufs[0].len))
  {
    if EndsAt(bufs, count) && count > 0 {
      var k :| 0 <= k <= |bufs| && |Flatten(bufs[..k])| == count;
      assert bufs[..k][1..] == bufs[1..][..k - 1];
    }
    if count == 0 {
      assert bufs[..0] == [] && |Flatten(bufs[..0])| == 0;
    } else if bufs[0].len <= count && EndsAt(bufs[1..], count - bufs[0].len) {
      var k :| 0 <= k <= |bufs[1..]| && |Flatten(bufs[1..][..k])| == count - bufs[0].len;
      assert bufs[..k + 1][1..] == bufs[1..][..k];
      assert |Flatten(bufs[..k + 1])| == count;
    }
  }

  /** The slices handed over hold no more than `count` bytes if and only if none straddles the limit. */
  lemma {:induction false} HandedWithinIff(bufs: seq<Slice>, count: nat)
    ensures |Flatten(Handed(bufs, count))| <= count <==> Tight(bufs, count)
  {
    if bufs != [] {
      EndsAtStep(bufs, count);
      if count >= bufs[0].len && count > 0 {
        HandedWithinIff(bufs[1..], count - bufs[0].len);
      }
    }
  }

  /** So they may hold more than asked for: of one slice of eight bytes, four cannot be had. */
  lemma HandedMayExceed(base: nat)
    ensures |Flatten(Handed([Slice(base, 8)], 4))| == 8
  {
    var bufs := [Slice(base, 8)];
    assert Handed(bufs[1..], 0) == [] && Handed(bufs, 4) == bufs && Flatten(bufs[1..]) == [];
  }

  /** Taking bytes off the front moves the limit along with the slices. */
  lemma {:induction false} DroppedEndsAt(bufs: seq<Slice>, count: nat, n: nat)
    requires EndsAt(bufs, count) && n <= count && n <= |Flatten(bufs)|
    ensures EndsAt(Dropped(bufs, n), count - n)
  {
    if bufs != [] {
      var rest := Dropped(bufs, n);
      EndsAtStep(bufs, count);
      if n < bufs[0].len {
        EndsAtStep(rest, count - n);
        assert rest[1..] == bufs[1..];
      } else if count == 0 {
        assert |Flatten(rest[..0])| == 0;
      } else {
        DroppedEndsAt(bufs[1..], count - bufs[0].len, n - bufs[0].len);
      }
    }
  }

  lemma DroppedTight(bufs: seq<Slice>, count: nat, n: nat)
    requires Tight(bufs, count) && n <= count && n <= |Flatten(bufs)|
    ensures Tight(Dropped(bufs, n), count - n)
  {
    DroppedStream(bufs, n);
    if EndsAt(bufs, count) {
      DroppedEndsAt(bufs, count, n);
    }
  }

  // ----- The consumer ------------------------------------------------------------------------

  class DescriptorChainConsumer {
    var buffers: seq<Slice>
    var bytesConsumed: nat

    ghost function Stream(): seq<nat>
      reads this
    {
      Flatten(buffers)
    }

    /** What the constructors check: the whole chain has a length that fits. */
    ghost predicate Valid()
      reads this
    {
      bytesConsumed + |Stream()| <= USIZE_MAX
    }

    constructor (buffers: seq<Slice>, bytesConsumed: nat)
      ensures this.buffers == buffers && this.bytesConsumed == bytesConsumed
    {
      this.buffers, this.bytesConsumed := buffers, bytesConsumed;
    }

    method AvailableBytes() returns (n: nat)
      ensures n == |Stream()|
    {
      n := 0;
      for k := 0 to |buffers|
        invariant n == |Flatten(buffers[..k])|
      {
        FlattenStep(buffers, k);
        n := n + buffers[k].len;
      }
      assert buffers[..|buffers|] == buffers;
    }

    /**
      The slices that `consume` hands to its callback: whole slices from the front, just enough
      to hold `count` bytes.  Together they may hold more.
     */
    method HandOver(count: nat) returns (bufs: seq<Slice>)
      ensures bufs == Handed(buffers, count)
      ensures bufs <= buffers && Flatten(bufs) <= Stream()
      ensures |Flatten(bufs)| < count ==> bufs == buffers
    {
      var buflen, k := 0, 0;
      while k < |buffers| && buflen < count
        invariant k <= |buffers| && buflen <= count
        invariant Handed(buffers, count) == buffers[..k] + Handed(buffers[k..], count - buflen)
      {
        var rem := count - buflen;
        HandedStep(buffers, k, rem);
        buflen := buflen + if rem < buffers[k].len then rem else buffers[k].len;
        k := k + 1;
      }
      bufs := buffers[..k];
      HandedIsPrefix(buffers, count);
    }

    /** What `consume` does once its callback has reported `n` bytes. */
    method Advance(n: nat) returns (r: Result<nat, Error>)
      modifies this
      ensures old(bytesConsumed) + n > USIZE_MAX ==> r == Err(DescriptorChainOverflow) && unchanged(this)
      ensures old(bytesConsumed) + n <= USIZE_MAX ==>
                && r == Ok(n)
                && buffers == Dropped(old(buffers), n)
                && Stream() == old(Stream())[Min(n, |old(Stream())|)..]
                && bytesConsumed == old(bytesConsumed) + n
    {
      if bytesConsumed + n > USIZE_MAX {
        return Err(DescriptorChainOverflow);
      }
      DroppedStream(buffers, n);
      DropFront(n);
      bytesConsumed := bytesConsumed + n;
      r := Ok(n);
    }

    method DropFront(n: nat)
      modifies `buffers
      ensures buffers == Dropped(old(buffers), n)
    {
      ghost var target := Dropped(buffers, n);
      var rem: nat := n;
      while buffers != []
        invariant Dropped(buffers, rem) == target
        decreases |buffers|
      {
        var vs := buffers[0];
        buffers := buffers[1..];
        if rem < vs.len {
          buffers := [Slice(vs.base + rem, vs.len - rem)] + buffers;
          return;
        }
        rem := rem - vs.len;
      }
    }

    /**
      `consume` for an arbitrary callback.  On a callback error nothing is consumed; when the
      callback reports `n` bytes out of those it was handed, the stream loses its first `n`.
     */
    method Consume(count: nat, callback: seq<Slice> -> Result<nat, Error>) returns (r: Result<nat, Error>, ghost handed: seq<Slice>)
      requires Valid()
      modifies this
      ensures handed == Handed(old(buffers), count) && Flatten(handed) <= old(Stream())
      ensures handed == [] ==> r == Ok(0) && unchanged(this)
      ensures handed != [] && callback(handed).Err? ==> r == callback(handed) && unchanged(this)
      ensures handed != [] && callback(handed).Ok? && callback(handed).value <= |Flatten(handed)| ==>
                && r == callback(handed)
                && buffers == Dropped(old(buffers), r.value) && Stream() == old(Stream())[r.value..]
                && bytesConsumed == old(bytesConsumed) + r.value
                && Valid()
    {
      var bufs := HandOver(count);
      handed := bufs;
      if bufs == [] {
        return Ok(0), handed;
      }
      match callback(bufs) {
        case Err(e) => r := Err(e);
        case Ok(n) => r := Advance(n);
      }
    }

    /** Cut the stream at `offset`, keeping the front; fails, changing nothing, beyond the end. */
    method SplitAt(offset: nat) returns (r: Result<DescriptorChainConsumer, Error>)
      modifies this
      ensures r.Ok? <==> offset <= |old(Stream())|
      ensures r.Err? ==> r == Err(SplitOutOfBounds) && unchanged(this)
      ensures r.Ok? ==>
                && fresh(r.value)
                && Stream() == old(Stream())[..offset]
                && r.value.Stream() == old(Stream())[offset..]
                && bytesConsumed == old(bytesConsumed) && r.value.bytesConsumed == 0
    {
      var at, rem := FindSplit(buffers, offset);
      if at < |buffers| {
        CutStream(buffers, at, rem);
        var front, other := buffers[at], buffers[at..];
        buffers := buffers[..at];
        if rem > 0 {
          other := [Slice(front.base + rem, front.len - rem)] + other[1..];
          buffers := buffers + [Slice(front.base, rem)];
        }
        var tail := new DescriptorChainConsumer(other, 0);
        r := Ok(tail);
      } else if rem == 0 {
        var tail := new DescriptorChainConsumer([], 0);
        r := Ok(tail);
      } else {
        r := Err(SplitOutOfBounds);
      }
    }

    /** `Writer::write`: copy into guest memory as much of `buf` as fits. */
    method Write(mem: array<byte>, buf: seq<byte>) returns (n: nat)
      requires Valid() && InBounds(Stream(), mem.Length)
      modifies this, mem
      ensures n == Min(|buf|, |old(Stream())|)
      ensures Stream() == old(Stream())[n..] && bytesConsumed == old(bytesConsumed) + n
      ensures mem[..] == StoreAt(old(mem[..]), old(Stream()), buf)
      ensures Valid() && InBounds(Stream(), mem.Length)
    {
      var bufs := HandOver(|buf|);
      n := 0;
      if bufs != [] {
        ghost var stream := Stream();
        n := Scatter(mem, bufs, buf);
        StoreAtPrefix(old(mem[..]), Flatten(bufs), stream, buf);
        var r := Advance(n);
      } else {
        assert n == Min(|buf|, |Stream()|);
      }
    }

    /** `Reader::read`: copy up to `count` bytes out of guest memory. */
    method Read(mem: array<byte>, count: nat) returns (out: seq<byte>)
      requires Valid() && InBounds(Stream(), mem.Length)
      modifies this
      ensures |out| == Min(count, |old(Stream())|)
      ensures out == LoadAt(mem[..], old(Stream())[..|out|])
      ensures Stream() == old(Stream())[|out|..] && bytesConsumed == old(bytesConsumed) + |out|
      ensures Valid() && InBounds(Stream(), mem.Length)
    {
      var bufs := HandOver(count);
      out := [];
      if bufs != [] {
        ghost var stream := Stream();
        out := Gather(mem, bufs, count);
        assert Flatten(bufs)[..|out|] == stream[..|out|];
        var r := Advance(|out|);
      } else {
        assert |out| == Min(count, |Stream()|);
      }
    }

    /** `write_all`: write until everything is out, failing when the chain is full before. */
    method WriteAll(mem: array<byte>, buf: seq<byte>) returns (ok: bool)
      requires Valid() && InBounds(Stream(), mem.Length)
      modifies this, mem
      ensures ok <==> |buf| <= |old(Stream())|
      ensures var n := Min(|buf|, |old(Stream())|);
              && Stream() == old(Stream())[n..] && bytesConsumed == old(bytesConsumed) + n
              && mem[..] == StoreAt(old(mem[..]), old(Stream()), buf)
      ensures Valid() && InBounds(Stream(), mem.Length)
    {
      if buf == [] {
        return true;
      }
      var n := Write(mem, buf);
      if n == |buf| {
        return true;
      }
      // the chain took all it could, so the next write stores nothing
      assert |Stream()| == 0;
      var more := Write(mem, buf[n..]);
      ok := false;
    }
  }

  /** The slice that `offset` falls into and the offset within it; past the last slice if none. */
  method FindSplit(bufs: seq<Slice>, offset: nat) returns (at: nat, rem: nat)
    ensures at <= |bufs| && rem + |Flatten(bufs[..at])| == offset
    ensures at < |bufs| ==> rem < bufs[at].len
    ensures at == |bufs| ==> rem + |Flatten(bufs)| == offset
    ensures at < |bufs| ==> offset < |Flatten(bufs)|
  {
    at, rem := 0, offset;
    while at < |bufs| && rem >= bufs[at].len
      invariant at <= |bufs|
      invariant rem + |Flatten(bufs[..at])| == offset
    {
      FlattenStep(bufs, at);
      rem, at := rem - bufs[at].len, at + 1;
    }
    FlattenPrefix(bufs, at);
    if at == |bufs| {
      assert bufs[..at] == bufs;
    } else {
      FlattenStep(bufs, at);
    }
  }

  lemma CutStream(bufs: seq<Slice>, at: nat, rem: nat)
    requires at < |bufs| && rem < bufs[at].len
    ensures var offset := rem + |Flatten(bufs[..at])|;
            && offset < |Flatten(bufs)|
            && Flatten(bufs[..at] + [Slice(bufs[at].base, rem)]) == Flatten(bufs)[..offset]
            && Flatten([Slice(bufs[at].base + rem, bufs[at].len - rem)] + bufs[at..][1..]) == Flatten(bufs)[offset..]
            && (rem == 0 ==> Flatten(bufs[..at]) == Flatten(bufs)[..offset] && Flatten(bufs[at..]) == Flatten(bufs)[offset..])
  {
    var head, tail := Slice(bufs[at].base, rem), Slice(bufs[at].base + rem, bufs[at].len - rem);
    var a, b, c := Flatten(bufs[..at]), Addrs(bufs[at]), Flatten(bufs[at + 1..]);
    assert Flatten(bufs) == a + (b + c) && Flatten(bufs[at..]) == b + c by {
      FlattenPrefix(bufs, at);
      FlattenStep(bufs, at);
    }
    AddrsSplit(bufs[at], rem);
    assert Flatten(bufs[..at] + [head]) == a + b[..rem] by {
      FlattenConcat(bufs[..at], [head]);
      assert [head][1..] == [];
    }
    assert Flatten([tail] + bufs[at..][1..]) == b[rem..] + c by {
      assert ([tail] + bufs[at..][1..])[1..] == bufs[at + 1..];
    }
    CutConcat(a, b, c, rem);
  }

  lemma CutConcat(a: seq<nat>, b: seq<nat>, c: seq<nat>, k: nat)
    requires k <= |b|
    ensures (a + (b + c))[..k + |a|] == a + b[..k]
    ensures (a + (b + c))[k + |a|..] == b[k..] + c
  {
  }

  /** The callback of `write`: fill the slices in order. */
  method Scatter(mem: array<byte>, bufs: seq<Slice>, buf: seq<byte>) returns (n: nat)
    requires InBounds(Flatten(bufs), mem.Length)
    modifies mem
    ensures n == Min(|buf|, |Flatten(bufs)|)
    ensures mem[..] == StoreAt(old(mem[..]), Flatten(bufs), buf)
  {
    n := 0;
    ghost var stream := Flatten(bufs);
    for k := 0 to |bufs|
      invariant n == Min(|buf|, |Flatten(bufs[..k])|) <= |stream|
      invariant mem[..] == StoreAt(old(mem[..]), stream, buf[..n])
    {
      var copyLen: nat := Min(|buf| - n, bufs[k].len);
      FlattenAt(bufs, k, n, copyLen, |buf|);
      StoreMore(old(mem[..]), stream, buf, n, copyLen);
      CopyToSlice(mem, bufs[k], buf[n..n + copyLen]);
      n := n + copyLen;
    }
    assert bufs[..|bufs|] == bufs;
    StoreAtPrefix(old(mem[..]), stream, stream, buf);
  }

  lemma StoreMore(mem: seq<byte>, stream: seq<nat>, buf: seq<byte>, n: nat, len: nat)
    requires InBounds(stream, |mem|) && n + len <= |stream| && n + len <= |buf|
    ensures StoreAt(mem, stream, buf[..n + len]) ==
            StoreAt(StoreAt(mem, stream, buf[..n]), stream[n..n + len], buf[n..n + len])
  {
    var mem1, chunk := StoreAt(mem, stream, buf[..n]), buf[n..n + len];
    StoreAtConcat(mem, stream, buf[..n], chunk);
    assert buf[..n] + chunk == buf[..n + len];
    assert stream[n..][..len] == stream[n..n + len];
    StoreAtPrefix(mem1, stream[n..n + len], stream[n..], chunk);
  }

  /** The callback of `read`: empty the slices in order. */
  method Gather(mem: array<byte>, bufs: seq<Slice>, count: nat) returns (out: seq<byte>)
    requires InBounds(Flatten(bufs), mem.Length)
    ensures |out| == Min(count, |Flatten(bufs)|)
    ensures out == LoadAt(mem[..], Flatten(bufs)[..|out|])
  {
    out := [];
    ghost var stream := Flatten(bufs);
    for k := 0 to |bufs|
      invariant |out| == Min(count, |Flatten(bufs[..k])|) <= |stream|
      invariant out == LoadAt(mem[..], stream[..|out|])
    {
      ghost var n := |out|;
      var copyLen: nat := Min(count - |out|, bufs[k].len);
      FlattenAt(bufs, k, n, copyLen, count);
      var part := CopyFromSlice(mem, bufs[k], copyLen);
      LoadMore(mem[..], stream, n, copyLen);
      out := out + part;
      assert out == LoadAt(mem[..], stream[..n + copyLen]);
    }
    assert bufs[..|bufs|] == bufs;
  }

  lemma LoadMore(mem: seq<byte>, stream: seq<nat>, n: nat, len: nat)
    requires InBounds(stream, |mem|) && n + len <= |stream|
    ensures LoadAt(mem, stream[..n]) + LoadAt(mem, stream[n..n + len]) == LoadAt(mem, stream[..n + len])
  {
    assert stream[..n] + stream[n..n + len] == stream[..n + len];
  }

  /** Where slice `k` lies in the stream, when `n` of at most `limit` bytes come before it. */
  lemma FlattenAt(bufs: seq<Slice>, k: nat, n: nat, copyLen: nat, limit: nat)
    requires k < |bufs| && n == Min(limit, |Flatten(bufs[..k])|) && copyLen == Min(limit - n, bufs[k].len)
    ensures n + copyLen == Min(limit, |Flatten(bufs[..k + 1])|) <= |Flatten(bufs)|
    ensures Flatten(bufs)[n..n + copyLen] == Addrs(bufs[k])[..copyLen]
  {
    FlattenStep(bufs, k);
    FlattenPrefix(bufs, k + 1);
  }

  /** One slice's share of a read. */
  method CopyFromSlice(mem: array<byte>, vs: Slice, n: nat) returns (bs: seq<byte>)
    requires n <= vs.len && InBounds(Addrs(vs)[..n], mem.Length)
    ensures bs == LoadAt(mem[..], Addrs(vs)[..n])
  {
    if n == 0 {
      return [];
    }
    assert Addrs(vs)[..n][n - 1] == vs.base + n - 1;
    bs := mem[vs.base..vs.base + n];
  }

  /** One slice's share of a write. */
  method CopyToSlice(mem: array<byte>, vs: Slice, bs: seq<byte>)
    requires |bs| <= vs.len && InBounds(Addrs(vs)[..|bs|], mem.Length)
    modifies mem
    ensures mem[..] == StoreAt(old(mem[..]), Addrs(vs)[..|bs|], bs)
  {
    ghost var addrs := Addrs(vs)[..|bs|];
    for k := 0 to |bs|
      invariant mem[..] == StoreAt(old(mem[..]), addrs, bs[..k])
    {
      assert addrs[k] == vs.base + k;
      StoreAtConcat(old(mem[..]), addrs, bs[..k], [bs[k]]);
      assert bs[..k] + [bs[k]] == bs[..k + 1];
      mem[vs.base + k] := bs[k];
    }
    assert bs[..|bs|] == bs;
  }

  // ----- Building a chain --------------------------------------------------------------------

  datatype Descriptor = Descriptor(addr: nat, len: nat)

  /** The guest memory lookup of the constructors: any outcome, with slices of the asked length. */
  ghost predicate Locates(locate: Descriptor -> Result<Slice, Error>) {
    forall d :: locate(d).Ok? ==> locate(d).value.len == d.len
  }

  /** The slices of all descriptors, or the error of the first that overflows or is not found. */
  function Collect(descs: seq<Descriptor>, locate: Descriptor -> Result<Slice, Error>, total: nat): Result<seq<Slice>, Error> {
    if descs == [] then Ok([])
    else if total + descs[0].len > USIZE_MAX then Err(DescriptorChainOverflow)
    else
      match locate(descs[0])
      case Err(e) => Err(e)
      case Ok(s) =>
        match Collect(descs[1..], locate, total + descs[0].len)
        case Err(e) => Err(e)
        case Ok(rest) => Ok([s] + rest)
  }

  lemma {:induction false} CollectFits(descs: seq<Descriptor>, locate: Descriptor -> Result<Slice, Error>, total: nat)
    requires Locates(locate) && total <= USIZE_MAX && Collect(descs, locate, total).Ok?
    ensures total + |Flatten(Collect(descs, locate, total).value)| <= USIZE_MAX
  {
    if descs != [] {
      CollectFits(descs[1..], locate, total + descs[0].len);
      var rest := Collect(descs[1..], locate, total + descs[0].len).value;
      assert ([locate(descs[0]).value] + rest)[1..] == rest;
    }
  }

  function Lengths(descs: seq<Descriptor>): nat {
    if descs == [] then 0 else descs[0].len + Lengths(descs[1..])
  }

  /** A chain is accepted if and only if it fits and every descriptor is found; it has their slices in order. */
  lemma {:induction false} CollectIff(descs: seq<Descriptor>, locate: Descriptor -> Result<Slice, Error>, total: nat)
    requires total <= USIZE_MAX
    ensures Collect(descs, locate, total).Ok? <==>
            total + Lengths(descs) <= USIZE_MAX && forall k | 0 <= k < |descs| :: locate(descs[k]).Ok?
    ensures Collect(descs, locate, total).Ok? ==>
              var bufs := Collect(descs, locate, total).value;
              |bufs| == |descs| && forall k | 0 <= k < |descs| :: locate(descs[k]) == Ok(bufs[k])
  {
    if descs != [] && total + descs[0].len <= USIZE_MAX {
      CollectIff(descs[1..], locate, total + descs[0].len);
      assert forall k | 0 < k < |descs| :: descs[k] == descs[1..][k - 1];
    }
  }

  /** The descriptor is the first that is too much, or else not found. */
  ghost predicate FailsAt(descs: seq<Descriptor>, locate: Descriptor -> Result<Slice, Error>, total: nat, k: nat, e: Error) {
    && k < |descs| && total + Lengths(descs[..k]) <= USIZE_MAX && (forall j | 0 <= j < k :: locate(descs[j]).Ok?)
    && if total + Lengths(descs[..k]) + descs[k].len > USIZE_MAX then e == DescriptorChainOverflow else locate(descs[k]) == Err(e)
  }

  lemma {:induction false} CollectFails(descs: seq<Descriptor>, locate: Descriptor -> Result<Slice, Error>, total: nat) returns (k: nat)
    requires total <= USIZE_MAX && Collect(descs, locate, total).Err?
    ensures FailsAt(descs, locate, total, k, Collect(descs, locate, total).error)
  {
    if total + descs[0].len > USIZE_MAX || locate(descs[0]).Err? {
      k := 0;
      assert descs[..0] == [];
    } else {
      var m := CollectFails(descs[1..], locate, total + descs[0].len);
      k := m + 1;
      assert descs[..k] == [descs[0]] + descs[1..][..m];
      assert descs[..k][1..] == descs[1..][..m];
    }
  }

  /** `Reader::new` and `Writer::new`: a chain they accept can never overflow when consumed. */
  method NewConsumer(descs: seq<Descriptor>, locate: Descriptor -> Result<Slice, Error>)
    returns (r: Result<DescriptorChainConsumer, Error>)
    requires Locates(locate)
    ensures r.Err? <==> Collect(descs, locate, 0).Err?
    ensures r.Err? ==> r.error == Collect(descs, locate, 0).error
    ensures r.Ok? ==> fresh(r.value) && r.value.Valid() && r.value.bytesConsumed == 0
                      && r.value.buffers == Collect(descs, locate, 0).value
    ensures r.Ok? <==> Lengths(descs) <= USIZE_MAX && forall k | 0 <= k < |descs| :: locate(descs[k]).Ok?
    ensures r.Ok? ==> |r.value.buffers| == |descs| && forall k | 0 <= k < |descs| :: locate(descs[k]) == Ok(r.value.buffers[k])
  {
    CollectIff(descs, locate, 0);
    var total: nat, bufs: seq<Slice> := 0, [];
    assert descs[0..] == descs;
    assert forall rest: seq<Slice> :: bufs + rest == rest;
    for k := 0 to |descs|
      invariant total <= USIZE_MAX
      invariant var rest := Collect(descs[k..], locate, total);
                Collect(descs, locate, 0) == if rest.Ok? then Ok(bufs + rest.value) else rest
    {
      assert descs[k..][1..] == descs[k + 1..];
      if total + descs[k].len > USIZE_MAX {
        return Err(DescriptorChainOverflow);
      }
      total := total + descs[k].len;
      var s := locate(descs[k]);
      if s.Err? {
        return Err(s.error);
      }
      assert forall rest: seq<Slice> :: bufs + ([s.value] + rest) == bufs + [s.value] + rest;
      bufs := bufs + [s.value];
    }
    assert bufs + [] == bufs;
    CollectFits(descs, locate, 0);
    var consumer := new DescriptorChainConsumer(bufs, 0);
    r := Ok(consumer);
  }

  // ----- Guest memory ------------------------------------------------------------------------

  ghost predicate InBounds(addrs: seq<nat>, size: nat) {
    forall k | 0 <= k < |addrs| :: addrs[k] < size
  }

  /** No byte of guest memory occurs twice in the stream. */
  ghost predicate Distinct(addrs: seq<nat>) {
    forall j, k | 0 <= j < k < |addrs| :: addrs[j] != addrs[k]
  }

  /** Store `bs` at the first addresses, as far as these go. */
  ghost function StoreAt(mem: seq<byte>, addrs: seq<nat>, bs: seq<byte>): (r: seq<byte>)
    requires InBounds(addrs, |mem|)
    ensures |r| == |mem|
    decreases |addrs|
  {
    if addrs == [] || bs == [] then mem else StoreAt(mem[addrs[0] := bs[0]], addrs[1..], bs[1..])
  }

  ghost function LoadAt(mem: seq<byte>, addrs: seq<nat>): (r: seq<byte>)
    requires InBounds(addrs, |mem|)
    ensures |r| == |addrs|
  {
    seq(|addrs|, k requires 0 <= k < |addrs| => mem[addrs[k]])
  }

  lemma {:induction false} StoreAtConcat(mem: seq<byte>, addrs: seq<nat>, x: seq<byte>, y: seq<byte>)
    requires InBounds(addrs, |mem|)
    ensures StoreAt(mem, addrs, x + y) == StoreAt(StoreAt(mem, addrs, x), addrs[Min(|x|, |addrs|)..], y)
    decreases |addrs|
  {
    if x == [] {
      assert x + y == y;
    } else if addrs != [] {
      assert (x + y)[1..] == x[1..] + y;
      StoreAtConcat(mem[addrs[0] := x[0]], addrs[1..], x[1..], y);
      assert addrs[1..][Min(|x[1..]|, |addrs[1..]|)..] == addrs[Min(|x|, |addrs|)..];
    }
  }

  /** Only the first addresses matter, and only as many bytes as there are addresses. */
  lemma {:induction false} StoreAtPrefix(mem: seq<byte>, a: seq<nat>, addrs: seq<nat>, bs: seq<byte>)
    requires InBounds(addrs, |mem|) && a <= addrs
    ensures |bs| <= |a| || |a| == |addrs| ==> StoreAt(mem, a, bs) == StoreAt(mem, addrs, bs)
    ensures StoreAt(mem, a, bs) == StoreAt(mem, a, bs[..Min(|bs|, |a|)])
    decreases |addrs|
  {
    if a != [] && bs != [] {
      StoreAtPrefix(mem[a[0] := bs[0]], a[1..], addrs[1..], bs[1..]);
      assert bs[..Min(|bs|, |a|)][1..] == bs[1..][..Min(|bs[1..]|, |a[1..]|)];
    }
  }

  /** Storing changes nothing elsewhere. */
  lemma {:induction false} StoreElsewhere(mem: seq<byte>, addrs: seq<nat>, bs: seq<byte>, p: nat)
    requires InBounds(addrs, |mem|) && p < |mem| && p !in addrs
    ensures StoreAt(mem, addrs, bs)[p] == mem[p]
    decreases |addrs|
  {
    if addrs != [] && bs != [] {
      StoreElsewhere(mem[addrs[0] := bs[0]], addrs[1..], bs[1..], p);
    }
  }

  lemma {:induction false} LoadStored(mem: seq<byte>, addrs: seq<nat>, bs: seq<byte>, k: nat)
    requires InBounds(addrs, |mem|) && Distinct(addrs) && k < |addrs|
    ensures k < |bs| ==> StoreAt(mem, addrs, bs)[addrs[k]] == bs[k]
    decreases |addrs|
  {
    if bs != [] {
      if k == 0 {
        StoreElsewhere(mem[addrs[0] := bs[0]], addrs[1..], bs[1..], addrs[0]);
      } else {
        LoadStored(mem[addrs[0] := bs[0]], addrs[1..], bs[1..], k - 1);
      }
    }
  }

  // ----- Writing a chain and reading it back -------------------------------------------------

  function Concat(pieces: seq<seq<byte>>): seq<byte> {
    if pieces == [] then [] else pieces[0] + Concat(pieces[1..])
  }

  function Sum(sizes: seq<nat>): nat {
    if sizes == [] then 0 else sizes[0] + Sum(sizes[1..])
  }

  /** Guest memory after one `Write` for each piece. */
  ghost function WritePieces(mem: seq<byte>, stream: seq<nat>, pieces: seq<seq<byte>>): (r: seq<byte>)
    requires InBounds(stream, |mem|)
    ensures |r| == |mem|
    decreases |pieces|
  {
    if pieces == [] then mem
    else WritePieces(StoreAt(mem, stream, pieces[0]), stream[Min(|pieces[0]|, |stream|)..], pieces[1..])
  }

  /** The bytes that one `Read` for each size returns, all together. */
  ghost function ReadPieces(mem: seq<byte>, stream: seq<nat>, sizes: seq<nat>): seq<byte>
    requires InBounds(stream, |mem|)
  {
    if sizes == [] then []
    else
      var n := Min(sizes[0], |stream|);
      LoadAt(mem, stream[..n]) + ReadPieces(mem, stream[n..], sizes[1..])
  }

  lemma {:induction false} WritePiecesIsOneWrite(mem: seq<byte>, stream: seq<nat>, pieces: seq<seq<byte>>)
    requires InBounds(stream, |mem|)
    ensures WritePieces(mem, stream, pieces) == StoreAt(mem, stream, Concat(pieces))
    decreases |pieces|
  {
    if pieces != [] {
      WritePiecesIsOneWrite(StoreAt(mem, stream, pieces[0]), stream[Min(|pieces[0]|, |stream|)..], pieces[1..]);
      StoreAtConcat(mem, stream, pieces[0], Concat(pieces[1..]));
    }
  }

  lemma {:induction false} ReadPiecesIsOneRead(mem: seq<byte>, stream: seq<nat>, sizes: seq<nat>)
    requires InBounds(stream, |mem|)
    ensures ReadPieces(mem, stream, sizes) == LoadAt(mem, stream[..Min(Sum(sizes), |stream|)])
    decreases |sizes|
  {
    if sizes != [] {
      var n, all := Min(sizes[0], |stream|), Min(Sum(sizes), |stream|);
      ReadPiecesIsOneRead(mem, stream[n..], sizes[1..]);
      assert stream[..n] + stream[n..][..all - n] == stream[..all];
      assert LoadAt(mem, stream[..all]) == LoadAt(mem, stream[..n]) + LoadAt(mem, stream[n..][..all - n]);
    }
  }

  /**
    Whatever slices a chain of distinct bytes is cut into (empty ones included), and however the
    writes and the reads are split up: reading returns the bytes that were written.
   */
  lemma RoundTrip(mem: seq<byte>, bufs: seq<Slice>, readBufs: seq<Slice>, pieces: seq<seq<byte>>, sizes: seq<nat>)
    requires Flatten(bufs) == Flatten(readBufs)
    requires InBounds(Flatten(bufs), |mem|) && Distinct(Flatten(bufs))
    ensures var got := ReadPieces(WritePieces(mem, Flatten(bufs), pieces), Flatten(readBufs), sizes);
            && |got| == Min(Sum(sizes), |Flatten(bufs)|)
            && forall k | 0 <= k < |got| && k < |Concat(pieces)| :: got[k] == Concat(pieces)[k]
  {
    var stream, all := Flatten(bufs), Concat(pieces);
    WritePiecesIsOneWrite(mem, stream, pieces);
    var mem' := StoreAt(mem, stream, all);
    ReadPiecesIsOneRead(mem', stream, sizes);
    var n := Min(Sum(sizes), |stream|);
    forall k | 0 <= k < n && k < |all| ensures LoadAt(mem', stream[..n])[k] == all[k] {
      LoadStored(mem, stream, all, k);
    }
  }

  method WriteEach(w: DescriptorChainConsumer, mem: array<byte>, pieces: seq<seq<byte>>)
    requires w.Valid() && InBounds(w.Stream(), mem.Length)
    modifies w, mem
    ensures mem[..] == WritePieces(old(mem[..]), old(w.Stream()), pieces)
  {
    ghost var all := WritePieces(mem[..], w.Stream(), pieces);
    for k := 0 to |pieces|
      invariant w.Valid() && InBounds(w.Stream(), mem.Length)
      invariant all == WritePieces(mem[..], w.Stream(), pieces[k..])
    {
      assert pieces[k..][1..] == pieces[k + 1..];
      var n := w.Write(mem, pieces[k]);
    }
  }

  method ReadEach(r: DescriptorChainConsumer, mem: array<byte>, sizes: seq<nat>) returns (got: seq<byte>)
    requires r.Valid() && InBounds(r.Stream(), mem.Length)
    modifies r
    ensures got == ReadPieces(mem[..], old(r.Stream()), sizes)
  {
    ghost var all := ReadPieces(mem[..], r.Stream(), sizes);
    got := [];
    for k := 0 to |sizes|
      invariant r.Valid() && InBounds(r.Stream(), mem.Length)
      invariant all == got + ReadPieces(mem[..], r.Stream(), sizes[k..])
    {
      assert sizes[k..][1..] == sizes[k + 1..];
      ghost var before, rest := got, r.Stream();
      var piece := r.Read(mem, sizes[k]);
      got := got + piece;
      assert before + (piece + ReadPieces(mem[..], r.Stream(), sizes[k + 1..])) == got + ReadPieces(mem[..], r.Stream(), sizes[k + 1..]);
    }
  }

  /** The same of a writer and a reader over such chains, whatever they are called with. */
  method WriteThenRead(w: DescriptorChainConsumer, r: DescriptorChainConsumer, mem: array<byte>,
                       pieces: seq<seq<byte>>, sizes: seq<nat>) returns (got: seq<byte>)
    requires w != r && w.Valid() && r.Valid() && w.Stream() == r.Stream()
    requires InBounds(w.Stream(), mem.Length) && Distinct(w.Stream())
    modifies w, r, mem
    ensures |got| == Min(Sum(sizes), |old(w.Stream())|)
    ensures forall k | 0 <= k < |got| && k < |Concat(pieces)| :: got[k] == Concat(pieces)[k]
  {
    RoundTrip(mem[..], w.buffers, r.buffers, pieces, sizes);
    WriteEach(w, mem, pieces);
    got := ReadEach(r, mem, sizes);
  }
}
