/** Bytes and the little-endian integers of the FUSE wire format. */
module Bytes {

  type byte = b: int | 0 <= b < 0x100

  /** File and attribute names are byte strings. */
  type Name = seq<byte>

  /** The size of the address space: the daemon's `usize` is taken to have 64 bits. */
  const USIZE_MAX: nat := 0xFFFF_FFFF_FFFF_FFFF

  /** Records on the wire are padded to 8 bytes. */
  function RoundUp8(n: nat): (r: nat)
    ensures r % 8 == 0 && n <= r < n + 8
  {
    (n + 7) / 8 * 8
  }

  function Power256(n: nat): nat {
    if n == 0 then 1 else 0x100 * Power256(n - 1)
  }

  /** `v` in `n` bytes, least significant first. */
  function Le(v: nat, n: nat): (bs: seq<byte>)
    ensures |bs| == n
  {
    if n == 0 then [] else [v % 0x100] + Le(v / 0x100, n - 1)
  }

  function FromLe(bs: seq<byte>): nat {
    if bs == [] then 0 else bs[0] + 0x100 * FromLe(bs[1..])
  }

  lemma {:induction false} LeRoundTrip(v: nat, n: nat)
    requires v < Power256(n)
    ensures FromLe(Le(v, n)) == v
  {
    if n > 0 {
      LeRoundTrip(v / 0x100, n - 1);
      assert Le(v, n)[1..] == Le(v / 0x100, n - 1);
    }
  }

  lemma {:induction false} FromLeRoundTrip(bs: seq<byte>)
    ensures FromLe(bs) < Power256(|bs|)
    ensures Le(FromLe(bs), |bs|) == bs
  {
    if bs != [] {
      FromLeRoundTrip(bs[1..]);
      assert FromLe(bs) / 0x100 == FromLe(bs[1..]) && FromLe(bs) % 0x100 == bs[0];
      assert bs == [bs[0]] + bs[1..];
    }
  }

  const U32_SIZE := 4
  const U64_SIZE := 8

  predicate IsU32(v: int) {
    0 <= v < 0x1_0000_0000
  }

  /** A 64-bit number. */
  type U64 = x: nat | x < 0x1_0000_0000_0000_0000

  predicate IsU64(v: int) {
    0 <= v < 0x1_0000_0000_0000_0000
  }

  lemma PowersOf256()
    ensures Power256(2) == 0x1_0000
    ensures Power256(4) == 0x1_0000_0000
    ensures Power256(8) == 0x1_0000_0000_0000_0000
  {
    assert Power256(3) == 0x100_0000;
    assert Power256(6) == 0x1_0000_0000_0000;
  }
}
