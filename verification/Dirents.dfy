/** Directory records of READDIR and READDIRPLUS replies: their encoding and `add_dirent`. */
module Dirents {
  import opened Bytes
  import opened DescriptorUtils
  import opened Wrappers

  const DIRENT_SIZE := 24
  const ENTRY_OUT_SIZE := 128

  datatype DirEntry = DirEntry(ino: nat, offset: nat, kind: nat, name: seq<byte>)

  /** `rest` are the bytes of the wire format after the node ID: generation, timeouts, attributes. */
  datatype Entry = Entry(inode: nat, rest: seq<byte>)

  /** A READDIRPLUS record has an entry, a READDIR record has none. */
  datatype Record = Record(entry: Option<Entry>, dirent: DirEntry)

  predicate WellFormedEntry(e: Entry) {
    IsU64(e.inode) && |e.rest| == ENTRY_OUT_SIZE - U64_SIZE
  }

  predicate WellFormedDirent(d: DirEntry) {
    IsU64(d.ino) && IsU64(d.offset) && IsU32(d.kind)
  }

  predicate WellFormed(r: Record) {
    && WellFormedDirent(r.dirent) && IsU32(|r.dirent.name|)
    && (r.entry.Some? ==> WellFormedEntry(r.entry.value))
  }

  function Zeros(n: nat): (bs: seq<byte>)
    ensures |bs| == n
  {
    seq(n, _ => 0)
  }

  // ----- Encoding ----------------------------------------------------------------------------

  function EncodeEntry(e: Option<Entry>): seq<byte> {
    match e
    case None => []
    case Some(e) => Le(e.inode, U64_SIZE) + e.rest
  }

  function EncodeHeader(d: DirEntry): (bs: seq<byte>)
    ensures |bs| == DIRENT_SIZE
  {
    Le(d.ino, U64_SIZE) + Le(d.offset, U64_SIZE) + Le(|d.name|, U32_SIZE) + Le(d.kind, U32_SIZE)
  }

  function Padding(d: DirEntry): nat {
    RoundUp8(DIRENT_SIZE + |d.name|) - (DIRENT_SIZE + |d.name|)
  }

  function Encode(r: Record): seq<byte> {
    EncodeEntry(r.entry) + EncodeHeader(r.dirent) + r.dirent.name + Zeros(Padding(r.dirent))
  }

  function EncodeAll(rs: seq<Record>): seq<byte> {
    if rs == [] then [] else Encode(rs[0]) + EncodeAll(rs[1..])
  }

  /** Records keep the stream aligned to 8 bytes. */
  lemma EncodeLength(r: Record)
    requires WellFormed(r)
    ensures |Encode(r)| == RoundUp8(DIRENT_SIZE + |r.dirent.name|) + (if r.entry.Some? then ENTRY_OUT_SIZE else 0)
    ensures |Encode(r)| % 8 == 0 && |Encode(r)| >= DIRENT_SIZE
  {
    var d := r.dirent;
    var len := RoundUp8(DIRENT_SIZE + |d.name|);
    assert |EncodeHeader(d) + d.name + Zeros(Padding(d))| == len;
    assert |EncodeEntry(r.entry)| == if r.entry.Some? then ENTRY_OUT_SIZE else 0;
    assert Encode(r) == EncodeEntry(r.entry) + (EncodeHeader(d) + d.name + Zeros(Padding(d)));
    AlignedSum(|EncodeEntry(r.entry)|, len);
  }

  lemma AlignedSum(a: nat, b: nat)
    requires a % 8 == 0 && b % 8 == 0
    ensures (a + b) % 8 == 0
  {
  }

  /** So does every prefix of a reply that ends with a record. */
  lemma {:induction false} EncodeAllAligned(rs: seq<Record>)
    requires forall k | 0 <= k < |rs| :: WellFormed(rs[k])
    ensures |EncodeAll(rs)| % 8 == 0
  {
    if rs != [] {
      EncodeLength(rs[0]);
      EncodeAllAligned(rs[1..]);
      AlignedSum(|Encode(rs[0])|, |EncodeAll(rs[1..])|);
    }
  }

  lemma {:induction false} EncodeAllAppend(rs: seq<Record>, r: Record)
    ensures EncodeAll(rs + [r]) == EncodeAll(rs) + Encode(r)
  {
    if rs == [] {
      assert rs + [r] == [r] && [r][1..] == [];
    } else {
      assert (rs + [r])[1..] == rs[1..] + [r];
      EncodeAllAppend(rs[1..], r);
    }
  }

  // ----- Decoding, as the guest does ---------------------------------------------------------

  function DecodeEntry(bs: seq<byte>, plus: bool): Option<(Option<Entry>, seq<byte>)> {
    if !plus then Some((None, bs))
    else if |bs| < ENTRY_OUT_SIZE then None
    else Some((Some(Entry(FromLe(bs[..8]), bs[8..ENTRY_OUT_SIZE])), bs[ENTRY_OUT_SIZE..]))
  }

  /** The first record of a reply and what follows it; `plus` tells READDIRPLUS from READDIR. */
  function DecodeOne(bs: seq<byte>, plus: bool): (r: Option<(Record, seq<byte>)>)
    ensures r.Some? ==> |r.value.1| < |bs|
  {
    match DecodeEntry(bs, plus)
    case None => None
    case Some((entry, bs)) =>
      if |bs| < DIRENT_SIZE then None
      else
        var namelen := FromLe(bs[16..20]);
        var len := RoundUp8(DIRENT_SIZE + namelen);
        if |bs| < len then None
        else
          var d := DirEntry(FromLe(bs[..8]), FromLe(bs[8..16]), FromLe(bs[20..24]),
                            bs[DIRENT_SIZE..DIRENT_SIZE + namelen]);
          Some((Record(entry, d), bs[len..]))
  }

  function DecodeAll(bs: seq<byte>, plus: bool): Option<seq<Record>>
    decreases |bs|
  {
    if bs == [] then Some([])
    else
      match DecodeOne(bs, plus)
      case None => None
      case Some((r, rest)) =>
        match DecodeAll(rest, plus)
        case None => None
        case Some(rs) => Some([r] + rs)
  }

  lemma DecodeEntryOf(e: Option<Entry>, tail: seq<byte>)
    requires e.Some? ==> WellFormedEntry(e.value)
    ensures DecodeEntry(EncodeEntry(e) + tail, e.Some?) == Some((e, tail))
  {
    match e {
      case None => assert EncodeEntry(e) + tail == tail;
      case Some(e') =>
        var bs := EncodeEntry(e) + tail;
        PowersOf256();
        LeRoundTrip(e'.inode, U64_SIZE);
        assert bs[..8] == Le(e'.inode, U64_SIZE);
        assert bs[8..ENTRY_OUT_SIZE] == e'.rest;
        assert bs[ENTRY_OUT_SIZE..] == tail;
    }
  }

  lemma HeaderFields(d: DirEntry, tail: seq<byte>)
    requires WellFormedDirent(d) && IsU32(|d.name|)
    ensures var bs := EncodeHeader(d) + tail;
            && FromLe(bs[..8]) == d.ino && FromLe(bs[8..16]) == d.offset
            && FromLe(bs[16..20]) == |d.name| && FromLe(bs[20..24]) == d.kind
  {
    var bs := EncodeHeader(d) + tail;
    PowersOf256();
    LeRoundTrip(d.ino, U64_SIZE);
    LeRoundTrip(d.offset, U64_SIZE);
    LeRoundTrip(|d.name|, U32_SIZE);
    LeRoundTrip(d.kind, U32_SIZE);
    assert bs[..8] == Le(d.ino, U64_SIZE);
    assert bs[8..16] == Le(d.offset, U64_SIZE);
    assert bs[16..20] == Le(|d.name|, U32_SIZE);
    assert bs[20..24] == Le(d.kind, U32_SIZE);
  }

  lemma DecodeOneOf(r: Record, tail: seq<byte>)
    requires WellFormed(r)
    ensures DecodeOne(Encode(r) + tail, r.entry.Some?) == Some((r, tail))
  {
    var d, pad := r.dirent, Zeros(Padding(r.dirent));
    var rest := d.name + pad + tail;
    var bs := EncodeHeader(d) + rest;
    assert Encode(r) + tail == EncodeEntry(r.entry) + bs;
    DecodeEntryOf(r.entry, bs);
    HeaderFields(d, rest);
    NameField(d, tail);
  }

  lemma NameField(d: DirEntry, tail: seq<byte>)
    ensures var bs := EncodeHeader(d) + (d.name + Zeros(Padding(d)) + tail);
            var len := RoundUp8(DIRENT_SIZE + |d.name|);
            && len <= |bs|
            && bs[DIRENT_SIZE..DIRENT_SIZE + |d.name|] == d.name
            && bs[len..] == tail
  {
    var front, pad := EncodeHeader(d) + d.name, Zeros(Padding(d));
    assert EncodeHeader(d) + (d.name + pad + tail) == front + pad + tail;
    assert |front + pad| == RoundUp8(DIRENT_SIZE + |d.name|);
  }

  /** The guest reads back exactly the records that were encoded. */
  lemma {:induction false} DecodeEncoded(rs: seq<Record>, plus: bool)
    requires forall k | 0 <= k < |rs| :: WellFormed(rs[k]) && rs[k].entry.Some? == plus
    ensures DecodeAll(EncodeAll(rs), plus) == Some(rs)
  {
    if rs != [] {
      EncodeLength(rs[0]);
      DecodeOneOf(rs[0], EncodeAll(rs[1..]));
      DecodeEncoded(rs[1..], plus);
      assert [rs[0]] + rs[1..] == rs;
    }
  }

  // ----- add_dirent --------------------------------------------------------------------------

  /**
    Append one record.  0 means that it does not fit into `max`, and then nothing is written; an
    error may leave part of the record (`wrote`) behind.
   */
  method AddDirent(cursor: DescriptorChainConsumer, mem: array<byte>, max: nat, d: DirEntry, entry: Option<Entry>)
    returns (r: Result<nat, Error>, ghost wrote: seq<byte>)
    requires cursor.Valid() && InBounds(cursor.Stream(), mem.Length)
    requires WellFormedDirent(d) && (entry.Some? ==> WellFormedEntry(entry.value))
    modifies cursor, mem
    ensures cursor.Valid() && InBounds(cursor.Stream(), mem.Length)
    ensures mem[..] == StoreAt(old(mem[..]), old(cursor.Stream()), wrote)
    ensures var len := |Encode(Record(entry, d))|;
            && (r == Ok(0) <==> IsU32(|d.name|) && max < len)
            && (r.Ok? && r.value > 0 <==> IsU32(|d.name|) && len <= max && len <= |old(cursor.Stream())|)
            && (r == Ok(0) ==> wrote == [] && cursor.Stream() == old(cursor.Stream()))
            && (r.Ok? && r.value > 0 ==>
                  r.value == len && wrote == Encode(Record(entry, d)) && cursor.Stream() == old(cursor.Stream())[len..])
  {
    wrote := [];
    if |d.name| > 0xFFFF_FFFF {
      return Err(IoError), wrote;
    }
    EncodeLength(Record(entry, d));
    var direntLen := DIRENT_SIZE + |d.name|;
    var paddedLen := RoundUp8(direntLen);
    var totalLen := if entry.Some? then paddedLen + ENTRY_OUT_SIZE else paddedLen;
    if max < totalLen {
      return Ok(0), wrote;
    }
    var ok: bool;
    ok, wrote := WriteRecord(cursor, mem, d, entry);
    r := if ok then Ok(totalLen) else Err(IoError);
  }

  method WriteRecord(cursor: DescriptorChainConsumer, mem: array<byte>, d: DirEntry, entry: Option<Entry>)
    returns (ok: bool, ghost wrote: seq<byte>)
    requires cursor.Valid() && InBounds(cursor.Stream(), mem.Length)
    modifies cursor, mem
    ensures cursor.Valid() && InBounds(cursor.Stream(), mem.Length)
    ensures mem[..] == StoreAt(old(mem[..]), old(cursor.Stream()), wrote)
    ensures ok <==> |Encode(Record(entry, d))| <= |old(cursor.Stream())|
    ensures ok ==> wrote == Encode(Record(entry, d)) && cursor.Stream() == old(cursor.Stream())[|wrote|..]
  {
    ghost var stream, mem0 := cursor.Stream(), mem[..];
    wrote := [];
    ok, wrote := WritePiece(cursor, mem, EncodeEntry(entry), mem0, stream, wrote);
    if !ok { return; }
    ok, wrote := WritePiece(cursor, mem, EncodeHeader(d), mem0, stream, wrote);
    if !ok { return; }
    ok, wrote := WritePiece(cursor, mem, d.name, mem0, stream, wrote);
    if !ok { return; }
    ok, wrote := WritePiece(cursor, mem, Zeros(Padding(d)), mem0, stream, wrote);
    assert wrote == Encode(Record(entry, d));
  }

  /** One `write_all` of several, the first of which started with `mem0` and `stream`. */
  method WritePiece(cursor: DescriptorChainConsumer, mem: array<byte>, piece: seq<byte>,
                    ghost mem0: seq<byte>, ghost stream: seq<nat>, ghost before: seq<byte>)
    returns (ok: bool, ghost wrote: seq<byte>)
    requires cursor.Valid() && InBounds(stream, mem.Length) && |mem0| == mem.Length
    requires |before| <= |stream| && cursor.Stream() == stream[|before|..]
    requires mem[..] == StoreAt(mem0, stream, before)
    modifies cursor, mem
    ensures cursor.Valid() && InBounds(cursor.Stream(), mem.Length)
    ensures ok <==> |before| + |piece| <= |stream|
    ensures wrote == before + piece && mem[..] == StoreAt(mem0, stream, wrote)
    ensures ok ==> cursor.Stream() == stream[|wrote|..]
  {
    StoreAtConcat(mem0, stream, before, piece);
    ok := cursor.WriteAll(mem, piece);
    wrote := before + piece;
  }
}
