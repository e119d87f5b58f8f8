/**
  Request extensions: a sequence of records after the name in a create request, carrying a
  security context and supplementary groups.  The parser is compared with an independent
  description of the records and of the sequences that are acceptable.
 */
module ExtensionRecords {
  import opened Bytes
  import opened Wrappers

  datatype Error = DecodeMessage | InvalidHeaderLength | MissingParameter | InvalidCString | MissingExtension

  /** `name` without its terminating NUL. */
  datatype SecContext = SecContext(name: seq<byte>, secctx: seq<byte>)

  datatype Extensions = Extensions(secctx: Option<SecContext>, supGids: seq<nat>)

  const DEFAULT := Extensions(None, [])

  /** Which extensions the guest negotiated. */
  datatype Options = Options(securityCtx: bool, createSuppGroup: bool)

  const EXT_HEADER_SIZE := 8
  const SECCTX_SIZE := 8
  const SUPP_GROUPS_SIZE := 4
  const MAX_NR_SECCTX := 31
  const EXT_SUP_GROUPS := 32
  const LINUX_NRGROUPS_MAX := 65536

  // ----- The parser --------------------------------------------------------------------------

  /** The first `n` bytes and the others. */
  function TakeObject(data: seq<byte>, n: nat): (r: Result<(seq<byte>, seq<byte>), Error>)
    ensures r.Ok? <==> n <= |data|
    ensures r.Ok? ==> |r.value.0| == n && r.value.0 + r.value.1 == data
  {
    if |data| < n then Err(DecodeMessage) else Ok((data[..n], data[n..]))
  }

  /** The length of the first NUL-terminated component, or of everything if there is no NUL. */
  function ComponentLen(data: seq<byte>): (n: nat)
    ensures n <= |data| && (data != [] ==> n > 0)
    ensures 0 in data ==> n > 0 && data[n - 1] == 0 && 0 !in data[..n - 1]
    ensures 0 !in data ==> n == |data|
  {
    if data == [] then 0
    else if data[0] == 0 then 1
    else
      assert data == [data[0]] + data[1..];
      var n := ComponentLen(data[1..]);
      assert 0 in data ==> data[..n] == [data[0]] + data[1..][..n - 1];
      1 + n
  }

  function ParseSecurityContext(nr: nat, data: seq<byte>): Result<Option<SecContext>, Error> {
    if nr > 1 then Err(DecodeMessage)
    else if nr == 0 then Ok(None)
    else
      var (secctx, data) :- TakeObject(data, SECCTX_SIZE);
      var size := FromLe(secctx[..4]);
      if size == 0 then Err(DecodeMessage)
      else if data == [] then Err(MissingParameter)
      else
        var n := ComponentLen(data);
        var rest := data[n..];
        if |rest| < size then Err(DecodeMessage)
        else if data[n - 1] != 0 then Err(InvalidCString)
        else Ok(Some(SecContext(data[..n - 1], rest[..size])))
  }

  /** Group IDs, four bytes each. */
  function Gids(data: seq<byte>, n: nat): (gids: seq<nat>)
    requires U32_SIZE * n <= |data|
    ensures |gids| == n
  {
    if n == 0 then [] else [FromLe(data[..4])] + Gids(data[4..], n - 1)
  }

  function SupGroups(data: seq<byte>): Result<seq<nat>, Error> {
    var (header, ids) :- TakeObject(data, SUPP_GROUPS_SIZE);
    var n := FromLe(header);
    if n > LINUX_NRGROUPS_MAX || |data| != RoundUp8(SUPP_GROUPS_SIZE + U32_SIZE * n) then Err(DecodeMessage)
    else Ok(Gids(ids, n))
  }

  /** `parse_sup_groups`: no group is read past the end of the record. */
  method ParseSupGroups(data: seq<byte>) returns (r: Result<seq<nat>, Error>)
    ensures r == SupGroups(data)
  {
    var taken :- TakeObject(data, SUPP_GROUPS_SIZE);
    var n, groupIdBytes := FromLe(taken.0), taken.1;
    if n > LINUX_NRGROUPS_MAX || |data| != RoundUp8(SUPP_GROUPS_SIZE + U32_SIZE * n) {
      return Err(DecodeMessage);
    }
    ghost var all := groupIdBytes;
    var groups: seq<nat> := [];
    while |groups| < n
      invariant |groups| <= n && U32_SIZE * (n - |groups|) <= |groupIdBytes|
      invariant Gids(all, n) == groups + Gids(groupIdBytes, n - |groups|)
    {
      taken := TakeObject(groupIdBytes, U32_SIZE).value;
      assert groups + ([FromLe(taken.0)] + Gids(taken.1, n - |groups| - 1)) ==
             groups + [FromLe(taken.0)] + Gids(taken.1, n - |groups| - 1);
      groups, groupIdBytes := groups + [FromLe(taken.0)], taken.1;
    }
    assert groups + [] == groups;
    r := Ok(groups);
  }

  /** What has been found so far: whether there was a security context record, and the results. */
  datatype Progress = Progress(secctxReceived: bool, extensions: Extensions)

  const NOTHING_YET := Progress(false, DEFAULT)

  /** The type and the payload of the first record, and the bytes behind it. */
  function TakeRecord(buf: seq<byte>): (r: Result<(nat, seq<byte>, seq<byte>), Error>)
    ensures r.Ok? ==> |r.value.2| < |buf|
  {
    var (header, remaining) :- TakeObject(buf, EXT_HEADER_SIZE);
    var size := FromLe(header[..4]);
    if size < EXT_HEADER_SIZE then Err(InvalidHeaderLength)
    else if size - EXT_HEADER_SIZE > |remaining| then Err(DecodeMessage)
    else Ok((FromLe(header[4..]), remaining[..size - EXT_HEADER_SIZE], remaining[size - EXT_HEADER_SIZE..]))
  }

  /** The progress after one more record. */
  function ParseRecord(opts: Options, p: Progress, extType: nat, payload: seq<byte>): Result<Progress, Error> {
    if extType <= MAX_NR_SECCTX then
      if !opts.securityCtx || p.secctxReceived then Err(DecodeMessage)
      else
        var secctx :- ParseSecurityContext(extType, payload);
        Ok(Progress(true, p.extensions.(secctx := secctx)))
    else if extType == EXT_SUP_GROUPS then
      if !opts.createSuppGroup || p.extensions.supGids != [] then Err(DecodeMessage)
      else
        var gids :- SupGroups(payload);
        Ok(p.(extensions := p.extensions.(supGids := gids)))
    else Err(DecodeMessage)
  }

  function ParseAll(opts: Options, p: Progress, buf: seq<byte>): Result<Extensions, Error>
    decreases |buf|
  {
    if buf == [] then
      if opts.securityCtx && !p.secctxReceived then Err(MissingExtension) else Ok(p.extensions)
    else
      var (extType, payload, rest) :- TakeRecord(buf);
      var p' :- ParseRecord(opts, p, extType, payload);
      ParseAll(opts, p', rest)
  }

  /** `get_extensions`: terminates, without slicing out of range, on every request. */
  method GetExtensions(opts: Options, skip: nat, request: seq<byte>) returns (r: Result<Extensions, Error>)
    ensures !(opts.securityCtx || opts.createSuppGroup) ==> r == Ok(DEFAULT)
    ensures opts.securityCtx || opts.createSuppGroup ==>
              r == if |request| < skip then Err(DecodeMessage) else ParseAll(opts, NOTHING_YET, request[skip..])
  {
    if !(opts.securityCtx || opts.createSuppGroup) {
      return Ok(DEFAULT);
    }
    if |request| < skip {
      return Err(DecodeMessage);
    }
    var secctxReceived, extensions := false, DEFAULT;
    var buf := request[skip..];
    while buf != []
      invariant ParseAll(opts, Progress(secctxReceived, extensions), buf) == ParseAll(opts, NOTHING_YET, request[skip..])
      decreases |buf|
    {
      var taken :- TakeObject(buf, EXT_HEADER_SIZE);
      var size, extType, remaining := FromLe(taken.0[..4]), FromLe(taken.0[4..]), taken.1;
      if size < EXT_HEADER_SIZE {
        return Err(InvalidHeaderLength);
      }
      var extensionSize := size - EXT_HEADER_SIZE;
      if extensionSize > |remaining| {
        return Err(DecodeMessage);
      }
      var current := remaining[..extensionSize];
      if extType <= MAX_NR_SECCTX {
        if !opts.securityCtx || secctxReceived {
          return Err(DecodeMessage);
        }
        secctxReceived := true;
        var secctx :- ParseSecurityContext(extType, current);
        extensions := extensions.(secctx := secctx);
      } else if extType == EXT_SUP_GROUPS {
        if !opts.createSuppGroup || extensions.supGids != [] {
          return Err(DecodeMessage);
        }
        var gids := ParseSupGroups(current);
        if gids.Err? {
          return Err(gids.error);
        }
        extensions := extensions.(supGids := gids.value);
      } else {
        return Err(DecodeMessage);
      }
      buf := remaining[extensionSize..];
    }
    r := if opts.securityCtx && !secctxReceived then Err(MissingExtension) else Ok(extensions);
  }

  // ----- The records, described on their own -------------------------------------------------

  /** `trailer` is padding, whose contents do not matter. */
  datatype Ext =
    | NoContext(trailer: seq<byte>)
    | Context(padding: nat, name: seq<byte>, value: seq<byte>, trailer: seq<byte>)
    | Groups(gids: seq<nat>, trailer: seq<byte>)

  function EncodeGids(gids: seq<nat>): (bs: seq<byte>)
    ensures |bs| == U32_SIZE * |gids|
  {
    if gids == [] then [] else Le(gids[0], U32_SIZE) + EncodeGids(gids[1..])
  }

  function Payload(e: Ext): seq<byte> {
    match e
    case NoContext(trailer) => trailer
    case Context(padding, name, value, trailer) =>
      Le(|value|, U32_SIZE) + Le(padding, U32_SIZE) + (name + [0] + (value + trailer))
    case Groups(gids, trailer) => Le(|gids|, U32_SIZE) + (EncodeGids(gids) + trailer)
  }

  function TypeOf(e: Ext): nat {
    match e
    case NoContext(_) => 0
    case Context(_, _, _, _) => 1
    case Groups(_, _) => EXT_SUP_GROUPS
  }

  function Frame(extType: nat, payload: seq<byte>): seq<byte> {
    Le(EXT_HEADER_SIZE + |payload|, U32_SIZE) + Le(extType, U32_SIZE) + payload
  }

  function EncodeExt(e: Ext): seq<byte> {
    Frame(TypeOf(e), Payload(e))
  }

  function EncodeExts(es: seq<Ext>): seq<byte> {
    if es == [] then [] else EncodeExt(es[0]) + EncodeExts(es[1..])
  }

  predicate WellFormed(e: Ext) {
    && IsU32(EXT_HEADER_SIZE + |Payload(e)|)
    && match e
       case NoContext(_) => true
       case Context(padding, name, value, _) => IsU32(padding) && 0 !in name && value != []
       case Groups(gids, _) =>
         && |gids| <= LINUX_NRGROUPS_MAX && (forall k | 0 <= k < |gids| :: IsU32(gids[k]))
         && |Payload(e)| == RoundUp8(SUPP_GROUPS_SIZE + U32_SIZE * |gids|)
  }

  predicate IsContext(e: Ext) {
    !e.Groups?
  }

  predicate Negotiated(opts: Options, e: Ext) {
    if IsContext(e) then opts.securityCtx else opts.createSuppGroup
  }

  ghost predicate AllWellFormed(opts: Options, es: seq<Ext>) {
    forall k | 0 <= k < |es| :: WellFormed(es[k]) && Negotiated(opts, es[k])
  }

  /** At most one security context record, and group records only after empty ones. */
  ghost predicate NoRepeats(es: seq<Ext>) {
    && (forall j, k | 0 <= j < k < |es| :: !(IsContext(es[j]) && IsContext(es[k])))
    && (forall j, k | 0 <= j < k < |es| && es[j].Groups? && es[k].Groups? :: es[j].gids == [])
  }

  /**
    Well-formed negotiated records with at most one security context record, which must be there
    if negotiated.  Several group records are tolerated only while those before are empty.
   */
  ghost predicate Acceptable(opts: Options, es: seq<Ext>) {
    && AllWellFormed(opts, es)
    && NoRepeats(es)
    && (opts.securityCtx ==> exists k :: 0 <= k < |es| && IsContext(es[k]))
  }

  /** The results carry the one context and the one non-empty group list that the records hold, if any. */
  ghost predicate Means(es: seq<Ext>, x: Extensions) {
    && (forall k | 0 <= k < |es| && es[k].Context? :: x.secctx == Some(SecContext(es[k].name, es[k].value)))
    && ((forall k | 0 <= k < |es| :: !es[k].Context?) ==> x.secctx == None)
    && (forall k | 0 <= k < |es| && es[k].Groups? && es[k].gids != [] :: x.supGids == es[k].gids)
    && ((forall k | 0 <= k < |es| && es[k].Groups? :: es[k].gids == []) ==> x.supGids == [])
  }

  // ----- One record --------------------------------------------------------------------------

  /** What a record adds to the progress. */
  function Advance(p: Progress, e: Ext): Progress {
    match e
    case NoContext(_) => Progress(true, p.extensions.(secctx := None))
    case Context(_, name, value, _) => Progress(true, p.extensions.(secctx := Some(SecContext(name, value))))
    case Groups(gids, _) => p.(extensions := p.extensions.(supGids := gids))
  }

  /** No security context record twice, and no group record after a non-empty one. */
  predicate Fresh(p: Progress, e: Ext) {
    if IsContext(e) then !p.secctxReceived else p.extensions.supGids == []
  }

  predicate Allowed(opts: Options, p: Progress, e: Ext) {
    WellFormed(e) && Negotiated(opts, e) && Fresh(p, e)
  }

  lemma {:induction false} GidsRoundTrip(gids: seq<nat>, trailer: seq<byte>)
    requires forall k | 0 <= k < |gids| :: IsU32(gids[k])
    ensures Gids(EncodeGids(gids) + trailer, |gids|) == gids
  {
    if gids != [] {
      var data := EncodeGids(gids) + trailer;
      PowersOf256();
      LeRoundTrip(gids[0], U32_SIZE);
      assert data[..4] == Le(gids[0], U32_SIZE);
      assert data[4..] == EncodeGids(gids[1..]) + trailer;
      GidsRoundTrip(gids[1..], trailer);
    }
  }

  lemma {:induction false} GidsEncoded(data: seq<byte>, n: nat)
    requires U32_SIZE * n <= |data|
    ensures forall k | 0 <= k < n :: IsU32(Gids(data, n)[k])
    ensures EncodeGids(Gids(data, n)) == data[..U32_SIZE * n]
  {
    if n > 0 {
      PowersOf256();
      FromLeRoundTrip(data[..4]);
      GidsEncoded(data[4..], n - 1);
      var gids := Gids(data, n);
      assert gids[1..] == Gids(data[4..], n - 1);
      assert data[..U32_SIZE * n] == data[..4] + data[4..][..U32_SIZE * (n - 1)];
    }
  }

  lemma {:induction false} ComponentOf(name: seq<byte>, tail: seq<byte>)
    requires 0 !in name
    ensures ComponentLen(name + [0] + tail) == |name| + 1
  {
    if name != [] {
      ComponentOf(name[1..], tail);
      assert (name + [0] + tail)[1..] == name[1..] + [0] + tail;
    }
  }

  lemma ContextParses(e: Ext)
    requires e.Context? && WellFormed(e)
    ensures ParseSecurityContext(1, Payload(e)) == Ok(Some(SecContext(e.name, e.value)))
  {
    var rest := e.value + e.trailer;
    var data := e.name + [0] + rest;
    var head := Le(|e.value|, U32_SIZE) + Le(e.padding, U32_SIZE);
    PowersOf256();
    LeRoundTrip(|e.value|, U32_SIZE);
    assert TakeObject(head + data, SECCTX_SIZE) == Ok((head, data)) by {
      assert (head + data)[..SECCTX_SIZE] == head && (head + data)[SECCTX_SIZE..] == data;
    }
    assert head[..4] == Le(|e.value|, U32_SIZE);
    ComponentOf(e.name, rest);
    assert data[..|e.name|] == e.name && data[|e.name| + 1..] == rest && rest[..|e.value|] == e.value;
  }

  lemma GroupsParse(e: Ext)
    requires e.Groups? && WellFormed(e)
    ensures SupGroups(Payload(e)) == Ok(e.gids)
  {
    PowersOf256();
    LeRoundTrip(|e.gids|, U32_SIZE);
    assert Payload(e)[..4] == Le(|e.gids|, U32_SIZE) && Payload(e)[4..] == EncodeGids(e.gids) + e.trailer;
    GidsRoundTrip(e.gids, e.trailer);
  }

  /** A record that is allowed is taken as what it stands for. */
  lemma RecordParses(opts: Options, p: Progress, e: Ext)
    requires Allowed(opts, p, e)
    ensures ParseRecord(opts, p, TypeOf(e), Payload(e)) == Ok(Advance(p, e))
  {
    match e {
      case NoContext(_) =>
      case Context(_, _, _, _) => ContextParses(e);
      case Groups(_, _) => GroupsParse(e);
    }
  }

  lemma FrameParses(extType: nat, payload: seq<byte>, rest: seq<byte>)
    requires IsU32(EXT_HEADER_SIZE + |payload|) && IsU32(extType)
    ensures TakeRecord(Frame(extType, payload) + rest) == Ok((extType, payload, rest))
  {
    var size := EXT_HEADER_SIZE + |payload|;
    var header, tail := Le(size, U32_SIZE) + Le(extType, U32_SIZE), payload + rest;
    PowersOf256();
    LeRoundTrip(size, U32_SIZE);
    LeRoundTrip(extType, U32_SIZE);
    assert Frame(extType, payload) + rest == header + tail;
    assert header[..4] == Le(size, U32_SIZE) && header[4..] == Le(extType, U32_SIZE);
    assert TakeObject(header + tail, EXT_HEADER_SIZE) == Ok((header, tail)) by {
      assert (header + tail)[..EXT_HEADER_SIZE] == header && (header + tail)[EXT_HEADER_SIZE..] == tail;
    }
    assert tail[..|payload|] == payload && tail[|payload|..] == rest;
  }

  // Conversely, whatever is taken is an allowed record.

  lemma ContextIsRecord(data: seq<byte>) returns (e: Ext)
    requires ParseSecurityContext(1, data).Ok?
    ensures e.Context? && Payload(e) == data && IsU32(e.padding) && 0 !in e.name && e.value != []
    ensures ParseSecurityContext(1, data) == Ok(Some(SecContext(e.name, e.value)))
  {
    var head, rest := data[..SECCTX_SIZE], data[SECCTX_SIZE..];
    var size, n := FromLe(head[..4]), ComponentLen(rest);
    TwoWords(head);
    e := Context(FromLe(head[4..]), rest[..n - 1], rest[n..][..size], rest[n..][size..]);
    NameAndValue(rest, n, size);
    assert data == head + rest;
  }

  lemma TwoWords(head: seq<byte>)
    requires |head| == 8
    ensures head == Le(FromLe(head[..4]), U32_SIZE) + Le(FromLe(head[4..]), U32_SIZE) && IsU32(FromLe(head[4..]))
  {
    PowersOf256();
    FromLeRoundTrip(head[..4]);
    FromLeRoundTrip(head[4..]);
    assert head == head[..4] + head[4..];
  }

  lemma NameAndValue(rest: seq<byte>, n: nat, size: nat)
    requires 0 < n <= |rest| && rest[n - 1] == 0 && size <= |rest| - n
    ensures rest == rest[..n - 1] + [0] + (rest[n..][..size] + rest[n..][size..])
  {
    assert rest[n..][..size] + rest[n..][size..] == rest[n..];
    assert rest == rest[..n - 1] + [rest[n - 1]] + rest[n..];
  }

  lemma GroupsAreRecord(data: seq<byte>) returns (e: Ext)
    requires SupGroups(data).Ok?
    ensures e.Groups? && Payload(e) == data && |e.gids| <= LINUX_NRGROUPS_MAX
    ensures forall k | 0 <= k < |e.gids| :: IsU32(e.gids[k])
    ensures |data| == RoundUp8(SUPP_GROUPS_SIZE + U32_SIZE * |e.gids|)
    ensures SupGroups(data) == Ok(e.gids)
  {
    var head, ids := data[..4], data[4..];
    var n := FromLe(head);
    PowersOf256();
    FromLeRoundTrip(head);
    assert U32_SIZE * n <= |ids|;
    GidsEncoded(ids, n);
    e := Groups(Gids(ids, n), ids[U32_SIZE * n..]);
    assert ids == ids[..U32_SIZE * n] + ids[U32_SIZE * n..];
    assert data == head + ids;
  }

  lemma RecordIsExt(opts: Options, p: Progress, extType: nat, payload: seq<byte>) returns (e: Ext)
    requires ParseRecord(opts, p, extType, payload).Ok? && IsU32(EXT_HEADER_SIZE + |payload|)
    ensures Allowed(opts, p, e) && TypeOf(e) == extType && Payload(e) == payload
    ensures ParseRecord(opts, p, extType, payload) == Ok(Advance(p, e))
  {
    if extType == 0 {
      e := NoContext(payload);
    } else if extType == EXT_SUP_GROUPS {
      e := GroupsAreRecord(payload);
    } else {
      e := ContextIsRecord(payload);
    }
  }

  lemma TakenIsFramed(buf: seq<byte>)
    requires TakeRecord(buf).Ok?
    ensures var (extType, payload, rest) := TakeRecord(buf).value;
            buf == Frame(extType, payload) + rest && IsU32(EXT_HEADER_SIZE + |payload|)
  {
    var header, remaining := buf[..EXT_HEADER_SIZE], buf[EXT_HEADER_SIZE..];
    var (extType, payload, rest) := TakeRecord(buf).value;
    PowersOf256();
    FromLeRoundTrip(header[..4]);
    FromLeRoundTrip(header[4..]);
    assert header == header[..4] + header[4..];
    assert remaining == payload + rest;
    assert buf == header + (payload + rest);
  }

  // ----- Whole sequences ---------------------------------------------------------------------

  /** The progress after all of `es`. */
  function Run(p: Progress, es: seq<Ext>): Progress
    decreases |es|
  {
    if es == [] then p else Run(Advance(p, es[0]), es[1..])
  }

  /** Each record is fresh when its turn comes. */
  predicate FreshFrom(p: Progress, es: seq<Ext>)
    decreases |es|
  {
    es == [] || (Fresh(p, es[0]) && FreshFrom(Advance(p, es[0]), es[1..]))
  }

  lemma {:induction false} RunAppend(p: Progress, es: seq<Ext>, e: Ext)
    ensures Run(p, es + [e]) == Advance(Run(p, es), e)
    ensures FreshFrom(p, es + [e]) <==> FreshFrom(p, es) && Fresh(Run(p, es), e)
    decreases |es|
  {
    if es == [] {
      assert es + [e] == [e] && [e][1..] == [];
    } else {
      assert (es + [e])[1..] == es[1..] + [e];
      RunAppend(Advance(p, es[0]), es[1..], e);
    }
  }

  function Summary(es: seq<Ext>): Progress {
    Run(NOTHING_YET, es)
  }

  lemma SummaryLast(es: seq<Ext>)
    requires es != []
    ensures var front, last := es[..|es| - 1], es[|es| - 1];
            && Summary(es) == Advance(Summary(front), last)
            && (FreshFrom(NOTHING_YET, es) <==> FreshFrom(NOTHING_YET, front) && Fresh(Summary(front), last))
  {
    var front, last := es[..|es| - 1], es[|es| - 1];
    RunAppend(NOTHING_YET, front, last);
    assert front + [last] == es;
  }

  lemma {:induction false} SummaryReceived(es: seq<Ext>)
    ensures Summary(es).secctxReceived <==> exists k :: 0 <= k < |es| && IsContext(es[k])
  {
    if es != [] {
      var front := es[..|es| - 1];
      SummaryLast(es);
      SummaryReceived(front);
      if Summary(front).secctxReceived {
        var k :| 0 <= k < |front| && IsContext(front[k]);
        assert IsContext(es[k]);
      }
    }
  }

  lemma {:induction false} SummaryMeans(es: seq<Ext>)
    requires FreshFrom(NOTHING_YET, es)
    ensures Means(es, Summary(es).extensions)
  {
    if es != [] {
      var front := es[..|es| - 1];
      SummaryLast(es);
      SummaryMeans(front);
      SummaryReceived(front);
      MeansGrows(front, es[|es| - 1], Summary(front).extensions);
      assert front + [es[|es| - 1]] == es;
    }
  }

  lemma MeansGrows(es: seq<Ext>, e: Ext, x: Extensions)
    requires Means(es, x)
    requires if IsContext(e) then forall k | 0 <= k < |es| :: !IsContext(es[k]) else x.supGids == []
    ensures forall received :: Means(es + [e], Advance(Progress(received, x), e).extensions)
  {
    var all := es + [e];
    assert forall k | 0 <= k < |all| :: all[k] == if k < |es| then es[k] else e;
    assert all[|es|] == e;
  }

  /** Each record being fresh in its turn is the same as there being no repeats. */
  lemma {:induction false} FreshHasNoRepeats(es: seq<Ext>)
    requires FreshFrom(NOTHING_YET, es)
    ensures NoRepeats(es)
  {
    if es != [] {
      var front := es[..|es| - 1];
      SummaryLast(es);
      FreshHasNoRepeats(front);
      SummaryReceived(front);
      SummaryMeans(front);
      assert forall k | 0 <= k < |front| :: front[k] == es[k];
    }
  }

  lemma {:induction false} NoRepeatsIsFresh(es: seq<Ext>)
    requires NoRepeats(es)
    ensures FreshFrom(NOTHING_YET, es)
  {
    if es != [] {
      var front := es[..|es| - 1];
      assert forall k | 0 <= k < |front| :: front[k] == es[k];
      SummaryLast(es);
      NoRepeatsIsFresh(front);
      SummaryReceived(front);
      SummaryMeans(front);
    }
  }

  lemma ParseFirst(opts: Options, p: Progress, e: Ext, rest: seq<byte>)
    requires Allowed(opts, p, e)
    ensures ParseAll(opts, p, EncodeExt(e) + rest) == ParseAll(opts, Advance(p, e), rest)
  {
    RecordParses(opts, p, e);
    FrameParses(TypeOf(e), Payload(e), rest);
  }

  /** Parsing what `es` encode ends with what they add to the progress. */
  lemma {:induction false} SequenceParses(opts: Options, p: Progress, es: seq<Ext>)
    requires AllWellFormed(opts, es) && FreshFrom(p, es)
    requires opts.securityCtx ==> Run(p, es).secctxReceived
    ensures ParseAll(opts, p, EncodeExts(es)) == Ok(Run(p, es).extensions)
    decreases |es|
  {
    if es != [] {
      ParseFirst(opts, p, es[0], EncodeExts(es[1..]));
      SequenceParses(opts, Advance(p, es[0]), es[1..]);
    }
  }

  lemma {:induction false} ParsedIsSequence(opts: Options, p: Progress, buf: seq<byte>) returns (es: seq<Ext>)
    requires ParseAll(opts, p, buf).Ok?
    ensures EncodeExts(es) == buf && AllWellFormed(opts, es) && FreshFrom(p, es)
    ensures opts.securityCtx ==> Run(p, es).secctxReceived
    ensures ParseAll(opts, p, buf) == Ok(Run(p, es).extensions)
    decreases |buf|
  {
    if buf == [] {
      es := [];
    } else {
      var e, rest := FirstTaken(opts, p, buf);
      var tail := ParsedIsSequence(opts, Advance(p, e), rest);
      es := [e] + tail;
      assert es[1..] == tail;
    }
  }

  lemma MeansIsUnique(es: seq<Ext>, x: Extensions, y: Extensions)
    requires Means(es, x) && Means(es, y)
    ensures x == y
  {
  }

  lemma AcceptableParses(opts: Options, es: seq<Ext>, x: Extensions)
    requires Acceptable(opts, es) && Means(es, x)
    ensures ParseAll(opts, NOTHING_YET, EncodeExts(es)) == Ok(x)
  {
    NoRepeatsIsFresh(es);
    SummaryReceived(es);
    SequenceParses(opts, NOTHING_YET, es);
    SummaryMeans(es);
    MeansIsUnique(es, x, Summary(es).extensions);
  }

  lemma ParsedIsAcceptable(opts: Options, buf: seq<byte>) returns (es: seq<Ext>)
    requires ParseAll(opts, NOTHING_YET, buf).Ok?
    ensures Acceptable(opts, es) && EncodeExts(es) == buf
    ensures Means(es, ParseAll(opts, NOTHING_YET, buf).value)
  {
    es := ParsedIsSequence(opts, NOTHING_YET, buf);
    SummaryReceived(es);
    SummaryMeans(es);
    FreshHasNoRepeats(es);
  }

  /** All is well but that there is no security context record, although it was negotiated. */
  ghost predicate LacksContext(opts: Options, es: seq<Ext>) {
    && opts.securityCtx && AllWellFormed(opts, es) && NoRepeats(es)
    && forall k | 0 <= k < |es| :: !IsContext(es[k])
  }

  /** A first security context record that ends where its name should begin. */
  predicate LacksName(opts: Options, p: Progress, extType: nat, payload: seq<byte>) {
    extType == 1 && opts.securityCtx && !p.secctxReceived && |payload| == SECCTX_SIZE && FromLe(payload[..4]) > 0
  }

  lemma RecordFails(opts: Options, p: Progress, extType: nat, payload: seq<byte>)
    requires ParseRecord(opts, p, extType, payload).Err?
    ensures ParseRecord(opts, p, extType, payload) ==
            Err(if LacksName(opts, p, extType, payload) then MissingParameter else DecodeMessage)
  {
    if extType == 1 {
      ContextFails(payload);
    }
  }

  /** A name that is not terminated leaves no bytes for the value, and that is found out first. */
  lemma ContextFails(payload: seq<byte>)
    ensures ParseSecurityContext(1, payload).Err? ==>
              ParseSecurityContext(1, payload) ==
              Err(if |payload| == SECCTX_SIZE && FromLe(payload[..4]) > 0 then MissingParameter else DecodeMessage)
    ensures |payload| == SECCTX_SIZE ==> ParseSecurityContext(1, payload).Err?
  {
    if |payload| >= SECCTX_SIZE {
      var data := payload[SECCTX_SIZE..];
      assert payload[..SECCTX_SIZE][..4] == payload[..4];
      if data != [] && data[ComponentLen(data) - 1] != 0 {
        assert 0 !in data;
      }
    }
  }

  /** The bytes after the good records do not begin with another, and with what error that is met. */
  ghost predicate Fails(opts: Options, p: Progress, rest: seq<byte>, e: Error) {
    if rest == [] then e == MissingExtension && opts.securityCtx && !p.secctxReceived
    else if |rest| < EXT_HEADER_SIZE then e == DecodeMessage
    else
      var size, extType := FromLe(rest[..4]), FromLe(rest[4..8]);
      if size < EXT_HEADER_SIZE then e == InvalidHeaderLength
      else if size > |rest| then e == DecodeMessage
      else if LacksName(opts, p, extType, rest[EXT_HEADER_SIZE..size]) then e == MissingParameter
      else e == DecodeMessage && forall ext | Allowed(opts, p, ext) :: EncodeExt(ext) != rest[..size]
  }

  lemma TakenFields(rest: seq<byte>)
    requires |rest| >= EXT_HEADER_SIZE
    ensures var size, extType := FromLe(rest[..4]), FromLe(rest[4..8]);
            TakeRecord(rest) == (if size < EXT_HEADER_SIZE then Err(InvalidHeaderLength)
                                 else if size > |rest| then Err(DecodeMessage)
                                 else Ok((extType, rest[EXT_HEADER_SIZE..size], rest[size..])))
  {
    var header, remaining, size := rest[..EXT_HEADER_SIZE], rest[EXT_HEADER_SIZE..], FromLe(rest[..4]);
    assert header[..4] == rest[..4] && header[4..] == rest[4..8];
    if EXT_HEADER_SIZE <= size <= |rest| {
      assert remaining[..size - EXT_HEADER_SIZE] == rest[EXT_HEADER_SIZE..size];
      assert remaining[size - EXT_HEADER_SIZE..] == rest[size..];
    }
  }

  /** An allowed record at the front is taken. */
  lemma AllowedIsTaken(opts: Options, p: Progress, ext: Ext, rest: seq<byte>, size: nat)
    requires Allowed(opts, p, ext) && size <= |rest| && EncodeExt(ext) == rest[..size]
    ensures TakeRecord(rest) == Ok((TypeOf(ext), Payload(ext), rest[size..]))
    ensures ParseRecord(opts, p, TypeOf(ext), Payload(ext)).Ok?
  {
    assert EncodeExt(ext) + rest[size..] == rest;
    FrameParses(TypeOf(ext), Payload(ext), rest[size..]);
    RecordParses(opts, p, ext);
  }

  /** A record that is taken and turned down is not an allowed one. */
  lemma TurnedDown(opts: Options, p: Progress, rest: seq<byte>, size: nat)
    requires EXT_HEADER_SIZE <= size <= |rest| && size == FromLe(rest[..4])
    requires ParseRecord(opts, p, FromLe(rest[4..8]), rest[EXT_HEADER_SIZE..size]).Err?
    ensures forall ext | Allowed(opts, p, ext) :: EncodeExt(ext) != rest[..size]
  {
    TakenFields(rest);
    forall ext | Allowed(opts, p, ext) ensures EncodeExt(ext) != rest[..size] {
      if EncodeExt(ext) == rest[..size] {
        AllowedIsTaken(opts, p, ext, rest, size);
      }
    }
  }

  lemma OkIsAllowed(opts: Options, p: Progress, rest: seq<byte>, size: nat) returns (ext: Ext)
    requires EXT_HEADER_SIZE <= size <= |rest| && size == FromLe(rest[..4])
    requires ParseRecord(opts, p, FromLe(rest[4..8]), rest[EXT_HEADER_SIZE..size]).Ok?
    ensures Allowed(opts, p, ext) && EncodeExt(ext) == rest[..size]
  {
    var extType, payload := FromLe(rest[4..8]), rest[EXT_HEADER_SIZE..size];
    TakenFields(rest);
    TakenIsFramed(rest);
    ext := RecordIsExt(opts, p, extType, payload);
    assert Frame(extType, payload) + rest[size..] == rest;
  }

  /** If it is not an allowed one, it is turned down. */
  lemma NotAllowed(opts: Options, p: Progress, rest: seq<byte>, size: nat)
    requires EXT_HEADER_SIZE <= size <= |rest| && size == FromLe(rest[..4])
    requires LacksName(opts, p, FromLe(rest[4..8]), rest[EXT_HEADER_SIZE..size])
             || forall ext | Allowed(opts, p, ext) :: EncodeExt(ext) != rest[..size]
    ensures ParseRecord(opts, p, FromLe(rest[4..8]), rest[EXT_HEADER_SIZE..size]).Err?
  {
    if LacksName(opts, p, FromLe(rest[4..8]), rest[EXT_HEADER_SIZE..size]) {
      ContextFails(rest[EXT_HEADER_SIZE..size]);
    } else if ParseRecord(opts, p, FromLe(rest[4..8]), rest[EXT_HEADER_SIZE..size]).Ok? {
      var ext := OkIsAllowed(opts, p, rest, size);
    }
  }

  lemma FailsIsError(opts: Options, p: Progress, rest: seq<byte>, e: Error)
    requires Fails(opts, p, rest, e)
    ensures ParseAll(opts, p, rest) == Err(e)
  {
    if |rest| >= EXT_HEADER_SIZE {
      TakenFields(rest);
      var size, extType := FromLe(rest[..4]), FromLe(rest[4..8]);
      if EXT_HEADER_SIZE <= size <= |rest| {
        NotAllowed(opts, p, rest, size);
        RecordFails(opts, p, extType, rest[EXT_HEADER_SIZE..size]);
      }
    }
  }

  lemma {:induction false} SequenceFails(opts: Options, p: Progress, es: seq<Ext>, rest: seq<byte>, e: Error)
    requires AllWellFormed(opts, es) && FreshFrom(p, es) && Fails(opts, Run(p, es), rest, e)
    ensures ParseAll(opts, p, EncodeExts(es) + rest) == Err(e)
    decreases |es|
  {
    if es == [] {
      assert EncodeExts(es) + rest == rest;
      FailsIsError(opts, p, rest, e);
    } else {
      assert EncodeExts(es) + rest == EncodeExt(es[0]) + (EncodeExts(es[1..]) + rest);
      ParseFirst(opts, p, es[0], EncodeExts(es[1..]) + rest);
      SequenceFails(opts, Advance(p, es[0]), es[1..], rest, e);
    }
  }

  /** The parser takes no record. */
  predicate Stops(opts: Options, p: Progress, buf: seq<byte>) {
    buf == [] || TakeRecord(buf).Err? || ParseRecord(opts, p, TakeRecord(buf).value.0, TakeRecord(buf).value.1).Err?
  }

  lemma StoppedFails(opts: Options, p: Progress, rest: seq<byte>)
    requires ParseAll(opts, p, rest).Err? && Stops(opts, p, rest)
    ensures Fails(opts, p, rest, ParseAll(opts, p, rest).error)
  {
    if |rest| >= EXT_HEADER_SIZE {
      TakenFields(rest);
      var size, extType := FromLe(rest[..4]), FromLe(rest[4..8]);
      if EXT_HEADER_SIZE <= size <= |rest| {
        RecordFails(opts, p, extType, rest[EXT_HEADER_SIZE..size]);
        TurnedDown(opts, p, rest, size);
      }
    }
  }

  lemma FirstTaken(opts: Options, p: Progress, buf: seq<byte>) returns (e: Ext, rest: seq<byte>)
    requires !Stops(opts, p, buf)
    ensures Allowed(opts, p, e) && buf == EncodeExt(e) + rest && |rest| < |buf|
    ensures ParseAll(opts, p, buf) == ParseAll(opts, Advance(p, e), rest)
  {
    var (extType, payload, rest') := TakeRecord(buf).value;
    TakenIsFramed(buf);
    e := RecordIsExt(opts, p, extType, payload);
    rest := rest';
  }

  lemma OneMoreInFront(opts: Options, p: Progress, e: Ext, es: seq<Ext>, rest: seq<byte>)
    requires Allowed(opts, p, e) && AllWellFormed(opts, es) && FreshFrom(Advance(p, e), es)
    ensures AllWellFormed(opts, [e] + es) && FreshFrom(p, [e] + es) && Run(p, [e] + es) == Run(Advance(p, e), es)
    ensures EncodeExts([e] + es) + rest == EncodeExt(e) + (EncodeExts(es) + rest)
  {
    assert ([e] + es)[1..] == es;
  }

  lemma {:induction false} ErrorStops(opts: Options, p: Progress, buf: seq<byte>) returns (es: seq<Ext>, rest: seq<byte>)
    requires ParseAll(opts, p, buf).Err?
    ensures AllWellFormed(opts, es) && FreshFrom(p, es) && EncodeExts(es) + rest == buf
    ensures Fails(opts, Run(p, es), rest, ParseAll(opts, p, buf).error)
    decreases |buf|
  {
    if Stops(opts, p, buf) {
      es, rest := [], buf;
      assert EncodeExts(es) + rest == buf;
      StoppedFails(opts, p, buf);
    } else {
      var e, tail := FirstTaken(opts, p, buf);
      var more;
      more, rest := ErrorStops(opts, Advance(p, e), tail);
      OneMoreInFront(opts, p, e, more, rest);
      es := [e] + more;
    }
  }

  /** The parser fails with an error if and only if records that are fine so far are followed by what calls for that error. */
  lemma FailsExactlyWith(opts: Options, buf: seq<byte>, e: Error)
    ensures ParseAll(opts, NOTHING_YET, buf) == Err(e) <==>
            exists es, rest ::
              && AllWellFormed(opts, es) && NoRepeats(es) && EncodeExts(es) + rest == buf
              && Fails(opts, Summary(es), rest, e)
  {
    if ParseAll(opts, NOTHING_YET, buf) == Err(e) {
      var es, rest := ErrorStops(opts, NOTHING_YET, buf);
      FreshHasNoRepeats(es);
    }
    if es, rest :| AllWellFormed(opts, es) && NoRepeats(es) && EncodeExts(es) + rest == buf && Fails(opts, Summary(es), rest, e) {
      NoRepeatsIsFresh(es);
      SequenceFails(opts, NOTHING_YET, es, rest, e);
    }
  }

  /** So the error for a missing extension is given just when all is well but for that. */
  lemma MissingIff(opts: Options, buf: seq<byte>)
    ensures ParseAll(opts, NOTHING_YET, buf) == Err(MissingExtension) <==>
            exists es :: LacksContext(opts, es) && EncodeExts(es) == buf
  {
    if ParseAll(opts, NOTHING_YET, buf) == Err(MissingExtension) {
      var es, rest := ErrorStops(opts, NOTHING_YET, buf);
      SummaryReceived(es);
      FreshHasNoRepeats(es);
      assert EncodeExts(es) + [] == EncodeExts(es);
      assert LacksContext(opts, es);
    }
    if es :| LacksContext(opts, es) && EncodeExts(es) == buf {
      NoRepeatsIsFresh(es);
      SummaryReceived(es);
      assert EncodeExts(es) + [] == EncodeExts(es);
      SequenceFails(opts, NOTHING_YET, es, [], MissingExtension);
    }
  }

  /**
    The parser succeeds on exactly the encodings of acceptable sequences of records, with exactly
    the results that these stand for.
   */
  lemma ParsesExactlyTheAcceptable(opts: Options, buf: seq<byte>, x: Extensions)
    ensures ParseAll(opts, NOTHING_YET, buf) == Ok(x) <==>
            exists es :: Acceptable(opts, es) && EncodeExts(es) == buf && Means(es, x)
  {
    if ParseAll(opts, NOTHING_YET, buf) == Ok(x) {
      var es := ParsedIsAcceptable(opts, buf);
    }
    if es :| Acceptable(opts, es) && EncodeExts(es) == buf && Means(es, x) {
      AcceptableParses(opts, es, x);
    }
  }
}
