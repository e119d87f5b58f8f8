/**
  Translating extended attribute names: rules that are tried in order, the `map` rule that stands
  for two or three of them, the names of a listing, and the filter for POSIX ACL names.
 */
module XattrMaps {
  import opened Bytes
  import opened Wrappers

  datatype Kind = Prefix | Okay | Bad | Unsupported | Map

  datatype Side = Client | Server

  /** `client` and `server` tell on which sides the rule applies. */
  datatype Rule = Rule(kind: Kind, client: bool, server: bool, key: Name, prepend: Name)

  datatype Applied = Pass(name: Name) | Deny | NotSupported

  // ----- Applying rules ----------------------------------------------------------------------

  predicate Matches(r: Rule, side: Side, name: Name) {
    match side
    case Client => r.client && r.key <= name
    case Server => r.server && r.prepend <= name
  }

  /** The first rule that matches. */
  function FindRule(rules: seq<Rule>, side: Side, name: Name): (r: Option<Rule>)
    ensures r.None? ==> forall k | 0 <= k < |rules| :: !Matches(rules[k], side, name)
    ensures r.Some? ==> exists k :: 0 <= k < |rules| && rules[k] == r.value && Matches(rules[k], side, name)
                                    && forall j | 0 <= j < k :: !Matches(rules[j], side, name)
  {
    if rules == [] then None
    else if Matches(rules[0], side, name) then Some(rules[0])
    else
      var r := FindRule(rules[1..], side, name);
      assert r.Some? ==>
          exists k :: 0 <= k < |rules| && rules[k] == r.value && Matches(rules[k], side, name)
                      && forall j | 0 <= j < k :: !Matches(rules[j], side, name) by {
        if r.Some? {
          var k :| 0 <= k < |rules[1..]| && rules[1..][k] == r.value && Matches(rules[1..][k], side, name)
                   && forall j | 0 <= j < k :: !Matches(rules[1..][j], side, name);
          assert rules[k + 1] == r.value;
          forall j | 0 <= j < k + 1 ensures !Matches(rules[j], side, name) {
            assert j == 0 || rules[j] == rules[1..][j - 1];
          }
        }
      }
      r
  }

  /** A map in use has no `map` rule left in it: hitting one is a panic. */
  predicate IsExpanded(rules: seq<Rule>) {
    forall k | 0 <= k < |rules| :: !rules[k].kind.Map?
  }

  /** The name to use on the host; none if no rule matches. */
  function MapClient(rules: seq<Rule>, name: Name): Option<Applied>
    requires IsExpanded(rules)
  {
    match FindRule(rules, Client, name)
    case None => None
    case Some(r) =>
      if r.kind.Okay? then Some(Pass(name))
      else if r.kind.Bad? then Some(Deny)
      else if r.kind.Unsupported? then Some(NotSupported)
      else Some(Pass(r.prepend + name))
  }

  /** How a host name is listed: not at all, or under some name; none if no rule matches. */
  function MapServer(rules: seq<Rule>, name: Name): Option<Option<Name>>
    requires IsExpanded(rules)
  {
    match FindRule(rules, Server, name)
    case None => None
    case Some(r) =>
      if r.kind.Bad? || r.kind.Unsupported? then Some(None)
      else if r.kind.Okay? then Some(Some(name))
      else Some(Some(name[|r.prepend|..]))
  }

  /** Rule `k` is the first that matches. */
  ghost predicate IsFirst(rules: seq<Rule>, side: Side, name: Name, k: nat) {
    k < |rules| && Matches(rules[k], side, name) && forall j | 0 <= j < k :: !Matches(rules[j], side, name)
  }

  lemma FirstIsFound(rules: seq<Rule>, side: Side, name: Name, k: nat)
    requires IsFirst(rules, side, name, k)
    ensures FindRule(rules, side, name) == Some(rules[k])
  {
    var found := FindRule(rules, side, name);
    var m :| 0 <= m < |rules| && rules[m] == found.value && Matches(rules[m], side, name)
             && forall j | 0 <= j < m :: !Matches(rules[j], side, name);
    assert m == k;
  }

  /** What each kind of rule makes of the names that it is the first to match. */
  lemma KindsMean(rules: seq<Rule>, k: nat, name: Name)
    requires IsExpanded(rules) && k < |rules|
    ensures IsFirst(rules, Client, name, k) ==>
              MapClient(rules, name) == Some(match rules[k].kind
                                             case Prefix => Pass(rules[k].prepend + name)
                                             case Okay => Pass(name)
                                             case Bad => Deny
                                             case _ => NotSupported)
    ensures IsFirst(rules, Server, name, k) ==>
              match rules[k].kind
              case Prefix => exists listed :: name == rules[k].prepend + listed && MapServer(rules, name) == Some(Some(listed))
              case Okay => MapServer(rules, name) == Some(Some(name))
              case _ => MapServer(rules, name) == Some(None)
  {
    if IsFirst(rules, Client, name, k) {
      FirstIsFound(rules, Client, name, k);
    }
    if IsFirst(rules, Server, name, k) {
      FirstIsFound(rules, Server, name, k);
      assert name == rules[k].prepend + name[|rules[k].prepend|..];
    }
  }

  // ----- Lists of names ----------------------------------------------------------------------

  function FirstNul(bs: seq<byte>): (k: nat)
    ensures k <= |bs| && (forall j | 0 <= j < k :: bs[j] != 0) && (k < |bs| ==> bs[k] == 0)
  {
    if bs == [] || bs[0] == 0 then 0 else 1 + FirstNul(bs[1..])
  }

  predicate Clean(name: Name) {
    forall j | 0 <= j < |name| :: name[j] != 0
  }

  /** The non-empty names between the NUL bytes. */
  function Names(bs: seq<byte>): (ns: seq<Name>)
    ensures forall k | 0 <= k < |ns| :: ns[k] != [] && Clean(ns[k])
    decreases |bs|
  {
    var k := FirstNul(bs);
    var rest := if k == |bs| then [] else Names(bs[k + 1..]);
    if k == 0 then rest else [bs[..k]] + rest
  }

  /** Each name followed by a NUL byte. */
  function Terminated(ns: seq<Name>): seq<byte> {
    if ns == [] then [] else ns[0] + [0] + Terminated(ns[1..])
  }

  function NonEmpty(ns: seq<Name>): seq<Name> {
    if ns == [] then [] else if ns[0] == [] then NonEmpty(ns[1..]) else [ns[0]] + NonEmpty(ns[1..])
  }

  lemma {:induction false} TerminatedAppend(ns: seq<Name>, name: Name)
    ensures Terminated(ns + [name]) == Terminated(ns) + name + [0]
  {
    if ns == [] {
      assert ns + [name] == [name] && Terminated([name][1..]) == [];
    } else {
      TerminatedAppend(ns[1..], name);
      assert (ns + [name])[1..] == ns[1..] + [name];
    }
  }

  lemma FirstNulOf(name: Name, rest: seq<byte>)
    requires Clean(name)
    ensures FirstNul(name + [0] + rest) == |name|
  {
    var bs := name + [0] + rest;
    assert bs[|name|] == 0;
    assert forall j | 0 <= j < |name| :: bs[j] == name[j];
  }

  /** Reading a list back gives the names that were written, empty ones aside. */
  lemma {:induction false} NamesOfTerminated(ns: seq<Name>)
    requires forall k | 0 <= k < |ns| :: Clean(ns[k])
    ensures Names(Terminated(ns)) == NonEmpty(ns)
  {
    if ns != [] {
      var bs := Terminated(ns);
      FirstNulOf(ns[0], Terminated(ns[1..]));
      assert bs[..|ns[0]|] == ns[0] && bs[|ns[0]| + 1..] == Terminated(ns[1..]);
      NamesOfTerminated(ns[1..]);
    }
  }

  lemma {:induction false} NonEmptyHas(ns: seq<Name>, name: Name)
    ensures name in NonEmpty(ns) <==> name != [] && name in ns
  {
    if ns != [] {
      NonEmptyHas(ns[1..], name);
      assert ns == [ns[0]] + ns[1..];
    }
  }

  /** The names as they are listed, in order; none if some name has no rule. */
  function MapServerAll(rules: seq<Rule>, names: seq<Name>): Option<seq<Name>>
    requires IsExpanded(rules)
  {
    if names == [] then Some([])
    else
      var first, rest := MapServer(rules, names[0]), MapServerAll(rules, names[1..]);
      if first.None? || rest.None? then None
      else if first.value.None? then rest
      else Some([first.value.value] + rest.value)
  }

  function ListOf(ns: seq<Name>): seq<byte> {
    if ns == [] then [0] else Terminated(ns)
  }

  /** None stands for an unterminated mapping. */
  method MapServerList(rules: seq<Rule>, list: seq<byte>) returns (mapped: Option<seq<byte>>)
    requires IsExpanded(rules)
    ensures mapped == match MapServerAll(rules, Names(list)) case None => None case Some(ns) => Some(ListOf(ns))
  {
    var names, filtered := Names(list), [];
    ghost var done := [];
    assert forall ns: seq<Name> {:trigger [] + ns} :: [] + ns == ns;
    for k := 0 to |names|
      invariant filtered == Terminated(done)
      invariant MapServerAll(rules, names) ==
                match MapServerAll(rules, names[k..]) case None => None case Some(ns) => Some(done + ns)
    {
      assert names[k..][1..] == names[k + 1..];
      match FindRule(rules, Server, names[k]) {
        case None =>
          return None;
        case Some(r) =>
          if !r.kind.Bad? && !r.kind.Unsupported? {
            var processed := if r.kind.Okay? then names[k] else names[k][|r.prepend|..];
            TerminatedAppend(done, processed);
            ShiftName(done, processed, MapServerAll(rules, names[k + 1..]));
            filtered, done := filtered + processed + [0], done + [processed];
          }
      }
    }
    assert done + [] == done;
    mapped := Some(if filtered == [] then [0] else filtered);
  }

  lemma ShiftName(done: seq<Name>, name: Name, rest: Option<seq<Name>>)
    ensures rest.Some? ==> done + ([name] + rest.value) == done + [name] + rest.value
  {
  }

  // ----- Names without a rule ----------------------------------------------------------------

  /** Rule `k` matches, on that side, every name that begins with its pattern. */
  function Pattern(r: Rule, side: Side): Option<Name> {
    match side
    case Client => if r.client then Some(r.key) else None
    case Server => if r.server then Some(r.prepend) else None
  }

  ghost predicate HasCatchAll(rules: seq<Rule>, side: Side) {
    exists k :: 0 <= k < |rules| && Pattern(rules[k], side) == Some([])
  }

  ghost predicate CatchesByte(rules: seq<Rule>, side: Side, b: byte) {
    exists k :: 0 <= k < |rules| && (Pattern(rules[k], side) == Some([]) || Pattern(rules[k], side) == Some([b]))
  }

  /** Every name has a rule. */
  ghost predicate Terminates(rules: seq<Rule>, side: Side) {
    forall name: Name :: FindRule(rules, side, name).Some?
  }

  /** Every name that a listing can contain has a rule. */
  ghost predicate TerminatesListings(rules: seq<Rule>, side: Side) {
    forall name: Name | name != [] && Clean(name) :: FindRule(rules, side, name).Some?
  }

  lemma MatchesPattern(rules: seq<Rule>, side: Side, name: Name)
    ensures FindRule(rules, side, name).Some? <==>
            exists k :: 0 <= k < |rules| && Pattern(rules[k], side).Some? && Pattern(rules[k], side).value <= name
  {
    if FindRule(rules, side, name).Some? {
      var k :| 0 <= k < |rules| && Matches(rules[k], side, name);
    }
  }

  /** No name at all is left without a rule if and only if some rule of that side has an empty pattern. */
  lemma TerminatedIff(rules: seq<Rule>, side: Side)
    ensures Terminates(rules, side) <==> HasCatchAll(rules, side)
  {
    if Terminates(rules, side) {
      MatchesPattern(rules, side, []);
      var k :| 0 <= k < |rules| && Pattern(rules[k], side).Some? && Pattern(rules[k], side).value <= [];
      assert Pattern(rules[k], side).value == [];
    }
    if HasCatchAll(rules, side) {
      forall name: Name ensures FindRule(rules, side, name).Some? {
        MatchesPattern(rules, side, name);
      }
    }
  }

  /** No name that a listing can contain, if and only if each first byte has a rule of its own or for all. */
  lemma NonEmptyTerminatedIff(rules: seq<Rule>, side: Side)
    ensures TerminatesListings(rules, side) <==>
            forall b: byte | b != 0 :: CatchesByte(rules, side, b)
  {
    if TerminatesListings(rules, side) {
      forall b: byte | b != 0 ensures CatchesByte(rules, side, b) {
        MatchesPattern(rules, side, [b]);
        var k :| 0 <= k < |rules| && Pattern(rules[k], side).Some? && Pattern(rules[k], side).value <= [b];
        var p := Pattern(rules[k], side).value;
        assert p == [] || p == [b];
      }
    }
    if forall b: byte | b != 0 :: CatchesByte(rules, side, b) {
      forall name: Name | name != [] && Clean(name) ensures FindRule(rules, side, name).Some? {
        MatchesPattern(rules, side, name);
        assert CatchesByte(rules, side, name[0]);
      }
    }
  }

  // ----- The `map` rule ----------------------------------------------------------------------

  /** What `:map:key:prepend:` stands for. */
  function ExpandMap(key: Name, prepend: Name): (rules: seq<Rule>)
    ensures IsExpanded(rules)
  {
    [Rule(Prefix, true, true, key, prepend)]
    + (if key == [] then [Rule(Bad, true, true, [], [])]
       else [Rule(Bad, true, true, prepend, key), Rule(Okay, true, true, [], [])])
  }

  /** Under a `map` rule no name is ever left without a rule, on either side. */
  lemma MapRuleTerminates(key: Name, prepend: Name, side: Side, name: Name)
    ensures FindRule(ExpandMap(key, prepend), side, name).Some?
  {
    var rules := ExpandMap(key, prepend);
    assert Pattern(rules[|rules| - 1], side) == Some([]);
    TerminatedIff(rules, side);
  }

  /** What becomes of a client name under a `map` rule. */
  function MapRuleTo(key: Name, prepend: Name, name: Name): Applied {
    if key <= name then Pass(prepend + name) else if prepend <= name then Deny else Pass(name)
  }

  /** And how a host name is listed. */
  function MapRuleFrom(key: Name, prepend: Name, host: Name): Option<Name> {
    if prepend <= host then Some(host[|prepend|..]) else if key <= host then None else Some(host)
  }

  lemma MapRuleClient(key: Name, prepend: Name, name: Name)
    ensures MapClient(ExpandMap(key, prepend), name) == Some(MapRuleTo(key, prepend, name))
  {
    var rules := ExpandMap(key, prepend);
    assert FindRule(rules, Client, name) ==
           Some(if key <= name then rules[0] else if prepend <= name then rules[1] else rules[2]) by {
      assert |rules| > 1 && rules[1..][0] == rules[1];
      assert |rules| > 2 ==> rules[1..][1..][0] == rules[2];
    }
  }

  lemma MapRuleServer(key: Name, prepend: Name, host: Name)
    ensures MapServer(ExpandMap(key, prepend), host) == Some(MapRuleFrom(key, prepend, host))
  {
    var rules := ExpandMap(key, prepend);
    assert FindRule(rules, Server, host) ==
           Some(if prepend <= host then rules[0] else if key <= host then rules[1] else rules[2]) by {
      assert |rules| > 1 && rules[1..][0] == rules[1];
      assert |rules| > 2 ==> rules[1..][1..][0] == rules[2];
    }
  }

  /** A client name that passes is listed back under that very name. */
  lemma MapRuleRoundTrip(key: Name, prepend: Name, name: Name, host: Name)
    requires MapClient(ExpandMap(key, prepend), name) == Some(Pass(host))
    ensures MapServer(ExpandMap(key, prepend), host) == Some(Some(name))
  {
    MapRuleClient(key, prepend, name);
    MapRuleServer(key, prepend, host);
  }

  /** So two client names never share a host name. */
  lemma MapRuleInjective(key: Name, prepend: Name, a: Name, b: Name, host: Name)
    requires MapClient(ExpandMap(key, prepend), a) == Some(Pass(host))
    requires MapClient(ExpandMap(key, prepend), b) == Some(Pass(host))
    ensures a == b
  {
    MapRuleRoundTrip(key, prepend, a, host);
    MapRuleRoundTrip(key, prepend, b, host);
  }

  /**
    The other way round fails: a listed name leads back to the host name it was listed for if and
    only if that host name lacks the prefix, or has it in front of the key.
   */
  lemma ListedLeadsBackIff(key: Name, prepend: Name, host: Name, listed: Name)
    requires MapServer(ExpandMap(key, prepend), host) == Some(Some(listed))
    ensures MapClient(ExpandMap(key, prepend), listed) == Some(Pass(host)) <==>
            !(prepend <= host) || prepend + key <= host
  {
    MapRuleServer(key, prepend, host);
    MapRuleClient(key, prepend, listed);
    FromLeadsBack(key, prepend, host, listed);
  }

  lemma FromLeadsBack(key: Name, prepend: Name, host: Name, listed: Name)
    requires MapRuleFrom(key, prepend, host) == Some(listed)
    ensures MapRuleTo(key, prepend, listed) == Pass(host) <==> !(prepend <= host) || prepend + key <= host
  {
    if prepend <= host {
      assert prepend + listed == host;
      PrefixAfter(prepend, key, listed);
      assert |host| == |prepend| + |listed|;
    }
  }

  lemma PrefixAfter(a: Name, b: Name, c: Name)
    ensures a + b <= a + c <==> b <= c
  {
    if b <= c {
      assert (a + b) + c[|b|..] == a + c;
    }
    if a + b <= a + c {
      assert forall j | 0 <= j < |b| :: b[j] == (a + b)[|a| + j] == (a + c)[|a| + j] == c[j];
    }
  }

  /** With key `k` and prefix `p`, host name `px` is listed as `x`, which is another host name. */
  lemma ListedLeadsElsewhere()
    ensures exists host, listed, other ::
              && MapServer(ExpandMap([107], [112]), host) == Some(Some(listed))
              && MapClient(ExpandMap([107], [112]), listed) == Some(Pass(other)) && other != host
  {
    var key: Name, prepend: Name, host: Name, listed: Name := [107], [112], [112, 120], [120];
    MapRuleServer(key, prepend, host);
    assert prepend <= host && host[1..] == listed;
    MapRuleClient(key, prepend, listed);
    assert key[0] != listed[0] && prepend[0] != listed[0];
    assert MapServer(ExpandMap(key, prepend), host) == Some(Some(listed));
    assert MapClient(ExpandMap(key, prepend), listed) == Some(Pass(listed)) && listed != host;
  }

  // ----- A `map` rule after other rules ------------------------------------------------------

  /** The rules `pre`, and a `map` rule to end with. */
  function EndingInMap(pre: seq<Rule>, key: Name, prepend: Name): (rules: seq<Rule>)
    requires IsExpanded(pre)
    ensures IsExpanded(rules)
  {
    pre + ExpandMap(key, prepend)
  }

  lemma {:induction false} FindRuleAppend(a: seq<Rule>, b: seq<Rule>, side: Side, name: Name)
    ensures FindRule(a + b, side, name) == if FindRule(a, side, name).Some? then FindRule(a, side, name) else FindRule(b, side, name)
  {
    if a == [] {
      assert a + b == b;
    } else {
      assert (a + b)[1..] == a[1..] + b;
      FindRuleAppend(a[1..], b, side, name);
    }
  }

  /** The rule passes `name` to the host as `host`; read the other way, it lists `host` as `name`. */
  predicate Relates(r: Rule, name: Name, host: Name) {
    (r.kind.Okay? && host == name) || (r.kind.Prefix? && host == r.prepend + name)
  }

  lemma PassesBy(pre: seq<Rule>, key: Name, prepend: Name, name: Name, host: Name)
    requires IsExpanded(pre)
    ensures MapClient(EndingInMap(pre, key, prepend), name) == Some(Pass(host)) <==>
            match FindRule(pre, Client, name)
            case Some(r) => Relates(r, name, host)
            case None => MapRuleTo(key, prepend, name) == Pass(host)
  {
    FindRuleAppend(pre, ExpandMap(key, prepend), Client, name);
    MapRuleClient(key, prepend, name);
  }

  lemma ListedBy(pre: seq<Rule>, key: Name, prepend: Name, name: Name, host: Name)
    requires IsExpanded(pre)
    ensures MapServer(EndingInMap(pre, key, prepend), host) == Some(Some(name)) <==>
            match FindRule(pre, Server, host)
            case Some(r) => Relates(r, name, host)
            case None => MapRuleFrom(key, prepend, host) == Some(name)
  {
    FindRuleAppend(pre, ExpandMap(key, prepend), Server, host);
    MapRuleServer(key, prepend, host);
    var r := FindRule(pre, Server, host);
    if r.Some? {
      assert host == r.value.prepend + host[|r.value.prepend|..];
    }
  }

  /**
    A client name that passes is listed back as itself if and only if the first of the other rules
    that matches the host name lists it so, or none matches, and the name was left to the `map`
    rule, or that rule lists it so.
   */
  lemma RoundTripIff(pre: seq<Rule>, key: Name, prepend: Name, name: Name, host: Name)
    requires IsExpanded(pre) && MapClient(EndingInMap(pre, key, prepend), name) == Some(Pass(host))
    ensures MapServer(EndingInMap(pre, key, prepend), host) == Some(Some(name)) <==>
            match FindRule(pre, Server, host)
            case Some(r) => Relates(r, name, host)
            case None => FindRule(pre, Client, name).None? || MapRuleFrom(key, prepend, host) == Some(name)
  {
    PassesBy(pre, key, prepend, name, host);
    ListedBy(pre, key, prepend, name, host);
    if FindRule(pre, Client, name).None? {
      MapRuleClient(key, prepend, name);
      MapRuleServer(key, prepend, host);
      MapRuleRoundTrip(key, prepend, name, host);
    }
  }

  /**
    A name that is left to the `map` rule shares its host name with another if and only if that
    one is matched before, by a rule that passes it there.
   */
  lemma SharedIff(pre: seq<Rule>, key: Name, prepend: Name, name: Name, other: Name, host: Name)
    requires IsExpanded(pre) && FindRule(pre, Client, name).None? && other != name
    requires MapClient(EndingInMap(pre, key, prepend), name) == Some(Pass(host))
    ensures MapClient(EndingInMap(pre, key, prepend), other) == Some(Pass(host)) <==>
            FindRule(pre, Client, other).Some? && Relates(FindRule(pre, Client, other).value, other, host)
  {
    PassesBy(pre, key, prepend, name, host);
    PassesBy(pre, key, prepend, other, host);
    if FindRule(pre, Client, other).None? && MapRuleTo(key, prepend, other) == Pass(host) {
      MapRuleClient(key, prepend, name);
      MapRuleClient(key, prepend, other);
      MapRuleInjective(key, prepend, name, other, host);
    }
  }

  /** Let through `p` first, then map key `k` to prefix `p`: `k` and `pk` are one on the host, listed as `k`. */
  lemma TwoNamesShare()
    ensures var rules := EndingInMap([Rule(Okay, true, false, [112], [])], [107], [112]);
            && MapClient(rules, [107]) == Some(Pass([112, 107])) == MapClient(rules, [112, 107])
            && MapServer(rules, [112, 107]) == Some(Some([107]))
  {
    var pre, key: Name, prepend: Name, host: Name := [Rule(Okay, true, false, [112], [])], [107], [112], [112, 107];
    assert pre[1..] == [] && key[0] != prepend[0];
    assert !(prepend <= key) && prepend + key == host && host[1..] == key && prepend <= host;
    PassesBy(pre, key, prepend, key, host);
    PassesBy(pre, key, prepend, host, host);
    ListedBy(pre, key, prepend, key, host);
  }

  // ----- With the filter for ACL names -------------------------------------------------------

  function Ascii(s: string): (bs: Name)
    requires forall k | 0 <= k < |s| :: s[k] < 128 as char
    ensures |bs| == |s|
  {
    seq(|s|, k requires 0 <= k < |s| => s[k] as int)
  }

  const ACL_ACCESS: Name := Ascii("system.posix_acl_access")
  const ACL_DEFAULT: Name := Ascii("system.posix_acl_default")

  /** Without ACL support, any prefix of the two ACL names is blocked. */
  function BlockXattr(acl: bool): Name -> bool {
    name => !acl && (name <= ACL_ACCESS || name <= ACL_DEFAULT)
  }

  /** What a client name stands for on the host; none if there is no rule for it, which is a panic. */
  function HostName(blocked: Name -> bool, rules: Option<seq<Rule>>, name: Name): Option<Applied>
    requires rules.Some? ==> IsExpanded(rules.value)
  {
    if blocked(name) then Some(NotSupported)
    else if rules.None? then Some(Pass(name))
    else MapClient(rules.value, name)
  }

  /** With ACLs off the two ACL names, and what they begin with, are not supported; all else is up to the rules. */
  lemma AclsAreUnsupported(rules: Option<seq<Rule>>, name: Name)
    requires rules.Some? ==> IsExpanded(rules.value)
    ensures HostName(BlockXattr(false), rules, name) ==
            if name <= Ascii("system.posix_acl_access") || name <= Ascii("system.posix_acl_default") then Some(NotSupported)
            else HostName(BlockXattr(true), rules, name)
    ensures HostName(BlockXattr(true), rules, name) == if rules.None? then Some(Pass(name)) else MapClient(rules.value, name)
  {
  }

  function Unblocked(blocked: Name -> bool, names: seq<Name>): seq<Name> {
    if names == [] then []
    else if blocked(names[0]) then Unblocked(blocked, names[1..])
    else [names[0]] + Unblocked(blocked, names[1..])
  }

  lemma KeepName(blocked: Name -> bool, done: seq<Name>, rest: seq<Name>)
    requires rest != [] && !blocked(rest[0])
    ensures done + Unblocked(blocked, rest) == done + [rest[0]] + Unblocked(blocked, rest[1..])
  {
    var kept := Unblocked(blocked, rest[1..]);
    assert Unblocked(blocked, rest) == [rest[0]] + kept;
    ShiftName(done, rest[0], Some(kept));
  }

  method FilterList(blocked: Name -> bool, list: seq<byte>) returns (filtered: seq<byte>)
    ensures filtered == Terminated(Unblocked(blocked, Names(list)))
  {
    var rest := Names(list);
    filtered := [];
    ghost var done := [];
    while rest != []
      invariant filtered == Terminated(done)
      invariant Unblocked(blocked, Names(list)) == done + Unblocked(blocked, rest)
    {
      var name := rest[0];
      if !blocked(name) {
        KeepName(blocked, done, rest);
        TerminatedAppend(done, name);
        filtered, done := filtered + name + [0], done + [name];
      }
      rest := rest[1..];
    }
    assert done + [] == done;
  }

  /** The names that the client gets to see, in the host's order, for the host's `names`. */
  function Visible(acl: bool, rules: Option<seq<Rule>>, names: seq<Name>): Option<seq<Name>>
    requires rules.Some? ==> IsExpanded(rules.value)
  {
    if rules.None? then Some(Unblocked(BlockXattr(acl), names))
    else
      match MapServerAll(rules.value, names)
      case None => None
      case Some(mapped) => Some(Unblocked(BlockXattr(acl), NonEmpty(mapped)))
  }

  /** The whole treatment of a host's listing; none is the panic on an unterminated mapping. */
  method ClientList(acl: bool, rules: Option<seq<Rule>>, list: seq<byte>) returns (out: Option<seq<byte>>)
    requires rules.Some? ==> IsExpanded(rules.value)
    ensures out.None? <==> Visible(acl, rules, Names(list)).None?
    ensures out.Some? ==> Names(out.value) == Visible(acl, rules, Names(list)).value
                          && out.value == Terminated(Names(out.value))
  {
    var all := Some(list);
    if rules.Some? {
      all := MapServerList(rules.value, list);
      if all.None? {
        return None;
      }
      MapServerAllClean(rules.value, Names(list));
      ListOfNames(MapServerAll(rules.value, Names(list)).value);
    }
    var filtered := FilterList(BlockXattr(acl), all.value);
    ghost var names := Names(all.value);
    UnblockedClean(BlockXattr(acl), names);
    NoneEmpty(Unblocked(BlockXattr(acl), names));
    NamesOfTerminated(Unblocked(BlockXattr(acl), names));
    out := Some(filtered);
  }

  lemma {:induction false} UnblockedHas(blocked: Name -> bool, names: seq<Name>, name: Name)
    ensures name in Unblocked(blocked, names) <==> name in names && !blocked(name)
  {
    if names != [] {
      UnblockedHas(blocked, names[1..], name);
      assert names == [names[0]] + names[1..];
    }
  }

  lemma {:induction false} UnblockedClean(blocked: Name -> bool, names: seq<Name>)
    requires forall k | 0 <= k < |names| :: names[k] != [] && Clean(names[k])
    ensures forall k | 0 <= k < |Unblocked(blocked, names)| :: Clean(Unblocked(blocked, names)[k])
    ensures forall k | 0 <= k < |Unblocked(blocked, names)| :: Unblocked(blocked, names)[k] != []
  {
    if names != [] {
      UnblockedClean(blocked, names[1..]);
    }
  }

  lemma {:induction false} NoneEmpty(ns: seq<Name>)
    requires forall k | 0 <= k < |ns| :: ns[k] != []
    ensures NonEmpty(ns) == ns
  {
    if ns != [] {
      NoneEmpty(ns[1..]);
      assert ns == [ns[0]] + ns[1..];
    }
  }

  lemma ListOfNames(ns: seq<Name>)
    requires forall k | 0 <= k < |ns| :: Clean(ns[k])
    ensures Names(ListOf(ns)) == NonEmpty(ns)
  {
    NamesOfTerminated(ns);
    if ns == [] {
      assert Names([0]) == Names([0][1..]) == [];
    }
  }

  lemma {:induction false} MapServerAllClean(rules: seq<Rule>, names: seq<Name>)
    requires IsExpanded(rules) && forall k | 0 <= k < |names| :: Clean(names[k])
    ensures var ns := MapServerAll(rules, names); ns.Some? ==> forall k | 0 <= k < |ns.value| :: Clean(ns.value[k])
  {
    if names != [] {
      MapServerAllClean(rules, names[1..]);
    }
  }

  /** A name is listed just when it is how some host name is shown. */
  lemma {:induction false} MapServerAllHas(rules: seq<Rule>, names: seq<Name>, name: Name)
    requires IsExpanded(rules) && MapServerAll(rules, names).Some?
    ensures name in MapServerAll(rules, names).value <==>
            exists host :: host in names && MapServer(rules, host) == Some(Some(name))
  {
    if names != [] {
      MapServerAllHas(rules, names[1..], name);
      assert names == [names[0]] + names[1..];
    }
  }

  lemma {:induction false} ListsAll(rules: seq<Rule>, names: seq<Name>)
    requires IsExpanded(rules) && forall k | 0 <= k < |names| :: FindRule(rules, Server, names[k]).Some?
    ensures MapServerAll(rules, names).Some?
  {
    if names != [] {
      ListsAll(rules, names[1..]);
    }
  }

  /** With ACLs off none of them is listed, whatever the host has and the rules make of it. */
  lemma AclsAreHidden(rules: Option<seq<Rule>>, names: seq<Name>)
    requires rules.Some? ==> IsExpanded(rules.value)
    ensures var visible := Visible(false, rules, names);
            visible.Some? ==> Ascii("system.posix_acl_access") !in visible.value && Ascii("system.posix_acl_default") !in visible.value
  {
    if Visible(false, rules, names).Some? {
      var shown := if rules.None? then names else NonEmpty(MapServerAll(rules.value, names).value);
      UnblockedHas(BlockXattr(false), shown, ACL_ACCESS);
      UnblockedHas(BlockXattr(false), shown, ACL_DEFAULT);
    }
  }

  ghost predicate NeverPanics(acl: bool, rules: seq<Rule>)
    requires IsExpanded(rules)
  {
    forall list: seq<byte> :: Visible(acl, Some(rules), Names(list)).Some?
  }

  /** The panic over a listing never happens if and only if every first byte has a rule. */
  lemma ListNeverPanicsIff(acl: bool, rules: seq<Rule>)
    requires IsExpanded(rules)
    ensures NeverPanics(acl, rules) <==> forall b: byte | b != 0 :: CatchesByte(rules, Server, b)
  {
    NonEmptyTerminatedIff(rules, Server);
    if NeverPanics(acl, rules) {
      forall name: Name | name != [] && Clean(name) ensures FindRule(rules, Server, name).Some? {
        NamesOfOne(name);
        assert Visible(acl, Some(rules), Names(name)).Some?;
        assert MapServerAll(rules, [name]).Some?;
      }
    }
    if TerminatesListings(rules, Server) {
      forall list: seq<byte> ensures Visible(acl, Some(rules), Names(list)).Some? {
        ListsAll(rules, Names(list));
      }
    }
  }

  lemma NamesOfOne(name: Name)
    requires name != [] && Clean(name)
    ensures Names(name) == [name]
  {
    assert FirstNul(name) == |name|;
    assert name[..|name|] == name;
  }

  /** Every name that a client can send, which holds no NUL, is blocked or has a rule. */
  ghost predicate ClientNeverPanics(blocked: Name -> bool, rules: seq<Rule>)
    requires IsExpanded(rules)
  {
    forall name: Name | Clean(name) :: HostName(blocked, Some(rules), name).Some?
  }

  /** With ACLs on, the panic over a client's name never happens if and only if some client rule has an empty key. */
  lemma ClientNeverPanicsIff(rules: seq<Rule>)
    requires IsExpanded(rules)
    ensures ClientNeverPanics(BlockXattr(true), rules) <==> HasCatchAll(rules, Client)
  {
    TerminatedIff(rules, Client);
    if ClientNeverPanics(BlockXattr(true), rules) {
      assert Clean([]);
      assert HostName(BlockXattr(true), Some(rules), []).Some?;
      OnlyCatchAllMatchesEmpty(rules, Client);
    }
  }

  lemma OnlyCatchAllMatchesEmpty(rules: seq<Rule>, side: Side)
    requires FindRule(rules, side, []).Some?
    ensures HasCatchAll(rules, side)
  {
    MatchesPattern(rules, side, []);
    var k :| 0 <= k < |rules| && Pattern(rules[k], side).Some? && Pattern(rules[k], side).value <= [];
    assert Pattern(rules[k], side).value == [];
  }

  /** The shortest names beyond the blocked ones, among those that a client can send, have a rule. */
  ghost predicate CatchesUnblocked(blocked: Name -> bool, rules: seq<Rule>) {
    forall p: Name, b: byte | Clean(p) && b != 0 && blocked(p) && !blocked(p + [b]) ::
      FindRule(rules, Client, p + [b]).Some?
  }

  /** Where an unblocked name leaves the blocked ones. */
  lemma {:induction false} FirstUnblocked(blocked: Name -> bool, name: Name, k: nat) returns (n: nat)
    requires k <= |name| && blocked(name[..k]) && !blocked(name)
    ensures k <= n < |name| && blocked(name[..n]) && !blocked(name[..n + 1])
    decreases |name| - k
  {
    assert name[..|name|] == name;
    if blocked(name[..k + 1]) {
      n := FirstUnblocked(blocked, name, k + 1);
    } else {
      n := k;
    }
  }

  lemma UnblockedHasRule(blocked: Name -> bool, rules: seq<Rule>, name: Name)
    requires blocked([]) && CatchesUnblocked(blocked, rules) && !blocked(name) && Clean(name)
    ensures FindRule(rules, Client, name).Some?
  {
    assert name[..0] == [];
    var n := FirstUnblocked(blocked, name, 0);
    assert Clean(name[..n]) && name[..n] + [name[n]] == name[..n + 1];
    MatchesPattern(rules, Client, name[..n + 1]);
    var k :| 0 <= k < |rules| && Pattern(rules[k], Client).Some? && Pattern(rules[k], Client).value <= name[..n + 1];
    assert Pattern(rules[k], Client).value <= name;
    MatchesPattern(rules, Client, name);
  }

  /** With ACLs off, if and only if the shortest names that are not blocked have a rule. */
  lemma ClientNeverPanicsWithoutAclsIff(rules: seq<Rule>)
    requires IsExpanded(rules)
    ensures ClientNeverPanics(BlockXattr(false), rules) <==> CatchesUnblocked(BlockXattr(false), rules)
  {
    var blocked := BlockXattr(false);
    if ClientNeverPanics(blocked, rules) {
      forall p: Name, b: byte | Clean(p) && b != 0 && blocked(p) && !blocked(p + [b])
        ensures FindRule(rules, Client, p + [b]).Some?
      {
        assert Clean(p + [b]);
        assert HostName(blocked, Some(rules), p + [b]).Some?;
      }
    }
    if CatchesUnblocked(blocked, rules) {
      forall name: Name | Clean(name) ensures HostName(blocked, Some(rules), name).Some? {
        if !blocked(name) {
          UnblockedHasRule(blocked, rules, name);
        }
      }
    }
  }

  /** A catch-all is then not needed: one client rule for each byte but NUL will do. */
  lemma ByteRulesSuffice(rules: seq<Rule>)
    requires IsExpanded(rules) && forall b: byte | b != 0 :: CatchesByte(rules, Client, b)
    ensures ClientNeverPanics(BlockXattr(false), rules)
  {
    NonEmptyTerminatedIff(rules, Client);
    forall name: Name | Clean(name) ensures HostName(BlockXattr(false), Some(rules), name).Some? {
      if name == [] {
        assert BlockXattr(false)([]);
      }
    }
  }

  /** Rules that know no names but those which begin with `u` panic over `x`, sent or listed, with ACLs or without. */
  lemma UnterminatedPanics(acl: bool)
    ensures var rules := [Rule(Okay, true, true, [117], [117])];
            && HostName(BlockXattr(acl), Some(rules), [120]).None?
            && Visible(acl, Some(rules), Names([120, 0])).None?
            && !ClientNeverPanics(BlockXattr(acl), rules) && !NeverPanics(acl, rules)
  {
    var rules, name: Name := [Rule(Okay, true, true, [117], [117])], [120];
    assert ACL_ACCESS[0] != name[0] && ACL_DEFAULT[0] != name[0];
    assert !BlockXattr(acl)(name) && Clean(name);
    assert !(rules[0].key <= name) && !(rules[0].prepend <= name) && rules[1..] == [];
    NamesOfTerminated([name]);
    assert Terminated([name]) == [120, 0] && NonEmpty([name]) == [name];
    assert MapServerAll(rules, [name]).None?;
  }

  lemma {:induction false} MapRuleListsAll(key: Name, prepend: Name, names: seq<Name>)
    ensures MapServerAll(ExpandMap(key, prepend), names).Some?
  {
    if names != [] {
      MapRuleServer(key, prepend, names[0]);
      MapRuleListsAll(key, prepend, names[1..]);
    }
  }

  /**
    Under a `map` rule a name that the client may use is listed to it just when the host has the
    attribute it stands for, or has one that only the prefix sets apart from it.
   */
  lemma ListingUnderMapRule(acl: bool, key: Name, prepend: Name, names: seq<Name>, name: Name, host: Name)
    requires name != [] && HostName(BlockXattr(acl), Some(ExpandMap(key, prepend)), name) == Some(Pass(host))
    ensures var visible := Visible(acl, Some(ExpandMap(key, prepend)), names);
            visible.Some? && (name in visible.value <==> host in names || prepend + name in names)
  {
    var rules := ExpandMap(key, prepend);
    ListedUnderMapRule(key, prepend, rules, names, name, host);
    var mapped := MapServerAll(rules, names).value;
    NonEmptyHas(mapped, name);
    UnblockedHas(BlockXattr(acl), NonEmpty(mapped), name);
  }

  lemma ListedUnderMapRule(key: Name, prepend: Name, rules: seq<Rule>, names: seq<Name>, name: Name, host: Name)
    requires rules == ExpandMap(key, prepend) && MapClient(rules, name) == Some(Pass(host))
    ensures MapServerAll(rules, names).Some?
    ensures name in MapServerAll(rules, names).value <==> host in names || prepend + name in names
  {
    MapRuleListsAll(key, prepend, names);
    MapServerAllHas(rules, names, name);
    ShownAs(key, prepend, name, host);
  }

  lemma ShownAs(key: Name, prepend: Name, name: Name, host: Name)
    requires MapClient(ExpandMap(key, prepend), name) == Some(Pass(host))
    ensures forall h :: MapServer(ExpandMap(key, prepend), h) == Some(Some(name)) <==> h == host || h == prepend + name
  {
    MapRuleClient(key, prepend, name);
    forall h ensures MapServer(ExpandMap(key, prepend), h) == Some(Some(name)) <==> h == host || h == prepend + name {
      MapRuleServer(key, prepend, h);
      if prepend <= h {
        assert h == prepend + h[|prepend|..];
      }
    }
  }
}
