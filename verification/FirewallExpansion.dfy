/** Expanding a rule into atomic rules keeps its meaning. */
module FirewallExpansion {
  import opened Text
  import opened FirewallRules
  import opened FirewallNormal

  // ---- The combinations, in the order of the nested loops

  function Row<A>(r: Rule, values: seq<A>, put: (Rule, A) -> Rule): (row: seq<Rule>)
    ensures |row| == |values| && forall i :: 0 <= i < |values| ==> row[i] == put(r, values[i])
  {
    seq(|values|, i requires 0 <= i < |values| => put(r, values[i]))
  }

  /** Every rule with every value, the values varying fastest. */
  function Spread<A>(rules: seq<Rule>, values: seq<A>, put: (Rule, A) -> Rule): seq<Rule> {
    if rules == [] then []
    else Spread(rules[..|rules| - 1], values, put) + Row(rules[|rules| - 1], values, put)
  }

  lemma RowHits<A>(r: Rule, values: seq<A>, put: (Rule, A) -> Rule, hits: Rule -> bool)
    ensures (exists x :: x in Row(r, values, put) && hits(x)) <==> (exists v :: v in values && hits(put(r, v)))
  {
    var row := Row(r, values, put);
    forall i | 0 <= i < |values|
      ensures put(r, values[i]) in row
    {
      assert row[i] in row;
    }
  }

  /** The values together say of the rule what it said. */
  ghost predicate SaysSame<A(!new)>(r: Rule, values: seq<A>, put: (Rule, A) -> Rule, hits: Rule -> bool) {
    hits(r) <==> exists v :: v in values && hits(put(r, v))
  }

  /** Splitting rules by values that together say what the rules said says the same. */
  lemma {:induction false} SpreadHits<A(!new)>(rules: seq<Rule>, values: seq<A>, put: (Rule, A) -> Rule, hits: Rule -> bool)
    requires forall r :: r in rules ==> SaysSame(r, values, put, hits)
    ensures (exists x :: x in Spread(rules, values, put) && hits(x)) <==> (exists r :: r in rules && hits(r))
  {
    if rules != [] {
      var before, r := rules[..|rules| - 1], rules[|rules| - 1];
      assert forall t :: t in rules <==> t in before || t == r;
      SpreadHits(before, values, put, hits);
      RowHits(r, values, put, hits);
      assert SaysSame(r, values, put, hits);
    }
  }

  /** What every putting keeps, spreading keeps. */
  lemma {:induction false} SpreadAll<A>(rules: seq<Rule>, values: seq<A>, put: (Rule, A) -> Rule, keep: Rule -> bool)
    requires forall r, v :: r in rules && v in values ==> keep(put(r, v))
    ensures forall x :: x in Spread(rules, values, put) ==> keep(x)
  {
    if rules != [] {
      SpreadAll(rules[..|rules| - 1], values, put, keep);
      assert rules[|rules| - 1] in rules;
    }
  }

  function Protocols(sx: Syntax, r: Rule): Result<seq<string>, FilterError> {
    if r.scope.provider.Ufw? then
      if NormalProtocol(r.protocol).None? then Failure(InvalidRule)
      else if NormalProtocol(r.protocol).value != "all" then Success(SplitProtocols(r.protocol))
      else if sx.port(r.destinationPort, true).None? then Failure(InvalidRule)
      else
        var port := sx.port(r.destinationPort, true).value;
        Success(if ',' in port || '-' in port then ["tcp", "udp"] else SplitProtocols(r.protocol))
    else Success(SplitProtocols(r.protocol))
  }

  function DestinationPorts(r: Rule): seq<string> {
    if NativePortSet(r.scope.provider) then [r.destinationPort] else SplitValues(r.destinationPort)
  }

  function PutProtocol(r: Rule, v: string): Rule { r.(protocol := v) }
  function PutSource(r: Rule, v: string): Rule { r.(sourceAddress := v) }
  function PutDestination(r: Rule, v: string): Rule { r.(destinationAddress := v) }
  function PutSourcePort(r: Rule, v: string): Rule { r.(sourcePort := v) }
  function PutDestinationPort(r: Rule, v: string): Rule { r.(destinationPort := v) }

  function ByAddress(r: Rule, rules: seq<Rule>): seq<Rule> {
    Spread(Spread(rules, SplitValues(r.sourceAddress), PutSource), SplitValues(r.destinationAddress), PutDestination)
  }

  function ByPort(r: Rule, rules: seq<Rule>): seq<Rule> {
    Spread(Spread(rules, SplitValues(r.sourcePort), PutSourcePort), DestinationPorts(r), PutDestinationPort)
  }

  function Combinations(r: Rule, protocols: seq<string>): seq<Rule> {
    ByPort(r, ByAddress(r, Spread([r], protocols, PutProtocol)))
  }

  // ---- Each split says what the list said

  lemma {:induction false} SplitValuesPlain(text: string, v: string)
    requires v in SplitValues(text)
    ensures SplitValues(v) == [v] && ',' !in v && TrimSpace(v) == v
  {
    var parts := Split(text, ',');
    DistinctMembers(TrimAll(parts), v);
    var i :| 0 <= i < |parts| && TrimAll(parts)[i] == v;
    SplitParts(text, ',');
    assert parts[i] in parts;
    TrimKeeps(parts[i], ',');
    TrimTwice(parts[i]);
    OneValue(v);
  }

  lemma AddressesSplit(sx: Syntax, wide: bool, text: string, v6: bool, address: nat)
    ensures AddressesHit(sx, wide, text, v6, address)
            <==> exists v :: v in SplitValues(text) && AddressesHit(sx, wide, v, v6, address)
  {
    forall v | v in SplitValues(text)
      ensures AddressesHit(sx, wide, v, v6, address) <==> AddressHits(sx, wide, v, v6, address)
    {
      SplitValuesPlain(text, v);
      assert v in SplitValues(v);
    }
  }

  lemma PortsSplit(sx: Syntax, text: string, protocol: Protocol, port: nat)
    ensures PortsHit(sx, text, protocol, port) <==> exists v :: v in SplitValues(text) && PortsHit(sx, v, protocol, port)
  {
    forall v | v in SplitValues(text)
      ensures PortsHit(sx, v, protocol, port) <==> PortHits(sx, v, protocol, port)
    {
      SplitValuesPlain(text, v);
      assert v in SplitValues(v);
    }
  }

  lemma PartPlain(text: string, v: string)
    requires v in SplitProtocols(text)
    ensures ',' !in Canon(v)
  {
    if TwoProtocols(Canon(text)) {
      ProtocolWords(v);
    } else {
      SplitValuesPlain(Canon(text), v);
      CanonKeepsComma(v);
    }
  }

  lemma CanonKeepsComma(v: string)
    requires ',' !in v
    ensures ',' !in Canon(v)
  {
    TrimKeeps(v, ',');
    var t := TrimSpace(v);
    assert forall i :: 0 <= i < |t| ==> t[i] in t && Lower(t)[i] == LowerChar(t[i]);
  }

  lemma TwoProtocolsHit(v: string, protocol: Protocol)
    requires TwoProtocols(Canon(v))
    ensures ProtocolsHit(v, protocol) <==> Portful(protocol)
    ensures ProtocolHits(v, protocol) <==> Portful(protocol)
  {
    var parts := SplitProtocols(v);
    assert parts == ["tcp", "udp"] && "tcp" in parts && "udp" in parts;
    PortfulWords(protocol);
  }

  lemma PortfulWords(protocol: Protocol)
    ensures ProtocolHits("tcp", protocol) <==> protocol.Tcp?
    ensures ProtocolHits("udp", protocol) <==> protocol.Udp?
  {
    ProtocolWords("tcp");
    ProtocolWords("udp");
  }

  lemma ProtocolsSplit(text: string, protocol: Protocol)
    ensures ProtocolsHit(text, protocol) <==> exists v :: v in SplitProtocols(text) && ProtocolsHit(v, protocol)
  {
    forall v | v in SplitProtocols(text)
      ensures ProtocolsHit(v, protocol) <==> ProtocolHits(v, protocol)
    {
      PartPlain(text, v);
      if TwoProtocols(Canon(v)) {
        TwoProtocolsHit(v, protocol);
      } else {
        OneProtocol(v, protocol);
      }
    }
  }

  function HitsOf(sx: Syntax, wide: bool, p: Packet): Rule -> bool {
    r => Hits(sx, wide, r, p)
  }

  predicate HitsButSource(sx: Syntax, wide: bool, r: Rule, p: Packet) {
    FamilyHits(r.scope.family, p.v6) && AddressesHit(sx, wide, r.destinationAddress, p.v6, p.destination) && Rest(sx, r, p)
  }

  lemma PutSourceHits(sx: Syntax, wide: bool, r: Rule, v: string, p: Packet)
    ensures Hits(sx, wide, PutSource(r, v), p)
            <==> HitsButSource(sx, wide, r, p) && AddressesHit(sx, wide, v, p.v6, p.source)
  {
  }

  lemma SourceSays(sx: Syntax, wide: bool, r: Rule, p: Packet)
    ensures SaysSame(r, SplitValues(r.sourceAddress), PutSource, HitsOf(sx, wide, p))
  {
    AddressesSplit(sx, wide, r.sourceAddress, p.v6, p.source);
    var hits := HitsOf(sx, wide, p);
    forall v ensures hits(PutSource(r, v)) <==> HitsButSource(sx, wide, r, p) && AddressesHit(sx, wide, v, p.v6, p.source) {
      PutSourceHits(sx, wide, r, v, p);
    }
    PutSourceHits(sx, wide, r, r.sourceAddress, p);
    assert PutSource(r, r.sourceAddress) == r;
  }

  predicate HitsButDestination(sx: Syntax, wide: bool, r: Rule, p: Packet) {
    FamilyHits(r.scope.family, p.v6) && AddressesHit(sx, wide, r.sourceAddress, p.v6, p.source) && Rest(sx, r, p)
  }

  lemma PutDestinationHits(sx: Syntax, wide: bool, r: Rule, v: string, p: Packet)
    ensures Hits(sx, wide, PutDestination(r, v), p)
            <==> HitsButDestination(sx, wide, r, p) && AddressesHit(sx, wide, v, p.v6, p.destination)
  {
  }

  lemma DestinationSays(sx: Syntax, wide: bool, r: Rule, p: Packet)
    ensures SaysSame(r, SplitValues(r.destinationAddress), PutDestination, HitsOf(sx, wide, p))
  {
    AddressesSplit(sx, wide, r.destinationAddress, p.v6, p.destination);
    var hits := HitsOf(sx, wide, p);
    forall v
      ensures hits(PutDestination(r, v)) <==> HitsButDestination(sx, wide, r, p) && AddressesHit(sx, wide, v, p.v6, p.destination)
    {
      PutDestinationHits(sx, wide, r, v, p);
    }
    PutDestinationHits(sx, wide, r, r.destinationAddress, p);
    assert PutDestination(r, r.destinationAddress) == r;
  }

  predicate HitsButSourcePort(sx: Syntax, wide: bool, r: Rule, p: Packet) {
    && FamilyHits(r.scope.family, p.v6) && BothAddresses(sx, wide, r, p)
    && ProtocolsHit(r.protocol, p.protocol) && PortsHit(sx, r.destinationPort, p.protocol, p.destinationPort)
    && IfaceHits(r.iface, p.iface) && StatesHit(r.states, p.state)
  }

  lemma PutSourcePortHits(sx: Syntax, wide: bool, r: Rule, v: string, p: Packet)
    ensures Hits(sx, wide, PutSourcePort(r, v), p)
            <==> HitsButSourcePort(sx, wide, r, p) && PortsHit(sx, v, p.protocol, p.sourcePort)
  {
  }

  predicate HitsButDestinationPort(sx: Syntax, wide: bool, r: Rule, p: Packet) {
    && FamilyHits(r.scope.family, p.v6) && BothAddresses(sx, wide, r, p)
    && ProtocolsHit(r.protocol, p.protocol) && PortsHit(sx, r.sourcePort, p.protocol, p.sourcePort)
    && IfaceHits(r.iface, p.iface) && StatesHit(r.states, p.state)
  }

  lemma PutDestinationPortHits(sx: Syntax, wide: bool, r: Rule, v: string, p: Packet)
    ensures Hits(sx, wide, PutDestinationPort(r, v), p)
            <==> HitsButDestinationPort(sx, wide, r, p) && PortsHit(sx, v, p.protocol, p.destinationPort)
  {
  }

  lemma SourcePortSays(sx: Syntax, wide: bool, r: Rule, p: Packet)
    ensures SaysSame(r, SplitValues(r.sourcePort), PutSourcePort, HitsOf(sx, wide, p))
  {
    PortsSplit(sx, r.sourcePort, p.protocol, p.sourcePort);
    var hits := HitsOf(sx, wide, p);
    forall v
      ensures hits(PutSourcePort(r, v)) <==> HitsButSourcePort(sx, wide, r, p) && PortsHit(sx, v, p.protocol, p.sourcePort)
    {
      PutSourcePortHits(sx, wide, r, v, p);
    }
    PutSourcePortHits(sx, wide, r, r.sourcePort, p);
    assert PutSourcePort(r, r.sourcePort) == r;
  }

  lemma DestinationPortSays(sx: Syntax, wide: bool, r: Rule, p: Packet)
    ensures SaysSame(r, DestinationPorts(r), PutDestinationPort, HitsOf(sx, wide, p))
  {
    var hits := HitsOf(sx, wide, p);
    if NativePortSet(r.scope.provider) {
      assert r.destinationPort in DestinationPorts(r);
    } else {
      PortsSplit(sx, r.destinationPort, p.protocol, p.destinationPort);
      forall v
        ensures hits(PutDestinationPort(r, v))
                <==> HitsButDestinationPort(sx, wide, r, p) && PortsHit(sx, v, p.protocol, p.destinationPort)
      {
        PutDestinationPortHits(sx, wide, r, v, p);
      }
      PutDestinationPortHits(sx, wide, r, r.destinationPort, p);
    }
    assert PutDestinationPort(r, r.destinationPort) == r;
  }

  predicate HitsButProtocol(sx: Syntax, wide: bool, r: Rule, p: Packet) {
    && FamilyHits(r.scope.family, p.v6) && BothAddresses(sx, wide, r, p)
    && PortsHit(sx, r.sourcePort, p.protocol, p.sourcePort)
    && PortsHit(sx, r.destinationPort, p.protocol, p.destinationPort)
    && IfaceHits(r.iface, p.iface) && StatesHit(r.states, p.state)
  }

  lemma PutProtocolHits(sx: Syntax, wide: bool, r: Rule, v: string, p: Packet)
    ensures Hits(sx, wide, PutProtocol(r, v), p) <==> HitsButProtocol(sx, wide, r, p) && ProtocolsHit(v, p.protocol)
  {
  }

  /** A destination port that is set is a condition on TCP and UDP, so the two say what "all" says. */
  lemma PortfulProtocols(sx: Syntax, r: Rule, p: Packet)
    requires LawfulPorts(sx) && NormalProtocol(r.protocol) == Some("all")
    requires sx.port(r.destinationPort, true).Some? && sx.port(r.destinationPort, true).value != ""
    requires PortsHit(sx, r.destinationPort, p.protocol, p.destinationPort)
    ensures ProtocolsHit(r.protocol, p.protocol)
    ensures exists v :: v in ["tcp", "udp"] && ProtocolsHit(v, p.protocol)
  {
    var port := sx.port(r.destinationPort, true).value;
    assert PortNormal(sx, r.destinationPort, true, port);
    assert PortsHit(sx, port, p.protocol, p.destinationPort);
    assert Portful(p.protocol);
    AllHits(r.protocol, p.protocol);
    ProtocolWords("tcp");
    ProtocolWords("udp");
    OneProtocol("tcp", p.protocol);
    OneProtocol("udp", p.protocol);
    assert "tcp" in ["tcp", "udp"] && "udp" in ["tcp", "udp"];
  }

  lemma AllHits(text: string, protocol: Protocol)
    requires NormalProtocol(text) == Some("all")
    ensures ProtocolsHit(text, protocol)
  {
    OneProtocol(text, protocol);
  }

  /** The values together say what the rule says, if they do so of the packets that meet its other conditions. */
  lemma ProtocolsSay(sx: Syntax, wide: bool, r: Rule, p: Packet, values: seq<string>)
    ensures SaysSame(r, values, PutProtocol, HitsOf(sx, wide, p))
            <==> (HitsButProtocol(sx, wide, r, p) ==>
                    (ProtocolsHit(r.protocol, p.protocol) <==> exists v :: v in values && ProtocolsHit(v, p.protocol)))
  {
    var hits := HitsOf(sx, wide, p);
    forall v
      ensures hits(PutProtocol(r, v)) <==> HitsButProtocol(sx, wide, r, p) && ProtocolsHit(v, p.protocol)
    {
      PutProtocolHits(sx, wide, r, v, p);
    }
    PutProtocolHits(sx, wide, r, r.protocol, p);
    assert PutProtocol(r, r.protocol) == r;
  }

  lemma ProtocolSays(sx: Syntax, wide: bool, r: Rule, p: Packet)
    requires LawfulPorts(sx) && Protocols(sx, r).Success?
    ensures SaysSame(r, Protocols(sx, r).value, PutProtocol, HitsOf(sx, wide, p))
  {
    var values := Protocols(sx, r).value;
    ProtocolsSay(sx, wide, r, p, values);
    if values == SplitProtocols(r.protocol) {
      ProtocolsSplit(r.protocol, p.protocol);
    } else if PortsHit(sx, r.destinationPort, p.protocol, p.destinationPort) {
      PortfulProtocols(sx, r, p);
      assert values == ["tcp", "udp"];
    } else {
      assert !HitsButProtocol(sx, wide, r, p);
    }
  }

  /** The rules that differ from r in the lists already split. */
  predicate Stage(k: nat, r: Rule, x: Rule) {
    && (k < 1 ==> x.protocol == r.protocol) && (k < 2 ==> x.sourceAddress == r.sourceAddress)
    && (k < 3 ==> x.destinationAddress == r.destinationAddress) && (k < 4 ==> x.sourcePort == r.sourcePort)
    && (k < 5 ==> x.destinationPort == r.destinationPort)
    && x.scope == r.scope && x.nativeKind == r.nativeKind && x.iface == r.iface && x.states == r.states
    && x.action == r.action && x.priority == r.priority && x.description == r.description
  }

  ghost predicate SomeHits(hits: Rule -> bool, rules: seq<Rule>) {
    exists x :: x in rules && hits(x)
  }

  ghost predicate AtStage(k: nat, r: Rule, rules: seq<Rule>) {
    forall x :: x in rules ==> Stage(k, r, x)
  }

  lemma StageHits(k: nat, r: Rule, rules: seq<Rule>, values: seq<string>, put: (Rule, string) -> Rule, hits: Rule -> bool)
    requires AtStage(k, r, rules) && forall x, v :: Stage(k, r, x) ==> Stage(k + 1, r, put(x, v))
    requires forall x :: x in rules ==> SaysSame(x, values, put, hits)
    ensures AtStage(k + 1, r, Spread(rules, values, put))
    ensures SomeHits(hits, Spread(rules, values, put)) == SomeHits(hits, rules)
  {
    SpreadHits(rules, values, put, hits);
    SpreadAll(rules, values, put, x => Stage(k + 1, r, x));
  }

  lemma SourceStage(sx: Syntax, wide: bool, r: Rule, rules: seq<Rule>, p: Packet)
    requires AtStage(1, r, rules)
    ensures var bySource := Spread(rules, SplitValues(r.sourceAddress), PutSource);
            AtStage(2, r, bySource) && SomeHits(HitsOf(sx, wide, p), bySource) == SomeHits(HitsOf(sx, wide, p), rules)
  {
    var hits := HitsOf(sx, wide, p);
    forall x | x in rules ensures SaysSame(x, SplitValues(r.sourceAddress), PutSource, hits) {
      SourceSays(sx, wide, x, p);
    }
    StageHits(1, r, rules, SplitValues(r.sourceAddress), PutSource, hits);
  }

  lemma DestinationStage(sx: Syntax, wide: bool, r: Rule, rules: seq<Rule>, p: Packet)
    requires AtStage(2, r, rules)
    ensures var byDestination := Spread(rules, SplitValues(r.destinationAddress), PutDestination);
            AtStage(3, r, byDestination)
            && SomeHits(HitsOf(sx, wide, p), byDestination) == SomeHits(HitsOf(sx, wide, p), rules)
  {
    var hits := HitsOf(sx, wide, p);
    forall x | x in rules ensures SaysSame(x, SplitValues(r.destinationAddress), PutDestination, hits) {
      DestinationSays(sx, wide, x, p);
    }
    StageHits(2, r, rules, SplitValues(r.destinationAddress), PutDestination, hits);
  }

  lemma AddressStages(sx: Syntax, wide: bool, r: Rule, rules: seq<Rule>, p: Packet)
    requires AtStage(1, r, rules)
    ensures var byDestination := ByAddress(r, rules);
            AtStage(3, r, byDestination)
            && SomeHits(HitsOf(sx, wide, p), byDestination) == SomeHits(HitsOf(sx, wide, p), rules)
  {
    SourceStage(sx, wide, r, rules, p);
    DestinationStage(sx, wide, r, Spread(rules, SplitValues(r.sourceAddress), PutSource), p);
  }

  lemma PortStages(sx: Syntax, wide: bool, r: Rule, rules: seq<Rule>, p: Packet)
    requires AtStage(3, r, rules)
    ensures var byDestinationPort := ByPort(r, rules);
            AtStage(5, r, byDestinationPort)
            && SomeHits(HitsOf(sx, wide, p), byDestinationPort) == SomeHits(HitsOf(sx, wide, p), rules)
  {
    var hits := HitsOf(sx, wide, p);
    forall x | x in rules ensures SaysSame(x, SplitValues(r.sourcePort), PutSourcePort, hits) {
      SourcePortSays(sx, wide, x, p);
    }
    StageHits(3, r, rules, SplitValues(r.sourcePort), PutSourcePort, hits);
    var bySourcePort := Spread(rules, SplitValues(r.sourcePort), PutSourcePort);
    forall x | x in bySourcePort ensures SaysSame(x, DestinationPorts(r), PutDestinationPort, hits) {
      DestinationPortSays(sx, wide, x, p);
    }
    StageHits(4, r, bySourcePort, DestinationPorts(r), PutDestinationPort, hits);
  }

  /** The combinations together say what the rule says. */
  lemma CombinationsHit(sx: Syntax, wide: bool, r: Rule, p: Packet)
    requires LawfulPorts(sx) && Protocols(sx, r).Success?
    ensures AtStage(5, r, Combinations(r, Protocols(sx, r).value))
    ensures AnyHits(sx, wide, Combinations(r, Protocols(sx, r).value), p) <==> Hits(sx, wide, r, p)
  {
    var protocols := Protocols(sx, r).value;
    ProtocolStage(sx, wide, r, p);
    var byProtocol := Spread([r], protocols, PutProtocol);
    AddressStages(sx, wide, r, byProtocol, p);
    PortStages(sx, wide, r, ByAddress(r, byProtocol), p);
    SomeIsAny(sx, wide, Combinations(r, protocols), p);
  }

  lemma ProtocolStage(sx: Syntax, wide: bool, r: Rule, p: Packet)
    requires LawfulPorts(sx) && Protocols(sx, r).Success?
    ensures var byProtocol := Spread([r], Protocols(sx, r).value, PutProtocol);
            AtStage(1, r, byProtocol) && SomeHits(HitsOf(sx, wide, p), byProtocol) == Hits(sx, wide, r, p)
  {
    var hits := HitsOf(sx, wide, p);
    ProtocolSays(sx, wide, r, p);
    FirstStage(r, Protocols(sx, r).value, hits);
  }

  lemma FirstStage(r: Rule, protocols: seq<string>, hits: Rule -> bool)
    requires SaysSame(r, protocols, PutProtocol, hits)
    ensures AtStage(1, r, Spread([r], protocols, PutProtocol))
    ensures SomeHits(hits, Spread([r], protocols, PutProtocol)) == hits(r)
  {
    StageHits(0, r, [r], protocols, PutProtocol, hits);
    assert r in [r];
  }

  lemma SomeIsAny(sx: Syntax, wide: bool, rules: seq<Rule>, p: Packet)
    ensures SomeHits(HitsOf(sx, wide, p), rules) == AnyHits(sx, wide, rules, p)
  {
    var hits := HitsOf(sx, wide, p);
    assert forall x :: hits(x) == Hits(sx, wide, x, p);
  }

  // ---- The expansion

  const MAX_ATOMIC_EXPANSION := 256

  /** The identity of a rule: its normal form without the description. */
  function RuleKey(sx: Syntax, r: Rule): Result<Rule, FilterError> {
    match NormalizeRule(sx, r)
    case Failure(e) => Failure(e)
    case Success(n) => Success(n.(description := ""))
  }

  /** The normal forms in order, each identity once; the first rule without a normal form ends it. */
  function Atoms(sx: Syntax, rules: seq<Rule>): Result<seq<Rule>, FilterError> {
    if rules == [] then Success([])
    else match Atoms(sx, rules[..|rules| - 1])
         case Failure(e) => Failure(e)
         case Success(kept) => AddAtom(sx, kept, rules[|rules| - 1])
  }

  function AddAtom(sx: Syntax, kept: seq<Rule>, r: Rule): Result<seq<Rule>, FilterError> {
    match NormalizeRule(sx, r)
    case Failure(e) => Failure(e)
    case Success(n) =>
      match RuleKey(sx, n)
      case Failure(e) => Failure(e)
      case Success(key) =>
        Success(if exists k :: k in kept && RuleKey(sx, k) == Success(key) then kept else kept + [n])
  }

  /** Expansion within one scope; an inet rule of UFW is split by family first (FirewallFamilies). */
  function ExpandAtomicRules(sx: Syntax, r: Rule): Result<seq<Rule>, FilterError> {
    match Protocols(sx, r)
    case Failure(e) => Failure(e)
    case Success(protocols) =>
      var combinations := Combinations(r, protocols);
      if |combinations| > MAX_ATOMIC_EXPANSION then Failure(ExpansionLimit) else Atoms(sx, combinations)
  }

  lemma KeyHits(sx: Syntax, wide: bool, n: Rule, k: Rule, p: Packet)
    requires NormalizeRule(sx, n) == Success(n) && NormalizeRule(sx, k) == Success(k)
    requires RuleKey(sx, n) == RuleKey(sx, k)
    ensures Hits(sx, wide, n, p) == Hits(sx, wide, k, p)
  {
    DescriptionIdle(sx, wide, n, p);
    DescriptionIdle(sx, wide, k, p);
  }

  lemma DescriptionIdle(sx: Syntax, wide: bool, n: Rule, p: Packet)
    ensures Hits(sx, wide, n, p) == Hits(sx, wide, n.(description := ""), p)
  {
  }

  /** Normal rules, no two of one identity. */
  ghost predicate DistinctAtoms(sx: Syntax, rules: seq<Rule>) {
    && (forall x :: x in rules ==> NormalizeRule(sx, x) == Success(x))
    && (forall i, j :: 0 <= i < j < |rules| ==> RuleKey(sx, rules[i]) != RuleKey(sx, rules[j]))
  }

  ghost predicate AtomList(sx: Syntax, scope: Scope, rules: seq<Rule>) {
    DistinctAtoms(sx, rules) && forall x :: x in rules ==> x.scope == scope
  }

  lemma AppendAtom(sx: Syntax, kept: seq<Rule>, n: Rule, keys: seq<Result<Rule, FilterError>>)
    requires DistinctAtoms(sx, kept) && NormalizeRule(sx, n) == Success(n)
    requires |keys| == |kept| && forall i :: 0 <= i < |kept| ==> keys[i] == RuleKey(sx, kept[i])
    requires RuleKey(sx, n) !in keys
    ensures DistinctAtoms(sx, kept + [n])
  {
    var after := kept + [n];
    forall x | x in after ensures NormalizeRule(sx, x) == Success(x) {
    }
    forall i, j | 0 <= i < j < |after|
      ensures RuleKey(sx, after[i]) != RuleKey(sx, after[j])
    {
      if j == |kept| {
        assert keys[i] in keys;
      }
    }
  }

  lemma NewKey(sx: Syntax, kept: seq<Rule>, n: Rule, keys: seq<Result<Rule, FilterError>>)
    requires |keys| == |kept| && forall i :: 0 <= i < |kept| ==> keys[i] == RuleKey(sx, kept[i])
    requires RuleKey(sx, n).Success? && !exists k :: k in kept && RuleKey(sx, k) == RuleKey(sx, n)
    ensures forall i :: 0 <= i < |keys| ==> keys[i] != RuleKey(sx, n)
  {
    forall i | 0 <= i < |kept| ensures keys[i] != RuleKey(sx, n) {
      assert kept[i] in kept;
    }
  }

  lemma AddAtomKeepsList(sx: Syntax, kept: seq<Rule>, r: Rule)
    requires Lawful(sx) && DistinctAtoms(sx, kept) && AddAtom(sx, kept, r).Success?
    ensures DistinctAtoms(sx, AddAtom(sx, kept, r).value)
  {
    var n, after := NormalizeRule(sx, r).value, AddAtom(sx, kept, r).value;
    NormalizeIdempotent(sx, r);
    if after != kept {
      var keys := seq(|kept|, i requires 0 <= i < |kept| => RuleKey(sx, kept[i]));
      NewKey(sx, kept, n, keys);
      AppendAtom(sx, kept, n, keys);
    }
  }

  lemma AddAtomAdds(sx: Syntax, kept: seq<Rule>, r: Rule)
    requires AddAtom(sx, kept, r).Success?
    ensures forall x :: x in AddAtom(sx, kept, r).value ==> x in kept || x == NormalizeRule(sx, r).value
    ensures |AddAtom(sx, kept, r).value| <= |kept| + 1
  {
  }

  lemma SameHits(sx: Syntax, wide: bool, kept: seq<Rule>, n: Rule, after: seq<Rule>, p: Packet)
    requires after == kept + [n] || (after == kept && exists k :: k in kept && Hits(sx, wide, k, p) == Hits(sx, wide, n, p))
    ensures AnyHits(sx, wide, after, p) <==> AnyHits(sx, wide, kept, p) || Hits(sx, wide, n, p)
  {
    if after == kept + [n] {
      assert forall x :: x in after <==> x in kept || x == n;
    }
  }

  lemma AddAtomHits(sx: Syntax, wide: bool, kept: seq<Rule>, r: Rule, p: Packet)
    requires Lawful(sx) && DistinctAtoms(sx, kept) && AddAtom(sx, kept, r).Success?
    ensures AnyHits(sx, wide, AddAtom(sx, kept, r).value, p)
            <==> AnyHits(sx, wide, kept, p) || Hits(sx, r.scope.family.Inet?, r, p)
  {
    var n, after := NormalizeRule(sx, r).value, AddAtom(sx, kept, r).value;
    NormalizeKeeps(sx, r, wide, p);
    NormalizeIdempotent(sx, r);
    if k :| k in kept && RuleKey(sx, k) == RuleKey(sx, n) {
      KeyHits(sx, wide, n, k, p);
    }
    SameHits(sx, wide, kept, n, after, p);
  }

  lemma {:induction false} AtomsHit(sx: Syntax, wide: bool, scope: Scope, rules: seq<Rule>, p: Packet)
    requires Lawful(sx) && (forall x :: x in rules ==> x.scope == scope) && Atoms(sx, rules).Success?
    ensures AtomList(sx, scope, Atoms(sx, rules).value) && |Atoms(sx, rules).value| <= |rules|
    ensures AnyHits(sx, wide, Atoms(sx, rules).value, p) <==> AnyHits(sx, scope.family.Inet?, rules, p)
  {
    if rules != [] {
      var before, r := rules[..|rules| - 1], rules[|rules| - 1];
      AtomsHit(sx, wide, scope, before, p);
      AddAtomKeepsList(sx, Atoms(sx, before).value, r);
      AddAtomHits(sx, wide, Atoms(sx, before).value, r, p);
      AddAtomAdds(sx, Atoms(sx, before).value, r);
      NormalFields(sx, r);
      LastMembers(rules);
    }
  }

  /**
   * The expansion of a rule admits exactly the packets the rule admits, in at most 256 normal rules of
   * the rule's scope, no two of one identity. Only in the inet scope is a zero-length prefix read as
   * every address.
   */
  lemma ExpandExact(sx: Syntax, wide: bool, r: Rule, p: Packet)
    requires Lawful(sx) && ExpandAtomicRules(sx, r).Success?
    ensures var rules := ExpandAtomicRules(sx, r).value;
            && (AnyHits(sx, wide, rules, p) <==> Hits(sx, r.scope.family.Inet?, r, p))
            && AtomList(sx, r.scope, rules) && |rules| <= MAX_ATOMIC_EXPANSION
  {
    var combinations := Combinations(r, Protocols(sx, r).value);
    CombinationsHit(sx, r.scope.family.Inet?, r, p);
    AtomsHit(sx, wide, r.scope, combinations, p);
  }

  /** An atom does what the rule does, and keeps the rule's priority and interface. */
  predicate ActsAs(r: Rule, x: Rule) {
    && NormalAction(r.action) == Some(x.action) && NormalPriority(r) == Some(x.priority)
    && x.iface == IfaceName(r.iface) && x.description == TrimSpace(r.description)
  }

  lemma NormalActs(sx: Syntax, r: Rule, x: Rule)
    requires NormalizeRule(sx, x).Success? && Stage(5, r, x)
    ensures ActsAs(r, NormalizeRule(sx, x).value)
  {
    NormalFields(sx, x);
  }

  lemma {:induction false} AtomsAct(sx: Syntax, r: Rule, rules: seq<Rule>)
    requires AtStage(5, r, rules) && Atoms(sx, rules).Success?
    ensures forall x :: x in Atoms(sx, rules).value ==> ActsAs(r, x)
  {
    if rules != [] {
      var before, last := rules[..|rules| - 1], rules[|rules| - 1];
      assert forall x :: x in before ==> x in rules;
      AtomsAct(sx, r, before);
      assert last in rules;
      NormalActs(sx, r, last);
    }
  }

  /** Every rule of an expansion does what the rule does, in its scope. */
  lemma ExpandActs(sx: Syntax, r: Rule)
    requires Lawful(sx) && ExpandAtomicRules(sx, r).Success?
    ensures forall x :: x in ExpandAtomicRules(sx, r).value ==>
              x.scope == r.scope && ActsAs(r, x) && NormalizeRule(sx, x) == Success(x)
  {
    var p := Packet(false, Tcp, 0, 0, 0, 0, "", "");
    CombinationsHit(sx, false, r, p);
    ExpandExact(sx, false, r, p);
    AtomsAct(sx, r, Combinations(r, Protocols(sx, r).value));
  }
}
