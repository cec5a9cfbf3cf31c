/** Expanding an inet rule of UFW, which splits the family as well and passes over what has no normal form. */
module FirewallFamilies {
  import opened Text
  import opened FirewallRules
  import opened FirewallNormal
  import opened FirewallExpansion

  function InFamily(r: Rule, family: Family): Rule {
    r.(scope := r.scope.(family := family))
  }

  predicate OneFamily(family: Family) {
    family.IPv4? || family.IPv6?
  }

  function FamilyCombinations(r: Rule, protocols: seq<string>): seq<Rule> {
    Combinations(InFamily(r, IPv4), protocols) + Combinations(InFamily(r, IPv6), protocols)
  }

  /** The normal forms in order, each identity once, passing over the rules without one. */
  function KnownAtoms(sx: Syntax, rules: seq<Rule>): Result<seq<Rule>, FilterError> {
    if rules == [] then Success([])
    else match KnownAtoms(sx, rules[..|rules| - 1])
         case Failure(e) => Failure(e)
         case Success(kept) =>
           if NormalizeRule(sx, rules[|rules| - 1]).Failure? then Success(kept)
           else AddAtom(sx, kept, rules[|rules| - 1])
  }

  /** The error of the last rule without a normal form. */
  function LastRefusal(sx: Syntax, rules: seq<Rule>): Option<FilterError> {
    if rules == [] then None
    else match NormalizeRule(sx, rules[|rules| - 1])
         case Failure(e) => Some(e)
         case Success(_) => LastRefusal(sx, rules[..|rules| - 1])
  }

  function ExpandFamilies(sx: Syntax, r: Rule): Result<seq<Rule>, FilterError> {
    match Protocols(sx, r)
    case Failure(e) => Failure(e)
    case Success(protocols) =>
      var combinations := FamilyCombinations(r, protocols);
      if |combinations| > MAX_ATOMIC_EXPANSION then Failure(ExpansionLimit)
      else match KnownAtoms(sx, combinations)
           case Failure(e) => Failure(e)
           case Success(rules) =>
             if rules == [] && LastRefusal(sx, combinations).Some? then Failure(LastRefusal(sx, combinations).value)
             else Success(rules)
  }

  predicate SplitsFamily(scope: Scope) {
    scope.provider.Ufw? && scope.family.Inet?
  }

  /** The expansion of any rule. */
  function ExpandRule(sx: Syntax, r: Rule): Result<seq<Rule>, FilterError> {
    if SplitsFamily(r.scope) then ExpandFamilies(sx, r) else ExpandAtomicRules(sx, r)
  }

  // ---- What the atoms admit

  /** The rule has a normal form and admits the packet. */
  ghost predicate Admits(sx: Syntax, x: Rule, p: Packet) {
    NormalizeRule(sx, x).Success? && Hits(sx, x.scope.family.Inet?, x, p)
  }

  ghost predicate SomeAdmits(sx: Syntax, rules: seq<Rule>, p: Packet) {
    exists x :: x in rules && Admits(sx, x, p)
  }

  lemma SomeAdmitsLast(sx: Syntax, rules: seq<Rule>, p: Packet)
    requires rules != []
    ensures SomeAdmits(sx, rules, p)
            <==> SomeAdmits(sx, rules[..|rules| - 1], p) || Admits(sx, rules[|rules| - 1], p)
  {
    LastMembers(rules);
  }

  lemma {:induction false} KnownAtomsHit(sx: Syntax, wide: bool, rules: seq<Rule>, p: Packet)
    requires Lawful(sx) && KnownAtoms(sx, rules).Success?
    ensures DistinctAtoms(sx, KnownAtoms(sx, rules).value) && |KnownAtoms(sx, rules).value| <= |rules|
    ensures AnyHits(sx, wide, KnownAtoms(sx, rules).value, p) <==> SomeAdmits(sx, rules, p)
  {
    if rules != [] {
      var before, r := rules[..|rules| - 1], rules[|rules| - 1];
      KnownAtomsHit(sx, wide, before, p);
      SomeAdmitsLast(sx, rules, p);
      if NormalizeRule(sx, r).Success? {
        var kept := KnownAtoms(sx, before).value;
        AddAtomKeepsList(sx, kept, r);
        AddAtomHits(sx, wide, kept, r, p);
        AddAtomAdds(sx, kept, r);
      }
    }
  }

  /** Every atom is the normal form of one of the rules. */
  lemma {:induction false} KnownAtomOf(sx: Syntax, rules: seq<Rule>, n: Rule) returns (x: Rule)
    requires KnownAtoms(sx, rules).Success? && n in KnownAtoms(sx, rules).value
    ensures x in rules && NormalizeRule(sx, x) == Success(n)
  {
    var before, r := rules[..|rules| - 1], rules[|rules| - 1];
    if n in KnownAtoms(sx, before).value {
      x := KnownAtomOf(sx, before, n);
      LastMembers(rules);
    } else {
      AddAtomAdds(sx, KnownAtoms(sx, before).value, r);
      x := r;
    }
  }

  lemma {:induction false} NoRefusal(sx: Syntax, rules: seq<Rule>, x: Rule)
    requires LastRefusal(sx, rules).None? && x in rules
    ensures NormalizeRule(sx, x).Success?
  {
    LastMembers(rules);
    if x != rules[|rules| - 1] {
      NoRefusal(sx, rules[..|rules| - 1], x);
    }
  }

  // ---- The members of the combinations

  lemma RowHolds<A>(r: Rule, values: seq<A>, put: (Rule, A) -> Rule, v: A)
    requires v in values
    ensures put(r, v) in Row(r, values, put)
  {
    var i :| 0 <= i < |values| && values[i] == v;
    assert Row(r, values, put)[i] == put(r, v);
  }

  lemma {:induction false} SpreadHolds<A>(rules: seq<Rule>, values: seq<A>, put: (Rule, A) -> Rule, r: Rule, v: A)
    requires r in rules && v in values
    ensures put(r, v) in Spread(rules, values, put)
  {
    LastMembers(rules);
    if r == rules[|rules| - 1] {
      RowHolds(r, values, put, v);
    } else {
      SpreadHolds(rules[..|rules| - 1], values, put, r, v);
    }
  }

  lemma {:induction false} SpreadMember<A>(rules: seq<Rule>, values: seq<A>, put: (Rule, A) -> Rule, x: Rule)
    returns (r: Rule, v: A)
    requires x in Spread(rules, values, put)
    ensures r in rules && v in values && x == put(r, v)
  {
    var before, last := rules[..|rules| - 1], rules[|rules| - 1];
    LastMembers(rules);
    if x in Spread(before, values, put) {
      r, v := SpreadMember(before, values, put, x);
    } else {
      var i :| 0 <= i < |values| && Row(last, values, put)[i] == x;
      r, v := last, values[i];
    }
  }

  /** One value of every list. */
  datatype Choice = Choice(
    protocol: string, source: string, destination: string, sourcePort: string, destinationPort: string)

  predicate Offered(r: Rule, protocols: seq<string>, c: Choice) {
    && c.protocol in protocols && c.source in SplitValues(r.sourceAddress)
    && c.destination in SplitValues(r.destinationAddress) && c.sourcePort in SplitValues(r.sourcePort)
    && c.destinationPort in DestinationPorts(r)
  }

  function Choose(r: Rule, c: Choice): Rule {
    r.(protocol := c.protocol, sourceAddress := c.source, destinationAddress := c.destination,
       sourcePort := c.sourcePort, destinationPort := c.destinationPort)
  }

  lemma AddressesCombine(r: Rule, rules: seq<Rule>, x: Rule, source: string, destination: string)
    requires x in rules && source in SplitValues(r.sourceAddress) && destination in SplitValues(r.destinationAddress)
    ensures PutDestination(PutSource(x, source), destination) in ByAddress(r, rules)
  {
    var bySource := Spread(rules, SplitValues(r.sourceAddress), PutSource);
    SpreadHolds(rules, SplitValues(r.sourceAddress), PutSource, x, source);
    SpreadHolds(bySource, SplitValues(r.destinationAddress), PutDestination, PutSource(x, source), destination);
  }

  lemma PortsCombine(r: Rule, rules: seq<Rule>, x: Rule, source: string, destination: string)
    requires x in rules && source in SplitValues(r.sourcePort) && destination in DestinationPorts(r)
    ensures PutDestinationPort(PutSourcePort(x, source), destination) in ByPort(r, rules)
  {
    var bySource := Spread(rules, SplitValues(r.sourcePort), PutSourcePort);
    SpreadHolds(rules, SplitValues(r.sourcePort), PutSourcePort, x, source);
    SpreadHolds(bySource, DestinationPorts(r), PutDestinationPort, PutSourcePort(x, source), destination);
  }

  lemma ChoiceCombines(r: Rule, protocols: seq<string>, c: Choice)
    requires Offered(r, protocols, c)
    ensures Choose(r, c) in Combinations(r, protocols)
  {
    var byProtocol, x := Spread([r], protocols, PutProtocol), PutProtocol(r, c.protocol);
    SpreadHolds([r], protocols, PutProtocol, r, c.protocol);
    AddressesCombine(r, byProtocol, x, c.source, c.destination);
    PortsCombine(r, ByAddress(r, byProtocol), PutDestination(PutSource(x, c.source), c.destination), c.sourcePort,
                 c.destinationPort);
  }

  lemma AddressesChosen(r: Rule, rules: seq<Rule>, y: Rule) returns (x: Rule, source: string, destination: string)
    requires y in ByAddress(r, rules)
    ensures x in rules && source in SplitValues(r.sourceAddress) && destination in SplitValues(r.destinationAddress)
    ensures y == PutDestination(PutSource(x, source), destination)
  {
    var bySource, one := Spread(rules, SplitValues(r.sourceAddress), PutSource), y;
    one, destination := SpreadMember(bySource, SplitValues(r.destinationAddress), PutDestination, y);
    x, source := SpreadMember(rules, SplitValues(r.sourceAddress), PutSource, one);
  }

  lemma PortsChosen(r: Rule, rules: seq<Rule>, y: Rule) returns (x: Rule, source: string, destination: string)
    requires y in ByPort(r, rules)
    ensures x in rules && source in SplitValues(r.sourcePort) && destination in DestinationPorts(r)
    ensures y == PutDestinationPort(PutSourcePort(x, source), destination)
  {
    var bySource, one := Spread(rules, SplitValues(r.sourcePort), PutSourcePort), y;
    one, destination := SpreadMember(bySource, DestinationPorts(r), PutDestinationPort, y);
    x, source := SpreadMember(rules, SplitValues(r.sourcePort), PutSourcePort, one);
  }

  lemma CombinationChosen(r: Rule, protocols: seq<string>, y: Rule) returns (c: Choice)
    requires y in Combinations(r, protocols)
    ensures Offered(r, protocols, c) && y == Choose(r, c)
  {
    var byProtocol := Spread([r], protocols, PutProtocol);
    var byAddress, sourcePort, destinationPort := PortsChosen(r, ByAddress(r, byProtocol), y);
    var one, source, destination := AddressesChosen(r, byProtocol, byAddress);
    var same, protocol := SpreadMember([r], protocols, PutProtocol, one);
    c := Choice(protocol, source, destination, sourcePort, destinationPort);
  }

  // ---- What is passed over admits nothing

  /** A port text that the normaliser refuses names no port. */
  ghost predicate RefusedPortsIdle(sx: Syntax) {
    forall text, n: nat :: ',' !in text && sx.port(text, false).None? ==> !PortInRange(sx, text, n)
  }

  lemma OnePort(sx: Syntax, text: string, protocol: Protocol, port: nat)
    requires ',' !in text
    ensures PortsHit(sx, text, protocol, port) <==> PortHits(sx, text, protocol, port)
  {
    OneValue(text);
    TrimTwice(text);
    assert TrimSpace(text) in SplitValues(text);
  }

  lemma HitPortReads(sx: Syntax, text: string, protocol: Protocol, port: nat)
    requires LawfulPorts(sx) && RefusedPortsIdle(sx) && ',' !in text && PortsHit(sx, text, protocol, port)
    ensures sx.port(text, false).Some?
  {
    OnePort(sx, text, protocol, port);
  }

  lemma HitAddressReads(sx: Syntax, text: string, family: Family, v6: bool, address: nat)
    requires ',' !in text && FamilyHits(family, v6) && AddressesHit(sx, false, text, v6, address)
    ensures NormalAddress(sx, text, family).Some?
  {
    OneAddress(sx, false, text, v6, address);
  }

  lemma NoPortHits(sx: Syntax, text: string, protocol: Protocol, port: nat)
    requires LawfulPorts(sx) && ',' !in text && sx.port(text, false) == Some("")
    ensures PortsHit(sx, text, protocol, port)
  {
    OnePort(sx, text, protocol, port);
    assert PortNormal(sx, text, false, "");
  }

  lemma KnownWord(v: string)
    requires NormalProtocol(v).Some?
    ensures !TwoProtocols(Canon(v)) && ',' !in Canon(v)
  {
    if ProtocolWord(Canon(v)) {
      ProtocolWords(Canon(v));
    }
  }

  /** UFW knows one protocol in a rule, or TCP and UDP for "all". */
  lemma UfwProtocols(sx: Syntax, r: Rule)
    requires r.scope.provider.Ufw? && Protocols(sx, r).Success?
    ensures Protocols(sx, r).value == ["tcp", "udp"] || Protocols(sx, r).value == [Canon(r.protocol)]
  {
    KnownWord(r.protocol);
    OneProtocolSplit(r.protocol);
  }

  lemma OneProtocolSplit(text: string)
    requires !TwoProtocols(Canon(text)) && ',' !in Canon(text)
    ensures SplitProtocols(text) == [Canon(text)]
  {
    CanonTwice(text);
    OneValue(Canon(text));
  }

  lemma OtherProtocol(sx: Syntax, r: Rule, v: string, w: string)
    requires r.scope.provider.Ufw? && Protocols(sx, r).Success? && v != "tcp" && v != "udp"
    requires v in Protocols(sx, r).value && w in Protocols(sx, r).value
    ensures v == w == Canon(v)
  {
    UfwProtocols(sx, r);
    CanonTwice(r.protocol);
  }

  lemma OfferedPlain(r: Rule, protocols: seq<string>, c: Choice)
    requires Offered(r, protocols, c)
    ensures ',' !in c.source && ',' !in c.destination && ',' !in c.sourcePort
  {
    SplitValuesPlain(r.sourceAddress, c.source);
    SplitValuesPlain(r.destinationAddress, c.destination);
    SplitValuesPlain(r.sourcePort, c.sourcePort);
  }

  /** The texts of z that it does not share with w, in one of the two families. */
  predicate TextsRead(sx: Syntax, z: Rule, protocol: string, sourcePort: string) {
    && NormalProtocol(z.protocol) == Some(protocol) && !TwoProtocols(Canon(z.protocol)) && ',' !in Canon(z.protocol)
    && NormalAddress(sx, z.sourceAddress, z.scope.family).Some? && ',' !in z.sourceAddress
    && NormalAddress(sx, z.destinationAddress, z.scope.family).Some? && ',' !in z.destinationAddress
    && sx.port(z.sourcePort, false) == Some(sourcePort) && ',' !in z.sourcePort
  }

  predicate SharesRest(z: Rule, w: Rule) {
    && z.scope == w.scope.(family := z.scope.family) && z.scope.provider.Ufw?
    && OneFamily(z.scope.family) && OneFamily(w.scope.family) && z.nativeKind == w.nativeKind
    && z.destinationPort == w.destinationPort && z.iface == w.iface && z.states == w.states && z.action == w.action
    && z.priority == w.priority && z.description == w.description
  }

  lemma SharedNormal(sx: Syntax, z: Rule, w: Rule, n: Rule, protocol: string, sourcePort: string)
    requires SharesRest(z, w) && NormalOf(sx, w, n) && TextsRead(sx, z, protocol, sourcePort)
    requires PortsFit(Ufw, protocol, sourcePort, n.destinationPort)
    ensures NormalizeRule(sx, z).Success?
  {
  }

  lemma SharedHits(sx: Syntax, r: Rule, x: Choice, sourcePort: string, p: Packet)
    requires Hits(sx, false, Choose(r, x), p) && PortsHit(sx, sourcePort, p.protocol, p.sourcePort)
    ensures Hits(sx, false, Choose(r, x.(sourcePort := sourcePort)), p)
  {
  }

  lemma HitAddressesRead(sx: Syntax, r: Rule, x: Choice, p: Packet)
    requires Hits(sx, false, Choose(r, x), p) && ',' !in x.source && ',' !in x.destination
    ensures NormalAddress(sx, x.source, r.scope.family).Some? && NormalAddress(sx, x.destination, r.scope.family).Some?
  {
    HitAddressReads(sx, x.source, r.scope.family, p.v6, p.source);
    HitAddressReads(sx, x.destination, r.scope.family, p.v6, p.destination);
  }

  /** A choice for TCP or UDP that admits a packet has a normal form if any choice has. */
  lemma PortfulNormal(sx: Syntax, r: Rule, s: Rule, protocols: seq<string>, x: Choice, y: Choice, p: Packet)
    requires Lawful(sx) && RefusedPortsIdle(sx) && (x.protocol == "tcp" || x.protocol == "udp")
    requires Offered(r, protocols, x) && NormalizeRule(sx, Choose(s, y)).Success?
    requires SharesRest(Choose(r, x), Choose(s, y)) && Hits(sx, false, Choose(r, x), p)
    ensures NormalizeRule(sx, Choose(r, x)).Success?
  {
    OfferedPlain(r, protocols, x);
    HitAddressesRead(sx, r, x, p);
    HitPortReads(sx, x.sourcePort, p.protocol, p.sourcePort);
    ProtocolWords(x.protocol);
    NormalFields(sx, Choose(s, y));
    SharedNormal(sx, Choose(r, x), Choose(s, y), NormalizeRule(sx, Choose(s, y)).value, x.protocol,
                 sx.port(x.sourcePort, false).value);
  }

  lemma NoSourcePort(sx: Syntax, w: Rule, n: Rule)
    requires NormalOf(sx, w, n) && Canon(w.protocol) == w.protocol && w.protocol != "tcp" && w.protocol != "udp"
    ensures n.sourcePort == "" && sx.port(w.sourcePort, false) == Some("")
  {
  }

  lemma PortlessTexts(sx: Syntax, r: Rule, x: Choice, w: Rule, n: Rule, p: Packet)
    requires Hits(sx, false, Choose(r, x), p) && ',' !in x.source && ',' !in x.destination && ',' !in w.sourcePort
    requires NormalOf(sx, w, n) && x.protocol == w.protocol && sx.port(w.sourcePort, false) == Some("")
    ensures TextsRead(sx, Choose(r, x.(sourcePort := w.sourcePort)), n.protocol, "")
  {
    HitAddressesRead(sx, r, x, p);
  }

  /** Any other protocol takes no source port, so the source port of y is none and stands in for that of x. */
  lemma PortlessNormal(sx: Syntax, r: Rule, s: Rule, protocols: seq<string>, x: Choice, y: Choice, p: Packet)
    requires Lawful(sx) && x.protocol == y.protocol == Canon(y.protocol) && y.protocol != "tcp" && y.protocol != "udp"
    requires Offered(r, protocols, x) && Offered(s, protocols, y) && NormalizeRule(sx, Choose(s, y)).Success?
    requires SharesRest(Choose(r, x), Choose(s, y)) && Hits(sx, false, Choose(r, x), p)
    ensures var z := Choose(r, x.(sourcePort := y.sourcePort));
            NormalizeRule(sx, z).Success? && Hits(sx, false, z, p)
  {
    var w := Choose(s, y);
    var n := NormalizeRule(sx, w).value;
    OfferedPlain(r, protocols, x);
    OfferedPlain(s, protocols, y);
    NormalFields(sx, w);
    NoSourcePort(sx, w, n);
    PortlessTexts(sx, r, x, w, n, p);
    NoPortHits(sx, y.sourcePort, p.protocol, p.sourcePort);
    SharedHits(sx, r, x, y.sourcePort, p);
    SharedNormal(sx, Choose(r, x.(sourcePort := y.sourcePort)), w, n, n.protocol, "");
  }

  lemma ChoicesShare(r: Rule, s: Rule, protocols: seq<string>, x: Choice, y: Choice)
    requires r.scope.provider.Ufw? && OneFamily(r.scope.family) && OneFamily(s.scope.family)
    requires s == InFamily(r, s.scope.family) && Offered(r, protocols, x) && Offered(s, protocols, y)
    ensures SharesRest(Choose(r, x), Choose(s, y))
  {
  }

  /** If some combination has a normal form, a combination that admits the packet has one, in the packet's family. */
  lemma KnownCombination(sx: Syntax, r: Rule, s: Rule, protocols: seq<string>, x: Rule, y: Rule, p: Packet)
    returns (z: Rule)
    requires Lawful(sx) && RefusedPortsIdle(sx) && r.scope.provider.Ufw? && Protocols(sx, r) == Success(protocols)
    requires OneFamily(r.scope.family) && OneFamily(s.scope.family) && s == InFamily(r, s.scope.family)
    requires x in Combinations(r, protocols) && Hits(sx, false, x, p)
    requires y in Combinations(s, protocols) && NormalizeRule(sx, y).Success?
    ensures z in Combinations(r, protocols) && NormalizeRule(sx, z).Success? && Hits(sx, false, z, p)
  {
    var b := CombinationChosen(r, protocols, x);
    var c := CombinationChosen(s, protocols, y);
    ChoicesShare(r, s, protocols, b, c);
    if b.protocol == "tcp" || b.protocol == "udp" {
      PortfulNormal(sx, r, s, protocols, b, c, p);
      z := x;
    } else {
      OtherProtocol(sx, r, b.protocol, c.protocol);
      PortlessNormal(sx, r, s, protocols, b, c, p);
      z := Choose(r, b.(sourcePort := c.sourcePort));
      ChoiceCombines(r, protocols, b.(sourcePort := c.sourcePort));
    }
  }

  // ---- The expansion over both families

  lemma FamilyMembers(r: Rule, protocols: seq<string>, x: Rule)
    ensures x in FamilyCombinations(r, protocols)
            <==> x in Combinations(InFamily(r, IPv4), protocols) || x in Combinations(InFamily(r, IPv6), protocols)
  {
  }

  function FamilyOf(p: Packet): Family {
    if p.v6 then IPv6 else IPv4
  }

  lemma PacketFamily(sx: Syntax, r: Rule, family: Family, p: Packet)
    requires r.scope.family.Inet? && OneFamily(family)
    ensures Hits(sx, false, InFamily(r, family), p) <==> family == FamilyOf(p) && Hits(sx, false, r, p)
  {
  }

  lemma SameProtocols(sx: Syntax, r: Rule, family: Family)
    ensures Protocols(sx, InFamily(r, family)) == Protocols(sx, r)
  {
  }

  lemma InFamilyHits(sx: Syntax, r: Rule, protocols: seq<string>, family: Family, p: Packet)
    requires LawfulPorts(sx) && r.scope.family.Inet? && OneFamily(family) && Protocols(sx, r) == Success(protocols)
    ensures AtStage(5, InFamily(r, family), Combinations(InFamily(r, family), protocols))
    ensures AnyHits(sx, false, Combinations(InFamily(r, family), protocols), p)
            <==> family == FamilyOf(p) && Hits(sx, false, r, p)
  {
    SameProtocols(sx, r, family);
    CombinationsHit(sx, false, InFamily(r, family), p);
    PacketFamily(sx, r, family, p);
  }

  lemma StandsIn(sx: Syntax, r: Rule, protocols: seq<string>, family: Family, z: Rule)
    requires LawfulPorts(sx) && r.scope.family.Inet? && OneFamily(family) && Protocols(sx, r) == Success(protocols)
    requires z in Combinations(InFamily(r, family), protocols)
    ensures z.scope == r.scope.(family := family) && Stage(5, InFamily(r, family), z)
  {
    InFamilyHits(sx, r, protocols, family, Packet(false, Tcp, 0, 0, 0, 0, "", ""));
  }

  /** A combination of either family stands in that family. */
  lemma FamilyMember(sx: Syntax, r: Rule, protocols: seq<string>, x: Rule) returns (family: Family)
    requires LawfulPorts(sx) && r.scope.family.Inet? && Protocols(sx, r) == Success(protocols)
    requires x in FamilyCombinations(r, protocols)
    ensures OneFamily(family) && x in Combinations(InFamily(r, family), protocols) && Stage(5, InFamily(r, family), x)
  {
    FamilyMembers(r, protocols, x);
    family := if x in Combinations(InFamily(r, IPv4), protocols) then IPv4 else IPv6;
    StandsIn(sx, r, protocols, family, x);
  }

  lemma HitCombination(sx: Syntax, r: Rule, protocols: seq<string>, p: Packet) returns (x: Rule)
    requires LawfulPorts(sx) && r.scope.family.Inet? && Protocols(sx, r) == Success(protocols) && Hits(sx, false, r, p)
    ensures x in Combinations(InFamily(r, FamilyOf(p)), protocols) && x in FamilyCombinations(r, protocols)
    ensures Hits(sx, false, x, p)
  {
    InFamilyHits(sx, r, protocols, FamilyOf(p), p);
    x :| x in Combinations(InFamily(r, FamilyOf(p)), protocols) && Hits(sx, false, x, p);
    FamilyMembers(r, protocols, x);
  }

  /** Nothing that admits the packet is lost, once anything has a normal form. */
  lemma SomeKnownAdmits(sx: Syntax, r: Rule, protocols: seq<string>, y: Rule, p: Packet)
    requires Lawful(sx) && RefusedPortsIdle(sx) && SplitsFamily(r.scope) && Protocols(sx, r) == Success(protocols)
    requires y in FamilyCombinations(r, protocols) && NormalizeRule(sx, y).Success? && Hits(sx, false, r, p)
    ensures SomeAdmits(sx, FamilyCombinations(r, protocols), p)
  {
    var family := FamilyOf(p);
    var x := HitCombination(sx, r, protocols, p);
    var other := FamilyMember(sx, r, protocols, y);
    SameProtocols(sx, r, family);
    var z := KnownCombination(sx, InFamily(r, family), InFamily(r, other), protocols, x, y, p);
    FamilyMembers(r, protocols, z);
    StandsIn(sx, r, protocols, family, z);
    assert Admits(sx, z, p);
  }

  lemma KnownAdmitsOnly(sx: Syntax, r: Rule, protocols: seq<string>, p: Packet)
    requires LawfulPorts(sx) && r.scope.family.Inet? && Protocols(sx, r) == Success(protocols)
    requires SomeAdmits(sx, FamilyCombinations(r, protocols), p)
    ensures Hits(sx, false, r, p)
  {
    var x :| x in FamilyCombinations(r, protocols) && Admits(sx, x, p);
    var family := FamilyMember(sx, r, protocols, x);
    InFamilyHits(sx, r, protocols, family, p);
    AdmitsNarrow(sx, InFamily(r, family), x, p);
  }

  lemma AdmitsNarrow(sx: Syntax, r: Rule, x: Rule, p: Packet)
    requires Admits(sx, x, p) && Stage(5, r, x) && OneFamily(r.scope.family)
    ensures Hits(sx, false, x, p)
  {
  }

  lemma KnownOrAll(sx: Syntax, r: Rule, protocols: seq<string>, rules: seq<Rule>, p: Packet)
    requires Lawful(sx) && RefusedPortsIdle(sx) && SplitsFamily(r.scope) && Protocols(sx, r) == Success(protocols)
    requires KnownAtoms(sx, FamilyCombinations(r, protocols)) == Success(rules)
    requires rules == [] ==> LastRefusal(sx, FamilyCombinations(r, protocols)).None?
    requires Hits(sx, false, r, p)
    ensures SomeAdmits(sx, FamilyCombinations(r, protocols), p)
  {
    var y: Rule;
    if rules == [] {
      y := HitCombination(sx, r, protocols, p);
      NoRefusal(sx, FamilyCombinations(r, protocols), y);
    } else {
      y := KnownAtomOf(sx, FamilyCombinations(r, protocols), rules[0]);
    }
    SomeKnownAdmits(sx, r, protocols, y, p);
  }

  /** Normal rules in the two families of a scope that act as r does. */
  ghost predicate FamilyAtoms(r: Rule, rules: seq<Rule>) {
    forall x :: x in rules ==> FamilyAtom(r, x)
  }

  predicate FamilyAtom(r: Rule, x: Rule) {
    OneFamily(x.scope.family) && x.scope == r.scope.(family := x.scope.family) && ActsAs(r, x)
  }

  lemma ActsInFamily(r: Rule, family: Family, x: Rule)
    ensures ActsAs(InFamily(r, family), x) <==> ActsAs(r, x)
  {
  }

  lemma FamilyAtomActs(sx: Syntax, r: Rule, protocols: seq<string>, x: Rule)
    requires LawfulPorts(sx) && r.scope.family.Inet? && Protocols(sx, r) == Success(protocols)
    requires x in FamilyCombinations(r, protocols) && NormalizeRule(sx, x).Success?
    ensures FamilyAtom(r, NormalizeRule(sx, x).value)
  {
    var family := FamilyMember(sx, r, protocols, x);
    NormalActs(sx, InFamily(r, family), x);
    ActsInFamily(r, family, NormalizeRule(sx, x).value);
    NormalFields(sx, x);
  }

  lemma FamilyAtomsAct(sx: Syntax, r: Rule, protocols: seq<string>, rules: seq<Rule>)
    requires LawfulPorts(sx) && r.scope.family.Inet? && Protocols(sx, r) == Success(protocols)
    requires KnownAtoms(sx, FamilyCombinations(r, protocols)) == Success(rules)
    ensures FamilyAtoms(r, rules)
  {
    forall n | n in rules ensures FamilyAtom(r, n) {
      var x := KnownAtomOf(sx, FamilyCombinations(r, protocols), n);
      FamilyAtomActs(sx, r, protocols, x);
    }
  }

  /**
   * The expansion of an inet rule of UFW admits exactly the packets the rule admits as it stands, whatever it
   * passed over, in at most 256 normal rules of the two families that act as it does, no two of one identity.
   */
  lemma ExpandFamiliesExact(sx: Syntax, wide: bool, r: Rule, p: Packet)
    requires Lawful(sx) && RefusedPortsIdle(sx) && SplitsFamily(r.scope) && ExpandFamilies(sx, r).Success?
    ensures var rules := ExpandFamilies(sx, r).value;
            && (AnyHits(sx, wide, rules, p) <==> Hits(sx, false, r, p))
            && DistinctAtoms(sx, rules) && |rules| <= MAX_ATOMIC_EXPANSION && FamilyAtoms(r, rules)
  {
    var protocols, rules := Protocols(sx, r).value, ExpandFamilies(sx, r).value;
    var combinations := FamilyCombinations(r, protocols);
    KnownAtomsHit(sx, wide, combinations, p);
    FamilyAtomsAct(sx, r, protocols, rules);
    if Hits(sx, false, r, p) {
      KnownOrAll(sx, r, protocols, rules, p);
    } else if SomeAdmits(sx, combinations, p) {
      KnownAdmitsOnly(sx, r, protocols, p);
    }
  }
}
