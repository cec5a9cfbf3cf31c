/** Policies that were stored from a rule keep their meaning on every provider; hand-made texts may not. */
module FirewallStored {
  import opened Text
  import opened FirewallRules
  import opened FirewallNormal
  import opened FirewallExpansion
  import opened FirewallPolicies
  import opened FirewallPolicyProofs

  // ---- What is stored

  predicate PlainName(name: string) {
    ',' !in name && name != ""
  }

  lemma StateWords(name: string, provider: Provider)
    requires KnownState(name, provider)
    ensures PlainName(name)
  {
  }

  lemma PlainNamesJoin(names: seq<string>)
    requires names != [] && forall s :: s in names ==> PlainName(s)
    ensures Join(names, ',') != "" && Split(Join(names, ','), ',') == names
  {
    assert PlainName(names[0]);
    SplitJoin(names, ',');
  }

  lemma NormalStatesPlain(sx: Syntax, states: seq<string>, provider: Provider, name: string)
    requires LawfulSort(sx) && NormalStates(sx, states, provider).Some?
    requires name in NormalStates(sx, states, provider).value
    ensures PlainName(name)
  {
    assert name in StateNames(states);
    StateWords(name, provider);
  }

  lemma StatesRoundTrip(sx: Syntax, states: seq<string>, provider: Provider, policy: Policy)
    requires LawfulSort(sx) && NormalStates(sx, states, provider).Some?
    requires policy.connectionStates == Join(NormalStates(sx, states, provider).value, ',')
    ensures PolicyStates(policy) == NormalStates(sx, states, provider).value
  {
    var names := NormalStates(sx, states, provider).value;
    if names != [] {
      forall s | s in names ensures PlainName(s) {
        NormalStatesPlain(sx, states, provider, s);
      }
      PlainNamesJoin(names);
    }
  }

  /** A policy as FromDomain writes it from the normal form n. */
  ghost predicate StoredAs(n: Rule, policy: Policy) {
    && policy.family == n.scope.family && policy.protocol == n.protocol
    && policy.sourceAddress == n.sourceAddress && policy.destinationAddress == n.destinationAddress
    && policy.sourcePort == n.sourcePort && policy.destinationPort == n.destinationPort
    && policy.iface == n.iface && PolicyStates(policy) == n.states && policy.action == n.action
  }

  lemma Stores(sx: Syntax, rule: Rule)
    requires LawfulSort(sx) && FromDomain(sx, rule).Success?
    ensures NormalizeRule(sx, rule).Success? && StoredAs(NormalizeRule(sx, rule).value, FromDomain(sx, rule).value)
  {
    NormalFields(sx, rule);
    StatesRoundTrip(sx, rule.states, rule.scope.provider, FromDomain(sx, rule).value);
  }

  /** Storing a rule keeps the packets it speaks of. */
  lemma StoredHits(sx: Syntax, rule: Rule, p: Packet)
    requires Lawful(sx) && FromDomain(sx, rule).Success?
    ensures PolicyHits(sx, FromDomain(sx, rule).value, p) <==> Hits(sx, rule.scope.family.Inet?, rule, p)
  {
    Stores(sx, rule);
    NormalizeKeeps(sx, rule, false, p);
    SameTexts(sx, NormalizeRule(sx, rule).value, FromDomain(sx, rule).value, p);
  }

  lemma SameTexts(sx: Syntax, n: Rule, policy: Policy, p: Packet)
    requires StoredAs(n, policy)
    ensures PolicyHits(sx, policy, p) <==> Hits(sx, false, n, p)
  {
    assert Rest(sx, AsRule(policy), p) == Rest(sx, n, p);
  }

  // ---- A stored address tells its family

  /** Blank, or the print of a block that is not the whole family. */
  ghost predicate PlainAddress(sx: Syntax, text: string) {
    text == "" || exists net :: text == sx.show(net) && net.bits != 0 && BlockPrints(sx, net)
  }

  lemma StoredAddress(sx: Syntax, text: string, family: Family)
    requires LawfulAddresses(sx) && NormalAddress(sx, text, family).Some?
    ensures PlainAddress(sx, NormalAddress(sx, text, family).value)
  {
  }

  lemma PlainTells(sx: Syntax, wide: bool, text: string, v6: bool, address: nat)
    requires PlainAddress(sx, text) && AddressesHit(sx, wide, text, v6, address)
    ensures (LooksIPv6(text) ==> v6) && (LooksIPv4(text) ==> !v6)
    ensures AddressesHit(sx, false, text, v6, address)
  {
    if text != "" {
      var net :| text == sx.show(net) && net.bits != 0 && BlockPrints(sx, net);
      TrimmedFixed(text);
      OneAddress(sx, wide, text, v6, address);
      OneAddress(sx, false, text, v6, address);
    } else {
      OneAddress(sx, false, text, v6, address);
    }
  }

  /** What the proofs below need of a stored policy. */
  ghost predicate Plain(sx: Syntax, policy: Policy) {
    && PlainAddress(sx, policy.sourceAddress) && PlainAddress(sx, policy.destinationAddress)
    && ProtocolWord(policy.protocol)
    && (policy.destinationPort != "" ==> forall part :: part in SplitValues(policy.destinationPort) ==> !AnyPort(part))
  }

  lemma StoredPlain(sx: Syntax, rule: Rule)
    requires Lawful(sx) && FromDomain(sx, rule).Success?
    ensures Plain(sx, FromDomain(sx, rule).value)
  {
    var n := NormalizeRule(sx, rule).value;
    NormalFields(sx, rule);
    NormalProtocolKeeps(rule.protocol, Tcp);
    StoredAddress(sx, rule.sourceAddress, rule.scope.family);
    StoredAddress(sx, rule.destinationAddress, rule.scope.family);
    assert PortNormal(sx, rule.destinationPort, NativePortSet(rule.scope.provider), n.destinationPort);
  }

  lemma PlainAddressesTell(sx: Syntax, wide: bool, policy: Policy, p: Packet)
    requires Plain(sx, policy) && BothAddresses(sx, wide, AsRule(policy), p)
    ensures BothAddresses(sx, false, AsRule(policy), p)
    ensures var (hasIPv4, hasIPv6) := AddressFamilies(AsRule(policy)); (hasIPv4 ==> !p.v6) && (hasIPv6 ==> p.v6)
  {
    PlainTells(sx, wide, policy.sourceAddress, p.v6, p.source);
    PlainTells(sx, wide, policy.destinationAddress, p.v6, p.destination);
  }

  lemma Icmpv6Tells(policy: Policy, provider: Provider, p: Packet)
    requires ProtocolWord(policy.protocol) && Lower(Base(policy, provider).protocol) == "icmpv6"
    requires ProtocolsHit(policy.protocol, p.protocol)
    ensures p.v6
  {
    ProtocolWords(policy.protocol);
    OneProtocol(policy.protocol, p.protocol);
  }

  lemma PlainChosen(sx: Syntax, policy: Policy, provider: Provider, p: Packet)
    requires Plain(sx, policy) && PolicyHits(sx, policy, p)
    ensures Families(policy.family, Base(policy, provider), provider).Some?
    ensures Chosen(Families(policy.family, Base(policy, provider), provider).value, p.v6)
  {
    var base := Base(policy, provider);
    PlainAddressesTell(sx, false, policy, p);
    assert AddressFamilies(base) == AddressFamilies(AsRule(policy));
    if Lower(base.protocol) == "icmpv6" {
      Icmpv6Tells(policy, provider, p);
    }
    var families := Families(policy.family, base, provider).value;
    assert families[0] in families && families[|families| - 1] in families;
  }

  lemma PlainPortful(sx: Syntax, policy: Policy, provider: Provider, p: Packet)
    requires Plain(sx, policy) && PolicyHits(sx, policy, p) && TwoProtocolForm(policy, provider)
    ensures Portful(p.protocol)
  {
  }

  lemma PlainSurvives(sx: Syntax, policy: Policy, provider: Provider, p: Packet)
    requires Plain(sx, policy) && Families(policy.family, Base(policy, provider), provider).Some?
    ensures Survives(sx, policy, provider, Families(policy.family, Base(policy, provider), provider).value, p)
            <==> PolicyHits(sx, policy, p)
  {
    var base := Base(policy, provider);
    if PolicyHits(sx, policy, p) {
      PlainChosen(sx, policy, provider, p);
      if TwoProtocolForm(policy, provider) {
        PlainPortful(sx, policy, provider, p);
      }
      PlainWide(sx, Wide(policy, provider), policy, p);
    } else if Survives(sx, policy, provider, Families(policy.family, base, provider).value, p) {
      PlainAddressesTell(sx, Wide(policy, provider), policy, p);
      ChosenWithin(policy, base, provider, p.v6);
    }
  }

  lemma PlainWide(sx: Syntax, wide: bool, policy: Policy, p: Packet)
    requires BothAddresses(sx, false, AsRule(policy), p)
    ensures BothAddresses(sx, wide, AsRule(policy), p)
  {
    WideMore(sx, wide, policy.sourceAddress, p.v6, p.source);
    WideMore(sx, wide, policy.destinationAddress, p.v6, p.destination);
  }

  lemma WideMore(sx: Syntax, wide: bool, text: string, v6: bool, address: nat)
    requires AddressesHit(sx, false, text, v6, address)
    ensures AddressesHit(sx, wide, text, v6, address)
  {
    var part :| part in SplitValues(text) && AddressHits(sx, false, part, v6, address);
    assert AddressHits(sx, wide, part, v6, address);
  }

  /**
   * A rule that was stored and then compiled, for any provider, admits exactly the packets the rule
   * was written for.
   */
  lemma StoredCompilesExactly(sx: Syntax, rule: Rule, provider: Provider, p: Packet)
    requires Lawful(sx) && FromDomain(sx, rule).Success?
    requires Compiled(sx, FromDomain(sx, rule).value, provider).Success?
    ensures AnyHits(sx, false, Compiled(sx, FromDomain(sx, rule).value, provider).value, p)
            <==> Hits(sx, rule.scope.family.Inet?, rule, p)
  {
    var policy := FromDomain(sx, rule).value;
    StoredPlain(sx, rule);
    CompiledExactly(sx, policy, provider, p);
    PlainSurvives(sx, policy, provider, p);
    StoredHits(sx, rule, p);
  }

  /** The stored inet policy that is refused for having addresses of both families admits no packet. */
  lemma RefusedMatchesNothing(sx: Syntax, rule: Rule, provider: Provider, p: Packet)
    requires Lawful(sx) && FromDomain(sx, rule).Success?
    requires Families(FromDomain(sx, rule).value.family, Base(FromDomain(sx, rule).value, provider), provider).None?
    ensures !PolicyHits(sx, FromDomain(sx, rule).value, p) && !Hits(sx, rule.scope.family.Inet?, rule, p)
  {
    var policy := FromDomain(sx, rule).value;
    StoredPlain(sx, rule);
    StoredHits(sx, rule, p);
    if PolicyHits(sx, policy, p) {
      PlainChosen(sx, policy, provider, p);
    }
  }

  // ---- Texts that no rule is stored with

  /** An inet policy on a source text alone. */
  function FromSource(source: string, protocol: string, action: string): Policy {
    Policy(Inet, protocol, source, "", "", "", "", "", action, "", "", None)
  }

  /** A word for every address that ruleAddressFamilies takes for an IPv4 address. */
  predicate AnyWord(source: string) {
    AnyAddress(source) && source != "" && TrimSpace(source) == source && ',' !in source && ':' !in source
  }

  predicate TcpWord(protocol: string) {
    && SplitProtocols(protocol) == [protocol] && ProtocolHits(protocol, Tcp) && !Composite(FromSourceRule("", protocol, ""))
    && NormalProtocol(protocol) == Some(protocol) && Canon(protocol) != "all" && Lower(protocol) != "icmpv6"
  }

  function FromSourceRule(source: string, protocol: string, action: string): Rule {
    AsRule(FromSource(source, protocol, action)).(scope := ScopeFor(Iptables, IPv4).value)
  }

  lemma Blank()
    ensures Canon("") == "" && TrimSpace("") == "" && SplitValues("") == [""] && AnyPort("") && AnyAddress("")
    ensures StateNames([]) == [] && IfaceName("") == ""
  {
    OneValue("");
  }

  lemma FromSourceAddresses(sx: Syntax, source: string, r: Rule, p: Packet)
    requires AnyWord(source) && r.sourceAddress == source && r.destinationAddress == ""
    ensures BothAddresses(sx, false, r, p)
  {
    OneAddress(sx, false, source, p.v6, p.source);
    OneAddress(sx, false, "", p.v6, p.destination);
  }

  lemma FromSourceRest(sx: Syntax, protocol: string, r: Rule, p: Packet)
    requires TcpWord(protocol) && p.protocol.Tcp? && r.protocol == protocol
    requires r.sourcePort == "" && r.destinationPort == "" && r.iface == "" && r.states == []
    ensures Rest(sx, r, p)
  {
    Blank();
    assert protocol in SplitProtocols(protocol);
    assert "" in SplitValues("") && PortHits(sx, "", Tcp, p.sourcePort) && PortHits(sx, "", Tcp, p.destinationPort);
  }

  lemma FromSourceReads(sx: Syntax, source: string, protocol: string, action: string, p: Packet)
    requires AnyWord(source) && TcpWord(protocol) && p.protocol.Tcp?
    ensures PolicyHits(sx, FromSource(source, protocol, action), p)
  {
    var r := AsRule(FromSource(source, protocol, action));
    FromSourceAddresses(sx, source, r, p);
    FromSourceRest(sx, protocol, r, p);
  }

  lemma BlankPorts(sx: Syntax, protocol: string)
    requires LawfulPorts(sx) && LawfulSort(sx)
    ensures sx.port("", false) == Some("") && sx.port("", true) == Some("")
    ensures NormalStates(sx, [], Iptables) == Some(sx.sorted([])) && IfaceName("") == "" && TrimSpace("") == ""
    ensures PortsFit(Iptables, protocol, "", "")
  {
    Blank();
  }

  lemma FromSourceNormal(sx: Syntax, source: string, protocol: string, action: string)
    requires Lawful(sx) && AnyWord(source) && TcpWord(protocol) && NormalAction(action) == Some(action)
    ensures NormalizeRule(sx, FromSourceRule(source, protocol, action)).Success?
  {
    var r := FromSourceRule(source, protocol, action);
    var n := r.(nativeKind := RuleKind, sourceAddress := "", states := sx.sorted([]));
    BlankPorts(sx, protocol);
    FromSourceScope(source, protocol, action);
    FieldsDecide(sx, r, n);
  }

  lemma FromSourceScope(source: string, protocol: string, action: string)
    requires AnyWord(source) && TcpWord(protocol)
    ensures var r := FromSourceRule(source, protocol, action);
            ScopeFault(r.scope).None? && !Composite(r) && NormalPriority(r) == Some(r.priority)
  {
  }

  lemma OneOfEach(r: Rule, v: string, put: (Rule, string) -> Rule)
    ensures Spread([r], [v], put) == [put(r, v)]
  {
    assert [r][..0] == [];
    assert Spread([], [v], put) == [];
  }

  lemma FromSourceCombinations(source: string, protocol: string, action: string)
    requires AnyWord(source)
    ensures Combinations(FromSourceRule(source, protocol, action), [protocol]) == [FromSourceRule(source, protocol, action)]
  {
    Blank();
    OneValue(source);
    var r := FromSourceRule(source, protocol, action);
    OneOfEach(r, protocol, PutProtocol);
    OneOfEach(r, source, PutSource);
    OneOfEach(r, "", PutDestination);
    OneOfEach(r, "", PutSourcePort);
    OneOfEach(r, "", PutDestinationPort);
  }

  lemma OneAtom(sx: Syntax, r: Rule)
    requires Lawful(sx) && NormalizeRule(sx, r).Success?
    ensures Atoms(sx, [r]).Success?
  {
    NormalizeIdempotent(sx, r);
    assert [r][..0] == [];
    assert Atoms(sx, []) == Success([]);
  }

  lemma FromSourceExpands(sx: Syntax, source: string, protocol: string, action: string)
    requires Lawful(sx) && AnyWord(source) && TcpWord(protocol) && NormalAction(action) == Some(action)
    ensures ExpandAtomicRules(sx, FromSourceRule(source, protocol, action)).Success?
  {
    var r := FromSourceRule(source, protocol, action);
    FromSourceCombinations(source, protocol, action);
    FromSourceNormal(sx, source, protocol, action);
    OneAtom(sx, r);
    assert Protocols(sx, r) == Success([protocol]);
  }

  lemma FromSourceBase(source: string, protocol: string, action: string)
    requires Canon(protocol) != "all"
    ensures Base(FromSource(source, protocol, action), Iptables) == AsRule(FromSource(source, protocol, action))
  {
  }

  lemma FromSourceFamilies(source: string, r: Rule)
    requires AnyWord(source) && r.sourceAddress == source && r.destinationAddress == "" && Lower(r.protocol) != "icmpv6"
    ensures Families(Inet, r, Iptables) == Some([IPv4])
  {
    assert TrimSpace("") == "";
  }

  lemma OneFamily(sx: Syntax, policy: Policy)
    requires policy.compatibilityError == ""
    requires Families(policy.family, Base(policy, Iptables), Iptables) == Some([IPv4])
    requires CompileFor(sx, Base(policy, Iptables), Iptables, IPv4).Success?
    ensures Compiled(sx, policy, Iptables).Success?
  {
    var base := Base(policy, Iptables);
    assert [IPv4][..0] == [];
    assert CompileAll(sx, base, Iptables, []) == Success([]);
  }

  lemma FromSourceCompiles(sx: Syntax, source: string, protocol: string, action: string)
    requires Lawful(sx) && AnyWord(source) && TcpWord(protocol) && NormalAction(action) == Some(action)
    ensures Compiled(sx, FromSource(source, protocol, action), Iptables).Success?
    ensures Families(Inet, Base(FromSource(source, protocol, action), Iptables), Iptables) == Some([IPv4])
  {
    var policy := FromSource(source, protocol, action);
    FromSourceBase(source, protocol, action);
    FromSourceFamilies(source, AsRule(policy));
    FromSourceFor(sx, source, protocol, action);
    OneFamily(sx, policy);
  }

  lemma FromSourceFor(sx: Syntax, source: string, protocol: string, action: string)
    requires Lawful(sx) && AnyWord(source) && TcpWord(protocol) && NormalAction(action) == Some(action)
    ensures CompileFor(sx, AsRule(FromSource(source, protocol, action)), Iptables, IPv4).Success?
  {
    FromSourceExpands(sx, source, protocol, action);
  }

  /** A source spelled "any" compiles for IPv4 alone: every IPv6 packet the policy speaks of is lost. */
  lemma AnyWordLosesIPv6(sx: Syntax, p: Packet)
    requires Lawful(sx) && p.protocol.Tcp? && p.v6
    ensures var policy := FromSource("any", "tcp", "accept");
            && Compiled(sx, policy, Iptables).Success?
            && PolicyHits(sx, policy, p) && !AnyHits(sx, false, Compiled(sx, policy, Iptables).value, p)
  {
    Words();
    FromSourceReads(sx, "any", "tcp", "accept", p);
    FromSourceCompiles(sx, "any", "tcp", "accept");
    CompiledExactly(sx, FromSource("any", "tcp", "accept"), Iptables, p);
  }

  lemma Words()
    ensures AnyWord("any") && TcpWord("tcp") && NormalAction("accept") == Some("accept")
  {
    LowerWord("any");
    TrimmedFixed("any");
    ProtocolWords("tcp");
    OneValue("tcp");
    TrimmedFixed("tcp");
    LowerWord("accept");
  }
}
