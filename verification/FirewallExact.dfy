/** When a firewall rule is taken, and what its words become, said of its texts. */
module FirewallExact {
  import opened Text
  import opened FirewallRules
  import opened FirewallNormal
  import opened FirewallExpansion
  import opened FirewallFamilies
  import opened FirewallPolicies
  import opened FirewallPolicyProofs

  // ---- One atomic rule

  /** The scope is one of the chains that are managed. */
  predicate Managed(scope: Scope) {
    && !scope.provider.OtherProvider? && !scope.family.OtherFamily?
    && if scope.provider.Firewalld? then scope.table == "" && scope.zone == "public" && scope.chain == ""
       else if scope.provider.Ufw? then !scope.family.Inet? && scope.table == "" && scope.zone == "" && scope.chain == "incoming"
       else !scope.family.Inet? && scope.table == "filter" && scope.zone == ""
            && (scope.chain == "1PANEL_BASIC_BEFORE" || scope.chain == "1PANEL_BASIC" || scope.chain == "1PANEL_BASIC_AFTER")
  }

  /** Iptables and UFW take a set of destination ports as one value. */
  predicate OneEach(r: Rule) {
    && ',' !in r.sourceAddress && ',' !in r.destinationAddress && ',' !in r.sourcePort
    && (',' in r.destinationPort ==> r.scope.provider.Iptables? || r.scope.provider.Ufw?)
  }

  /** The protocol that a text names; "any" and no text name all. */
  predicate Names(text: string, protocol: string) {
    var v := Lower(TrimSpace(text));
    || ((v == "" || v == "any" || v == "all") && protocol == "all")
    || ((v == "tcp" || v == "udp" || v == "icmp" || v == "icmpv6") && protocol == v)
  }

  /** The address text stands for any address, or reads as a block of the family. */
  predicate AddressReads(sx: Syntax, text: string, family: Family) {
    || Lower(TrimSpace(text)) == "" || Lower(TrimSpace(text)) == "any" || HasPrefix(Lower(TrimSpace(text)), "anywhere")
    || (sx.parse(TrimSpace(text)).Some? && (family.Inet? || (if sx.parse(TrimSpace(text)).value.v6 then family.IPv6? else family.IPv4?)))
  }

  /** Without ports any protocol will do; with ports TCP or UDP, or for UFW all of them with a destination port alone. */
  predicate PortsAgree(provider: Provider, protocol: string, sourcePort: string, destinationPort: string) {
    || (sourcePort == "" && destinationPort == "") || protocol == "tcp" || protocol == "udp"
    || (provider.Ufw? && protocol == "all" && sourcePort == "" && ',' !in destinationPort)
  }

  predicate PortsRead(sx: Syntax, r: Rule, protocol: string) {
    var source, destination :=
      sx.port(r.sourcePort, false), sx.port(r.destinationPort, r.scope.provider.Iptables? || r.scope.provider.Ufw?);
    source.Some? && destination.Some? && PortsAgree(r.scope.provider, protocol, source.value, destination.value)
  }

  /** What the action word means. */
  predicate Decides(text: string, action: string) {
    var v := Lower(TrimSpace(text));
    || ((v == "accept" || v == "allow") && action == "accept")
    || ((v == "drop" || v == "deny" || v == "block") && action == "drop")
    || (v == "reject" && action == "reject")
  }

  /** A rich rule of firewalld has a priority of 16 bits. */
  predicate PriorityFits(r: Rule) {
    r.scope.provider.Firewalld? && r.nativeKind.RichRule? && r.priority.Some? ==> -32768 <= r.priority.value <= 32767
  }

  /** Every connection state is known, to iptables two more. */
  predicate StatesKnown(r: Rule) {
    forall i :: 0 <= i < |r.states| ==>
      var v := Lower(TrimSpace(r.states[i]));
      || v == "" || v == "new" || v == "established" || v == "related" || v == "invalid" || v == "untracked"
      || (r.scope.provider.Iptables? && (v == "snat" || v == "dnat"))
  }

  /** Some entry of the list is this name, but for case and blanks. */
  predicate Lists(states: seq<string>, name: string) {
    exists i :: 0 <= i < |states| && Canon(states[i]) == name
  }

  lemma ListsLast(states: seq<string>, n: nat, name: string)
    requires n + 1 == |states|
    ensures Lists(states, name) <==> Lists(states[..n], name) || Canon(states[n]) == name
  {
    assert forall i :: 0 <= i < n ==> states[..n][i] == states[i];
  }

  lemma {:induction false} StateNamesIff(states: seq<string>, name: string)
    ensures name in StateNames(states) <==> name != "" && Lists(states, name)
  {
    if states != [] {
      var n := |states| - 1;
      StateNamesIff(states[..n], name);
      StateNamesIff(states[..n], Canon(states[n]));
      ListsLast(states, n, name);
      ListsLast(states, n, Canon(states[n]));
    }
  }

  lemma StatesIff(sx: Syntax, r: Rule)
    ensures NormalStates(sx, r.states, r.scope.provider).Some? <==> StatesKnown(r)
  {
    var names := StateNames(r.states);
    forall i | 0 <= i < |r.states|
      ensures Canon(r.states[i]) in names <==> Canon(r.states[i]) != ""
    {
      StateNamesIff(r.states, Canon(r.states[i]));
      assert Lists(r.states, Canon(r.states[i]));
    }
    forall s | s in names ensures Lists(r.states, s) {
      StateNamesIff(r.states, s);
    }
  }

  lemma ScopeIff(scope: Scope)
    ensures ScopeFault(scope).None? <==> Managed(scope)
  {
  }

  lemma ProtocolIff(text: string, protocol: string)
    ensures NormalProtocol(text) == Some(protocol) <==> Names(text, protocol)
    ensures Names(text, protocol) ==> !TwoProtocols(Canon(text)) && ',' !in Canon(text)
  {
    if Names(text, protocol) {
      KnownWord(text);
    }
  }

  lemma ActionIff(text: string, action: string)
    ensures NormalAction(text) == Some(action) <==> Decides(text, action)
  {
  }

  lemma AddressIff(sx: Syntax, text: string, family: Family)
    ensures NormalAddress(sx, text, family).Some? <==> AddressReads(sx, text, family)
  {
  }

  lemma PortsIff(sx: Syntax, r: Rule, protocol: string)
    ensures PortsRead(sx, r, protocol)
            <==> var source, destination := sx.port(r.sourcePort, false), sx.port(r.destinationPort, NativePortSet(r.scope.provider));
                 source.Some? && destination.Some? && PortsFit(r.scope.provider, protocol, source.value, destination.value)
  {
  }

  /** Some protocol is named that agrees with the ports. */
  ghost predicate ProtocolReads(sx: Syntax, r: Rule) {
    exists protocol :: Names(r.protocol, protocol) && PortsRead(sx, r, protocol)
  }

  ghost predicate ActionReads(text: string) {
    exists action :: Decides(text, action)
  }

  /** The texts of the rule are all readable. */
  ghost predicate Readable(sx: Syntax, r: Rule) {
    && AddressReads(sx, r.sourceAddress, r.scope.family) && AddressReads(sx, r.destinationAddress, r.scope.family)
    && ProtocolReads(sx, r) && ActionReads(r.action) && PriorityFits(r) && StatesKnown(r)
  }

  lemma ProtocolReadsIff(sx: Syntax, r: Rule)
    ensures ProtocolReads(sx, r) <==> NormalProtocol(r.protocol).Some? && PortsRead(sx, r, NormalProtocol(r.protocol).value)
  {
    if NormalProtocol(r.protocol).Some? {
      ProtocolIff(r.protocol, NormalProtocol(r.protocol).value);
    }
    if protocol :| Names(r.protocol, protocol) && PortsRead(sx, r, protocol) {
      ProtocolIff(r.protocol, protocol);
    }
  }

  lemma ActionReadsIff(text: string)
    ensures ActionReads(text) <==> NormalAction(text).Some?
  {
    if NormalAction(text).Some? {
      ActionIff(text, NormalAction(text).value);
    }
    if action :| Decides(text, action) {
      ActionIff(text, action);
    }
  }

  lemma PriorityIff(r: Rule)
    ensures PriorityFits(r) <==> NormalPriority(r).Some?
  {
  }

  lemma ReadableIff(sx: Syntax, r: Rule)
    ensures Readable(sx, r)
            <==> && NormalAddress(sx, r.sourceAddress, r.scope.family).Some? && NormalAddress(sx, r.destinationAddress, r.scope.family).Some?
                 && NormalProtocol(r.protocol).Some? && PortsRead(sx, r, NormalProtocol(r.protocol).value)
                 && NormalAction(r.action).Some? && NormalPriority(r).Some? && NormalStates(sx, r.states, r.scope.provider).Some?
  {
    AddressIff(sx, r.sourceAddress, r.scope.family);
    AddressIff(sx, r.destinationAddress, r.scope.family);
    ProtocolReadsIff(sx, r);
    ActionReadsIff(r.action);
    PriorityIff(r);
    StatesIff(sx, r);
  }

  /** An atomic rule has a normal form exactly when its scope is managed, it has one value of each, and all are readable. */
  lemma NormalizeIff(sx: Syntax, r: Rule)
    ensures NormalizeRule(sx, r).Success? <==> Managed(r.scope) && OneEach(r) && Readable(sx, r)
  {
    ScopeIff(r.scope);
    ReadableIff(sx, r);
    if NormalProtocol(r.protocol).Some? {
      ProtocolIff(r.protocol, NormalProtocol(r.protocol).value);
      PortsIff(sx, r, NormalProtocol(r.protocol).value);
    }
  }

  /** Its words: the action and the protocol they name, a priority on firewalld alone, the interface unless it is any. */
  lemma NormalWords(sx: Syntax, r: Rule)
    requires NormalizeRule(sx, r).Success?
    ensures var n := NormalizeRule(sx, r).value;
            && Decides(r.action, n.action) && Names(r.protocol, n.protocol) && n.scope == r.scope
            && n.description == TrimSpace(r.description)
            && n.iface == (var v := TrimSpace(r.iface); if v == "*" || Lower(v) == "all" || Lower(v) == "any" then "" else v)
            && n.nativeKind == (if !r.nativeKind.Unset? then r.nativeKind else if r.scope.provider.Ufw? then UfwRule else RuleKind)
            && n.priority == (if r.scope.provider.Firewalld? && r.nativeKind.ZonePort? then None
                              else if r.scope.provider.Firewalld? && r.nativeKind.RichRule? && r.priority.None? then Some(0)
                              else r.priority)
  {
    var n := NormalizeRule(sx, r).value;
    NormalFields(sx, r);
    ActionIff(r.action, n.action);
    ProtocolIff(r.protocol, n.protocol);
  }

  // ---- The expansion

  function Times(n: nat, m: nat): nat {
    n * m
  }

  lemma TimesMore(n: nat, m: nat)
    ensures Times(n + 1, m) == Times(n, m) + m
  {
  }

  lemma {:induction false} SpreadLength<A>(rules: seq<Rule>, values: seq<A>, put: (Rule, A) -> Rule)
    ensures |Spread(rules, values, put)| == Times(|rules|, |values|)
  {
    if rules != [] {
      SpreadLength(rules[..|rules| - 1], values, put);
      TimesMore(|rules| - 1, |values|);
    }
  }

  /** How many atomic rules the lists of the rule call for: the product of their lengths. */
  function Count(r: Rule, protocols: seq<string>): nat {
    var addresses := Times(Times(|protocols|, |SplitValues(r.sourceAddress)|), |SplitValues(r.destinationAddress)|);
    Times(Times(addresses, |SplitValues(r.sourcePort)|),
          if r.scope.provider.Iptables? || r.scope.provider.Ufw? then 1 else |SplitValues(r.destinationPort)|)
  }

  lemma CombinationCount(r: Rule, protocols: seq<string>)
    ensures |Combinations(r, protocols)| == Count(r, protocols)
  {
    var one := Spread([r], protocols, PutProtocol);
    var two := Spread(one, SplitValues(r.sourceAddress), PutSource);
    var three := Spread(two, SplitValues(r.destinationAddress), PutDestination);
    var four := Spread(three, SplitValues(r.sourcePort), PutSourcePort);
    TimesMore(0, |protocols|);
    SpreadLength([r], protocols, PutProtocol);
    SpreadLength(one, SplitValues(r.sourceAddress), PutSource);
    SpreadLength(two, SplitValues(r.destinationAddress), PutDestination);
    SpreadLength(three, SplitValues(r.sourcePort), PutSourcePort);
    SpreadLength(four, DestinationPorts(r), PutDestinationPort);
  }

  lemma AddAtomSucceeds(sx: Syntax, kept: seq<Rule>, r: Rule)
    requires Lawful(sx)
    ensures AddAtom(sx, kept, r).Success? <==> NormalizeRule(sx, r).Success?
  {
    if NormalizeRule(sx, r).Success? {
      NormalizeIdempotent(sx, r);
    }
  }

  lemma {:induction false} AtomsSucceed(sx: Syntax, rules: seq<Rule>)
    requires Lawful(sx)
    ensures Atoms(sx, rules).Success? <==> forall x :: x in rules ==> NormalizeRule(sx, x).Success?
  {
    if rules != [] {
      var before, last := rules[..|rules| - 1], rules[|rules| - 1];
      AtomsSucceed(sx, before);
      LastMembers(rules);
      if Atoms(sx, before).Success? {
        AddAtomSucceeds(sx, Atoms(sx, before).value, last);
      }
    }
  }

  predicate HasPart(parts: seq<string>, value: string) {
    exists i :: 0 <= i < |parts| && TrimSpace(parts[i]) == value
  }

  lemma TrimmedPart(parts: seq<string>, value: string)
    ensures value in TrimAll(parts) <==> HasPart(parts, value)
  {
    var trimmed := TrimAll(parts);
    if HasPart(parts, value) {
      var i :| 0 <= i < |parts| && TrimSpace(parts[i]) == value;
      assert trimmed[i] == value;
    }
  }

  /** A list of values holds the trimmed parts between its commas, each once. */
  lemma ValuesIff(text: string, value: string)
    ensures value in SplitValues(text) <==> HasPart(Split(text, ','), value)
    ensures forall i, j :: 0 <= i < j < |SplitValues(text)| ==> SplitValues(text)[i] != SplitValues(text)[j]
  {
    var values := TrimAll(Split(text, ','));
    TrimmedPart(Split(text, ','), value);
    DistinctMembers(values, value);
    DistinctOnce(values);
  }

  lemma {:induction false} DistinctOnce(s: seq<string>)
    ensures forall i, j :: 0 <= i < j < |Distinct(s)| ==> Distinct(s)[i] != Distinct(s)[j]
  {
    if s != [] {
      DistinctOnce(s[..|s| - 1]);
    }
  }

  /** A protocol list in lower case: "tcp/udp", either way round, is both of them. */
  lemma ProtocolListIff(text: string)
    ensures var v := Lower(TrimSpace(text));
            SplitProtocols(text) == if v == "tcp/udp" || v == "udp/tcp" then ["tcp", "udp"] else SplitValues(v)
  {
  }

  /** The protocols are one list, but for "all" that UFW cannot write with a set or range of destination ports. */
  lemma ProtocolsExactly(sx: Syntax, r: Rule)
    ensures !r.scope.provider.Ufw? ==> Protocols(sx, r) == Success(SplitProtocols(r.protocol))
    ensures r.scope.provider.Ufw? ==>
              var port := sx.port(r.destinationPort, true);
              && (Protocols(sx, r).Success?
                  <==> exists protocol :: Names(r.protocol, protocol) && (protocol == "all" ==> port.Some?))
              && (Protocols(sx, r).Success? ==>
                    Protocols(sx, r).value
                    == if Names(r.protocol, "all") && (',' in port.value || '-' in port.value) then ["tcp", "udp"] else SplitProtocols(r.protocol))
  {
    if NormalProtocol(r.protocol).Some? {
      ProtocolIff(r.protocol, NormalProtocol(r.protocol).value);
    }
    ProtocolIff(r.protocol, "all");
    if protocol :| Names(r.protocol, protocol) {
      ProtocolIff(r.protocol, protocol);
    }
  }

  /**
   * An expansion within one scope fails exactly when its protocols cannot be read, its lists call for more than 256
   * rules, or one of these has no normal form.
   */
  lemma ExpandIff(sx: Syntax, r: Rule)
    requires Lawful(sx)
    ensures ExpandAtomicRules(sx, r).Success?
            <==> Protocols(sx, r).Success? && Count(r, Protocols(sx, r).value) <= 256
                 && forall x :: x in Combinations(r, Protocols(sx, r).value) ==> NormalizeRule(sx, x).Success?
    ensures Protocols(sx, r).Success? ==>
              (Count(r, Protocols(sx, r).value) > 256 ==> ExpandAtomicRules(sx, r) == Failure(ExpansionLimit))
  {
    if Protocols(sx, r).Success? {
      CombinationCount(r, Protocols(sx, r).value);
      AtomsSucceed(sx, Combinations(r, Protocols(sx, r).value));
    }
  }

  lemma {:induction false} KnownAtomsSucceed(sx: Syntax, rules: seq<Rule>)
    requires Lawful(sx)
    ensures KnownAtoms(sx, rules).Success?
    ensures KnownAtoms(sx, rules).value != [] <==> exists x :: x in rules && NormalizeRule(sx, x).Success?
  {
    if rules != [] {
      var before, last := rules[..|rules| - 1], rules[|rules| - 1];
      KnownAtomsSucceed(sx, before);
      LastMembers(rules);
      AddAtomSucceeds(sx, KnownAtoms(sx, before).value, last);
    }
  }

  lemma {:induction false} LastRefusalIff(sx: Syntax, rules: seq<Rule>)
    ensures LastRefusal(sx, rules).None? <==> forall x :: x in rules ==> NormalizeRule(sx, x).Success?
  {
    if rules != [] {
      LastRefusalIff(sx, rules[..|rules| - 1]);
      LastMembers(rules);
    }
  }

  lemma FamilyCount(r: Rule, protocols: seq<string>)
    ensures |FamilyCombinations(r, protocols)| == 2 * Count(r, protocols)
  {
    CombinationCount(InFamily(r, IPv4), protocols);
    CombinationCount(InFamily(r, IPv6), protocols);
  }

  /** Some rule has a normal form, or there is none. */
  ghost predicate SomeNormal(sx: Syntax, rules: seq<Rule>) {
    rules == [] || exists x :: x in rules && NormalizeRule(sx, x).Success?
  }

  lemma KnownIff(sx: Syntax, rules: seq<Rule>)
    requires Lawful(sx)
    ensures KnownAtoms(sx, rules).Success?
    ensures KnownAtoms(sx, rules).value != [] || LastRefusal(sx, rules).None? <==> SomeNormal(sx, rules)
  {
    KnownAtomsSucceed(sx, rules);
    LastRefusalIff(sx, rules);
    if rules != [] {
      assert rules[0] in rules;
    }
  }

  /** Over both families of UFW it fails for the protocols, for twice the number of rules, or when none has a normal form. */
  lemma ExpandFamiliesIff(sx: Syntax, r: Rule, protocols: seq<string>)
    requires Lawful(sx) && Protocols(sx, r) == Success(protocols)
    ensures ExpandFamilies(sx, r).Success?
            <==> 2 * Count(r, protocols) <= 256 && SomeNormal(sx, FamilyCombinations(r, protocols))
  {
    FamilyCount(r, protocols);
    KnownIff(sx, FamilyCombinations(r, protocols));
  }

  // ---- Storing and compiling

  /** A rule is stored exactly when it has a normal form of a known kind; the policy has its texts and its priority. */
  lemma StoreExactly(sx: Syntax, rule: Rule)
    ensures FromDomain(sx, rule).Success? <==> NormalizeRule(sx, rule).Success? && !NormalizeRule(sx, rule).value.nativeKind.OtherKind?
    ensures FromDomain(sx, rule).Success? ==>
              var n, policy := NormalizeRule(sx, rule).value, FromDomain(sx, rule).value;
              && policy.family == rule.scope.family && policy.protocol == n.protocol && policy.action == n.action
              && policy.sourceAddress == n.sourceAddress && policy.destinationAddress == n.destinationAddress
              && policy.sourcePort == n.sourcePort && policy.destinationPort == n.destinationPort
              && policy.iface == n.iface && policy.description == n.description && policy.compatibilityError == ""
              && policy.priority == if rule.scope.provider.Firewalld? then n.priority else None
  {
  }

  /** The states of a policy are its comma-separated list, or none. */
  function StateList(policy: Policy): seq<string> {
    if policy.connectionStates == "" then [] else Split(policy.connectionStates, ',')
  }

  /**
   * The rule that is compiled: the policy's texts, with its priority on firewalld alone, and TCP and UDP in place of all
   * protocols when it has a destination port alone, except for UFW.
   */
  lemma BaseExactly(policy: Policy, provider: Provider)
    ensures var base := Base(policy, provider);
            && base.sourceAddress == policy.sourceAddress && base.sourcePort == policy.sourcePort
            && base.destinationAddress == policy.destinationAddress && base.destinationPort == policy.destinationPort
            && base.iface == policy.iface && base.states == StateList(policy) && base.action == policy.action
            && base.description == policy.description && base.nativeKind == Unset
            && base.priority == (if provider.Firewalld? then policy.priority else None)
            && base.protocol == if !provider.Ufw? && Lower(TrimSpace(policy.protocol)) == "all"
                                   && TrimSpace(policy.sourcePort) == "" && TrimSpace(policy.destinationPort) != ""
                                then "tcp/udp" else policy.protocol
  {
  }

  /** The scope that a provider's rules are compiled into. */
  ghost predicate CompilesInto(provider: Provider, family: Family, scope: Scope) {
    && scope.provider == provider && scope.family == family
    && match provider
       case Firewalld => scope.table == "" && scope.zone == "public" && scope.chain == ""
       case Ufw => scope.table == "" && scope.zone == "" && scope.chain == "incoming"
       case Iptables => scope.table == "filter" && scope.zone == "" && scope.chain == "1PANEL_BASIC"
       case Nftables => scope.table == "filter" && scope.zone == "" && scope.chain == "1PANEL_BASIC"
       case OtherProvider(_) => false
  }

  lemma ScopeForIff(provider: Provider, family: Family)
    ensures ScopeFor(provider, family).None? <==> provider.OtherProvider?
    ensures ScopeFor(provider, family).Some? ==> CompilesInto(provider, family, ScopeFor(provider, family).value)
  {
  }

  /** The base rule expands in the provider's scope for the family. */
  ghost predicate CompilesFor(sx: Syntax, base: Rule, provider: Provider, f: Family) {
    exists scope :: CompilesInto(provider, f, scope) && ExpandAtomicRules(sx, base.(scope := scope)).Success?
  }

  lemma CompileForIff(sx: Syntax, base: Rule, provider: Provider, f: Family)
    ensures CompileFor(sx, base, provider, f).Success? <==> CompilesFor(sx, base, provider, f)
  {
    ScopeForIff(provider, f);
    if scope :| CompilesInto(provider, f, scope) && ExpandAtomicRules(sx, base.(scope := scope)).Success? {
      assert scope == ScopeFor(provider, f).value;
    }
  }

  lemma {:induction false} CompileAllIff(sx: Syntax, base: Rule, provider: Provider, families: seq<Family>)
    ensures CompileAll(sx, base, provider, families).Success?
            <==> forall f :: f in families ==> CompilesFor(sx, base, provider, f)
  {
    if families != [] {
      CompileAllIff(sx, base, provider, families[..|families| - 1]);
      CompileForIff(sx, base, provider, families[|families| - 1]);
      LastMembers(families);
    }
  }

  /** The families of a policy: its own on firewalld or unless it is inet; else those of its addresses, or both. */
  lemma FamiliesExactly(policy: Policy, base: Rule, provider: Provider)
    ensures var families := Families(policy.family, base, provider);
            var v4 := (TrimSpace(base.sourceAddress) != "" && ':' !in TrimSpace(base.sourceAddress))
                      || (TrimSpace(base.destinationAddress) != "" && ':' !in TrimSpace(base.destinationAddress));
            var v6 := ':' in TrimSpace(base.sourceAddress) || ':' in TrimSpace(base.destinationAddress);
            && (provider.Firewalld? || !policy.family.Inet? ==> families == Some([policy.family]))
            && (!provider.Firewalld? && policy.family.Inet? ==>
                  && (families.None? <==> v4 && v6)
                  && (families == Some([IPv6]) <==> !(v4 && v6) && (v6 || Lower(base.protocol) == "icmpv6"))
                  && (families == Some([IPv4]) <==> v4 && !v6 && Lower(base.protocol) != "icmpv6")
                  && (families == Some([IPv4, IPv6]) <==> !v4 && !v6 && Lower(base.protocol) != "icmpv6"))
  {
    assert Some([IPv4]) != Some([IPv6]);
    assert [IPv4, IPv6] != [IPv4] && [IPv4, IPv6] != [IPv6] by {
      assert |[IPv4, IPv6]| == 2;
    }
  }

  /** A policy compiles exactly when it carries no error, has families, the provider is known and each family expands. */
  lemma CompiledIff(sx: Syntax, policy: Policy, provider: Provider, base: Rule)
    requires Lawful(sx) && base == Base(policy, provider)
    ensures Compiled(sx, policy, provider).Success?
            <==> policy.compatibilityError == "" && Families(policy.family, base, provider).Some?
                 && forall f :: f in Families(policy.family, base, provider).value ==> CompilesFor(sx, base, provider, f)
  {
    if Families(policy.family, base, provider).Some? {
      CompileAllIff(sx, base, provider, Families(policy.family, base, provider).value);
    }
  }

  lemma CompileForScope(sx: Syntax, base: Rule, provider: Provider, f: Family, x: Rule)
    requires Lawful(sx) && CompileFor(sx, base, provider, f).Success? && x in CompileFor(sx, base, provider, f).value
    ensures CompilesInto(provider, f, x.scope)
  {
    ScopeForIff(provider, f);
    ExpandActs(sx, base.(scope := ScopeFor(provider, f).value));
  }

  lemma {:induction false} CompileAllScopes(sx: Syntax, base: Rule, provider: Provider, families: seq<Family>, x: Rule)
    requires Lawful(sx) && CompileAll(sx, base, provider, families).Success? && x in CompileAll(sx, base, provider, families).value
    ensures CompilesInto(provider, x.scope.family, x.scope)
  {
    var before, f := families[..|families| - 1], families[|families| - 1];
    if x in CompileAll(sx, base, provider, before).value {
      CompileAllScopes(sx, base, provider, before, x);
    } else {
      CompileForScope(sx, base, provider, f, x);
    }
  }

  /** Every compiled rule is in the provider's scope and decides as the policy does. */
  lemma CompiledWords(sx: Syntax, policy: Policy, provider: Provider, x: Rule)
    requires Lawful(sx) && Compiled(sx, policy, provider).Success? && x in Compiled(sx, policy, provider).value
    ensures CompilesInto(provider, x.scope.family, x.scope) && Decides(policy.action, x.action)
    ensures x.priority == if provider.Firewalld? then policy.priority else None
  {
    CompiledActs(sx, policy, provider, x);
    ActionIff(policy.action, x.action);
    CompileAllScopes(sx, Base(policy, provider), provider, Families(policy.family, Base(policy, provider), provider).value, x);
  }
}
