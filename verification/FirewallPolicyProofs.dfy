/** What compiling a policy keeps of its meaning, and when it keeps all of it. */
module FirewallPolicyProofs {
  import opened Text
  import opened FirewallRules
  import opened FirewallNormal
  import opened FirewallExpansion
  import opened FirewallPolicies

  predicate Chosen(families: seq<Family>, v6: bool) {
    exists f :: f in families && FamilyHits(f, v6)
  }

  predicate Wide(policy: Policy, provider: Provider) {
    provider.Firewalld? && policy.family.Inet?
  }

  lemma AnyHitsConcat(sx: Syntax, a: seq<Rule>, b: seq<Rule>, p: Packet)
    ensures AnyHits(sx, false, a + b, p) <==> AnyHits(sx, false, a, p) || AnyHits(sx, false, b, p)
  {
    assert forall x :: x in a + b <==> x in a || x in b;
  }

  lemma CompileForHits(sx: Syntax, base: Rule, provider: Provider, family: Family, p: Packet)
    requires Lawful(sx) && CompileFor(sx, base, provider, family).Success?
    ensures AnyHits(sx, false, CompileFor(sx, base, provider, family).value, p)
            <==> FamilyHits(family, p.v6) && BothAddresses(sx, family.Inet?, base, p) && Rest(sx, base, p)
  {
    var r := base.(scope := ScopeFor(provider, family).value);
    ScopeOf(provider, family);
    ExpandExact(sx, false, r, p);
    ScopeAlone(sx, family.Inet?, base, r.scope, p);
  }

  lemma ScopeAlone(sx: Syntax, wide: bool, base: Rule, scope: Scope, p: Packet)
    ensures Hits(sx, wide, base.(scope := scope), p)
            <==> FamilyHits(scope.family, p.v6) && BothAddresses(sx, wide, base, p) && Rest(sx, base, p)
  {
    var r := base.(scope := scope);
    assert Rest(sx, r, p) == Rest(sx, base, p) && BothAddresses(sx, wide, r, p) == BothAddresses(sx, wide, base, p);
  }

  lemma {:induction false} CompileAllHits(
      sx: Syntax, base: Rule, provider: Provider, families: seq<Family>, wide: bool, p: Packet)
    requires Lawful(sx) && CompileAll(sx, base, provider, families).Success?
    requires forall f :: f in families ==> f.Inet? == wide
    ensures AnyHits(sx, false, CompileAll(sx, base, provider, families).value, p)
            <==> Chosen(families, p.v6) && BothAddresses(sx, wide, base, p) && Rest(sx, base, p)
  {
    if families != [] {
      var before, f := families[..|families| - 1], families[|families| - 1];
      CompileAllHits(sx, base, provider, before, wide, p);
      CompileForHits(sx, base, provider, f, p);
      AnyHitsConcat(sx, CompileAll(sx, base, provider, before).value, CompileFor(sx, base, provider, f).value, p);
      ChosenMore(families, p.v6);
    }
  }

  lemma ChosenMore(families: seq<Family>, v6: bool)
    requires families != []
    ensures Chosen(families, v6) <==> Chosen(families[..|families| - 1], v6) || FamilyHits(families[|families| - 1], v6)
  {
    LastMembers(families);
  }

  lemma BaseRest(sx: Syntax, policy: Policy, provider: Provider, p: Packet)
    ensures Rest(sx, Base(policy, provider), p)
            <==> Rest(sx, AsRule(policy), p) && (TwoProtocolForm(policy, provider) ==> Portful(p.protocol))
  {
    if TwoProtocolForm(policy, provider) {
      AllHits(policy.protocol, p.protocol);
      TwoIsTwo();
      TwoProtocolsHit("tcp/udp", p.protocol);
    }
  }

  lemma TwoIsTwo()
    ensures TwoProtocols(Canon("tcp/udp"))
  {
    TrimmedFixed("tcp/udp");
  }

  lemma FamiliesWide(policy: Policy, base: Rule, provider: Provider)
    requires Families(policy.family, base, provider).Some?
    ensures forall f :: f in Families(policy.family, base, provider).value ==> f.Inet? == Wide(policy, provider)
  {
  }

  lemma BaseAddresses(sx: Syntax, wide: bool, policy: Policy, provider: Provider, p: Packet)
    ensures BothAddresses(sx, wide, Base(policy, provider), p) == BothAddresses(sx, wide, AsRule(policy), p)
  {
  }

  /** The part of a policy's meaning that survives compiling, for every policy that compiles. */
  predicate Survives(sx: Syntax, policy: Policy, provider: Provider, families: seq<Family>, p: Packet) {
    && Chosen(families, p.v6)
    && BothAddresses(sx, Wide(policy, provider), AsRule(policy), p)
    && Rest(sx, AsRule(policy), p)
    && (TwoProtocolForm(policy, provider) ==> Portful(p.protocol))
  }

  /**
   * The compiled rules admit a packet exactly when the policy's conditions do, its family was chosen,
   * and, where "all" was compiled as TCP and UDP, it is one of these.
   */
  lemma CompiledExactly(sx: Syntax, policy: Policy, provider: Provider, p: Packet)
    requires Lawful(sx) && Compiled(sx, policy, provider).Success?
    ensures Families(policy.family, Base(policy, provider), provider).Some?
    ensures AnyHits(sx, false, Compiled(sx, policy, provider).value, p)
            <==> Survives(sx, policy, provider, Families(policy.family, Base(policy, provider), provider).value, p)
  {
    var base := Base(policy, provider);
    var families := Families(policy.family, base, provider).value;
    FamiliesWide(policy, base, provider);
    CompileAllHits(sx, base, provider, families, Wide(policy, provider), p);
    BaseAddresses(sx, Wide(policy, provider), policy, provider, p);
    BaseRest(sx, policy, provider, p);
  }

  // ---- What a rule can reach, read off its texts

  datatype RawKind = Kind(v6: bool, protocol: Protocol)

  /** The eight kinds of packet that the texts of a rule tell apart. */
  type Kind = k: RawKind |
    && (k.protocol.Icmp? ==> !k.v6) && (k.protocol.Icmpv6? ==> k.v6)
    && (k.protocol.OtherProtocol? ==> k.protocol == OtherProtocol(0))
    witness Kind(false, Tcp)

  function KindOf(p: Packet): Kind {
    Kind(p.v6, if p.protocol.OtherProtocol? then OtherProtocol(0) else p.protocol)
  }

  predicate AddressPartReaches(sx: Syntax, wide: bool, part: string, v6: bool) {
    || AnyAddress(part)
    || match sx.parse(TrimSpace(part))
       case None => false
       case Some(net) => (wide && net.bits == 0) || net.v6 == v6
  }

  predicate AddressReaches(sx: Syntax, wide: bool, text: string, v6: bool) {
    exists part :: part in SplitValues(text) && AddressPartReaches(sx, wide, part, v6)
  }

  predicate PortPartReaches(sx: Syntax, part: string, protocol: Protocol) {
    || AnyPort(part)
    || (Portful(protocol)
        && match sx.range(TrimSpace(part))
           case None => false
           case Some((low, high)) => low <= high)
  }

  predicate PortReaches(sx: Syntax, text: string, protocol: Protocol) {
    exists part :: part in SplitValues(text) && PortPartReaches(sx, part, protocol)
  }

  /** Some packet of the kind meets the rule, as far as its texts tell. */
  predicate Reaches(sx: Syntax, wide: bool, r: Rule, k: Kind) {
    && FamilyHits(r.scope.family, k.v6)
    && AddressReaches(sx, wide, r.sourceAddress, k.v6) && AddressReaches(sx, wide, r.destinationAddress, k.v6)
    && ProtocolsHit(r.protocol, k.protocol)
    && PortReaches(sx, r.sourcePort, k.protocol) && PortReaches(sx, r.destinationPort, k.protocol)
  }

  lemma AddressReached(sx: Syntax, wide: bool, text: string, v6: bool) returns (address: nat)
    requires LawfulAddresses(sx) && AddressReaches(sx, wide, text, v6)
    ensures AddressesHit(sx, wide, text, v6, address)
  {
    var part :| part in SplitValues(text) && AddressPartReaches(sx, wide, part, v6);
    address := if AnyAddress(part) then 0 else sx.parse(TrimSpace(part)).value.network;
    assert AddressHits(sx, wide, part, v6, address);
  }

  lemma PortReached(sx: Syntax, text: string, protocol: Protocol) returns (port: nat)
    requires PortReaches(sx, text, protocol)
    ensures PortsHit(sx, text, protocol, port)
  {
    var part :| part in SplitValues(text) && PortPartReaches(sx, part, protocol);
    port := if AnyPort(part) then 0 else sx.range(TrimSpace(part)).value.0;
    assert PortHits(sx, part, protocol, port);
  }

  /** A kind a rule reaches has a packet the rule admits. */
  lemma Reached(sx: Syntax, wide: bool, r: Rule, k: Kind) returns (p: Packet)
    requires LawfulAddresses(sx) && Reaches(sx, wide, r, k)
    ensures KindOf(p) == k && p.protocol == k.protocol && Hits(sx, wide, r, p)
  {
    var source := AddressReached(sx, wide, r.sourceAddress, k.v6);
    var destination := AddressReached(sx, wide, r.destinationAddress, k.v6);
    var sourcePort := PortReached(sx, r.sourcePort, k.protocol);
    var destinationPort := PortReached(sx, r.destinationPort, k.protocol);
    var names := StateNames(r.states);
    p := Packet(k.v6, k.protocol, source, destination, sourcePort, destinationPort, IfaceName(r.iface),
                if names == [] then "" else names[0]);
  }

  lemma KindProtocol(text: string, p: Packet)
    ensures ProtocolsHit(text, p.protocol) <==> ProtocolsHit(text, KindOf(p).protocol)
  {
    assert forall part :: ProtocolHits(part, p.protocol) <==> ProtocolHits(part, KindOf(p).protocol);
  }

  lemma AddressHitReaches(sx: Syntax, wide: bool, text: string, v6: bool, address: nat)
    requires AddressesHit(sx, wide, text, v6, address)
    ensures AddressReaches(sx, wide, text, v6)
  {
    var part :| part in SplitValues(text) && AddressHits(sx, wide, part, v6, address);
    assert AddressPartReaches(sx, wide, part, v6);
  }

  lemma PortHitReaches(sx: Syntax, text: string, p: Packet, port: nat)
    requires PortsHit(sx, text, p.protocol, port)
    ensures PortReaches(sx, text, KindOf(p).protocol)
  {
    var part :| part in SplitValues(text) && PortHits(sx, part, p.protocol, port);
    assert PortPartReaches(sx, part, KindOf(p).protocol);
  }

  lemma HitReaches(sx: Syntax, wide: bool, r: Rule, p: Packet)
    requires Hits(sx, wide, r, p)
    ensures Reaches(sx, wide, r, KindOf(p))
  {
    AddressHitReaches(sx, wide, r.sourceAddress, p.v6, p.source);
    AddressHitReaches(sx, wide, r.destinationAddress, p.v6, p.destination);
    PortHitReaches(sx, r.sourcePort, p, p.sourcePort);
    PortHitReaches(sx, r.destinationPort, p, p.destinationPort);
    KindProtocol(r.protocol, p);
  }

  // ---- When all of the meaning is kept

  /** The kinds the compiled rules reach: those of a chosen family, and of TCP and UDP where "all" became these. */
  predicate CompiledReaches(sx: Syntax, policy: Policy, provider: Provider, families: seq<Family>, k: Kind) {
    && Chosen(families, k.v6)
    && Reaches(sx, Wide(policy, provider), AsRule(policy), k)
    && (TwoProtocolForm(policy, provider) ==> Portful(k.protocol))
  }

  /** The policy and its compiled form reach the same of the eight kinds. */
  ghost predicate SameReach(sx: Syntax, policy: Policy, provider: Provider, families: seq<Family>) {
    forall k: Kind :: CompiledReaches(sx, policy, provider, families, k) <==> Reaches(sx, false, AsRule(policy), k)
  }

  predicate SingleAddresses(policy: Policy) {
    ',' !in policy.sourceAddress && ',' !in policy.destinationAddress
  }

  lemma SurvivesReaches(sx: Syntax, policy: Policy, provider: Provider, families: seq<Family>, p: Packet)
    requires Survives(sx, policy, provider, families, p) && FamilyHits(policy.family, p.v6)
    ensures CompiledReaches(sx, policy, provider, families, KindOf(p))
  {
    HitReaches(sx, Wide(policy, provider), AsRule(policy), p);
  }

  lemma ChosenWithin(policy: Policy, base: Rule, provider: Provider, v6: bool)
    requires Families(policy.family, base, provider).Some?
    requires Chosen(Families(policy.family, base, provider).value, v6)
    ensures FamilyHits(policy.family, v6)
  {
  }

  /** For one address, a kind it reaches is narrow enough to read it as it stands. */
  lemma NarrowAddress(sx: Syntax, text: string, v6: bool, address: nat)
    requires ',' !in text && AddressReaches(sx, false, text, v6) && LawfulAddresses(sx)
    ensures AddressesHit(sx, true, text, v6, address) <==> AddressesHit(sx, false, text, v6, address)
  {
    OneValue(text);
    TrimTwice(text);
    OneAddress(sx, true, text, v6, address);
    OneAddress(sx, false, text, v6, address);
  }

  lemma WideHits(sx: Syntax, r: Rule, p: Packet)
    requires LawfulAddresses(sx) && ',' !in r.sourceAddress && ',' !in r.destinationAddress
    requires Reaches(sx, false, r, KindOf(p))
    ensures BothAddresses(sx, true, r, p) <==> BothAddresses(sx, false, r, p)
  {
    NarrowAddress(sx, r.sourceAddress, p.v6, p.source);
    NarrowAddress(sx, r.destinationAddress, p.v6, p.destination);
  }

  /** A list that holds every address of one family, so that the wide reading admits those of the other too. */
  predicate Widened(sx: Syntax, text: string) {
    exists part :: part in SplitValues(text) && !AnyAddress(part) && WholeFamily(sx, part)
  }

  predicate WholeFamily(sx: Syntax, part: string) {
    match sx.parse(TrimSpace(part))
    case None => false
    case Some(net) => net.bits == 0
  }

  /** Widening the list adds no address of the family, for the list holds them all. */
  ghost predicate Harmless(sx: Syntax, text: string, v6: bool) {
    Widened(sx, text) ==> forall address: nat :: AddressesHit(sx, false, text, v6, address)
  }

  /** For every kind of packet that the compiled rules reach, neither address list is widened beyond itself. */
  ghost predicate WidensHarmlessly(sx: Syntax, policy: Policy, provider: Provider, families: seq<Family>) {
    Wide(policy, provider) ==>
      forall k: Kind :: CompiledReaches(sx, policy, provider, families, k) ==> HarmlessAddresses(sx, AsRule(policy), k)
  }

  ghost predicate HarmlessAddresses(sx: Syntax, r: Rule, k: Kind) {
    Harmless(sx, r.sourceAddress, k.v6) && Harmless(sx, r.destinationAddress, k.v6)
  }

  lemma WidenedHits(sx: Syntax, text: string, v6: bool, address: nat)
    ensures Widened(sx, text) ==> AddressesHit(sx, true, text, v6, address)
    ensures AddressesHit(sx, false, text, v6, address) ==> AddressesHit(sx, true, text, v6, address)
    ensures AddressesHit(sx, true, text, v6, address) ==> Widened(sx, text) || AddressesHit(sx, false, text, v6, address)
  {
    if Widened(sx, text) {
      var part :| part in SplitValues(text) && !AnyAddress(part) && WholeFamily(sx, part);
      assert AddressHits(sx, true, part, v6, address);
    }
    if part :| part in SplitValues(text) && AddressHits(sx, false, part, v6, address) {
      assert AddressHits(sx, true, part, v6, address);
    }
    if part :| part in SplitValues(text) && AddressHits(sx, true, part, v6, address) {
      assert AddressHits(sx, false, part, v6, address) || (!AnyAddress(part) && WholeFamily(sx, part));
    }
  }

  lemma HarmlessHits(sx: Syntax, r: Rule, p: Packet)
    requires HarmlessAddresses(sx, r, KindOf(p))
    ensures BothAddresses(sx, true, r, p) <==> BothAddresses(sx, false, r, p)
  {
    WidenedHits(sx, r.sourceAddress, p.v6, p.source);
    WidenedHits(sx, r.destinationAddress, p.v6, p.destination);
  }

  lemma NarrowIsWide(sx: Syntax, wide: bool, r: Rule, p: Packet)
    requires BothAddresses(sx, false, r, p)
    ensures BothAddresses(sx, wide, r, p)
  {
    WidenedHits(sx, r.sourceAddress, p.v6, p.source);
    WidenedHits(sx, r.destinationAddress, p.v6, p.destination);
  }

  lemma SameReachSuffices(sx: Syntax, policy: Policy, provider: Provider, families: seq<Family>, p: Packet)
    requires SameReach(sx, policy, provider, families) && WidensHarmlessly(sx, policy, provider, families)
    requires Chosen(families, p.v6) ==> FamilyHits(policy.family, p.v6)
    ensures Survives(sx, policy, provider, families, p) <==> PolicyHits(sx, policy, p)
  {
    var r := AsRule(policy);
    if Survives(sx, policy, provider, families, p) {
      SurvivesReaches(sx, policy, provider, families, p);
      if Wide(policy, provider) {
        HarmlessHits(sx, r, p);
      }
    }
    if PolicyHits(sx, policy, p) {
      HitReaches(sx, false, r, p);
      NarrowIsWide(sx, Wide(policy, provider), r, p);
    }
  }

  lemma SurvivesOne(sx: Syntax, policy: Policy, provider: Provider, families: seq<Family>, k: Kind) returns (p: Packet)
    requires LawfulAddresses(sx) && CompiledReaches(sx, policy, provider, families, k)
    ensures KindOf(p) == k && Survives(sx, policy, provider, families, p)
  {
    p := Reached(sx, Wide(policy, provider), AsRule(policy), k);
  }

  lemma SameReachNeeded(sx: Syntax, policy: Policy, provider: Provider, families: seq<Family>)
    requires LawfulAddresses(sx)
    requires forall v6 :: Chosen(families, v6) ==> FamilyHits(policy.family, v6)
    requires forall p: Packet :: Survives(sx, policy, provider, families, p) <==> PolicyHits(sx, policy, p)
    ensures SameReach(sx, policy, provider, families)
  {
    var r := AsRule(policy);
    forall k: Kind
      ensures CompiledReaches(sx, policy, provider, families, k) <==> Reaches(sx, false, r, k)
    {
      if CompiledReaches(sx, policy, provider, families, k) {
        var p := SurvivesOne(sx, policy, provider, families, k);
        assert PolicyHits(sx, policy, p);
        HitReaches(sx, false, r, p);
      } else if Reaches(sx, false, r, k) {
        var p := Reached(sx, false, r, k);
        assert PolicyHits(sx, policy, p);
        SurvivesReaches(sx, policy, provider, families, p);
      }
    }
  }

  /** A packet from any source at all, if the source list is widened. */
  lemma SourceIsFree(sx: Syntax, policy: Policy, provider: Provider, families: seq<Family>, p: Packet, address: nat)
    requires Wide(policy, provider) && Survives(sx, policy, provider, families, p) && Widened(sx, policy.sourceAddress)
    ensures Survives(sx, policy, provider, families, p.(source := address))
  {
    WidenedHits(sx, policy.sourceAddress, p.v6, address);
  }

  lemma DestinationIsFree(sx: Syntax, policy: Policy, provider: Provider, families: seq<Family>, p: Packet, address: nat)
    requires Wide(policy, provider) && Survives(sx, policy, provider, families, p) && Widened(sx, policy.destinationAddress)
    ensures Survives(sx, policy, provider, families, p.(destination := address))
  {
    WidenedHits(sx, policy.destinationAddress, p.v6, address);
  }

  lemma HarmlessNeeded(sx: Syntax, policy: Policy, provider: Provider, families: seq<Family>)
    requires LawfulAddresses(sx)
    requires forall p: Packet :: Survives(sx, policy, provider, families, p) <==> PolicyHits(sx, policy, p)
    ensures WidensHarmlessly(sx, policy, provider, families)
  {
    if Wide(policy, provider) {
      forall k: Kind | CompiledReaches(sx, policy, provider, families, k) ensures HarmlessAddresses(sx, AsRule(policy), k) {
        var p := SurvivesOne(sx, policy, provider, families, k);
        forall address: nat | Widened(sx, policy.sourceAddress)
          ensures AddressesHit(sx, false, policy.sourceAddress, k.v6, address)
        {
          SourceIsFree(sx, policy, provider, families, p, address);
          assert PolicyHits(sx, policy, p.(source := address));
        }
        forall address: nat | Widened(sx, policy.destinationAddress)
          ensures AddressesHit(sx, false, policy.destinationAddress, k.v6, address)
        {
          DestinationIsFree(sx, policy, provider, families, p, address);
          assert PolicyHits(sx, policy, p.(destination := address));
        }
      }
    }
  }

  /** With one text per address, reaching the same kinds is enough. */
  lemma SingleWidensHarmlessly(sx: Syntax, policy: Policy, provider: Provider, families: seq<Family>)
    requires LawfulAddresses(sx) && SingleAddresses(policy) && SameReach(sx, policy, provider, families)
    ensures WidensHarmlessly(sx, policy, provider, families)
  {
    forall k: Kind | CompiledReaches(sx, policy, provider, families, k) ensures HarmlessAddresses(sx, AsRule(policy), k) {
      assert Reaches(sx, false, AsRule(policy), k);
      SingleHarmless(sx, policy.sourceAddress, k.v6);
      SingleHarmless(sx, policy.destinationAddress, k.v6);
    }
  }

  lemma SingleHarmless(sx: Syntax, text: string, v6: bool)
    requires LawfulAddresses(sx) && ',' !in text && AddressReaches(sx, false, text, v6)
    ensures Harmless(sx, text, v6)
  {
    forall address: nat | Widened(sx, text) ensures AddressesHit(sx, false, text, v6, address) {
      WidenedHits(sx, text, v6, address);
      NarrowAddress(sx, text, v6, address);
    }
  }

  /** The compiled rules admit exactly the packets the policy speaks of. */
  ghost predicate MeaningKept(sx: Syntax, policy: Policy, provider: Provider)
    requires Compiled(sx, policy, provider).Success?
  {
    forall p: Packet :: AnyHits(sx, false, Compiled(sx, policy, provider).value, p) <==> PolicyHits(sx, policy, p)
  }

  /**
   * Compiling keeps a policy's meaning exactly when the policy and its compiled form reach the same of the eight kinds
   * of packet, and firewalld's wide reading adds no address to a list; for single addresses the kinds alone decide.
   */
  lemma MeaningKeptIff(sx: Syntax, policy: Policy, provider: Provider)
    requires Lawful(sx) && Compiled(sx, policy, provider).Success?
    ensures Families(policy.family, Base(policy, provider), provider).Some?
    ensures var families := Families(policy.family, Base(policy, provider), provider).value;
            && (MeaningKept(sx, policy, provider)
                <==> SameReach(sx, policy, provider, families) && WidensHarmlessly(sx, policy, provider, families))
            && (SingleAddresses(policy) || !Wide(policy, provider)
                ==> (MeaningKept(sx, policy, provider) <==> SameReach(sx, policy, provider, families)))
  {
    var rules, families := Compiled(sx, policy, provider).value, Families(policy.family, Base(policy, provider), provider).value;
    forall p: Packet ensures AnyHits(sx, false, rules, p) <==> Survives(sx, policy, provider, families, p) {
      CompiledExactly(sx, policy, provider, p);
    }
    SurvivalIff(sx, policy, provider, families);
    if SingleAddresses(policy) && SameReach(sx, policy, provider, families) {
      SingleWidensHarmlessly(sx, policy, provider, families);
    }
  }

  lemma SurvivalIff(sx: Syntax, policy: Policy, provider: Provider, families: seq<Family>)
    requires LawfulAddresses(sx) && Families(policy.family, Base(policy, provider), provider) == Some(families)
    ensures (forall p: Packet :: Survives(sx, policy, provider, families, p) <==> PolicyHits(sx, policy, p))
            <==> SameReach(sx, policy, provider, families) && WidensHarmlessly(sx, policy, provider, families)
  {
    forall v6 | Chosen(families, v6) ensures FamilyHits(policy.family, v6) {
      ChosenWithin(policy, Base(policy, provider), provider, v6);
    }
    if SameReach(sx, policy, provider, families) && WidensHarmlessly(sx, policy, provider, families) {
      forall p: Packet ensures Survives(sx, policy, provider, families, p) <==> PolicyHits(sx, policy, p) {
        SameReachSuffices(sx, policy, provider, families, p);
      }
    } else if forall p: Packet :: Survives(sx, policy, provider, families, p) <==> PolicyHits(sx, policy, p) {
      SameReachNeeded(sx, policy, provider, families);
      HarmlessNeeded(sx, policy, provider, families);
    }
  }

  // ---- What the compiled rules look like

  ghost predicate Acts(sx: Syntax, provider: Provider, families: seq<Family>, base: Rule, x: Rule) {
    && x.scope.provider == provider && x.scope.family in families && NormalizeRule(sx, x) == Success(x)
    && NormalAction(base.action) == Some(x.action) && x.iface == IfaceName(base.iface)
    && x.description == TrimSpace(base.description) && x.priority == base.priority
  }

  lemma ScopeOf(provider: Provider, f: Family)
    requires ScopeFor(provider, f).Some?
    ensures ScopeFor(provider, f).value.provider == provider && ScopeFor(provider, f).value.family == f
  {
  }

  lemma UnsetPriority(r: Rule)
    requires r.nativeKind.Unset?
    ensures NormalPriority(r) == Some(r.priority)
  {
  }

  lemma OneFamilyActs(sx: Syntax, base: Rule, provider: Provider, f: Family, x: Rule)
    requires Lawful(sx) && CompileFor(sx, base, provider, f).Success? && base.nativeKind.Unset?
    requires x in CompileFor(sx, base, provider, f).value
    ensures x.scope.family == f && Acts(sx, provider, [f], base, x)
  {
    ScopeOf(provider, f);
    var r := base.(scope := ScopeFor(provider, f).value);
    ExpandActs(sx, r);
    UnsetPriority(r);
    assert ActsAs(r, x);
  }

  lemma {:induction false} CompileAllActs(sx: Syntax, base: Rule, provider: Provider, families: seq<Family>)
    requires Lawful(sx) && CompileAll(sx, base, provider, families).Success? && base.nativeKind.Unset?
    ensures forall x :: x in CompileAll(sx, base, provider, families).value ==> Acts(sx, provider, families, base, x)
  {
    if families != [] {
      var before, f := families[..|families| - 1], families[|families| - 1];
      CompileAllActs(sx, base, provider, before);
      forall x | x in CompileFor(sx, base, provider, f).value
        ensures Acts(sx, provider, families, base, x)
      {
        OneFamilyActs(sx, base, provider, f, x);
      }
      assert forall g :: g in before || g == f ==> g in families;
    }
  }

  /**
   * Every compiled rule is in normal form, for the provider and a chosen family; it takes the policy's
   * action, interface and description, and on firewalld alone its priority.
   */
  lemma CompiledActs(sx: Syntax, policy: Policy, provider: Provider, x: Rule)
    requires Lawful(sx) && Compiled(sx, policy, provider).Success? && x in Compiled(sx, policy, provider).value
    ensures Families(policy.family, Base(policy, provider), provider).Some?
    ensures x.scope.family in Families(policy.family, Base(policy, provider), provider).value
    ensures x.scope.provider == provider && NormalizeRule(sx, x) == Success(x)
    ensures NormalAction(policy.action) == Some(x.action) && x.iface == IfaceName(policy.iface)
    ensures x.description == TrimSpace(policy.description)
    ensures x.priority == if provider.Firewalld? then policy.priority else None
  {
    var families := Families(policy.family, Base(policy, provider), provider).value;
    CompileAllActs(sx, Base(policy, provider), provider, families);
    assert Acts(sx, provider, families, Base(policy, provider), x);
  }

  lemma CompileNext(sx: Syntax, base: Rule, provider: Provider, before: seq<Family>, f: Family)
    requires CompileAll(sx, base, provider, before + [f]).Success?
    ensures CompileAll(sx, base, provider, before).Success? && CompileFor(sx, base, provider, f).Success?
    ensures CompileAll(sx, base, provider, before + [f]).value
            == CompileAll(sx, base, provider, before).value + CompileFor(sx, base, provider, f).value
  {
    assert (before + [f])[..|before|] == before;
  }

  lemma FirstHalf(sx: Syntax, base: Rule, provider: Provider, f: Family)
    requires CompileAll(sx, base, provider, [f]).Success?
    ensures CompileFor(sx, base, provider, f).Success?
    ensures CompileAll(sx, base, provider, [f]).value == CompileFor(sx, base, provider, f).value
  {
    assert [f] == [] + [f];
    CompileNext(sx, base, provider, [], f);
    assert CompileAll(sx, base, provider, []).value == [];
    assert [] + CompileFor(sx, base, provider, f).value == CompileFor(sx, base, provider, f).value;
  }

  lemma TwoHalves(sx: Syntax, base: Rule, provider: Provider)
    requires CompileAll(sx, base, provider, [IPv4, IPv6]).Success?
    ensures CompileFor(sx, base, provider, IPv4).Success? && CompileFor(sx, base, provider, IPv6).Success?
    ensures CompileAll(sx, base, provider, [IPv4, IPv6]).value
            == CompileFor(sx, base, provider, IPv4).value + CompileFor(sx, base, provider, IPv6).value
  {
    Pair(IPv4, IPv6);
    CompileNext(sx, base, provider, [IPv4], IPv6);
    FirstHalf(sx, base, provider, IPv4);
  }

  /** No packet meets both halves of an inet policy that was split by family. */
  lemma HalvesDisjoint(sx: Syntax, base: Rule, provider: Provider, p: Packet)
    requires Lawful(sx) && CompileAll(sx, base, provider, [IPv4, IPv6]).Success?
    ensures CompileFor(sx, base, provider, IPv4).Success? && CompileFor(sx, base, provider, IPv6).Success?
    ensures var half4, half6 := CompileFor(sx, base, provider, IPv4).value, CompileFor(sx, base, provider, IPv6).value;
            && CompileAll(sx, base, provider, [IPv4, IPv6]).value == half4 + half6
            && !(AnyHits(sx, false, half4, p) && AnyHits(sx, false, half6, p))
  {
    TwoHalves(sx, base, provider);
    CompileForHits(sx, base, provider, IPv4, p);
    CompileForHits(sx, base, provider, IPv6, p);
  }
}
