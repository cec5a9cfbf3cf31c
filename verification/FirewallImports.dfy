/** Converting a rule of one firewall for another: expanding it, storing every atom and compiling it again. */
module FirewallImports {
  import opened Text
  import opened FirewallRules
  import opened FirewallNormal
  import opened FirewallExpansion
  import opened FirewallFamilies
  import opened FirewallPolicies
  import opened FirewallPolicyProofs
  import opened FirewallStored

  function ConvertOne(sx: Syntax, atom: Rule, provider: Provider): Result<seq<Rule>, FilterError> {
    match FromDomain(sx, atom)
    case Failure(e) => Failure(e)
    case Success(policy) => Compiled(sx, policy, provider)
  }

  function ConvertAll(sx: Syntax, atoms: seq<Rule>, provider: Provider): Result<seq<Rule>, FilterError> {
    if atoms == [] then Success([])
    else match ConvertAll(sx, atoms[..|atoms| - 1], provider)
         case Failure(e) => Failure(e)
         case Success(before) =>
           match ConvertOne(sx, atoms[|atoms| - 1], provider)
           case Failure(e) => Failure(e)
           case Success(rules) => Success(before + rules)
  }

  /** The rule as the selected provider gets it. */
  function Converted(sx: Syntax, rule: Rule, provider: Provider): Result<seq<Rule>, FilterError> {
    match ExpandRule(sx, rule)
    case Failure(e) => Failure(e)
    case Success(atoms) => ConvertAll(sx, atoms, provider)
  }

  lemma {:induction false} ConvertAllFails(sx: Syntax, atoms: seq<Rule>, provider: Provider, i: nat)
    requires i <= |atoms| && ConvertAll(sx, atoms[..i], provider).Failure?
    ensures ConvertAll(sx, atoms, provider) == ConvertAll(sx, atoms[..i], provider)
    decreases |atoms|
  {
    if i == |atoms| {
      assert atoms[..i] == atoms;
    } else {
      assert atoms[..|atoms| - 1][..i] == atoms[..i];
      ConvertAllFails(sx, atoms[..|atoms| - 1], provider, i);
    }
  }

  lemma ConvertNext(sx: Syntax, atoms: seq<Rule>, provider: Provider, i: nat, before: seq<Rule>, rules: seq<Rule>)
    requires i < |atoms| && ConvertAll(sx, atoms[..i], provider) == Success(before)
    requires ConvertOne(sx, atoms[i], provider) == Success(rules)
    ensures ConvertAll(sx, atoms[..i + 1], provider) == Success(before + rules)
  {
    assert atoms[..i + 1][..i] == atoms[..i];
  }

  lemma ConvertStops(sx: Syntax, atoms: seq<Rule>, provider: Provider, i: nat, error: FilterError)
    requires i < |atoms| && ConvertAll(sx, atoms[..i], provider).Success?
    requires ConvertOne(sx, atoms[i], provider) == Failure(error)
    ensures ConvertAll(sx, atoms, provider) == Failure(error)
  {
    assert atoms[..i + 1][..i] == atoms[..i];
    ConvertAllFails(sx, atoms, provider, i + 1);
  }

  method ConvertImportedFirewallRule(sx: Syntax, rule: Rule, provider: Provider)
    returns (result: Result<seq<Rule>, FilterError>)
    ensures result == Converted(sx, rule, provider)
  {
    var expanded := ExpandRule(sx, rule);
    if expanded.Failure? {
      return expanded;
    }
    result := ConvertAtoms(sx, expanded.value, provider);
  }

  method ConvertAtoms(sx: Syntax, atoms: seq<Rule>, provider: Provider) returns (result: Result<seq<Rule>, FilterError>)
    ensures result == ConvertAll(sx, atoms, provider)
  {
    var converted := [];
    for i := 0 to |atoms|
      invariant ConvertAll(sx, atoms[..i], provider) == Success(converted)
    {
      var policy := FromDomain(sx, atoms[i]);
      if policy.Failure? {
        ConvertStops(sx, atoms, provider, i, policy.error);
        return Failure(policy.error);
      }
      var compiled := RulesForProvider(sx, policy.value, provider);
      if compiled.Failure? {
        ConvertStops(sx, atoms, provider, i, compiled.error);
        return compiled;
      }
      ConvertNext(sx, atoms, provider, i, converted, compiled.value);
      converted := converted + compiled.value;
    }
    assert atoms[..|atoms|] == atoms;
    result := Success(converted);
  }

  // ---- The converted rules admit what the rule admits

  /** The normal form of a firewalld rule takes a zero-length prefix of an inet rule for every address. */
  predicate ReadsWide(scope: Scope) {
    scope.provider.Firewalld? && scope.family.Inet?
  }

  lemma ConvertOneHits(sx: Syntax, atom: Rule, provider: Provider, p: Packet)
    requires Lawful(sx) && NormalizeRule(sx, atom) == Success(atom) && ConvertOne(sx, atom, provider).Success?
    ensures AnyHits(sx, false, ConvertOne(sx, atom, provider).value, p) <==> Hits(sx, false, atom, p)
  {
    StoredCompilesExactly(sx, atom, provider, p);
    NormalizeKeeps(sx, atom, false, p);
  }

  lemma AtomsSplit(sx: Syntax, atoms: seq<Rule>, p: Packet)
    requires atoms != [] && DistinctAtoms(sx, atoms)
    ensures var before, atom := atoms[..|atoms| - 1], atoms[|atoms| - 1];
            && DistinctAtoms(sx, before) && NormalizeRule(sx, atom) == Success(atom)
            && (AnyHits(sx, false, atoms, p) <==> AnyHits(sx, false, before, p) || Hits(sx, false, atom, p))
  {
    LastMembers(atoms);
  }

  lemma {:induction false} ConvertAllHits(sx: Syntax, atoms: seq<Rule>, provider: Provider, p: Packet)
    requires Lawful(sx) && DistinctAtoms(sx, atoms) && ConvertAll(sx, atoms, provider).Success?
    ensures AnyHits(sx, false, ConvertAll(sx, atoms, provider).value, p) <==> AnyHits(sx, false, atoms, p)
  {
    if atoms != [] {
      var before, atom := atoms[..|atoms| - 1], atoms[|atoms| - 1];
      AtomsSplit(sx, atoms, p);
      ConvertAllHits(sx, before, provider, p);
      ConvertOneHits(sx, atom, provider, p);
      AnyHitsConcat(sx, ConvertAll(sx, before, provider).value, ConvertOne(sx, atom, provider).value, p);
    }
  }

  lemma AtomsNormal(sx: Syntax, rules: seq<Rule>, x: Rule)
    requires Atoms(sx, rules).Success? && x in rules
    ensures NormalizeRule(sx, x).Success?
  {
    LastMembers(rules);
    if x != rules[|rules| - 1] {
      AtomsNormal(sx, rules[..|rules| - 1], x);
    }
  }

  lemma NormalInet(sx: Syntax, x: Rule)
    requires NormalizeRule(sx, x).Success? && x.scope.family.Inet?
    ensures x.scope.provider.Firewalld?
  {
  }

  /** Of the inet rules that are expanded within one scope, firewalld's alone admit anything. */
  lemma InetIsFirewalld(sx: Syntax, wide: bool, r: Rule, protocols: seq<string>, p: Packet)
    requires LawfulPorts(sx) && Protocols(sx, r) == Success(protocols) && Atoms(sx, Combinations(r, protocols)).Success?
    requires r.scope.family.Inet? && Hits(sx, wide, r, p)
    ensures r.scope.provider.Firewalld?
  {
    CombinationsHit(sx, wide, r, p);
    var x :| x in Combinations(r, protocols) && Hits(sx, wide, x, p);
    AtomsNormal(sx, Combinations(r, protocols), x);
    NormalInet(sx, x);
  }

  lemma ScopeReads(sx: Syntax, r: Rule, protocols: seq<string>, p: Packet)
    requires LawfulPorts(sx) && Protocols(sx, r) == Success(protocols) && Atoms(sx, Combinations(r, protocols)).Success?
    ensures Hits(sx, r.scope.family.Inet?, r, p) <==> Hits(sx, ReadsWide(r.scope), r, p)
  {
    if r.scope.family.Inet? && !r.scope.provider.Firewalld? {
      if Hits(sx, true, r, p) {
        InetIsFirewalld(sx, true, r, protocols, p);
      }
      if Hits(sx, false, r, p) {
        InetIsFirewalld(sx, false, r, protocols, p);
      }
    }
  }

  /** The expansion of any rule admits exactly its packets. */
  lemma ExpandRuleExact(sx: Syntax, r: Rule, p: Packet)
    requires Lawful(sx) && RefusedPortsIdle(sx) && ExpandRule(sx, r).Success?
    ensures AnyHits(sx, false, ExpandRule(sx, r).value, p) <==> Hits(sx, ReadsWide(r.scope), r, p)
    ensures DistinctAtoms(sx, ExpandRule(sx, r).value)
  {
    if SplitsFamily(r.scope) {
      ExpandFamiliesExact(sx, false, r, p);
    } else {
      ExpandExact(sx, false, r, p);
      ScopeReads(sx, r, Protocols(sx, r).value, p);
    }
  }

  /** Whatever firewalls a rule goes from and to, the converted rules admit exactly the packets it admits. */
  lemma ConvertedExactly(sx: Syntax, rule: Rule, provider: Provider, p: Packet)
    requires Lawful(sx) && RefusedPortsIdle(sx) && Converted(sx, rule, provider).Success?
    ensures AnyHits(sx, false, Converted(sx, rule, provider).value, p) <==> Hits(sx, ReadsWide(rule.scope), rule, p)
  {
    ExpandRuleExact(sx, rule, p);
    ConvertAllHits(sx, ExpandRule(sx, rule).value, provider, p);
  }

  // ---- When the converted rules admit what the rule admits as it stands

  /** The wide reading reaches no further kind of packet, and widens no list beyond itself. */
  ghost predicate ReadsAlike(sx: Syntax, r: Rule) {
    && (forall k: Kind :: Reaches(sx, true, r, k) <==> Reaches(sx, false, r, k))
    && (forall k: Kind :: Reaches(sx, true, r, k) ==> HarmlessAddresses(sx, r, k))
  }

  ghost predicate HitsAlike(sx: Syntax, r: Rule) {
    forall p: Packet :: Hits(sx, true, r, p) <==> Hits(sx, false, r, p)
  }

  lemma AlikeHits(sx: Syntax, r: Rule, p: Packet)
    requires ReadsAlike(sx, r)
    ensures Hits(sx, true, r, p) <==> Hits(sx, false, r, p)
  {
    if Hits(sx, true, r, p) {
      HitReaches(sx, true, r, p);
      HarmlessHits(sx, r, p);
    } else if Hits(sx, false, r, p) {
      NarrowIsWide(sx, true, r, p);
    }
  }

  lemma AlikeReaches(sx: Syntax, r: Rule, k: Kind)
    requires LawfulAddresses(sx) && HitsAlike(sx, r)
    ensures Reaches(sx, true, r, k) <==> Reaches(sx, false, r, k)
  {
    if Reaches(sx, true, r, k) {
      var p := Reached(sx, true, r, k);
      HitReaches(sx, false, r, p);
    } else if Reaches(sx, false, r, k) {
      var p := Reached(sx, false, r, k);
      HitReaches(sx, true, r, p);
    }
  }

  lemma AlikeSource(sx: Syntax, r: Rule, p: Packet, address: nat)
    requires HitsAlike(sx, r) && Hits(sx, true, r, p) && Widened(sx, r.sourceAddress)
    ensures AddressesHit(sx, false, r.sourceAddress, p.v6, address)
  {
    WidenedHits(sx, r.sourceAddress, p.v6, address);
    assert Hits(sx, true, r, p.(source := address));
  }

  lemma AlikeDestination(sx: Syntax, r: Rule, p: Packet, address: nat)
    requires HitsAlike(sx, r) && Hits(sx, true, r, p) && Widened(sx, r.destinationAddress)
    ensures AddressesHit(sx, false, r.destinationAddress, p.v6, address)
  {
    WidenedHits(sx, r.destinationAddress, p.v6, address);
    assert Hits(sx, true, r, p.(destination := address));
  }

  lemma AlikeHarmless(sx: Syntax, r: Rule, k: Kind)
    requires LawfulAddresses(sx) && HitsAlike(sx, r) && Reaches(sx, true, r, k)
    ensures HarmlessAddresses(sx, r, k)
  {
    var p := Reached(sx, true, r, k);
    forall address: nat | Widened(sx, r.sourceAddress) ensures AddressesHit(sx, false, r.sourceAddress, k.v6, address) {
      AlikeSource(sx, r, p, address);
    }
    forall address: nat | Widened(sx, r.destinationAddress)
      ensures AddressesHit(sx, false, r.destinationAddress, k.v6, address)
    {
      AlikeDestination(sx, r, p, address);
    }
  }

  lemma HitsAlikeIff(sx: Syntax, r: Rule)
    requires LawfulAddresses(sx)
    ensures HitsAlike(sx, r) <==> ReadsAlike(sx, r)
  {
    if ReadsAlike(sx, r) {
      forall p: Packet ensures Hits(sx, true, r, p) <==> Hits(sx, false, r, p) {
        AlikeHits(sx, r, p);
      }
    }
    if HitsAlike(sx, r) {
      forall k: Kind ensures Reaches(sx, true, r, k) <==> Reaches(sx, false, r, k) {
        AlikeReaches(sx, r, k);
      }
      forall k: Kind | Reaches(sx, true, r, k) ensures HarmlessAddresses(sx, r, k) {
        AlikeHarmless(sx, r, k);
      }
    }
  }

  /** Some rules admit exactly the packets of a rule in one reading. */
  ghost predicate AdmitAs(sx: Syntax, rules: seq<Rule>, wide: bool, r: Rule) {
    forall p: Packet :: AnyHits(sx, false, rules, p) <==> Hits(sx, wide, r, p)
  }

  lemma AdmitNarrowIff(sx: Syntax, rules: seq<Rule>, wide: bool, r: Rule)
    requires AdmitAs(sx, rules, wide, r)
    ensures AdmitAs(sx, rules, false, r) <==> (wide ==> HitsAlike(sx, r))
  {
    if AdmitAs(sx, rules, false, r) && wide {
      forall p: Packet ensures Hits(sx, true, r, p) <==> Hits(sx, false, r, p) {
        assert AnyHits(sx, false, rules, p) <==> Hits(sx, wide, r, p);
      }
    }
    if HitsAlike(sx, r) || !wide {
      forall p: Packet ensures AnyHits(sx, false, rules, p) <==> Hits(sx, false, r, p) {
        assert AnyHits(sx, false, rules, p) <==> Hits(sx, wide, r, p);
      }
    }
  }

  /**
   * They admit the rule's packets as it stands for every rule but firewalld's inet rules, and for these exactly when
   * both readings are alike.
   */
  lemma ConvertedAsItStandsIff(sx: Syntax, rule: Rule, provider: Provider, rules: seq<Rule>)
    requires Lawful(sx) && RefusedPortsIdle(sx) && Converted(sx, rule, provider) == Success(rules)
    ensures AdmitAs(sx, rules, false, rule) <==> (ReadsWide(rule.scope) ==> ReadsAlike(sx, rule))
  {
    forall p: Packet ensures AnyHits(sx, false, rules, p) <==> Hits(sx, ReadsWide(rule.scope), rule, p) {
      ConvertedExactly(sx, rule, provider, p);
    }
    AdmitNarrowIff(sx, rules, ReadsWide(rule.scope), rule);
    HitsAlikeIff(sx, rule);
  }

  // ---- And do what the rule does

  predicate ActsLike(provider: Provider, r: Rule, x: Rule) {
    && x.scope.provider == provider && NormalAction(r.action) == Some(x.action)
    && x.iface == IfaceName(r.iface) && x.description == TrimSpace(r.description)
  }

  ghost predicate AllActLike(sx: Syntax, provider: Provider, r: Rule, rules: seq<Rule>) {
    forall x :: x in rules ==> NormalizeRule(sx, x) == Success(x) && ActsLike(provider, r, x)
  }

  lemma AtomActions(sx: Syntax, r: Rule, atom: Rule)
    requires NormalizeRule(sx, atom) == Success(atom) && ActsAs(r, atom)
    ensures NormalAction(atom.action) == NormalAction(r.action) && IfaceName(atom.iface) == IfaceName(r.iface)
    ensures TrimSpace(atom.description) == TrimSpace(r.description)
  {
    NormalFields(sx, atom);
    TrimTwice(r.description);
    IfaceStable(r.iface);
  }

  lemma ConvertOneActs(sx: Syntax, r: Rule, atom: Rule, provider: Provider, rules: seq<Rule>)
    requires Lawful(sx) && NormalizeRule(sx, atom) == Success(atom) && ActsAs(r, atom)
    requires ConvertOne(sx, atom, provider) == Success(rules)
    ensures AllActLike(sx, provider, r, rules)
  {
    AtomActions(sx, r, atom);
    forall x | x in rules ensures NormalizeRule(sx, x) == Success(x) && ActsLike(provider, r, x) {
      CompiledActs(sx, FromDomain(sx, atom).value, provider, x);
    }
  }

  lemma {:induction false} ConvertAllActs(sx: Syntax, r: Rule, atoms: seq<Rule>, provider: Provider)
    requires Lawful(sx) && DistinctAtoms(sx, atoms) && (forall x :: x in atoms ==> ActsAs(r, x))
    requires ConvertAll(sx, atoms, provider).Success?
    ensures AllActLike(sx, provider, r, ConvertAll(sx, atoms, provider).value)
  {
    if atoms != [] {
      LastMembers(atoms);
      ConvertAllActs(sx, r, atoms[..|atoms| - 1], provider);
      var last := atoms[|atoms| - 1];
      ConvertOneActs(sx, r, last, provider, ConvertOne(sx, last, provider).value);
    }
  }

  /** Every converted rule is normal, for the selected provider, with the rule's action, interface and description. */
  lemma ConvertedActs(sx: Syntax, rule: Rule, provider: Provider)
    requires Lawful(sx) && RefusedPortsIdle(sx) && Converted(sx, rule, provider).Success?
    ensures AllActLike(sx, provider, rule, Converted(sx, rule, provider).value)
  {
    var atoms, p := ExpandRule(sx, rule).value, Packet(false, Tcp, 0, 0, 0, 0, "", "");
    ExpandRuleExact(sx, rule, p);
    if SplitsFamily(rule.scope) {
      ExpandFamiliesExact(sx, false, rule, p);
    } else {
      ExpandActs(sx, rule);
    }
    ConvertAllActs(sx, rule, atoms, provider);
  }
}
