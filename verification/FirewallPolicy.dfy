/** Provider-neutral firewall policies: storing a rule, and compiling the stored policy for a provider. */
module FirewallPolicies {
  import opened Text
  import opened FirewallRules
  import opened FirewallExpansion

  /** The rule columns of a stored policy. */
  datatype Policy = Policy(
    family: Family, protocol: string, sourceAddress: string, sourcePort: string, destinationAddress: string,
    destinationPort: string, iface: string, connectionStates: string, action: string, description: string,
    compatibilityError: string, priority: Option<int>)

  /** The policy a rule is stored as. */
  function FromDomain(sx: Syntax, rule: Rule): Result<Policy, FilterError> {
    match NormalizeRule(sx, rule)
    case Failure(e) => Failure(e)
    case Success(n) =>
      if n.nativeKind.OtherKind? then Failure(UnsupportedScope)
      else Success(Policy(n.scope.family, n.protocol, n.sourceAddress, n.sourcePort, n.destinationAddress,
                          n.destinationPort, n.iface, Join(n.states, ','), n.action, n.description, "",
                          if n.scope.provider.Firewalld? then n.priority else None))
  }

  function PolicyStates(policy: Policy): seq<string> {
    if policy.connectionStates == "" then [] else Split(policy.connectionStates, ',')
  }

  /** The policy read as a rule, as it stands. */
  function AsRule(policy: Policy): Rule {
    Rule(Scope(OtherProvider(""), policy.family, "", "", ""), Unset, policy.protocol, policy.sourceAddress,
         policy.sourcePort, policy.destinationAddress, policy.destinationPort, policy.iface, PolicyStates(policy),
         policy.action, None, policy.description)
  }

  /** The packets a policy speaks of. */
  predicate PolicyHits(sx: Syntax, policy: Policy, p: Packet) {
    Hits(sx, false, AsRule(policy), p)
  }

  // ---- Compiling

  /** Only UFW writes "all" with a destination port; elsewhere it stands for TCP and UDP. */
  predicate TwoProtocolForm(policy: Policy, provider: Provider) {
    !provider.Ufw? && Canon(policy.protocol) == "all"
    && TrimSpace(policy.sourcePort) == "" && TrimSpace(policy.destinationPort) != ""
  }

  function Base(policy: Policy, provider: Provider): Rule {
    AsRule(policy).(
      protocol := if TwoProtocolForm(policy, provider) then "tcp/udp" else policy.protocol,
      priority := if provider.Firewalld? then policy.priority else None)
  }

  predicate LooksIPv4(text: string) {
    TrimSpace(text) != "" && ':' !in TrimSpace(text)
  }

  predicate LooksIPv6(text: string) {
    TrimSpace(text) != "" && ':' in TrimSpace(text)
  }

  function AddressFamilies(r: Rule): (bool, bool) {
    (LooksIPv4(r.sourceAddress) || LooksIPv4(r.destinationAddress),
     LooksIPv6(r.sourceAddress) || LooksIPv6(r.destinationAddress))
  }

  /** The families a base rule is compiled for; none when an inet rule has addresses of both. */
  function Families(family: Family, base: Rule, provider: Provider): Option<seq<Family>> {
    if provider.Firewalld? || !family.Inet? then Some([family])
    else
      var (hasIPv4, hasIPv6) := AddressFamilies(base);
      if hasIPv4 && hasIPv6 then None
      else if hasIPv6 || Lower(base.protocol) == "icmpv6" then Some([IPv6])
      else if hasIPv4 then Some([IPv4])
      else Some([IPv4, IPv6])
  }

  function ScopeFor(provider: Provider, family: Family): Option<Scope> {
    match provider
    case Firewalld => Some(Scope(provider, family, "", "public", ""))
    case Ufw => Some(Scope(provider, family, "", "", "incoming"))
    case OtherProvider(_) => None
    case _ => Some(Scope(provider, family, "filter", "", "1PANEL_BASIC"))
  }

  function CompileFor(sx: Syntax, base: Rule, provider: Provider, family: Family): Result<seq<Rule>, FilterError> {
    match ScopeFor(provider, family)
    case None => Failure(ProviderUnavailable)
    case Some(scope) => ExpandAtomicRules(sx, base.(scope := scope))
  }

  function CompileAll(sx: Syntax, base: Rule, provider: Provider, families: seq<Family>): Result<seq<Rule>, FilterError> {
    if families == [] then Success([])
    else match CompileAll(sx, base, provider, families[..|families| - 1])
         case Failure(e) => Failure(e)
         case Success(before) =>
           match CompileFor(sx, base, provider, families[|families| - 1])
           case Failure(e) => Failure(e)
           case Success(rules) => Success(before + rules)
  }

  function Compiled(sx: Syntax, policy: Policy, provider: Provider): Result<seq<Rule>, FilterError> {
    if policy.compatibilityError != "" then Failure(UnsupportedScope)
    else match Families(policy.family, Base(policy, provider), provider)
         case None => Failure(UnsupportedScope)
         case Some(families) => CompileAll(sx, Base(policy, provider), provider, families)
  }

  method RuleAddressFamilies(r: Rule) returns (hasIPv4: bool, hasIPv6: bool)
    ensures (hasIPv4, hasIPv6) == AddressFamilies(r)
  {
    hasIPv4, hasIPv6 := false, false;
    var addresses := [r.sourceAddress, r.destinationAddress];
    for i := 0 to |addresses|
      invariant hasIPv4 <==> exists k :: 0 <= k < i && LooksIPv4(addresses[k])
      invariant hasIPv6 <==> exists k :: 0 <= k < i && LooksIPv6(addresses[k])
    {
      var address := TrimSpace(addresses[i]);
      if address == "" {
        continue;
      }
      if ':' in address {
        hasIPv6 := true;
      } else {
        hasIPv4 := true;
      }
    }
    assert addresses[0] == r.sourceAddress && addresses[1] == r.destinationAddress;
  }

  method RulesForProvider(sx: Syntax, policy: Policy, provider: Provider) returns (result: Result<seq<Rule>, FilterError>)
    ensures result == Compiled(sx, policy, provider)
  {
    if policy.compatibilityError != "" {
      return Failure(UnsupportedScope);
    }
    var base := AsRule(policy);
    if !provider.Ufw? && Canon(base.protocol) == "all" && TrimSpace(base.sourcePort) == ""
       && TrimSpace(base.destinationPort) != "" {
      base := base.(protocol := "tcp/udp");
    }
    if provider.Firewalld? {
      base := base.(priority := policy.priority);
    }
    var families := ChooseFamilies(policy.family, base, provider);
    if families.None? {
      return Failure(UnsupportedScope);
    }
    result := CompileFamilies(sx, base, provider, families.value);
  }

  method ChooseFamilies(family: Family, base: Rule, provider: Provider) returns (families: Option<seq<Family>>)
    ensures families == Families(family, base, provider)
  {
    families := Some([family]);
    if !provider.Firewalld? && family.Inet? {
      var hasIPv4, hasIPv6 := RuleAddressFamilies(base);
      if hasIPv4 && hasIPv6 {
        families := None;
      } else if hasIPv6 || Lower(base.protocol) == "icmpv6" {
        families := Some([IPv6]);
      } else if hasIPv4 {
        families := Some([IPv4]);
      } else {
        families := Some([IPv4, IPv6]);
      }
    }
  }

  method CompileFamilies(sx: Syntax, base: Rule, provider: Provider, families: seq<Family>)
    returns (result: Result<seq<Rule>, FilterError>)
    ensures result == CompileAll(sx, base, provider, families)
  {
    var rules := [];
    for i := 0 to |families|
      invariant CompileAll(sx, base, provider, families[..i]) == Success(rules)
    {
      assert families[..i + 1][..i] == families[..i];
      var scope := ScopeFor(provider, families[i]);
      if scope.None? {
        CompileAllFails(sx, base, provider, families, i + 1);
        return Failure(ProviderUnavailable);
      }
      var expanded := ExpandAtomicRules(sx, base.(scope := scope.value));
      if expanded.Failure? {
        CompileAllFails(sx, base, provider, families, i + 1);
        return expanded;
      }
      rules := rules + expanded.value;
    }
    assert families[..|families|] == families;
    result := Success(rules);
  }

  lemma {:induction false} CompileAllFails(sx: Syntax, base: Rule, provider: Provider, families: seq<Family>, i: nat)
    requires i <= |families| && CompileAll(sx, base, provider, families[..i]).Failure?
    ensures CompileAll(sx, base, provider, families) == CompileAll(sx, base, provider, families[..i])
    decreases |families|
  {
    if i == |families| {
      assert families[..i] == families;
    } else {
      assert families[..|families| - 1][..i] == families[..i];
      CompileAllFails(sx, base, provider, families[..|families| - 1], i);
    }
  }
}
