/** Inet rules read narrowly: a zero-length prefix as every address of its own family and not of both. */
module FirewallReadings {
  import opened Text
  import opened FirewallRules
  import opened FirewallNormal
  import opened FirewallPolicies
  import opened FirewallPolicyProofs
  import opened FirewallStored

  /** The rule reaches the same kinds of packet whether or not its zero-length prefixes are widened. */
  ghost predicate SameReading(sx: Syntax, rule: Rule) {
    forall k: Kind :: Reaches(sx, rule.scope.family.Inet?, rule, k) <==> Reaches(sx, false, rule, k)
  }

  lemma NarrowIsWide(sx: Syntax, rule: Rule, wide: bool, p: Packet)
    requires Hits(sx, false, rule, p)
    ensures Hits(sx, wide, rule, p)
  {
    WideMore(sx, wide, rule.sourceAddress, p.v6, p.source);
    WideMore(sx, wide, rule.destinationAddress, p.v6, p.destination);
  }

  lemma NormalSingle(sx: Syntax, rule: Rule)
    requires NormalizeRule(sx, rule).Success?
    ensures ',' !in rule.sourceAddress && ',' !in rule.destinationAddress
  {
    NormalFields(sx, rule);
  }

  lemma SameReadingHits(sx: Syntax, rule: Rule, p: Packet)
    requires Lawful(sx) && NormalizeRule(sx, rule).Success? && SameReading(sx, rule)
    ensures Hits(sx, rule.scope.family.Inet?, rule, p) <==> Hits(sx, false, rule, p)
  {
    var wide := rule.scope.family.Inet?;
    if Hits(sx, false, rule, p) {
      NarrowIsWide(sx, rule, wide, p);
    } else if wide && Hits(sx, wide, rule, p) {
      HitReaches(sx, wide, rule, p);
      NormalSingle(sx, rule);
      WideHits(sx, rule, p);
    }
  }

  /** The normal form admits exactly the packets of the rule as it stands. */
  ghost predicate NormalExactly(sx: Syntax, rule: Rule)
    requires NormalizeRule(sx, rule).Success?
  {
    forall p: Packet :: Hits(sx, false, NormalizeRule(sx, rule).value, p) <==> Hits(sx, false, rule, p)
  }

  lemma ExactReads(sx: Syntax, rule: Rule, k: Kind)
    requires Lawful(sx) && NormalizeRule(sx, rule).Success? && NormalExactly(sx, rule)
    ensures Reaches(sx, rule.scope.family.Inet?, rule, k) <==> Reaches(sx, false, rule, k)
  {
    var wide, n := rule.scope.family.Inet?, NormalizeRule(sx, rule).value;
    if Reaches(sx, wide, rule, k) {
      var p := Reached(sx, wide, rule, k);
      NormalizeKeeps(sx, rule, false, p);
      assert Hits(sx, false, n, p);
      HitReaches(sx, false, rule, p);
    } else if Reaches(sx, false, rule, k) {
      var p := Reached(sx, false, rule, k);
      NarrowIsWide(sx, rule, wide, p);
      HitReaches(sx, wide, rule, p);
    }
  }

  /**
   * The normal form keeps the packets of the rule as it stands if and only if widening its zero-length prefixes
   * adds none of the eight kinds of packet, which its texts decide.
   */
  lemma NormalExactlyIff(sx: Syntax, rule: Rule)
    requires Lawful(sx) && NormalizeRule(sx, rule).Success?
    ensures NormalExactly(sx, rule) <==> SameReading(sx, rule)
  {
    if SameReading(sx, rule) {
      forall p: Packet ensures Hits(sx, false, NormalizeRule(sx, rule).value, p) <==> Hits(sx, false, rule, p) {
        NormalizeKeeps(sx, rule, false, p);
        SameReadingHits(sx, rule, p);
      }
    }
    if NormalExactly(sx, rule) {
      forall k: Kind ensures Reaches(sx, rule.scope.family.Inet?, rule, k) <==> Reaches(sx, false, rule, k) {
        ExactReads(sx, rule, k);
      }
    }
  }

  /** The policy speaks of exactly the packets of the rule as it stands. */
  ghost predicate StoredExactly(sx: Syntax, rule: Rule)
    requires FromDomain(sx, rule).Success?
  {
    forall p: Packet :: PolicyHits(sx, FromDomain(sx, rule).value, p) <==> Hits(sx, false, rule, p)
  }

  /** So storing, which keeps the normal form, keeps the packets of the rule under the same condition. */
  lemma StoredExactlyIff(sx: Syntax, rule: Rule)
    requires Lawful(sx) && FromDomain(sx, rule).Success?
    ensures StoredExactly(sx, rule) <==> SameReading(sx, rule)
  {
    forall p: Packet
      ensures PolicyHits(sx, FromDomain(sx, rule).value, p) <==> Hits(sx, false, NormalizeRule(sx, rule).value, p)
    {
      StoredHits(sx, rule, p);
      NormalizeKeeps(sx, rule, false, p);
    }
    NormalExactlyIff(sx, rule);
  }

  /** The same of a rule that was stored and then compiled, for any provider. */
  lemma CompiledExactlyIff(sx: Syntax, rule: Rule, provider: Provider)
    requires Lawful(sx) && FromDomain(sx, rule).Success?
    requires Compiled(sx, FromDomain(sx, rule).value, provider).Success?
    ensures (forall p: Packet :: AnyHits(sx, false, Compiled(sx, FromDomain(sx, rule).value, provider).value, p)
                                 <==> Hits(sx, false, rule, p))
            <==> SameReading(sx, rule)
  {
    var rules := Compiled(sx, FromDomain(sx, rule).value, provider).value;
    forall p: Packet ensures AnyHits(sx, false, rules, p) <==> PolicyHits(sx, FromDomain(sx, rule).value, p) {
      StoredCompilesExactly(sx, rule, provider, p);
      StoredHits(sx, rule, p);
    }
    StoredExactlyIff(sx, rule);
  }

  // ---- A firewalld rule on every IPv4 address

  /** A firewalld rule of the inet family on a source text alone. */
  function PublicRule(source: string, protocol: string, action: string): Rule {
    Rule(Scope(Firewalld, Inet, "", "public", ""), Unset, protocol, source, "", "", "", "", [], action, None, "")
  }

  lemma PublicScope(source: string, protocol: string, action: string)
    requires TcpWord(protocol) && ',' !in source
    ensures var r := PublicRule(source, protocol, action);
            ScopeFault(r.scope).None? && !Composite(r) && NormalPriority(r) == Some(r.priority)
  {
  }

  lemma PublicTexts(sx: Syntax, protocol: string)
    requires Lawful(sx) && TcpWord(protocol)
    ensures NormalProtocol(protocol) == Some(protocol) && NormalAddress(sx, "", Inet) == Some("")
    ensures sx.port("", false) == Some("") && PortsFit(Firewalld, protocol, "", "")
    ensures NormalStates(sx, [], Firewalld) == Some(sx.sorted([])) && IfaceName("") == "" && TrimSpace("") == ""
  {
    Blank();
  }

  lemma PublicNormal(sx: Syntax, source: string, protocol: string, action: string)
    requires Lawful(sx) && TcpWord(protocol) && NormalAction(action) == Some(action)
    requires ',' !in source && NormalAddress(sx, source, Inet) == Some("")
    ensures NormalizeRule(sx, PublicRule(source, protocol, action)).Success?
    ensures NormalizeRule(sx, PublicRule(source, protocol, action)).value.nativeKind == RuleKind
  {
    var r := PublicRule(source, protocol, action);
    PublicScope(source, protocol, action);
    PublicTexts(sx, protocol);
    var n := r.(nativeKind := RuleKind, sourceAddress := "", states := sx.sorted([]));
    assert NormalKind(r.nativeKind, Firewalld) == RuleKind && !NativePortSet(Firewalld);
    FieldsDecide(sx, r, n);
  }

  /** A text of one block that holds every IPv4 address. */
  predicate EveryIPv4(sx: Syntax, source: string) {
    ',' !in source && !AnyAddress(source) && sx.parse(TrimSpace(source)) == Some(Net(false, 0, 0))
  }

  lemma PublicAddresses(sx: Syntax, source: string, r: Rule, p: Packet)
    requires EveryIPv4(sx, source) && r.sourceAddress == source && r.destinationAddress == "" && p.v6
    ensures BothAddresses(sx, true, r, p) && !BothAddresses(sx, false, r, p)
  {
    OneAddress(sx, true, source, p.v6, p.source);
    OneAddress(sx, false, source, p.v6, p.source);
    OneAddress(sx, true, "", p.v6, p.destination);
  }

  lemma PublicStored(sx: Syntax, source: string, protocol: string, action: string)
    requires Lawful(sx) && EveryIPv4(sx, source) && TcpWord(protocol) && NormalAction(action) == Some(action)
    ensures FromDomain(sx, PublicRule(source, protocol, action)).Success?
  {
    PublicNormal(sx, source, protocol, action);
  }

  lemma PublicReads(sx: Syntax, source: string, protocol: string, action: string, p: Packet)
    requires EveryIPv4(sx, source) && TcpWord(protocol) && p.v6 && p.protocol.Tcp?
    ensures Hits(sx, true, PublicRule(source, protocol, action), p) && !Hits(sx, false, PublicRule(source, protocol, action), p)
  {
    var r := PublicRule(source, protocol, action);
    PublicAddresses(sx, source, r, p);
    FromSourceRest(sx, protocol, r, p);
  }

  /** The rule is stored as one on any source: IPv6 packets are let in that it does not speak of. */
  lemma ZeroPrefixAdmitsIPv6(sx: Syntax, source: string, p: Packet)
    requires Lawful(sx) && EveryIPv4(sx, source) && p.v6 && p.protocol.Tcp?
    ensures var rule := PublicRule(source, "tcp", "accept");
            && FromDomain(sx, rule).Success?
            && PolicyHits(sx, FromDomain(sx, rule).value, p) && !Hits(sx, false, rule, p)
  {
    Words();
    PublicStored(sx, source, "tcp", "accept");
    PublicReads(sx, source, "tcp", "accept", p);
    StoredHits(sx, PublicRule(source, "tcp", "accept"), p);
  }

  /** For example, when the block is written "0.0.0.0/0". */
  lemma EveryIPv4Written(sx: Syntax)
    requires sx.parse("0.0.0.0/0") == Some(Net(false, 0, 0))
    ensures EveryIPv4(sx, "0.0.0.0/0")
  {
    var text := "0.0.0.0/0";
    TrimmedFixed(text);
    assert Lower(text)[0] == '0' && |Lower(text)| == 9;
  }
}
