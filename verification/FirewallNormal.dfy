/** The normal form of an atomic rule says what the rule says, and is stable. */
module FirewallNormal {
  import opened Text
  import opened FirewallRules

  // ---- Reading one-value lists

  lemma {:induction false} LowerTwice(s: string)
    ensures Lower(Lower(s)) == Lower(s)
  {
  }

  lemma LowerTrimmed(s: string)
    requires Trimmed(s)
    ensures Trimmed(Lower(s))
  {
    if s != "" {
      assert Lower(s)[0] == LowerChar(s[0]);
      assert Lower(s)[|s| - 1] == LowerChar(s[|s| - 1]);
    }
  }

  lemma CanonTwice(s: string)
    ensures Trimmed(Canon(s)) && Canon(Canon(s)) == Canon(s) && TrimSpace(Canon(s)) == Canon(s)
  {
    LowerTrimmed(TrimSpace(s));
    TrimmedFixed(Canon(s));
    LowerTwice(TrimSpace(s));
  }

  lemma LowerWord(w: string)
    requires forall c :: c in w ==> 'a' <= c <= 'z'
    ensures Canon(w) == w
  {
    if w != "" {
      assert w[0] in w && w[|w| - 1] in w;
    }
    TrimmedFixed(w);
    assert forall i :: 0 <= i < |w| ==> w[i] in w;
  }

  /** Trimming takes characters away and adds none. */
  lemma {:induction false} TrimLeftKeeps(s: string, c: char)
    ensures c in TrimLeft(s) ==> c in s
  {
    if s != "" && IsSpace(s[0]) {
      TrimLeftKeeps(s[1..], c);
      assert s == [s[0]] + s[1..];
    }
  }

  lemma TrimKeeps(s: string, c: char)
    ensures c in TrimSpace(s) ==> c in s
  {
    TrimLeftKeeps(s, c);
  }

  lemma OneValue(text: string)
    requires ',' !in text
    ensures SplitValues(text) == [TrimSpace(text)]
  {
    SplitPlain(text, ',');
    var one := TrimAll([text]);
    assert one[..0] == [] && one[0] == TrimSpace(text);
    assert Distinct(one) == [] + [one[0]];
  }

  lemma TrimTwice(s: string)
    ensures TrimSpace(TrimSpace(s)) == TrimSpace(s)
  {
    TrimmedFixed(TrimSpace(s));
  }

  lemma OneAddress(sx: Syntax, wide: bool, text: string, v6: bool, address: nat)
    requires ',' !in text
    ensures AddressesHit(sx, wide, text, v6, address) <==> AddressHits(sx, wide, text, v6, address)
  {
    OneValue(text);
    TrimTwice(text);
    assert TrimSpace(text) in SplitValues(text);
  }

  lemma OneProtocol(text: string, protocol: Protocol)
    requires !TwoProtocols(Canon(text)) && ',' !in Canon(text)
    ensures ProtocolsHit(text, protocol) <==> ProtocolHits(text, protocol)
  {
    CanonTwice(text);
    OneValue(Canon(text));
    assert Canon(text) in SplitProtocols(text);
  }

  // ---- The normal form keeps the meaning

  predicate ProtocolWord(v: string) {
    v == "tcp" || v == "udp" || v == "icmp" || v == "icmpv6" || v == "all"
  }

  lemma ProtocolWords(v: string)
    requires ProtocolWord(v)
    ensures Canon(v) == v && ',' !in v && !TwoProtocols(v) && v != "" && v != "any"
  {
    if v == "icmpv6" {
      TrimmedFixed(v);
    } else {
      LowerWord(v);
    }
  }

  lemma NormalProtocolKeeps(text: string, protocol: Protocol)
    requires !TwoProtocols(Canon(text)) && ',' !in Canon(text) && NormalProtocol(text).Some?
    ensures var n := NormalProtocol(text).value;
            && ProtocolWord(n) && Canon(n) == n && ',' !in n && !TwoProtocols(n) && NormalProtocol(n) == Some(n)
            && (ProtocolsHit(n, protocol) <==> ProtocolsHit(text, protocol))
  {
    var n := NormalProtocol(text).value;
    ProtocolWords(n);
    OneProtocol(text, protocol);
    OneProtocol(n, protocol);
  }

  lemma NormalAddressKeeps(sx: Syntax, text: string, family: Family, wide: bool, v6: bool, address: nat)
    requires LawfulAddresses(sx) && ',' !in text && NormalAddress(sx, text, family).Some?
    requires FamilyHits(family, v6)
    ensures AddressesHit(sx, wide, NormalAddress(sx, text, family).value, v6, address)
            <==> AddressesHit(sx, family.Inet?, text, v6, address)
  {
    var n := NormalAddress(sx, text, family).value;
    if n != "" {
      TrimmedFixed(n);
    }
    OneAddress(sx, family.Inet?, text, v6, address);
    OneAddress(sx, wide, n, v6, address);
  }

  lemma NormalAddressStable(sx: Syntax, text: string, family: Family)
    requires LawfulAddresses(sx) && ',' !in text && NormalAddress(sx, text, family).Some?
    ensures var n := NormalAddress(sx, text, family).value;
            ',' !in n && NormalAddress(sx, n, family) == Some(n)
  {
    var n := NormalAddress(sx, text, family).value;
    if n != "" {
      TrimmedFixed(n);
    }
  }

  lemma IfaceStable(text: string)
    ensures IfaceName(IfaceName(text)) == IfaceName(text)
  {
    TrimTwice(text);
  }

  lemma {:induction false} StateNamesCanon(states: seq<string>, x: string)
    requires x in StateNames(states)
    ensures x != "" && Canon(x) == x
  {
    var before, name := StateNames(states[..|states| - 1]), Canon(states[|states| - 1]);
    if x in before {
      StateNamesCanon(states[..|states| - 1], x);
    } else {
      CanonTwice(states[|states| - 1]);
    }
  }

  lemma {:induction false} StateNamesStable(states: seq<string>)
    ensures StateNames(StateNames(states)) == StateNames(states)
  {
    if states != [] {
      var before, name := StateNames(states[..|states| - 1]), Canon(states[|states| - 1]);
      StateNamesStable(states[..|states| - 1]);
      if name != "" && name !in before {
        assert StateNames(states) == before + [name];
        assert (before + [name])[..|before|] == before;
        CanonTwice(states[|states| - 1]);
      }
    }
  }

  lemma NormalStatesKeep(sx: Syntax, states: seq<string>, provider: Provider)
    requires LawfulSort(sx) && NormalStates(sx, states, provider).Some?
    ensures var n := NormalStates(sx, states, provider).value;
            && NormalStates(sx, n, provider) == Some(n)
            && forall state :: StatesHit(n, state) <==> StatesHit(states, state)
  {
    var names := StateNames(states);
    StateNamesStable(states);
    var n := sx.sorted(names);
    assert StateNames(n) == n;
    if names != [] {
      assert names[0] in n;
    }
  }

  lemma NormalActionStable(text: string)
    requires NormalAction(text).Some?
    ensures NormalAction(NormalAction(text).value) == NormalAction(text)
  {
    ActionWords();
  }

  lemma ActionWords()
    ensures Canon("accept") == "accept" && Canon("drop") == "drop" && Canon("reject") == "reject"
  {
    LowerWord("accept");
    LowerWord("drop");
    LowerWord("reject");
  }

  /** The normal form of a rule, field by field. */
  ghost predicate NormalOf(sx: Syntax, r: Rule, n: Rule) {
    var family, provider := r.scope.family, r.scope.provider;
    && ScopeFault(r.scope).None? && !Composite(r) && n.scope == r.scope
    && NormalProtocol(r.protocol) == Some(n.protocol)
    && NormalAddress(sx, r.sourceAddress, family) == Some(n.sourceAddress)
    && NormalAddress(sx, r.destinationAddress, family) == Some(n.destinationAddress)
    && sx.port(r.sourcePort, false) == Some(n.sourcePort)
    && sx.port(r.destinationPort, NativePortSet(provider)) == Some(n.destinationPort)
    && n.iface == IfaceName(r.iface)
    && NormalStates(sx, r.states, provider) == Some(n.states)
    && NormalAction(r.action) == Some(n.action) && n.nativeKind == NormalKind(r.nativeKind, provider)
    && NormalPriority(r) == Some(n.priority) && n.description == TrimSpace(r.description)
    && PortsFit(provider, n.protocol, n.sourcePort, n.destinationPort)
  }

  lemma NormalFields(sx: Syntax, r: Rule)
    requires NormalizeRule(sx, r).Success?
    ensures NormalOf(sx, r, NormalizeRule(sx, r).value)
  {
  }

  lemma NormalPortKeeps(sx: Syntax, text: string, portSet: bool, protocol: Protocol, port: nat)
    requires LawfulPorts(sx) && sx.port(text, portSet).Some?
    ensures PortsHit(sx, sx.port(text, portSet).value, protocol, port) <==> PortsHit(sx, text, protocol, port)
  {
    assert PortNormal(sx, text, portSet, sx.port(text, portSet).value);
  }

  lemma RestKeeps(sx: Syntax, r: Rule, n: Rule, p: Packet)
    requires LawfulPorts(sx) && LawfulSort(sx) && NormalOf(sx, r, n)
    ensures Rest(sx, n, p) <==> Rest(sx, r, p)
  {
    NormalProtocolKeeps(r.protocol, p.protocol);
    NormalPortKeeps(sx, r.sourcePort, false, p.protocol, p.sourcePort);
    NormalPortKeeps(sx, r.destinationPort, NativePortSet(r.scope.provider), p.protocol, p.destinationPort);
    NormalStatesKeep(sx, r.states, r.scope.provider);
    IfaceStable(r.iface);
  }

  lemma AddressesKeep(sx: Syntax, r: Rule, n: Rule, wide: bool, p: Packet)
    requires LawfulAddresses(sx) && NormalOf(sx, r, n) && FamilyHits(r.scope.family, p.v6)
    ensures BothAddresses(sx, wide, n, p) <==> BothAddresses(sx, r.scope.family.Inet?, r, p)
  {
    NormalAddressKeeps(sx, r.sourceAddress, r.scope.family, wide, p.v6, p.source);
    NormalAddressKeeps(sx, r.destinationAddress, r.scope.family, wide, p.v6, p.destination);
  }

  /** The normal form of a rule admits exactly the packets the rule admits. */
  lemma NormalizeKeeps(sx: Syntax, r: Rule, wide: bool, p: Packet)
    requires Lawful(sx) && NormalizeRule(sx, r).Success?
    ensures Hits(sx, wide, NormalizeRule(sx, r).value, p) <==> Hits(sx, r.scope.family.Inet?, r, p)
  {
    NormalFields(sx, r);
    var n := NormalizeRule(sx, r).value;
    if FamilyHits(r.scope.family, p.v6) {
      AddressesKeep(sx, r, n, wide, p);
      RestKeeps(sx, r, n, p);
    }
  }

  lemma PriorityStable(r: Rule, n: Rule)
    requires n.scope == r.scope && n.nativeKind == NormalKind(r.nativeKind, r.scope.provider)
    requires NormalPriority(r) == Some(n.priority)
    ensures NormalKind(n.nativeKind, r.scope.provider) == n.nativeKind && NormalPriority(n) == Some(n.priority)
  {
  }

  lemma FieldsStable(sx: Syntax, r: Rule, n: Rule)
    requires Lawful(sx) && NormalOf(sx, r, n)
    ensures NormalOf(sx, n, n)
  {
    var provider := r.scope.provider;
    NormalProtocolKeeps(r.protocol, Tcp);
    NormalAddressStable(sx, r.sourceAddress, r.scope.family);
    NormalAddressStable(sx, r.destinationAddress, r.scope.family);
    NormalStatesKeep(sx, r.states, provider);
    assert PortNormal(sx, r.sourcePort, false, n.sourcePort);
    assert PortNormal(sx, r.destinationPort, NativePortSet(provider), n.destinationPort);
    PriorityStable(r, n);
    IfaceStable(r.iface);
    NormalActionStable(r.action);
    TrimTwice(r.description);
  }

  lemma FieldsDecide(sx: Syntax, r: Rule, n: Rule)
    requires NormalOf(sx, r, n)
    ensures NormalizeRule(sx, r) == Success(n)
  {
  }

  /** A normal form is its own normal form. */
  lemma NormalizeIdempotent(sx: Syntax, r: Rule)
    requires Lawful(sx) && NormalizeRule(sx, r).Success?
    ensures NormalizeRule(sx, NormalizeRule(sx, r).value) == NormalizeRule(sx, r)
  {
    var n := NormalizeRule(sx, r).value;
    NormalFields(sx, r);
    FieldsStable(sx, r, n);
    FieldsDecide(sx, n, n);
  }
}
