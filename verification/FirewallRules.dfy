/** Firewall rules as text, the packets such a text speaks of, and the normal form of one atomic rule. */
module FirewallRules {
  import opened Text

  datatype Provider = Iptables | Nftables | Firewalld | Ufw | OtherProvider(name: string)

  datatype Family = IPv4 | IPv6 | Inet | OtherFamily(name: string)

  datatype NativeKind = Unset | RuleKind | ZonePort | RichRule | UfwRule | OtherKind(name: string)

  datatype Scope = Scope(provider: Provider, family: Family, table: string, zone: string, chain: string)

  datatype Rule = Rule(
    scope: Scope, nativeKind: NativeKind, protocol: string, sourceAddress: string, sourcePort: string,
    destinationAddress: string, destinationPort: string, iface: string, states: seq<string>, action: string,
    priority: Option<int>, description: string)

  datatype FilterError =
    InvalidScope | UnsupportedScope | CompositeRule | InvalidRule | ExpansionLimit | ProviderUnavailable

  // ---- Packets

  datatype Protocol = Tcp | Udp | Icmp | Icmpv6 | OtherProtocol(number: nat)

  datatype RawPacket = Packet(
    v6: bool, protocol: Protocol, source: nat, destination: nat, sourcePort: nat, destinationPort: nat,
    iface: string, state: string)

  /** ICMP travels over IPv4 alone and ICMPv6 over IPv6 alone. */
  type Packet = p: RawPacket | (p.protocol.Icmp? ==> !p.v6) && (p.protocol.Icmpv6? ==> p.v6)
    witness Packet(false, Tcp, 0, 0, 0, 0, "", "")

  /** A block of addresses: a family, a prefix length and the masked network. */
  datatype Net = Net(v6: bool, bits: nat, network: nat)

  /**
   * The text formats that come from libraries: net/netip for addresses, the port grammar, sorting.
   * Parse reads a trimmed address or prefix (IPv4-mapped ones unmapped); Port is the port normaliser.
   */
  datatype Syntax = Syntax(
    parse: string -> Option<Net>,
    show: Net -> string,
    inside: (Net, nat) -> bool,
    range: string -> Option<(nat, nat)>,
    port: (string, bool) -> Option<string>,
    lowest: string -> nat,
    sorted: seq<string> -> seq<string>)

  // ---- Reading one text

  function Canon(s: string): string {
    Lower(TrimSpace(s))
  }

  predicate AnyAddress(text: string) {
    var v := Canon(text);
    v == "" || v == "any" || HasPrefix(v, "anywhere")
  }

  /** The addresses one text admits. */
  predicate AddressHits(sx: Syntax, wide: bool, text: string, v6: bool, address: nat) {
    || AnyAddress(text)
    || match sx.parse(TrimSpace(text))
       case None => false
       case Some(net) => (wide && net.bits == 0) || (net.v6 == v6 && sx.inside(net, address))
  }

  predicate AnyPort(text: string) {
    var v := Canon(text);
    v == "" || v == "any" || v == "anywhere"
  }

  predicate PortInRange(sx: Syntax, text: string, port: nat) {
    match sx.range(TrimSpace(text))
    case None => false
    case Some((low, high)) => low <= port <= high
  }

  predicate Portful(protocol: Protocol) {
    protocol.Tcp? || protocol.Udp?
  }

  /** A port condition is true of TCP and UDP packets alone. */
  predicate PortHits(sx: Syntax, text: string, protocol: Protocol, port: nat) {
    AnyPort(text) || (Portful(protocol) && PortInRange(sx, text, port))
  }

  predicate TwoProtocols(v: string) {
    v == "tcp/udp" || v == "udp/tcp"
  }

  predicate ProtocolHits(text: string, protocol: Protocol) {
    var v := Canon(text);
    || v == "" || v == "any" || v == "all" || (TwoProtocols(v) && Portful(protocol))
    || (v == "tcp" && protocol.Tcp?) || (v == "udp" && protocol.Udp?)
    || (v == "icmp" && protocol.Icmp?) || (v == "icmpv6" && protocol.Icmpv6?)
  }

  function IfaceName(text: string): string {
    var v := TrimSpace(text);
    if v == "*" || Lower(v) == "all" || Lower(v) == "any" then "" else v
  }

  predicate IfaceHits(text: string, iface: string) {
    IfaceName(text) == "" || IfaceName(text) == iface
  }

  /** The connection states a list names: lower case, without blanks and repetitions. */
  function StateNames(states: seq<string>): seq<string> {
    if states == [] then []
    else
      var before, name := StateNames(states[..|states| - 1]), Canon(states[|states| - 1]);
      if name == "" || name in before then before else before + [name]
  }

  predicate StatesHit(states: seq<string>, state: string) {
    StateNames(states) == [] || state in StateNames(states)
  }

  predicate FamilyHits(family: Family, v6: bool) {
    family.Inet? || (family.IPv4? && !v6) || (family.IPv6? && v6)
  }

  // ---- Reading lists

  function Distinct(s: seq<string>): seq<string> {
    if s == [] then []
    else
      var before, last := Distinct(s[..|s| - 1]), s[|s| - 1];
      if last in before then before else before + [last]
  }

  lemma {:induction false} DistinctMembers(s: seq<string>, x: string)
    ensures x in Distinct(s) <==> x in s
  {
    if s != [] {
      DistinctMembers(s[..|s| - 1], x);
      DistinctMembers(s[..|s| - 1], s[|s| - 1]);
      SplitLast(s);
    }
  }

  function SplitValues(text: string): seq<string> {
    Distinct(TrimAll(Split(text, ',')))
  }

  function SplitProtocols(text: string): seq<string> {
    var v := Canon(text);
    if TwoProtocols(v) then ["tcp", "udp"] else SplitValues(v)
  }

  // ---- The meaning of a rule: one value of every list has to hold

  predicate ProtocolsHit(text: string, protocol: Protocol) {
    exists part :: part in SplitProtocols(text) && ProtocolHits(part, protocol)
  }

  predicate AddressesHit(sx: Syntax, wide: bool, text: string, v6: bool, address: nat) {
    exists part :: part in SplitValues(text) && AddressHits(sx, wide, part, v6, address)
  }

  predicate PortsHit(sx: Syntax, text: string, protocol: Protocol, port: nat) {
    exists part :: part in SplitValues(text) && PortHits(sx, part, protocol, port)
  }

  /** The conditions of a rule that its addresses have no part in. */
  predicate Rest(sx: Syntax, r: Rule, p: Packet) {
    && ProtocolsHit(r.protocol, p.protocol)
    && PortsHit(sx, r.sourcePort, p.protocol, p.sourcePort)
    && PortsHit(sx, r.destinationPort, p.protocol, p.destinationPort)
    && IfaceHits(r.iface, p.iface)
    && StatesHit(r.states, p.state)
  }

  predicate BothAddresses(sx: Syntax, wide: bool, r: Rule, p: Packet) {
    && AddressesHit(sx, wide, r.sourceAddress, p.v6, p.source)
    && AddressesHit(sx, wide, r.destinationAddress, p.v6, p.destination)
  }

  /** With wide set, a zero-length prefix stands for every address and not for its own family alone. */
  predicate Hits(sx: Syntax, wide: bool, r: Rule, p: Packet) {
    FamilyHits(r.scope.family, p.v6) && BothAddresses(sx, wide, r, p) && Rest(sx, r, p)
  }

  predicate AnyHits(sx: Syntax, wide: bool, rules: seq<Rule>, p: Packet) {
    exists r :: r in rules && Hits(sx, wide, r, p)
  }

  // ---- What the libraries promise

  /** A block that was read prints as plain text of its own family, and the print reads back as the block. */
  ghost predicate BlockPrints(sx: Syntax, net: Net) {
    && sx.parse(sx.show(net)) == Some(net)
    && Trimmed(sx.show(net)) && ',' !in sx.show(net) && !AnyAddress(sx.show(net))
    && (net.v6 <==> ':' in sx.show(net))
    && sx.inside(net, net.network)
    && (net.bits == 0 ==> forall a: nat :: sx.inside(net, a))
  }

  ghost predicate LawfulAddresses(sx: Syntax) {
    forall text :: sx.parse(text).Some? ==>
      BlockPrints(sx, sx.parse(text).value) && (sx.parse(text).value.v6 ==> ':' in text)
  }

  /** The normal form of a port text reads as the text does, is normal itself, and admits some port. */
  ghost predicate PortNormal(sx: Syntax, text: string, portSet: bool, normal: string) {
    && Trimmed(normal) && (',' in normal ==> portSet)
    && (normal == "" <==> AnyPort(text))
    && sx.port(normal, portSet) == Some(normal)
    && (forall protocol, n :: PortsHit(sx, normal, protocol, n) <==> PortsHit(sx, text, protocol, n))
    && (normal != "" ==>
          PortsHit(sx, normal, Tcp, sx.lowest(normal)) && forall part :: part in SplitValues(normal) ==> !AnyPort(part))
  }

  ghost predicate LawfulPorts(sx: Syntax) {
    forall text, portSet: bool ::
      && (sx.port(text, portSet).Some? ==> PortNormal(sx, text, portSet, sx.port(text, portSet).value))
      && (AnyPort(text) ==> sx.port(text, portSet) == Some(""))
  }

  ghost predicate LawfulSort(sx: Syntax) {
    && (forall s: seq<string>, x: string :: x in sx.sorted(s) <==> x in s)
    && (forall s: seq<string> :: |sx.sorted(s)| == |s|)
    && (forall s: seq<string> :: StateNames(s) == s ==> StateNames(sx.sorted(s)) == sx.sorted(s))
    && (forall s: seq<string> :: sx.sorted(sx.sorted(s)) == sx.sorted(s))
  }

  ghost predicate Lawful(sx: Syntax) {
    LawfulAddresses(sx) && LawfulPorts(sx) && LawfulSort(sx)
  }

  // ---- Normal form of an atomic rule

  predicate NativePortSet(provider: Provider) {
    provider.Iptables? || provider.Ufw?
  }

  predicate BasicChain(chain: string) {
    chain == "1PANEL_BASIC_BEFORE" || chain == "1PANEL_BASIC" || chain == "1PANEL_BASIC_AFTER"
  }

  function ScopeFault(scope: Scope): Option<FilterError> {
    if scope.provider.OtherProvider? || scope.family.OtherFamily? then Some(InvalidScope)
    else match scope.provider
         case Firewalld =>
           if scope.table != "" || scope.chain != "" || scope.zone != "public" then Some(UnsupportedScope) else None
         case Ufw =>
           if scope.family.Inet? || scope.table != "" || scope.zone != "" || scope.chain != "incoming"
           then Some(UnsupportedScope) else None
         case _ =>
           if scope.family.Inet? || scope.table != "filter" || scope.zone != "" || !BasicChain(scope.chain)
           then Some(UnsupportedScope) else None
  }

  predicate Composite(r: Rule) {
    || ',' in r.sourceAddress || ',' in r.destinationAddress || ',' in r.sourcePort
    || (',' in r.destinationPort && !NativePortSet(r.scope.provider))
    || TwoProtocols(Canon(r.protocol)) || ',' in Canon(r.protocol)
  }

  function NormalProtocol(text: string): Option<string> {
    var v := Canon(text);
    if v == "" || v == "any" then Some("all")
    else if v == "tcp" || v == "udp" || v == "icmp" || v == "icmpv6" || v == "all" then Some(v)
    else None
  }

  predicate FamilyAllows(family: Family, v6: bool) {
    family.Inet? || (family.IPv4? && !v6) || (family.IPv6? && v6)
  }

  function NormalAddress(sx: Syntax, text: string, family: Family): Option<string> {
    if AnyAddress(text) then Some("")
    else match sx.parse(TrimSpace(text))
         case None => None
         case Some(net) =>
           if !FamilyAllows(family, net.v6) then None
           else if net.bits == 0 then Some("")
           else Some(sx.show(net))
  }

  function NormalAction(text: string): Option<string> {
    var v := Canon(text);
    if v == "accept" || v == "allow" then Some("accept")
    else if v == "drop" || v == "deny" || v == "block" then Some("drop")
    else if v == "reject" then Some("reject")
    else None
  }

  function NormalKind(kind: NativeKind, provider: Provider): NativeKind {
    if !kind.Unset? then kind else if provider.Ufw? then UfwRule else RuleKind
  }

  /** Firewalld alone looks at the priority; None is a priority out of range. */
  function NormalPriority(r: Rule): Option<Option<int>> {
    if !r.scope.provider.Firewalld? then Some(r.priority)
    else if r.nativeKind.ZonePort? then Some(Option.None)
    else if r.nativeKind.RichRule? then
      var priority := if r.priority.None? then 0 else r.priority.value;
      if -32768 <= priority <= 32767 then Some(Option.Some(priority)) else None
    else Some(r.priority)
  }

  predicate KnownState(name: string, provider: Provider) {
    || name == "new" || name == "established" || name == "related" || name == "invalid" || name == "untracked"
    || (provider.Iptables? && (name == "snat" || name == "dnat"))
  }

  function NormalStates(sx: Syntax, states: seq<string>, provider: Provider): Option<seq<string>> {
    var names := StateNames(states);
    if forall s :: s in names ==> KnownState(s, provider) then Some(sx.sorted(names)) else None
  }

  /** The protocol and the ports agree. */
  predicate PortsFit(provider: Provider, protocol: string, sourcePort: string, destinationPort: string) {
    || (sourcePort == "" && destinationPort == "")
    || protocol == "tcp" || protocol == "udp"
    || (provider.Ufw? && protocol == "all" && sourcePort == "" && ',' !in destinationPort)
  }

  function NormalizeRule(sx: Syntax, r: Rule): Result<Rule, FilterError> {
    var provider, family := r.scope.provider, r.scope.family;
    if ScopeFault(r.scope).Some? then Failure(ScopeFault(r.scope).value)
    else if Composite(r) then Failure(CompositeRule)
    else
      var protocol := NormalProtocol(r.protocol);
      var source, destination :=
        NormalAddress(sx, r.sourceAddress, family), NormalAddress(sx, r.destinationAddress, family);
      var sourcePort, destinationPort :=
        sx.port(r.sourcePort, false), sx.port(r.destinationPort, NativePortSet(provider));
      if protocol.None? || source.None? || destination.None? || sourcePort.None? || destinationPort.None?
      then Failure(InvalidRule)
      else if !PortsFit(provider, protocol.value, sourcePort.value, destinationPort.value) then Failure(InvalidRule)
      else
        var action, priority, states := NormalAction(r.action), NormalPriority(r), NormalStates(sx, r.states, provider);
        if action.None? || priority.None? || states.None? then Failure(InvalidRule)
        else Success(Rule(r.scope, NormalKind(r.nativeKind, provider), protocol.value, source.value, sourcePort.value,
                          destination.value, destinationPort.value, IfaceName(r.iface), states.value, action.value,
                          priority.value, TrimSpace(r.description)))
  }
}
