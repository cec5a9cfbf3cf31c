/** The two readers of an agent configuration's role bindings: what agents show, and what channels still offer. */
module RoleBindings {
  import opened Text

  /** A decoded JSON value; numbers, booleans and null are Other. */
  datatype Value = Str(text: string) | Items(items: seq<Value>) | Object(fields: map<string, Value>) | Other

  datatype Binding = Binding(channel: string, account: string)

  datatype Agent = Agent(id: string, name: string, bindings: seq<Binding>)

  /** A route binding with the agent it names. */
  datatype Route = Route(target: string, binding: Binding)

  type Bound = map<string, set<string>>

  /** A field that holds a text, or the empty text. */
  function TextAt(fields: map<string, Value>, key: string): string {
    if key in fields && fields[key].Str? then fields[key].text else ""
  }

  predicate IsRoute(v: Value) {
    && v.Object? && Lower(TextAt(v.fields, "type")) == "route"
    && "match" in v.fields && v.fields["match"].Object?
    && TextAt(v.fields["match"].fields, "channel") != ""
  }

  function RouteOf(v: Value): Route
    requires IsRoute(v)
  {
    var matched := v.fields["match"].fields;
    var account := TextAt(matched, "accountId");
    Route(TextAt(v.fields, "agentId"),
          Binding(TextAt(matched, "channel"), if account == "" then TextAt(v.fields, "accountId") else account))
  }

  function Routes(values: seq<Value>): seq<Route> {
    if values == [] then []
    else
      var before, last := Routes(values[..|values| - 1]), values[|values| - 1];
      if IsRoute(last) then before + [RouteOf(last)] else before
  }

  function BindingItems(value: Value): seq<Value> {
    if value.Items? then value.items else []
  }

  // ---- What the agents show

  /** The last agent of a key, by position. */
  function LastBy(agents: seq<Agent>, key: Agent -> string): map<string, nat> {
    if agents == [] then map[]
    else
      var last := key(agents[|agents| - 1]);
      var before := LastBy(agents[..|agents| - 1], key);
      if last != "" then before[last := |agents| - 1] else before
  }

  function Id(a: Agent): string { a.id }
  function Name(a: Agent): string { a.name }

  /** The agent a route names, by ID first and by name otherwise. */
  function Resolve(agents: seq<Agent>, target: string): Option<nat> {
    var byId, byName := LastBy(agents, Id), LastBy(agents, Name);
    if target == "" then None
    else if target in byId then Some(byId[target])
    else if target in byName then Some(byName[target])
    else None
  }

  /** The bindings of the routes that name agent i, in their order. */
  function BindingsOf(agents: seq<Agent>, routes: seq<Route>, i: nat): seq<Binding> {
    if routes == [] then []
    else
      var before, last := BindingsOf(agents, routes[..|routes| - 1], i), routes[|routes| - 1];
      if Resolve(agents, last.target) == Some(i) then before + [last.binding] else before
  }

  lemma {:induction false} LastByBound(agents: seq<Agent>, key: Agent -> string, text: string)
    requires text in LastBy(agents, key)
    ensures LastBy(agents, key)[text] < |agents| && key(agents[LastBy(agents, key)[text]]) == text && text != ""
    ensures forall j :: LastBy(agents, key)[text] < j < |agents| ==> key(agents[j]) != text
  {
    if text == "" || key(agents[|agents| - 1]) != text {
      LastByBound(agents[..|agents| - 1], key, text);
    }
  }

  lemma ResolveBound(agents: seq<Agent>, target: string)
    requires Resolve(agents, target).Some?
    ensures Resolve(agents, target).value < |agents|
    ensures var a := agents[Resolve(agents, target).value]; a.id == target || a.name == target
  {
    if target in LastBy(agents, Id) {
      LastByBound(agents, Id, target);
    } else {
      LastByBound(agents, Name, target);
    }
  }

  method IndexBy(agents: array<Agent>, key: Agent -> string) returns (index: map<string, nat>)
    ensures index == LastBy(agents[..], key)
  {
    index := map[];
    for i := 0 to agents.Length
      invariant index == LastBy(agents[..i], key)
    {
      assert agents[..i + 1][..i] == agents[..i];
      if key(agents[i]) != "" {
        index := index[key(agents[i]) := i];
      }
    }
    assert agents[..agents.Length] == agents[..];
  }

  function Extend(a: Agent, bindings: seq<Binding>): Agent {
    a.(bindings := a.bindings + bindings)
  }

  /** Every agent of after is the agent of before with the bindings of the routes that name it appended. */
  ghost predicate Extended(before: seq<Agent>, routes: seq<Route>, after: seq<Agent>) {
    && |after| == |before|
    && forall i :: 0 <= i < |before| ==> after[i] == Extend(before[i], BindingsOf(before, routes, i))
  }

  lemma ExtendedByNone(agents: seq<Agent>)
    ensures Extended(agents, [], agents)
  {
    forall i | 0 <= i < |agents| ensures agents[i] == Extend(agents[i], BindingsOf(agents, [], i)) {
      assert agents[i].bindings + [] == agents[i].bindings;
    }
  }

  /** One more route: the agent it names gains its binding, or no agent does. */
  lemma ExtendedByOne(before: seq<Agent>, routes: seq<Route>, after: seq<Agent>, r: Route)
    requires Extended(before, routes, after)
    ensures match Resolve(before, r.target)
            case None => Extended(before, routes + [r], after)
            case Some(k) => k < |after| && Extended(before, routes + [r], after[k := Extend(after[k], [r.binding])])
  {
    var at := Resolve(before, r.target);
    if at.Some? {
      ResolveBound(before, r.target);
    }
    var next := if at.Some? then after[at.value := Extend(after[at.value], [r.binding])] else after;
    forall i | 0 <= i < |before| ensures next[i] == Extend(before[i], BindingsOf(before, routes + [r], i)) {
      BindingsMore(before, routes, r, i);
      ConcatAssociates(before[i].bindings, BindingsOf(before, routes, i), [r.binding]);
    }
  }

  lemma BindingsMore(agents: seq<Agent>, routes: seq<Route>, r: Route, i: nat)
    ensures BindingsOf(agents, routes + [r], i)
            == if Resolve(agents, r.target) == Some(i) then BindingsOf(agents, routes, i) + [r.binding] else BindingsOf(agents, routes, i)
  {
    AppendOne(routes, r);
  }

  lemma RoutesMore(values: seq<Value>, k: nat)
    requires k < |values|
    ensures Routes(values[..k + 1]) == if IsRoute(values[k]) then Routes(values[..k]) + [RouteOf(values[k])] else Routes(values[..k])
  {
    TakeMore(values, k);
  }

  /** Every agent's list is extended by the bindings of the routes that name it; nothing else changes. */
  method ApplyBindings(agents: array<Agent>, value: Value)
    modifies agents
    ensures Extended(old(agents[..]), Routes(BindingItems(value)), agents[..])
  {
    ghost var input := agents[..];
    ExtendedByNone(input);
    if !value.Items? || agents.Length == 0 {
      return;
    }
    var bindings := value.items;
    var indexById := IndexBy(agents, Id);
    var indexByName := IndexBy(agents, Name);
    for k := 0 to |bindings|
      invariant Extended(input, Routes(bindings[..k]), agents[..])
    {
      RoutesMore(bindings, k);
      if !IsRoute(bindings[k]) {
        continue;
      }
      ApplyRoute(agents, RouteOf(bindings[k]), indexById, indexByName, input, Routes(bindings[..k]));
    }
    assert bindings[..|bindings|] == bindings;
  }

  /** One route: the agent with its ID, else with its name, gains the binding. */
  method ApplyRoute(
      agents: array<Agent>, route: Route, indexById: map<string, nat>, indexByName: map<string, nat>,
      ghost input: seq<Agent>, ghost routes: seq<Route>)
    requires indexById == LastBy(input, Id) && indexByName == LastBy(input, Name)
    requires Extended(input, routes, agents[..])
    modifies agents
    ensures Extended(input, routes + [route], agents[..])
  {
    ExtendedByOne(input, routes, agents[..], route);
    if route.target == "" {
      return;
    }
    if route.target in indexById {
      LastByBound(input, Id, route.target);
      AppendTo(agents, indexById[route.target], route.binding);
    } else if route.target in indexByName {
      LastByBound(input, Name, route.target);
      AppendTo(agents, indexByName[route.target], route.binding);
    }
  }

  method AppendTo(agents: array<Agent>, i: nat, binding: Binding)
    requires i < agents.Length
    modifies agents
    ensures agents[..] == old(agents[..])[i := Extend(old(agents[i]), [binding])]
  {
    agents[i] := agents[i].(bindings := agents[i].bindings + [binding]);
  }

  // ---- What the channels still offer

  function AddBound(bound: Bound, b: Binding): Bound {
    bound[b.channel := (if b.channel in bound then bound[b.channel] else {}) + {b.account}]
  }

  function LoadedFrom(routes: seq<Route>): Bound {
    if routes == [] then map[] else AddBound(LoadedFrom(routes[..|routes| - 1]), routes[|routes| - 1].binding)
  }

  lemma LoadNext(values: seq<Value>, k: nat)
    requires k < |values|
    ensures LoadedFrom(Routes(values[..k + 1]))
            == if IsRoute(values[k]) then AddBound(LoadedFrom(Routes(values[..k])), RouteOf(values[k]).binding)
               else LoadedFrom(Routes(values[..k]))
  {
    assert values[..k + 1][..k] == values[..k];
    if IsRoute(values[k]) {
      var routes := Routes(values[..k + 1]);
      assert routes[..|routes| - 1] == Routes(values[..k]);
    }
  }

  method LoadBoundChannels(value: Value) returns (bound: Bound)
    ensures bound == LoadedFrom(Routes(BindingItems(value)))
  {
    bound := map[];
    if !value.Items? {
      return;
    }
    for k := 0 to |value.items|
      invariant bound == LoadedFrom(Routes(value.items[..k]))
    {
      LoadNext(value.items, k);
      if IsRoute(value.items[k]) {
        bound := TakeAccount(bound, RouteOf(value.items[k]).binding);
      }
    }
    assert value.items[..|value.items|] == value.items;
  }

  /** The channel's set is made when it is missing, then the account joins it. */
  method TakeAccount(bound: Bound, b: Binding) returns (after: Bound)
    ensures after == AddBound(bound, b)
  {
    after := bound;
    if b.channel !in after {
      after := after[b.channel := {}];
    }
    after := after[b.channel := after[b.channel] + {b.account}];
  }

  function Without(accounts: seq<string>, taken: set<string>): seq<string> {
    if accounts == [] then []
    else
      var before, last := Without(accounts[..|accounts| - 1], taken), accounts[|accounts| - 1];
      if last in taken then before else before + [last]
  }

  /** The accounts of a channel that are still free; a binding without an account takes them all. */
  function Available(bound: Bound, channel: string, accounts: seq<string>): seq<string> {
    if channel !in bound || bound[channel] == {} then accounts
    else if "" in bound[channel] then []
    else Without(accounts, bound[channel])
  }

  method FilterAvailable(bound: Bound, channel: string, accounts: seq<string>) returns (available: seq<string>)
    ensures available == Available(bound, channel, accounts)
  {
    if channel !in bound || bound[channel] == {} {
      return accounts;
    }
    if "" in bound[channel] {
      return [];
    }
    available := [];
    for k := 0 to |accounts|
      invariant available == Without(accounts[..k], bound[channel])
    {
      assert accounts[..k + 1][..k] == accounts[..k];
      if accounts[k] in bound[channel] {
        continue;
      }
      available := available + [accounts[k]];
    }
    assert accounts[..|accounts|] == accounts;
  }

  predicate FullyBound(bound: Bound, channel: string, all: seq<string>, available: seq<string>) {
    && channel in bound && bound[channel] != {}
    && ("" in bound[channel] || all == [] || available == [])
  }

  // ---- The readers agree

  lemma {:induction false} LoadedMeaning(routes: seq<Route>, channel: string, account: string)
    ensures (channel in LoadedFrom(routes) && account in LoadedFrom(routes)[channel])
            <==> exists r :: r in routes && r.binding == Binding(channel, account)
    ensures channel in LoadedFrom(routes) <==> exists r :: r in routes && r.binding.channel == channel
    ensures channel in LoadedFrom(routes) ==> LoadedFrom(routes)[channel] != {}
  {
    if routes != [] {
      var last := routes[|routes| - 1];
      LoadedMeaning(routes[..|routes| - 1], channel, account);
      assert forall r :: r in routes <==> r in routes[..|routes| - 1] || r == last;
      if channel == last.binding.channel {
        assert last.binding.account in LoadedFrom(routes)[channel];
      }
    }
  }

  lemma {:induction false} BindingsFromRoutes(agents: seq<Agent>, routes: seq<Route>, i: nat, b: Binding)
    ensures b in BindingsOf(agents, routes, i)
            <==> exists r :: r in routes && r.binding == b && Resolve(agents, r.target) == Some(i)
  {
    if routes != [] {
      BindingsFromRoutes(agents, routes[..|routes| - 1], i, b);
      assert forall r :: r in routes <==> r in routes[..|routes| - 1] || r == routes[|routes| - 1];
    }
  }

  lemma {:induction false} WithoutMembers(accounts: seq<string>, taken: set<string>, account: string)
    ensures account in Without(accounts, taken) <==> account in accounts && account !in taken
  {
    if accounts != [] {
      WithoutMembers(accounts[..|accounts| - 1], taken, account);
      SplitLast(accounts);
    }
  }

  /** An account is offered exactly when it is one of the channel's and no route takes it or the whole channel. */
  lemma AvailableMeaning(routes: seq<Route>, channel: string, accounts: seq<string>, account: string)
    ensures account in Available(LoadedFrom(routes), channel, accounts)
            <==> account in accounts
                 && forall r :: r in routes && r.binding.channel == channel ==> r.binding.account !in {"", account}
  {
    var bound := LoadedFrom(routes);
    LoadedMeaning(routes, channel, account);
    LoadedMeaning(routes, channel, "");
    if channel in bound {
      WithoutMembers(accounts, bound[channel], account);
    }
    forall r | r in routes && r.binding.channel == channel
      ensures channel in bound && r.binding.account in bound[channel]
    {
      LoadedMeaning(routes, channel, r.binding.account);
    }
  }

  /** What a channel offers, no agent shows: neither the account nor the whole channel. */
  lemma OfferedIsShownByNone(agents: seq<Agent>, routes: seq<Route>, channel: string, accounts: seq<string>, account: string, i: nat)
    requires account in Available(LoadedFrom(routes), channel, accounts)
    ensures Binding(channel, account) !in BindingsOf(agents, routes, i)
    ensures Binding(channel, "") !in BindingsOf(agents, routes, i)
  {
    AvailableMeaning(routes, channel, accounts, account);
    BindingsFromRoutes(agents, routes, i, Binding(channel, account));
    BindingsFromRoutes(agents, routes, i, Binding(channel, ""));
  }

  /** A channel counts as bound exactly when some route names it and it has no account left to offer. */
  lemma BoundIff(routes: seq<Route>, channel: string, accounts: seq<string>)
    ensures var bound := LoadedFrom(routes);
            var available := Available(bound, channel, accounts);
            FullyBound(bound, channel, accounts, available)
            <==> (exists r :: r in routes && r.binding.channel == channel) && available == []
  {
    LoadedMeaning(routes, channel, "");
    assert Without([], LoadedFrom(routes)[channel := {}][channel]) == [];
  }

  function Total(agents: seq<Agent>, routes: seq<Route>, n: nat): nat {
    if n == 0 then 0 else Total(agents, routes, n - 1) + |BindingsOf(agents, routes, n - 1)|
  }

  function Resolvable(agents: seq<Agent>, routes: seq<Route>): nat {
    if routes == [] then 0
    else
      Resolvable(agents, routes[..|routes| - 1])
      + if Resolve(agents, routes[|routes| - 1].target).Some? then 1 else 0
  }

  lemma {:induction false} TotalNext(agents: seq<Agent>, routes: seq<Route>, n: nat)
    requires routes != []
    ensures var at := Resolve(agents, routes[|routes| - 1].target);
            Total(agents, routes, n) == Total(agents, routes[..|routes| - 1], n) + if at.Some? && at.value < n then 1 else 0
  {
    if n > 0 {
      TotalNext(agents, routes, n - 1);
    }
  }

  /** Every resolvable route is attached to exactly one agent: the agents' bindings add up to the routes. */
  lemma {:induction false} EachAttachedOnce(agents: seq<Agent>, routes: seq<Route>)
    ensures Total(agents, routes, |agents|) == Resolvable(agents, routes)
  {
    if routes == [] {
      NothingToAttach(agents, |agents|);
    } else {
      EachAttachedOnce(agents, routes[..|routes| - 1]);
      TotalNext(agents, routes, |agents|);
      if Resolve(agents, routes[|routes| - 1].target).Some? {
        ResolveBound(agents, routes[|routes| - 1].target);
      }
    }
  }

  lemma {:induction false} NothingToAttach(agents: seq<Agent>, n: nat)
    ensures Total(agents, [], n) == 0
  {
    if n > 0 {
      NothingToAttach(agents, n - 1);
    }
  }
}
