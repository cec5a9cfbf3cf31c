/** Which bindings are shown and which accounts are offered, said of the configuration's values. */
module RoleBindingsExact {
  import opened Text
  import opened RoleBindings

  /** The field holds this text. */
  predicate Has(fields: map<string, Value>, key: string, text: string) {
    key in fields && fields[key] == Str(text)
  }

  /** The field holds no text, or the empty one. */
  predicate Lacks(fields: map<string, Value>, key: string) {
    key !in fields || !fields[key].Str? || fields[key].text == ""
  }

  /**
   * The value binds the account of the channel: a record of type "route", whatever its case, whose match names the
   * channel and the account; without an account in the match, the record's own counts, and without that none.
   */
  ghost predicate Binds(v: Value, channel: string, account: string) {
    && v.Object? && channel != ""
    && (exists kind :: Has(v.fields, "type", kind) && Lower(kind) == "route")
    && "match" in v.fields && v.fields["match"].Object?
    && var matched := v.fields["match"].fields;
       && Has(matched, "channel", channel)
       && if !Lacks(matched, "accountId") then Has(matched, "accountId", account)
          else if !Lacks(v.fields, "accountId") then Has(v.fields, "accountId", account)
          else account == ""
  }

  /** The value names this agent, or none. */
  predicate Targets(v: Value, target: string) {
    v.Object? && if Lacks(v.fields, "agentId") then target == "" else Has(v.fields, "agentId", target)
  }

  lemma EmptyIsNoRoute()
    ensures Lower("") != "route"
  {
  }

  lemma BindsIff(v: Value, channel: string, account: string)
    ensures Binds(v, channel, account) <==> IsRoute(v) && RouteOf(v).binding == Binding(channel, account)
  {
    EmptyIsNoRoute();
    if IsRoute(v) {
      assert Has(v.fields, "type", TextAt(v.fields, "type"));
    }
  }

  lemma TargetsIff(v: Value, target: string)
    requires IsRoute(v)
    ensures Targets(v, target) <==> RouteOf(v).target == target
  {
  }

  lemma {:induction false} RoutesMembers(values: seq<Value>, r: Route)
    ensures r in Routes(values) <==> exists k :: 0 <= k < |values| && IsRoute(values[k]) && RouteOf(values[k]) == r
  {
    if values != [] {
      var n := |values| - 1;
      RoutesMembers(values[..n], r);
      assert forall k :: 0 <= k < n ==> values[..n][k] == values[k];
    }
  }

  // ---- What the agents show

  /** The last agent with the identifier, or without any the last with the name, counting only texts that are not empty. */
  predicate Means(agents: seq<Agent>, target: string, i: nat) {
    && target != "" && i < |agents|
    && if exists k :: 0 <= k < |agents| && agents[k].id == target
       then agents[i].id == target && forall k :: i < k < |agents| ==> agents[k].id != target
       else agents[i].name == target && forall k :: i < k < |agents| ==> agents[k].name != target
  }

  lemma {:induction false} LastByIff(agents: seq<Agent>, key: Agent -> string, text: string)
    ensures text in LastBy(agents, key) <==> text != "" && exists k :: 0 <= k < |agents| && key(agents[k]) == text
  {
    if agents != [] {
      var n := |agents| - 1;
      LastByIff(agents[..n], key, text);
      assert forall k :: 0 <= k < n ==> agents[..n][k] == agents[k];
    }
  }

  lemma ResolveIff(agents: seq<Agent>, target: string, i: nat)
    ensures Resolve(agents, target) == Some(i) <==> Means(agents, target, i)
  {
    LastByIff(agents, Id, target);
    LastByIff(agents, Name, target);
    if target in LastBy(agents, Id) {
      LastByBound(agents, Id, target);
    } else if target in LastBy(agents, Name) {
      LastByBound(agents, Name, target);
    }
  }

  /** An agent gains a binding exactly when some value binds it and means the agent. */
  lemma ShownIff(agents: seq<Agent>, values: seq<Value>, i: nat, channel: string, account: string)
    ensures Binding(channel, account) in BindingsOf(agents, Routes(values), i)
            <==> exists k, target :: 0 <= k < |values| && Binds(values[k], channel, account)
                   && Targets(values[k], target) && Means(agents, target, i)
  {
    var b := Binding(channel, account);
    BindingsFromRoutes(agents, Routes(values), i, b);
    if b in BindingsOf(agents, Routes(values), i) {
      var r :| r in Routes(values) && r.binding == b && Resolve(agents, r.target) == Some(i);
      RoutesMembers(values, r);
      var k :| 0 <= k < |values| && IsRoute(values[k]) && RouteOf(values[k]) == r;
      BindsIff(values[k], channel, account);
      TargetsIff(values[k], r.target);
      ResolveIff(agents, r.target, i);
    }
    if k, target :| 0 <= k < |values| && Binds(values[k], channel, account) && Targets(values[k], target) && Means(agents, target, i) {
      BindsIff(values[k], channel, account);
      TargetsIff(values[k], target);
      ResolveIff(agents, target, i);
      RoutesMembers(values, RouteOf(values[k]));
    }
  }

  // ---- What the channels offer

  /** An account is offered exactly when it is the channel's and no value binds it or the whole channel. */
  lemma OfferedIff(values: seq<Value>, channel: string, accounts: seq<string>, account: string)
    ensures account in Available(LoadedFrom(Routes(values)), channel, accounts)
            <==> account in accounts
                 && forall k :: 0 <= k < |values| ==> !Binds(values[k], channel, account) && !Binds(values[k], channel, "")
  {
    var routes := Routes(values);
    AvailableMeaning(routes, channel, accounts, account);
    forall k | 0 <= k < |values|
      ensures Binds(values[k], channel, account) <==> IsRoute(values[k]) && RouteOf(values[k]).binding == Binding(channel, account)
      ensures Binds(values[k], channel, "") <==> IsRoute(values[k]) && RouteOf(values[k]).binding == Binding(channel, "")
      ensures IsRoute(values[k]) ==> RouteOf(values[k]) in routes
    {
      BindsIff(values[k], channel, account);
      BindsIff(values[k], channel, "");
      if IsRoute(values[k]) {
        RoutesMembers(values, RouteOf(values[k]));
      }
    }
    forall r | r in routes ensures exists k :: 0 <= k < |values| && IsRoute(values[k]) && RouteOf(values[k]) == r {
      RoutesMembers(values, r);
    }
  }

  /** An account that is offered is offered as often as the channel lists it. */
  lemma {:induction false} WithoutCounts(accounts: seq<string>, taken: set<string>, account: string)
    ensures multiset(Without(accounts, taken))[account] == if account in taken then 0 else multiset(accounts)[account]
  {
    if accounts != [] {
      var rest, last := accounts[..|accounts| - 1], accounts[|accounts| - 1];
      WithoutCounts(rest, taken, account);
      SplitLast(accounts);
      assert multiset(rest + [last]) == multiset(rest) + multiset{last};
    }
  }
}
