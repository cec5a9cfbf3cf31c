/** What the limits promise of the handler: how many requests of one address, or one code, it serves. */
module ShareHandlerProofs {
  import opened ShareLimiter
  import opened ShareLimiterProofs

  predicate Refused(v: Visit) {
    v.code != "" && !v.codeMatches
  }

  predicate IpAllowed(full: Access, v: Visit) {
    AllowIn(IP_LIMIT, full.ips, IpKey(v), v.ipSeen, v.ipUsed).1
  }

  /** What a visit asks of the store of addresses; a refused one asks nothing. */
  function IpEvent(v: Visit): Event {
    if Refused(v) then Clean(v.cleaned) else Request(IpKey(v), v.ipSeen, v.ipUsed)
  }

  function IpEvents(visits: seq<Visit>): (events: seq<Event>)
    ensures |events| == |visits| && forall k :: 0 <= k < |visits| ==> events[k] == IpEvent(visits[k])
  {
    seq(|visits|, k requires 0 <= k < |visits| => IpEvent(visits[k]))
  }

  /** What a visit asks of the store of codes, given the stores it meets. */
  function CodeEvent(full: Access, v: Visit): Event {
    if Refused(v) || !IpAllowed(full, v) || !CountsCode(v) then Clean(v.cleaned)
    else Request(CodeKey(v), v.codeSeen, v.codeUsed)
  }

  function CodeEvents(visits: seq<Visit>): (events: seq<Event>)
    ensures |events| == |visits|
  {
    if visits == [] then []
    else
      var rest := visits[..|visits| - 1];
      CodeEvents(rest) + [CodeEvent(Serve(rest, false).0, visits[|visits| - 1])]
  }

  lemma {:induction false} CodeEventsPrefix(visits: seq<Visit>, k: nat)
    requires k <= |visits|
    ensures CodeEvents(visits)[..k] == CodeEvents(visits[..k])
    ensures k < |visits| ==> CodeEvents(visits)[k] == CodeEvent(Serve(visits[..k], false).0, visits[k])
  {
    var n := |visits|;
    if k == n {
      assert visits[..k] == visits;
    } else if k == n - 1 {
      assert CodeEvents(visits) == CodeEvents(visits[..k]) + [CodeEvent(Serve(visits[..k], false).0, visits[k])];
    } else {
      var rest := visits[..n - 1];
      CodeEventsPrefix(rest, k);
      assert rest[..k] == visits[..k];
      assert CodeEvents(visits)[..k] == CodeEvents(rest)[..k];
    }
  }

  lemma HandleIps(full: Access, v: Visit)
    ensures Handle(full, v, false).0.ips == EventLeaves(IP_LIMIT, full.ips, IpEvent(v))
  {
  }

  lemma HandleCodes(full: Access, v: Visit)
    ensures Handle(full, v, false).0.codes == EventLeaves(CODE_LIMIT, full.codes, CodeEvent(full, v))
  {
  }

  lemma PlayAppends(limit: Limit, events: seq<Event>, e: Event)
    ensures Play(limit, events + [e], false).0 == EventLeaves(limit, Play(limit, events, false).0, e)
  {
    assert (events + [e])[..|events|] == events;
  }

  /** Without deletion the handler's two stores are those of the two traces. */
  lemma {:induction false} ServePlays(visits: seq<Visit>)
    ensures Serve(visits, false).0.ips == Play(IP_LIMIT, IpEvents(visits), false).0
    ensures Serve(visits, false).0.codes == Play(CODE_LIMIT, CodeEvents(visits), false).0
  {
    if visits != [] {
      var rest, v := visits[..|visits| - 1], visits[|visits| - 1];
      ServePlays(rest);
      var full := Serve(rest, false).0;
      assert Serve(visits, false).0 == Handle(full, v, false).0;
      HandleIps(full, v);
      HandleCodes(full, v);
      assert IpEvents(visits) == IpEvents(rest) + [IpEvent(v)];
      PlayAppends(IP_LIMIT, IpEvents(rest), IpEvent(v));
      PlayAppends(CODE_LIMIT, CodeEvents(rest), CodeEvent(full, v));
    }
  }

  lemma EventsWithin(full: Access, v: Visit)
    requires InOrder(v)
    ensures v.ipSeen <= Begin(IpEvent(v)) <= End(IpEvent(v)) <= v.cleaned
    ensures v.ipSeen <= Begin(CodeEvent(full, v)) <= End(CodeEvent(full, v)) <= v.cleaned
  {
  }

  lemma EndsWithin(visits: seq<Visit>, k: nat)
    requires Prompt(visits) && k < |visits|
    ensures visits[k].ipSeen <= Begin(IpEvents(visits)[k]) <= End(IpEvents(visits)[k]) <= visits[k].cleaned
    ensures visits[k].ipSeen <= Begin(CodeEvents(visits)[k]) <= End(CodeEvents(visits)[k]) <= visits[k].cleaned
  {
    CodeEventsPrefix(visits, k);
    EventsWithin(Serve(visits[..k], false).0, visits[k]);
  }

  lemma TracesAreMonotone(visits: seq<Visit>)
    requires Prompt(visits)
    ensures Monotone(IpEvents(visits)) && Monotone(CodeEvents(visits))
  {
    forall k | 0 <= k < |visits|
      ensures visits[k].ipSeen <= Begin(IpEvents(visits)[k]) <= End(IpEvents(visits)[k]) <= visits[k].cleaned
      ensures visits[k].ipSeen <= Begin(CodeEvents(visits)[k]) <= End(CodeEvents(visits)[k]) <= visits[k].cleaned
    {
      EndsWithin(visits, k);
    }
  }

  /** The visits from i to j that the handler serves and that the predicate picks. */
  function ServedWhere(visits: seq<Visit>, i: nat, j: nat, picks: Visit -> bool): nat
    requires i <= j <= |visits|
  {
    if i == j then 0
    else ServedWhere(visits, i, j - 1, picks)
         + if picks(visits[j - 1]) && Handle(Serve(visits[..j - 1], true).0, visits[j - 1], true).1.Served? then 1 else 0
  }

  lemma DecisionAt(visits: seq<Visit>, k: nat)
    requires Prompt(visits) && k < |visits|
    ensures Handle(Serve(visits[..k], true).0, visits[k], true).1 == Handle(Serve(visits[..k], false).0, visits[k], false).1
  {
    var front := visits[..k + 1];
    assert front[..k] == visits[..k] && front[k] == visits[k];
    assert Prompt(front);
    CleanupInvisible(front);
    var with, without := Serve(front, true).1, Serve(front, false).1;
    assert with[|with| - 1] == without[|without| - 1];
  }

  function OfAddress(ip: string): Visit -> bool {
    (v: Visit) => v.ip == ip
  }

  /** A served visit was accepted by the store of addresses. */
  lemma ServedWasIpAccepted(visits: seq<Visit>, k: nat)
    requires Prompt(visits) && k < |visits|
    requires Handle(Serve(visits[..k], true).0, visits[k], true).1.Served?
    ensures AcceptedAt(IP_LIMIT, IpEvents(visits), k, IpKey(visits[k]), false)
  {
    DecisionAt(visits, k);
    ServePlays(visits[..k]);
    assert IpEvents(visits)[..k] == IpEvents(visits[..k]);
  }

  lemma {:induction false} ServedByIp(visits: seq<Visit>, i: nat, j: nat, ip: string)
    requires Prompt(visits) && i <= j <= |visits|
    ensures ServedWhere(visits, i, j, OfAddress(ip)) <= Accepted(IP_LIMIT, IpEvents(visits), i, j, "ip:" + ip, false)
  {
    if i < j {
      ServedByIp(visits, i, j - 1, ip);
      if OfAddress(ip)(visits[j - 1]) && Handle(Serve(visits[..j - 1], true).0, visits[j - 1], true).1.Served? {
        ServedOnce(visits, j - 1, ip);
      }
    }
  }

  lemma ServedOnce(visits: seq<Visit>, k: nat, ip: string)
    requires Prompt(visits) && k < |visits|
    requires OfAddress(ip)(visits[k]) && Handle(Serve(visits[..k], true).0, visits[k], true).1.Served?
    ensures AcceptedAt(IP_LIMIT, IpEvents(visits), k, "ip:" + ip, false)
  {
    ServedWasIpAccepted(visits, k);
    assert IpKey(visits[k]) == "ip:" + ip;
  }

  /**
   * In any stretch of any prompt sequence of requests the handler serves one address at most 20
   * requests plus one for every second of the stretch.
   */
  lemma ServedPerAddress(visits: seq<Visit>, i: nat, j: nat, ip: string)
    requires Prompt(visits) && i < j <= |visits|
    ensures ServedWhere(visits, i, j, OfAddress(ip)) * SECOND <= 20 * SECOND + (visits[j - 1].cleaned - visits[i].ipSeen)
  {
    var events, key := IpEvents(visits), "ip:" + ip;
    SourceLimitsAreValid();
    TracesAreMonotone(visits);
    ServedByIp(visits, i, j, ip);
    PriceBound(IP_LIMIT, events, i, j, key);
    EndsWithin(visits, i);
    EndsWithin(visits, j - 1);
    IpStretch(ServedWhere(visits, i, j, OfAddress(ip)), Accepted(IP_LIMIT, events, i, j, key, false),
              End(events[i]), End(events[j - 1]), visits[i].ipSeen, visits[j - 1].cleaned);
  }

  lemma IpStretch(served: nat, accepted: nat, start: int, end: int, first: int, last: int)
    requires served <= accepted && Price(IP_LIMIT, accepted) <= Capacity(IP_LIMIT) + (end - start)
    requires first <= start && end <= last
    ensures served * SECOND <= 20 * SECOND + (last - first)
  {
    PriceIsProduct(IP_LIMIT, accepted);
    PriceIsProduct(IP_LIMIT, 20);
  }

  lemma PriceBound(limit: Limit, events: seq<Event>, i: nat, j: nat, key: string)
    requires ValidLimit(limit) && Monotone(events) && i < j <= |events|
    ensures Price(limit, Accepted(limit, events, i, j, key, false)) <= Capacity(limit) + (End(events[j - 1]) - End(events[i]))
  {
    CreditBound(limit, events, i, j, key);
  }

  function OfCode(ip: string, code: string): Visit -> bool {
    (v: Visit) => v.ip == ip && v.code == code && v.code != "" && v.guarded
  }

  lemma ServedWasCodeAccepted(visits: seq<Visit>, k: nat)
    requires Prompt(visits) && k < |visits| && CountsCode(visits[k])
    requires Handle(Serve(visits[..k], true).0, visits[k], true).1.Served?
    ensures AcceptedAt(CODE_LIMIT, CodeEvents(visits), k, CodeKey(visits[k]), false)
  {
    DecisionAt(visits, k);
    ServePlays(visits[..k]);
    CodeEventsPrefix(visits, k);
  }

  lemma {:induction false} ServedByCode(visits: seq<Visit>, i: nat, j: nat, ip: string, code: string)
    requires Prompt(visits) && i <= j <= |visits|
    ensures ServedWhere(visits, i, j, OfCode(ip, code))
            <= Accepted(CODE_LIMIT, CodeEvents(visits), i, j, "code:" + ip + ":" + code, false)
  {
    if i < j {
      ServedByCode(visits, i, j - 1, ip, code);
      var v := visits[j - 1];
      if OfCode(ip, code)(v) && Handle(Serve(visits[..j - 1], true).0, v, true).1.Served? {
        ServedWasCodeAccepted(visits, j - 1);
      }
    }
  }

  /** Of the guarded requests of one address for one code, at most 4 plus one for every five seconds. */
  lemma ServedPerCode(visits: seq<Visit>, i: nat, j: nat, ip: string, code: string)
    requires Prompt(visits) && i < j <= |visits|
    ensures ServedWhere(visits, i, j, OfCode(ip, code)) * (5 * SECOND)
            <= 20 * SECOND + (visits[j - 1].cleaned - visits[i].ipSeen)
  {
    var events, key := CodeEvents(visits), "code:" + ip + ":" + code;
    SourceLimitsAreValid();
    TracesAreMonotone(visits);
    ServedByCode(visits, i, j, ip, code);
    PriceBound(CODE_LIMIT, events, i, j, key);
    EndsWithin(visits, i);
    EndsWithin(visits, j - 1);
    CodeStretch(ServedWhere(visits, i, j, OfCode(ip, code)), Accepted(CODE_LIMIT, events, i, j, key, false),
                End(events[i]), End(events[j - 1]), visits[i].ipSeen, visits[j - 1].cleaned);
  }

  lemma CodeStretch(served: nat, accepted: nat, start: int, end: int, first: int, last: int)
    requires served <= accepted && Price(CODE_LIMIT, accepted) <= Capacity(CODE_LIMIT) + (end - start)
    requires first <= start && end <= last
    ensures served * (5 * SECOND) <= 20 * SECOND + (last - first)
  {
    PriceIsProduct(CODE_LIMIT, accepted);
    PriceIsProduct(CODE_LIMIT, 4);
  }
}
