/** Exactly when a request is served, and what it leaves in the two stores, in plain numbers. */
module ShareServed {
  import opened Text
  import opened ShareLimiter
  import opened ShareLimiterProofs
  import opened ShareHandlerProofs

  /** The tokens of a visitor at a time, in nanoseconds of refilling: what is left and what refilled since, up to all. */
  function Refilled(v: Visitor, all: nat, t: Time): nat {
    var credit := v.bucket.credit + if t < v.bucket.last then 0 else t - v.bucket.last;
    if credit < all then credit else all
  }

  /** A visitor that is not known has all its tokens; one that is needs the time of one. */
  predicate HasToken(store: Store, key: string, period: nat, all: nat, t: Time) {
    key in store ==> Refilled(store[key], all, t) >= period
  }

  lemma AllTokens()
    ensures Capacity(IP_LIMIT) == 20 * 1_000_000_000 && IP_LIMIT.period == 1_000_000_000
    ensures Capacity(CODE_LIMIT) == 4 * 5_000_000_000 && CODE_LIMIT.period == 5_000_000_000
  {
    PriceIsProduct(IP_LIMIT, 20);
    PriceIsProduct(CODE_LIMIT, 4);
  }

  /** One request to one store: it is allowed if there is a token, which is taken; no other visitor is touched. */
  lemma AllowExactly(limit: Limit, store: Store, key: string, seen: Time, used: Time)
    requires limit.burst >= 1 && Capacity(limit) >= limit.period
    ensures var (after, allowed) := AllowIn(limit, store, key, seen, used);
            && (allowed <==> HasToken(store, key, limit.period, Capacity(limit), used))
            && after.Keys == store.Keys + {key} && after[key].lastSeen == seen
            && (forall other :: other in store && other != key ==> after[other] == store[other])
            && (allowed ==> after[key].bucket.last == used)
            && (allowed && key in store ==>
                  after[key].bucket.credit == Refilled(store[key], Capacity(limit), used) - limit.period)
            && (allowed && key !in store ==> after[key].bucket.credit == Capacity(limit) - limit.period)
            && (!allowed && key in store ==> after[key].bucket == store[key].bucket)
  {
  }

  /** The three answers. */
  lemma ServedIff(a: Access, v: Visit, deletes: bool)
    ensures var decision := Handle(a, v, deletes).1;
            var address := HasToken(a.ips, "ip:" + v.ip, 1_000_000_000, 20_000_000_000, v.ipUsed);
            var code := HasToken(a.codes, "code:" + v.ip + ":" + v.code, 5_000_000_000, 20_000_000_000, v.codeUsed);
            && (decision == Served
                <==> (v.code == "" || v.codeMatches) && address && (v.code != "" && v.guarded ==> code))
            && (decision == BadCode <==> v.code != "" && !v.codeMatches)
            && (decision == TooManyRequests
                <==> (v.code == "" || v.codeMatches) && (!address || (v.code != "" && v.guarded && !code)))
  {
    AllTokens();
    AllowExactly(IP_LIMIT, a.ips, IpKey(v), v.ipSeen, v.ipUsed);
    AllowExactly(CODE_LIMIT, a.codes, CodeKey(v), v.codeSeen, v.codeUsed);
  }

  /** A refused code touches nothing; the codes are touched by guarded requests with a code that the address may make. */
  lemma StoresLeft(a: Access, v: Visit)
    ensures var after := Handle(a, v, false).0;
            var address := HasToken(a.ips, "ip:" + v.ip, 1_000_000_000, 20_000_000_000, v.ipUsed);
            && after.cleanupAt == a.cleanupAt
            && (v.code != "" && !v.codeMatches ==> after == a)
            && (v.code == "" || v.codeMatches ==>
                  after.ips == AllowIn(Limit(1_000_000_000, 20), a.ips, "ip:" + v.ip, v.ipSeen, v.ipUsed).0)
            && after.codes == if (v.code != "" && v.codeMatches) && v.guarded && address
                              then AllowIn(Limit(5_000_000_000, 4), a.codes, "code:" + v.ip + ":" + v.code, v.codeSeen, v.codeUsed).0
                              else a.codes
  {
    AllTokens();
    AllowExactly(IP_LIMIT, a.ips, IpKey(v), v.ipSeen, v.ipUsed);
  }

  /** Whoever was not seen for over half an hour. */
  predicate Idle(v: Visitor, now: Time) {
    now > v.lastSeen + 30 * 60 * 1_000_000_000
  }

  /** Of a store, the idle visitors are gone and all others are as they were. */
  ghost predicate WithoutIdle(store: Store, after: Store, now: Time) {
    && (forall key :: key in after <==> key in store && !Idle(store[key], now))
    && forall key :: key in after ==> after[key] == store[key]
  }

  /** Both stores are cleaned after a served request, ten minutes after the last time at the earliest, and only then. */
  lemma CleanedExactly(a: Access, v: Visit)
    ensures var (full, decision) := Handle(a, v, false);
            var after, now := Handle(a, v, true).0, v.cleaned;
            var due := full.cleanupAt.None? || now >= full.cleanupAt.value + 10 * 60 * 1_000_000_000;
            && Handle(a, v, true).1 == decision
            && (decision == Served && due ==>
                  WithoutIdle(full.ips, after.ips, now) && WithoutIdle(full.codes, after.codes, now)
                  && after.cleanupAt == Some(now))
            && (decision != Served || !due ==> after == full)
  {
  }

  // ---- Who waits is served

  /** The visitor's last token was taken no later than some earlier visit with the same key used the clock. */
  predicate TakenBy(store: Store, key: string, times: seq<(string, Time)>) {
    key in store ==> store[key].bucket.last == 0 || exists i :: 0 <= i < |times| && times[i].0 == key && store[key].bucket.last <= times[i].1
  }

  lemma RestedHasToken(limit: Limit, store: Store, key: string, times: seq<(string, Time)>, t: Time)
    requires limit.burst >= 1 && Capacity(limit) >= limit.period && TakenBy(store, key, times)
    requires t >= limit.period && forall i :: 0 <= i < |times| && times[i].0 == key ==> times[i].1 + limit.period <= t
    ensures HasToken(store, key, limit.period, Capacity(limit), t)
  {
  }

  lemma AllowTakenBy(limit: Limit, store: Store, key: string, seen: Time, used: Time, times: seq<(string, Time)>, other: string)
    requires TakenBy(store, other, times)
    ensures TakenBy(AllowIn(limit, store, key, seen, used).0, other, times + [(key, used)])
  {
    var after, more := AllowIn(limit, store, key, seen, used).0, times + [(key, used)];
    assert more[|times|] == (key, used);
    if other in store {
      if i :| 0 <= i < |times| && times[i].0 == other && store[other].bucket.last <= times[i].1 {
        assert more[i] == times[i];
      }
    }
  }

  lemma MoreTimes(store: Store, key: string, times: seq<(string, Time)>, one: (string, Time))
    requires TakenBy(store, key, times)
    ensures TakenBy(store, key, times + [one])
  {
    if key in store && store[key].bucket.last != 0 {
      var i :| 0 <= i < |times| && times[i].0 == key && store[key].bucket.last <= times[i].1;
      assert (times + [one])[i] == times[i];
    }
  }

  function IpTimes(visits: seq<Visit>): (times: seq<(string, Time)>)
    ensures |times| == |visits|
  {
    seq(|visits|, i requires 0 <= i < |visits| => ("ip:" + visits[i].ip, visits[i].ipUsed))
  }

  function CodeTimes(visits: seq<Visit>): (times: seq<(string, Time)>)
    ensures |times| == |visits|
  {
    seq(|visits|, i requires 0 <= i < |visits| => ("code:" + visits[i].ip + ":" + visits[i].code, visits[i].codeUsed))
  }

  lemma TimesMore(visits: seq<Visit>)
    requires visits != []
    ensures var rest, v := visits[..|visits| - 1], visits[|visits| - 1];
            && IpTimes(visits) == IpTimes(rest) + [("ip:" + v.ip, v.ipUsed)]
            && CodeTimes(visits) == CodeTimes(rest) + [("code:" + v.ip + ":" + v.code, v.codeUsed)]
  {
  }

  lemma {:induction false} ServedTakenBy(visits: seq<Visit>, key: string)
    ensures TakenBy(Serve(visits, false).0.ips, key, IpTimes(visits))
    ensures TakenBy(Serve(visits, false).0.codes, key, CodeTimes(visits))
  {
    if visits != [] {
      var rest, v := visits[..|visits| - 1], visits[|visits| - 1];
      ServedTakenBy(rest, key);
      TimesMore(visits);
      HandleTakenBy(Serve(rest, false).0, v, key, IpTimes(rest), CodeTimes(rest));
    }
  }

  lemma HandleTakenBy(a: Access, v: Visit, key: string, ips: seq<(string, Time)>, codes: seq<(string, Time)>)
    requires TakenBy(a.ips, key, ips) && TakenBy(a.codes, key, codes)
    ensures TakenBy(Handle(a, v, false).0.ips, key, ips + [(IpKey(v), v.ipUsed)])
    ensures TakenBy(Handle(a, v, false).0.codes, key, codes + [(CodeKey(v), v.codeUsed)])
  {
    AllowTakenBy(IP_LIMIT, a.ips, IpKey(v), v.ipSeen, v.ipUsed, ips, key);
    AllowTakenBy(CODE_LIMIT, a.codes, CodeKey(v), v.codeSeen, v.codeUsed, codes, key);
    MoreTimes(a.ips, key, ips, (IpKey(v), v.ipUsed));
    MoreTimes(a.codes, key, codes, (CodeKey(v), v.codeUsed));
  }

  /** The address made no request in the second before, nor, of a guarded code, one in the five seconds before. */
  predicate Patient(visits: seq<Visit>, k: nat)
    requires k < |visits|
  {
    var v := visits[k];
    && v.ipUsed >= 1_000_000_000 && v.codeUsed >= 5_000_000_000
    && (forall i :: 0 <= i < k && "ip:" + visits[i].ip == "ip:" + v.ip ==> visits[i].ipUsed + 1_000_000_000 <= v.ipUsed)
    && (v.code != "" && v.guarded ==>
          forall i :: 0 <= i < k && "code:" + visits[i].ip + ":" + visits[i].code == "code:" + v.ip + ":" + v.code ==>
            visits[i].codeUsed + 5_000_000_000 <= v.codeUsed)
  }

  /** In any prompt sequence of requests, who waits a second, and five for a guarded code, is served. */
  lemma PatientIsServed(visits: seq<Visit>, k: nat)
    requires Prompt(visits) && k < |visits| && Patient(visits, k) && (visits[k].code == "" || visits[k].codeMatches)
    ensures Handle(Serve(visits[..k], true).0, visits[k], true).1 == Served
  {
    var v, rest, full := visits[k], visits[..k], Serve(visits[..k], false).0;
    AllTokens();
    DecisionAt(visits, k);
    ServedTakenBy(rest, "ip:" + v.ip);
    ServedTakenBy(rest, "code:" + v.ip + ":" + v.code);
    ServedIff(full, v, false);
    RestedHasToken(IP_LIMIT, full.ips, "ip:" + v.ip, IpTimes(rest), v.ipUsed);
    if v.code != "" && v.guarded {
      RestedHasToken(CODE_LIMIT, full.codes, "code:" + v.ip + ":" + v.code, CodeTimes(rest), v.codeUsed);
    }
  }
}
