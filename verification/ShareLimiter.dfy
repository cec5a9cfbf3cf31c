/**
 * The rate limiter of public file shares: two stores of token buckets, one per client address and one
 * per address and code, from which buckets that were idle for half an hour are deleted. Time counts
 * nanoseconds; a bucket's credit is the time its tokens took to refill, so the arithmetic is exact.
 */
module ShareLimiter {
  import opened Text

  type Time = nat

  /** One token per period, at most burst tokens. */
  datatype Limit = Limit(period: nat, burst: nat)

  const SECOND: Time := 1_000_000_000
  const MINUTE: Time := 60_000_000_000
  const IP_LIMIT := Limit(SECOND, 20)
  const CODE_LIMIT := Limit(5 * SECOND, 4)
  const IDLE: Time := 30 * MINUTE
  const CLEANUP_EVERY: Time := 10 * MINUTE

  /** A token bucket: the credit it had when it was last taken from. */
  datatype Bucket = Bucket(credit: nat, last: Time)

  datatype Visitor = Visitor(bucket: Bucket, lastSeen: Time)

  type Store = map<string, Visitor>

  /** What n tokens cost: n periods. */
  function Price(limit: Limit, n: nat): nat {
    if n == 0 then 0 else Price(limit, n - 1) + limit.period
  }

  function Capacity(limit: Limit): nat {
    Price(limit, limit.burst)
  }

  function NewBucket(limit: Limit): Bucket {
    Bucket(Capacity(limit), 0)
  }

  /** The credit at time t: what was left plus what refilled since, up to the capacity. */
  function Level(limit: Limit, b: Bucket, t: Time): nat {
    var refilled := b.credit + if t < b.last then 0 else t - b.last;
    if refilled > Capacity(limit) then Capacity(limit) else refilled
  }

  /** Take one token, if there is one. */
  function Take(limit: Limit, b: Bucket, t: Time): (Bucket, bool) {
    if limit.burst >= 1 && Level(limit, b, t) >= limit.period
    then (Bucket(Level(limit, b, t) - limit.period, t), true)
    else (b, false)
  }

  /** A request reads the clock twice: when its visitor is looked up, and when the token is taken. */
  function AllowIn(limit: Limit, store: Store, key: string, seen: Time, used: Time): (Store, bool) {
    var bucket := if key in store then store[key].bucket else NewBucket(limit);
    var (after, allowed) := Take(limit, bucket, used);
    (store[key := Visitor(after, seen)], allowed)
  }

  predicate IsIdle(v: Visitor, now: Time) {
    now > v.lastSeen + IDLE
  }

  function Evict(store: Store, now: Time): Store {
    map key | key in store && !IsIdle(store[key], now) :: store[key]
  }

  // ---- The two stores and the request handler

  datatype Decision = BadCode | TooManyRequests | Served

  /** A request: its texts as the handler classifies them, and the times at which the clock is read. */
  datatype Visit = Visit(
    ip: string, code: string, codeMatches: bool, guarded: bool,
    ipSeen: Time, ipUsed: Time, codeSeen: Time, codeUsed: Time, cleaned: Time)

  datatype Access = Access(ips: Store, codes: Store, cleanupAt: Option<Time>)

  function IpKey(v: Visit): string {
    "ip:" + v.ip
  }

  function CodeKey(v: Visit): string {
    "code:" + v.ip + ":" + v.code
  }

  predicate CountsCode(v: Visit) {
    v.code != "" && v.guarded
  }

  predicate CleanupDue(cleanupAt: Option<Time>, now: Time) {
    cleanupAt.None? || now >= cleanupAt.value + CLEANUP_EVERY
  }

  function Cleanup(a: Access, now: Time): Access {
    if CleanupDue(a.cleanupAt, now) then Access(Evict(a.ips, now), Evict(a.codes, now), Some(now)) else a
  }

  /** One request; without deletion the cleanup is left out. */
  function Handle(a: Access, v: Visit, deletes: bool): (Access, Decision) {
    if v.code != "" && !v.codeMatches then (a, BadCode)
    else
      var (ips, ipAllowed) := AllowIn(IP_LIMIT, a.ips, IpKey(v), v.ipSeen, v.ipUsed);
      if !ipAllowed then (a.(ips := ips), TooManyRequests)
      else
        var counted := a.(ips := ips);
        if !CountsCode(v) then (if deletes then Cleanup(counted, v.cleaned) else counted, Served)
        else
          var (codes, codeAllowed) := AllowIn(CODE_LIMIT, a.codes, CodeKey(v), v.codeSeen, v.codeUsed);
          var both := counted.(codes := codes);
          if !codeAllowed then (both, TooManyRequests)
          else (if deletes then Cleanup(both, v.cleaned) else both, Served)
  }

  class LimiterStore {
    var visitors: Store

    constructor ()
      ensures visitors == map[]
    {
      visitors := map[];
    }

    /** allowLimiter: load or store the visitor, note when it was seen, take a token. */
    method Allow(limit: Limit, key: string, seen: Time, used: Time) returns (allowed: bool)
      modifies this
      ensures (visitors, allowed) == AllowIn(limit, old(visitors), key, seen, used)
    {
      if key !in visitors {
        visitors := visitors[key := Visitor(NewBucket(limit), seen)];
      }
      visitors := visitors[key := visitors[key].(lastSeen := seen)];
      var (bucket, ok) := Take(limit, visitors[key].bucket, used);
      visitors := visitors[key := visitors[key].(bucket := bucket)];
      allowed := ok;
      assert visitors == old(visitors)[key := Visitor(bucket, seen)];
    }

    /** cleanupLimiterMap: delete while ranging over the keys, in any order. */
    method DeleteIdle(now: Time)
      modifies this
      ensures visitors == Evict(old(visitors), now)
    {
      var todo := visitors.Keys;
      while todo != {}
        invariant todo <= visitors.Keys <= old(visitors).Keys
        invariant forall key :: key in visitors ==> visitors[key] == old(visitors)[key]
        invariant forall key :: key in old(visitors) && key !in todo ==>
                                  (key in visitors <==> !IsIdle(old(visitors)[key], now))
        decreases |todo|
      {
        var key :| key in todo;
        if IsIdle(visitors[key], now) {
          visitors := visitors - {key};
        }
        todo := todo - {key};
      }
    }
  }

  class FileShareAccess {
    const ips: LimiterStore
    const codes: LimiterStore
    var cleanupAt: Option<Time>

    function State(): Access
      reads this, ips, codes
    {
      Access(ips.visitors, codes.visitors, cleanupAt)
    }

    constructor ()
      ensures State() == Access(map[], map[], None)
      ensures fresh(ips) && fresh(codes) && ips != codes
    {
      ips := new LimiterStore();
      codes := new LimiterStore();
      cleanupAt := None;
    }

    method MaybeCleanup(now: Time)
      requires ips != codes
      modifies this, ips, codes
      ensures State() == Cleanup(old(State()), now)
    {
      if cleanupAt.Some? && now < cleanupAt.value + CLEANUP_EVERY {
        return;
      }
      cleanupAt := Some(now);
      ips.DeleteIdle(now);
      codes.DeleteIdle(now);
    }

    method PublicAccess(v: Visit) returns (decision: Decision)
      requires ips != codes
      modifies this, ips, codes
      ensures (State(), decision) == Handle(old(State()), v, true)
    {
      if v.code != "" && !v.codeMatches {
        return BadCode;
      }
      var allowed := ips.Allow(IP_LIMIT, IpKey(v), v.ipSeen, v.ipUsed);
      if !allowed {
        return TooManyRequests;
      }
      if CountsCode(v) {
        allowed := codes.Allow(CODE_LIMIT, CodeKey(v), v.codeSeen, v.codeUsed);
        if !allowed {
          return TooManyRequests;
        }
      }
      MaybeCleanup(v.cleaned);
      decision := Served;
    }
  }
}
