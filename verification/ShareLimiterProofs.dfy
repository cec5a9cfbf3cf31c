/** Deleting idle buckets changes no decision, exactly within a bound on the gap between two clock reads. */
module ShareLimiterProofs {
  import opened Text
  import opened ShareLimiter

  predicate ValidLimit(limit: Limit) {
    && limit.period >= 1 && limit.burst >= 1
    && Capacity(limit) + limit.period <= IDLE
  }

  lemma SourceLimitsAreValid()
    ensures ValidLimit(IP_LIMIT) && ValidLimit(CODE_LIMIT)
  {
    PriceIsProduct(IP_LIMIT, 20);
    PriceIsProduct(CODE_LIMIT, 4);
  }

  /** The longest gap between seeing a visitor and taking its token that cleanup can bear. */
  function SafeGap(limit: Limit): nat
    requires limit.period <= IDLE
  {
    IDLE + 1 - limit.period
  }

  // ---- One store, and the same store without deletions

  datatype Event = Request(key: string, seen: Time, used: Time) | Clean(now: Time)

  function Begin(e: Event): Time {
    match e case Request(_, seen, _) => seen case Clean(now) => now
  }

  function End(e: Event): Time {
    match e case Request(_, _, used) => used case Clean(now) => now
  }

  /** The clock never runs backwards: within an event, and from each event to the next. */
  predicate Monotone(events: seq<Event>) {
    && (forall i :: 0 <= i < |events| ==> Begin(events[i]) <= End(events[i]))
    && (forall i, j :: 0 <= i < j < |events| ==> End(events[i]) <= Begin(events[j]))
  }

  predicate GapsWithin(events: seq<Event>, gap: nat) {
    forall i :: 0 <= i < |events| && events[i].Request? ==> events[i].used <= events[i].seen + gap
  }

  /** The store after the events, with its decisions; deletions happen or not. */
  function Play(limit: Limit, events: seq<Event>, deletes: bool): (Store, seq<bool>) {
    if events == [] then (map[], [])
    else
      var (store, decisions) := Play(limit, events[..|events| - 1], deletes);
      match events[|events| - 1]
      case Request(key, seen, used) =>
        var (after, allowed) := AllowIn(limit, store, key, seen, used);
        (after, decisions + [allowed])
      case Clean(now) => (if deletes then Evict(store, now) else store, decisions)
  }

  /** The decisions with deletion are the decisions of a store that never deletes. */
  predicate SameDecisions(limit: Limit, events: seq<Event>) {
    Play(limit, events, true).1 == Play(limit, events, false).1
  }

  /** The bucket a request for the key would find. */
  function BucketAt(limit: Limit, store: Store, key: string): Bucket {
    if key in store then store[key].bucket else NewBucket(limit)
  }

  predicate FullAt(limit: Limit, b: Bucket, t: Time) {
    Level(limit, b, t) == Capacity(limit)
  }

  /**
   * The store that deletes against the one that does not, at time now: a bucket that is there is the
   * same in both and will be full by the time it may be deleted; one that is missing is full already.
   */
  predicate MirrorsAt(limit: Limit, store: Store, full: Store, now: Time, key: string) {
    if key in store then
      && key in full && store[key] == full[key]
      && full[key].lastSeen <= now && full[key].bucket.last <= now
      && FullAt(limit, full[key].bucket, full[key].lastSeen + IDLE + 1)
    else FullAt(limit, BucketAt(limit, full, key), now)
  }

  ghost predicate Mirrors(limit: Limit, store: Store, full: Store, now: Time) {
    forall key :: MirrorsAt(limit, store, full, now, key)
  }

  lemma LevelGrows(limit: Limit, b: Bucket, s: Time, t: Time)
    requires s <= t
    ensures Level(limit, b, s) <= Level(limit, b, t) <= Level(limit, b, s) + (t - s)
  {
  }

  lemma MirrorsLater(limit: Limit, store: Store, full: Store, now: Time, later: Time)
    requires Mirrors(limit, store, full, now) && now <= later
    ensures Mirrors(limit, store, full, later)
  {
    forall key
      ensures MirrorsAt(limit, store, full, later, key)
    {
      assert MirrorsAt(limit, store, full, now, key);
      LevelGrows(limit, BucketAt(limit, full, key), now, later);
    }
  }

  lemma CapacityHoldsAToken(limit: Limit)
    requires ValidLimit(limit)
    ensures limit.period <= Capacity(limit)
  {
  }

  /** A bucket that was taken from within the safe gap will be full by the time it may be deleted. */
  lemma TakenWillBeFull(limit: Limit, b: Bucket, seen: Time, used: Time)
    requires ValidLimit(limit) && b.last <= seen <= used <= seen + SafeGap(limit)
    requires Take(limit, b, used).1
    ensures FullAt(limit, Take(limit, b, used).0, seen + IDLE + 1)
  {
  }

  /** The key of the request itself. */
  lemma OwnKeyMirrors(limit: Limit, store: Store, full: Store, key: string, seen: Time, used: Time)
    requires ValidLimit(limit) && seen <= used <= seen + SafeGap(limit)
    requires MirrorsAt(limit, store, full, seen, key)
    ensures var (store', allowed), (full', allowed') :=
              AllowIn(limit, store, key, seen, used), AllowIn(limit, full, key, seen, used);
            && allowed == allowed' && store'[key] == full'[key]
            && store'[key].bucket.last <= used && store'[key].lastSeen == seen
            && FullAt(limit, store'[key].bucket, seen + IDLE + 1)
  {
    var b, b' := BucketAt(limit, store, key), BucketAt(limit, full, key);
    if key in store {
      LevelGrows(limit, b, full[key].lastSeen + IDLE + 1, seen + IDLE + 1);
    } else {
      LevelGrows(limit, b', seen, used);
      FullBucketsAgree(limit, b, b', used);
    }
    if Take(limit, b, used).1 {
      TakenWillBeFull(limit, b, seen, used);
    }
  }

  lemma RequestMirrors(limit: Limit, store: Store, full: Store, now: Time, key: string, seen: Time, used: Time)
    requires ValidLimit(limit) && Mirrors(limit, store, full, now)
    requires now <= seen <= used <= seen + SafeGap(limit)
    ensures var (store', allowed), (full', allowed') :=
              AllowIn(limit, store, key, seen, used), AllowIn(limit, full, key, seen, used);
            allowed == allowed' && Mirrors(limit, store', full', used)
  {
    MirrorsLater(limit, store, full, now, seen);
    MirrorsLater(limit, store, full, now, used);
    assert MirrorsAt(limit, store, full, seen, key);
    OwnKeyMirrors(limit, store, full, key, seen, used);
    var store', full' := AllowIn(limit, store, key, seen, used).0, AllowIn(limit, full, key, seen, used).0;
    forall k
      ensures MirrorsAt(limit, store', full', used, k)
    {
      assert MirrorsAt(limit, store, full, used, k);
    }
  }

  /** Two full buckets grant the same token and leave the same bucket. */
  lemma FullBucketsAgree(limit: Limit, b: Bucket, b': Bucket, t: Time)
    requires ValidLimit(limit) && FullAt(limit, b, t) && FullAt(limit, b', t)
    ensures Take(limit, b, t) == Take(limit, b', t) && Take(limit, b, t).1
  {
    CapacityHoldsAToken(limit);
  }

  lemma CleanMirrors(limit: Limit, store: Store, full: Store, now: Time, later: Time)
    requires Mirrors(limit, store, full, now) && now <= later
    ensures Mirrors(limit, Evict(store, later), full, later)
  {
    MirrorsLater(limit, store, full, now, later);
    forall key
      ensures MirrorsAt(limit, Evict(store, later), full, later, key)
    {
      assert MirrorsAt(limit, store, full, later, key);
      if key in store && IsIdle(store[key], later) {
        LevelGrows(limit, full[key].bucket, full[key].lastSeen + IDLE + 1, later);
      }
    }
  }

  function LastTime(events: seq<Event>): Time {
    if events == [] then 0 else End(events[|events| - 1])
  }

  lemma {:induction false} PlayMirrors(limit: Limit, events: seq<Event>)
    requires ValidLimit(limit) && Monotone(events) && GapsWithin(events, SafeGap(limit))
    ensures Mirrors(limit, Play(limit, events, true).0, Play(limit, events, false).0, LastTime(events))
    ensures SameDecisions(limit, events)
  {
    if events != [] {
      var rest, last := events[..|events| - 1], events[|events| - 1];
      PlayMirrors(limit, rest);
      var store, full := Play(limit, rest, true).0, Play(limit, rest, false).0;
      assert LastTime(rest) <= Begin(last);
      match last
      case Request(key, seen, used) => RequestMirrors(limit, store, full, LastTime(rest), key, seen, used);
      case Clean(now) => CleanMirrors(limit, store, full, LastTime(rest), now);
    }
  }

  // ---- The bound is exact

  /** Requests for one key, all at the same time. */
  function Burst(key: string, t: Time, n: nat): seq<Event> {
    if n == 0 then [] else Burst(key, t, n - 1) + [Request(key, t, t)]
  }

  /** One request whose two clock reads lie far apart, the deletion of its bucket, then a burst. */
  function Trap(limit: Limit, gap: nat): seq<Event> {
    [Request("", 0, gap), Clean(IDLE + 1)] + Burst("", IDLE + 1, limit.burst)
  }

  lemma {:induction false} BurstShape(key: string, t: Time, n: nat)
    ensures |Burst(key, t, n)| == n
    ensures forall i :: 0 <= i < n ==> Burst(key, t, n)[i] == Request(key, t, t)
  {
    if n > 0 {
      BurstShape(key, t, n - 1);
    }
  }

  lemma TrapIsLegal(limit: Limit, gap: nat)
    requires gap <= IDLE + 1
    ensures Monotone(Trap(limit, gap)) && GapsWithin(Trap(limit, gap), gap)
  {
    BurstShape("", IDLE + 1, limit.burst);
  }

  lemma PlayMore(limit: Limit, events: seq<Event>, key: string, seen: Time, used: Time, deletes: bool)
    ensures var (store, decisions) := Play(limit, events, deletes);
            var (after, allowed) := AllowIn(limit, store, key, seen, used);
            Play(limit, events + [Request(key, seen, used)], deletes) == (after, decisions + [allowed])
  {
    assert (events + [Request(key, seen, used)])[..|events|] == events;
  }

  lemma PlayClean(limit: Limit, events: seq<Event>, now: Time, deletes: bool)
    ensures var (store, decisions) := Play(limit, events, deletes);
            Play(limit, events + [Clean(now)], deletes) == (if deletes then Evict(store, now) else store, decisions)
  {
    assert (events + [Clean(now)])[..|events|] == events;
  }

  lemma {:induction false} PriceIsProduct(limit: Limit, n: nat)
    ensures Price(limit, n) == n * limit.period
  {
    if n > 0 {
      PriceIsProduct(limit, n - 1);
      assert (n - 1) * limit.period + limit.period == n * limit.period;
    }
  }

  /** In a burst, the store grants as many requests as the level it started from pays for. */
  lemma {:induction false} BurstPlays(limit: Limit, prefix: seq<Event>, t: Time, n: nat, deletes: bool, level: nat)
    requires limit.burst >= 1
    requires var b := BucketAt(limit, Play(limit, prefix, deletes).0, "");
             b.last <= t && level == Level(limit, b, t) && Price(limit, n) <= level
    ensures var (store, decisions) := Play(limit, prefix + Burst("", t, n), deletes);
            && decisions == Play(limit, prefix, deletes).1 + Granted(n)
            && BucketAt(limit, store, "").last <= t
            && Level(limit, BucketAt(limit, store, ""), t) == level - Price(limit, n)
  {
    if n == 0 {
      assert prefix + Burst("", t, n) == prefix;
    } else {
      BurstPlays(limit, prefix, t, n - 1, deletes, level);
      var before := prefix + Burst("", t, n - 1);
      var store := Play(limit, before, deletes).0;
      TakeInBurst(limit, store, t, level - Price(limit, n - 1));
      PlayMore(limit, before, "", t, t, deletes);
      ConcatAssociates(prefix, Burst("", t, n - 1), [Request("", t, t)]);
      ConcatAssociates(Play(limit, prefix, deletes).1, Granted(n - 1), [true]);
    }
  }

  lemma TakeInBurst(limit: Limit, store: Store, t: Time, level: nat)
    requires limit.burst >= 1 && limit.period <= level
    requires BucketAt(limit, store, "").last <= t && Level(limit, BucketAt(limit, store, ""), t) == level
    ensures var (after, allowed) := AllowIn(limit, store, "", t, t);
            && allowed && BucketAt(limit, after, "").last <= t
            && Level(limit, BucketAt(limit, after, ""), t) == level - limit.period
  {
  }

  function Granted(n: nat): seq<bool> {
    if n == 0 then [] else Granted(n - 1) + [true]
  }

  /** After the trap's first two events one store has a bucket short of one unit of credit, the other none. */
  lemma TrapIsSet(limit: Limit, gap: nat)
    requires ValidLimit(limit) && gap == SafeGap(limit) + 1
    ensures var start := [Request("", 0, gap), Clean(IDLE + 1)];
            && Play(limit, start, true) == (map[], [true])
            && Play(limit, start, false)
            == (map["" := Visitor(Bucket(Capacity(limit) - limit.period, gap), 0)], [true])
            && limit.period <= Capacity(limit)
  {
    CapacityHoldsAToken(limit);
    var first := [Request("", 0, gap)];
    var start := first + [Clean(IDLE + 1)];
    var store := map["" := Visitor(Bucket(Capacity(limit) - limit.period, gap), 0)];
    assert AllowIn(limit, map[], "", 0, gap) == (store, true);
    forall deletes
      ensures Play(limit, first, deletes) == (store, [true])
    {
      assert Play(limit, [], deletes) == (map[], []);
      PlayMore(limit, [], "", 0, gap, deletes);
      assert [] + [true] == [true];
      assert [] + [Request("", 0, gap)] == first;
    }
    PlayClean(limit, first, IDLE + 1, true);
    PlayClean(limit, first, IDLE + 1, false);
    assert Evict(store, IDLE + 1) == map[];
    assert start == [Request("", 0, gap), Clean(IDLE + 1)];
  }

  lemma TrapWithDeletion(limit: Limit, gap: nat)
    requires ValidLimit(limit) && gap == SafeGap(limit) + 1
    ensures Play(limit, Trap(limit, gap), true).1 == [true] + Granted(limit.burst - 1) + [true]
  {
    var start := [Request("", 0, gap), Clean(IDLE + 1)];
    TrapIsSet(limit, gap);
    BurstPlays(limit, start, IDLE + 1, limit.burst, true, Capacity(limit));
    assert [true] + Granted(limit.burst) == [true] + Granted(limit.burst - 1) + [true];
  }

  /** Without deletion all but one request of the burst are granted, and one unit of credit is missing. */
  lemma TrapFallsShort(limit: Limit, gap: nat)
    requires ValidLimit(limit) && gap == SafeGap(limit) + 1
    ensures var start := [Request("", 0, gap), Clean(IDLE + 1)];
            var (store, decisions) := Play(limit, start + Burst("", IDLE + 1, limit.burst - 1), false);
            && decisions == [true] + Granted(limit.burst - 1)
            && Level(limit, BucketAt(limit, store, ""), IDLE + 1) == limit.period - 1
  {
    var start := [Request("", 0, gap), Clean(IDLE + 1)];
    TrapIsSet(limit, gap);
    BurstPlays(limit, start, IDLE + 1, limit.burst - 1, false, Capacity(limit) - 1);
  }

  lemma TrapWithoutDeletion(limit: Limit, gap: nat)
    requires ValidLimit(limit) && gap == SafeGap(limit) + 1
    ensures Play(limit, Trap(limit, gap), false).1 == [true] + Granted(limit.burst - 1) + [false]
  {
    var t, n := IDLE + 1, limit.burst;
    var before := [Request("", 0, gap), Clean(IDLE + 1)] + Burst("", t, n - 1);
    TrapFallsShort(limit, gap);
    PlayMore(limit, before, "", t, t, false);
    TrapSplits(limit, gap);
  }

  lemma TrapSplits(limit: Limit, gap: nat)
    requires limit.burst > 0
    ensures Trap(limit, gap)
            == [Request("", 0, gap), Clean(IDLE + 1)] + Burst("", IDLE + 1, limit.burst - 1) + [Request("", IDLE + 1, IDLE + 1)]
  {
    ConcatAssociates([Request("", 0, gap), Clean(IDLE + 1)], Burst("", IDLE + 1, limit.burst - 1), [Request("", IDLE + 1, IDLE + 1)]);
  }

  /** Beyond the safe gap the trap tells the two stores apart: the last request of the burst. */
  lemma TrapDiffers(limit: Limit, gap: nat)
    requires ValidLimit(limit) && gap == SafeGap(limit) + 1
    ensures !SameDecisions(limit, Trap(limit, gap))
  {
    TrapWithDeletion(limit, gap);
    TrapWithoutDeletion(limit, gap);
    LastDiffers([true] + Granted(limit.burst - 1), Play(limit, Trap(limit, gap), true).1, Play(limit, Trap(limit, gap), false).1);
  }

  lemma LastDiffers(s: seq<bool>, a: seq<bool>, b: seq<bool>)
    requires a == s + [true] && b == s + [false]
    ensures a != b
  {
    assert a[|s|] && !b[|s|];
  }

  /** Deletion is invisible within a gap: on every legal trace the decisions are the same. */
  ghost predicate Invisible(limit: Limit, gap: nat) {
    forall events :: Monotone(events) && GapsWithin(events, gap) ==> SameDecisions(limit, events)
  }

  /**
   * Deletion changes no decision of any trace, exactly when the gap between the two clock reads of a
   * request cannot exceed half an hour less one refill period.
   */
  lemma DeletionInvisible(limit: Limit, gap: nat)
    requires ValidLimit(limit)
    ensures Invisible(limit, gap) <==> gap <= SafeGap(limit)
  {
    if gap <= SafeGap(limit) {
      forall events | Monotone(events) && GapsWithin(events, gap)
        ensures SameDecisions(limit, events)
      {
        PlayMirrors(limit, events);
      }
    } else {
      var trap := Trap(limit, SafeGap(limit) + 1);
      TrapIsLegal(limit, SafeGap(limit) + 1);
      TrapDiffers(limit, SafeGap(limit) + 1);
    }
  }

  // ---- The request handler, with both stores and the ten-minute gate

  predicate InOrder(v: Visit) {
    v.ipSeen <= v.ipUsed <= v.codeSeen <= v.codeUsed <= v.cleaned
  }

  predicate PromptVisit(v: Visit) {
    v.ipUsed <= v.ipSeen + SafeGap(IP_LIMIT) && v.codeUsed <= v.codeSeen + SafeGap(CODE_LIMIT)
  }

  /** The clock never runs backwards, and no request is suspended between its two reads for too long. */
  predicate Prompt(visits: seq<Visit>) {
    && (forall i :: 0 <= i < |visits| ==> InOrder(visits[i]) && PromptVisit(visits[i]))
    && (forall i, j :: 0 <= i < j < |visits| ==> visits[i].cleaned <= visits[j].ipSeen)
  }

  function Serve(visits: seq<Visit>, deletes: bool): (Access, seq<Decision>) {
    if visits == [] then (Access(map[], map[], None), [])
    else
      var (a, decisions) := Serve(visits[..|visits| - 1], deletes);
      var (after, decision) := Handle(a, visits[|visits| - 1], deletes);
      (after, decisions + [decision])
  }

  ghost predicate AccessMirrors(a: Access, full: Access, now: Time) {
    Mirrors(IP_LIMIT, a.ips, full.ips, now) && Mirrors(CODE_LIMIT, a.codes, full.codes, now)
  }

  lemma CleanupMirrors(a: Access, full: Access, now: Time, later: Time)
    requires AccessMirrors(a, full, now) && now <= later
    ensures AccessMirrors(Cleanup(a, later), full, later)
  {
    MirrorsLater(IP_LIMIT, a.ips, full.ips, now, later);
    MirrorsLater(CODE_LIMIT, a.codes, full.codes, now, later);
    CleanMirrors(IP_LIMIT, a.ips, full.ips, now, later);
    CleanMirrors(CODE_LIMIT, a.codes, full.codes, now, later);
  }

  lemma HandleMirrors(a: Access, full: Access, now: Time, v: Visit)
    requires AccessMirrors(a, full, now) && now <= v.ipSeen && InOrder(v) && PromptVisit(v)
    ensures var (a', d), (full', d') := Handle(a, v, true), Handle(full, v, false);
            d == d' && AccessMirrors(a', full', v.cleaned)
  {
    SourceLimitsAreValid();
    AccessLater(a, full, now, v.cleaned);
    RequestMirrors(IP_LIMIT, a.ips, full.ips, now, IpKey(v), v.ipSeen, v.ipUsed);
    var ips, ips' := AllowIn(IP_LIMIT, a.ips, IpKey(v), v.ipSeen, v.ipUsed).0,
                     AllowIn(IP_LIMIT, full.ips, IpKey(v), v.ipSeen, v.ipUsed).0;
    MirrorsLater(IP_LIMIT, ips, ips', v.ipUsed, v.cleaned);
    CleanupMirrors(a.(ips := ips), full.(ips := ips'), v.cleaned, v.cleaned);
    RequestMirrors(CODE_LIMIT, a.codes, full.codes, now, CodeKey(v), v.codeSeen, v.codeUsed);
    var codes, codes' := AllowIn(CODE_LIMIT, a.codes, CodeKey(v), v.codeSeen, v.codeUsed).0,
                         AllowIn(CODE_LIMIT, full.codes, CodeKey(v), v.codeSeen, v.codeUsed).0;
    MirrorsLater(CODE_LIMIT, codes, codes', v.codeUsed, v.cleaned);
    CleanupMirrors(a.(ips := ips, codes := codes), full.(ips := ips', codes := codes'), v.cleaned, v.cleaned);
  }

  lemma AccessLater(a: Access, full: Access, now: Time, later: Time)
    requires AccessMirrors(a, full, now) && now <= later
    ensures AccessMirrors(a, full, later)
  {
    MirrorsLater(IP_LIMIT, a.ips, full.ips, now, later);
    MirrorsLater(CODE_LIMIT, a.codes, full.codes, now, later);
  }

  /** Over every prompt sequence of requests the handler answers as if it never deleted a bucket. */
  lemma {:induction false} CleanupInvisible(visits: seq<Visit>)
    requires Prompt(visits)
    ensures Serve(visits, true).1 == Serve(visits, false).1
    ensures AccessMirrors(Serve(visits, true).0, Serve(visits, false).0,
                          if visits == [] then 0 else visits[|visits| - 1].cleaned)
  {
    if visits != [] {
      var rest := visits[..|visits| - 1];
      CleanupInvisible(rest);
      HandleMirrors(Serve(rest, true).0, Serve(rest, false).0,
                    if rest == [] then 0 else rest[|rest| - 1].cleaned, visits[|visits| - 1]);
    }
  }

  // ---- The token bound

  /** Whether event k is an accepted request of the key. */
  predicate AcceptedAt(limit: Limit, events: seq<Event>, k: nat, key: string, deletes: bool)
    requires k < |events|
  {
    match events[k]
    case Request(asked, seen, used) =>
      asked == key && AllowIn(limit, Play(limit, events[..k], deletes).0, key, seen, used).1
    case Clean(_) => false
  }

  /** The accepted requests of the key among events i to j. */
  function Accepted(limit: Limit, events: seq<Event>, i: nat, j: nat, key: string, deletes: bool): nat
    requires i <= j <= |events|
  {
    if i == j then 0
    else Accepted(limit, events, i, j - 1, key, deletes) + if AcceptedAt(limit, events, j - 1, key, deletes) then 1 else 0
  }

  /** Accepted requests cost credit, and credit refills no faster than time passes. */
  lemma {:induction false} CreditBound(limit: Limit, events: seq<Event>, i: nat, j: nat, key: string)
    requires ValidLimit(limit) && Monotone(events) && i < j <= |events|
    ensures var store := Play(limit, events[..j], false).0;
            var now, start := End(events[j - 1]), End(events[i]);
            && start <= now
            && Price(limit, Accepted(limit, events, i, j, key, false)) + Level(limit, BucketAt(limit, store, key), now)
            <= Capacity(limit) + (now - start)
  {
    var store, last := Play(limit, events[..j - 1], false).0, events[j - 1];
    PlayLast(limit, events, j, key);
    var count := Accepted(limit, events, i, j - 1, key, false);
    if i < j - 1 {
      CreditBound(limit, events, i, j - 1, key);
      assert End(events[j - 2]) <= Begin(last) <= End(last);
      LevelGrows(limit, BucketAt(limit, store, key), End(events[j - 2]), End(last));
    }
    EventCost(limit, store, last, key);
  }

  /** The store an event leaves when nothing is deleted, and whether the event is an accepted request of the key. */
  function EventLeaves(limit: Limit, store: Store, e: Event): Store {
    match e
    case Request(asked, seen, used) => AllowIn(limit, store, asked, seen, used).0
    case Clean(_) => store
  }

  predicate Accepts(limit: Limit, store: Store, e: Event, key: string) {
    match e
    case Request(asked, seen, used) => asked == key && AllowIn(limit, store, asked, seen, used).1
    case Clean(_) => false
  }

  lemma PlayLast(limit: Limit, events: seq<Event>, j: nat, key: string)
    requires 0 < j <= |events|
    ensures var store := Play(limit, events[..j - 1], false).0;
            && Play(limit, events[..j], false).0 == EventLeaves(limit, store, events[j - 1])
            && (AcceptedAt(limit, events, j - 1, key, false) <==> Accepts(limit, store, events[j - 1], key))
  {
    TakeMore(events, j - 1);
  }

  /** An event costs one period of credit if it is an accepted request of the key, and nothing otherwise. */
  lemma EventCost(limit: Limit, store: Store, e: Event, key: string)
    ensures Level(limit, BucketAt(limit, EventLeaves(limit, store, e), key), End(e))
            + (if Accepts(limit, store, e, key) then limit.period else 0)
            == Level(limit, BucketAt(limit, store, key), End(e))
  {
  }

  /**
   * In any stretch of a trace, deletions and all, the requests accepted for one key number at most the
   * burst plus what refilled between the first and the last of them.
   */
  lemma TokenBound(limit: Limit, events: seq<Event>, i: nat, j: nat, key: string)
    requires ValidLimit(limit) && Monotone(events) && GapsWithin(events, SafeGap(limit)) && i < j <= |events|
    ensures Accepted(limit, events, i, j, key, true) * limit.period
         <= limit.burst * limit.period + (End(events[j - 1]) - End(events[i]))
  {
    CreditBound(limit, events, i, j, key);
    SameAccepted(limit, events, i, j, key);
    PriceIsProduct(limit, Accepted(limit, events, i, j, key, true));
    PriceIsProduct(limit, limit.burst);
  }

  lemma {:induction false} SameAccepted(limit: Limit, events: seq<Event>, i: nat, j: nat, key: string)
    requires ValidLimit(limit) && Monotone(events) && GapsWithin(events, SafeGap(limit)) && i <= j <= |events|
    ensures Accepted(limit, events, i, j, key, true) == Accepted(limit, events, i, j, key, false)
  {
    if i < j {
      SameAccepted(limit, events, i, j - 1, key);
      var rest := events[..j - 1];
      PlayMirrors(limit, rest);
      if events[j - 1].Request? {
        assert LastTime(rest) <= Begin(events[j - 1]);
        RequestMirrors(limit, Play(limit, rest, true).0, Play(limit, rest, false).0, LastTime(rest),
                       events[j - 1].key, events[j - 1].seen, events[j - 1].used);
      }
    }
  }
}
