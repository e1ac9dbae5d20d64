/**
 * Fixed-window counters in Redis (libs/redis/src/redis.service.ts, the two Lua scripts) and
 * what they guarantee to their users: the rate-limit guard, the anti-spam stage and the
 * media-preparation stage.
 *
 * A script runs atomically at one instant `now`, in milliseconds. Any interleaving of requests
 * is therefore some sequence of hits in the order Redis ran them.
 */
module RateWindows {
  import opened Wrappers
  import opened Arithmetic
  import opened JsText

  datatype Entry = Entry(value: int, expireAt: Option<int>)

  type Store = map<string, Entry>

  // ---------------------------------------------------------------- the scripts

  predicate Alive(store: Store, key: string, now: int) {
    key in store && (store[key].expireAt.None? || now < store[key].expireAt.value)
  }

  /** INCRBY: a missing or expired key counts from zero and starts without an expiry. */
  function IncrBy(store: Store, key: string, amount: int, now: int): (Store, int) {
    if Alive(store, key, now) then
      var e := store[key];
      (store[key := e.(value := e.value + amount)], e.value + amount)
    else (store[key := Entry(amount, None)], amount)
  }

  /** EXPIRE: a non-positive time to live deletes the key. */
  function Expire(store: Store, key: string, seconds: int, now: int): Store {
    if key !in store then store
    else if seconds <= 0 then store - {key}
    else store[key := store[key].(expireAt := Some(now + 1000 * seconds))]
  }

  function IncrByWithTtl(store: Store, key: string, amount: int, ttlSeconds: int, now: int): (Store, int) {
    var (s, current) := IncrBy(store, key, amount, now);
    (if current == amount then Expire(s, key, ttlSeconds, now) else s, current)
  }

  class RedisService {
    var store: Store

    constructor ()
      ensures store == map[]
    {
      store := map[];
    }

    method IncrWithTtl(key: string, ttlSeconds: int, now: int) returns (current: int)
      modifies this
      ensures (store, current) == IncrByWithTtl(old(store), key, 1, ttlSeconds, now)
    {
      var s, c := IncrBy(store, key, 1, now).0, IncrBy(store, key, 1, now).1;
      store, current := s, c;
      if current == 1 {
        store := Expire(store, key, ttlSeconds, now);
      }
    }

    method IncrbyWithTtl(key: string, increment: int, ttlSeconds: int, now: int) returns (current: int)
      modifies this
      ensures (store, current) == IncrByWithTtl(old(store), key, increment, ttlSeconds, now)
    {
      var s, c := IncrBy(store, key, increment, now).0, IncrBy(store, key, increment, now).1;
      store, current := s, c;
      if current == increment {
        store := Expire(store, key, ttlSeconds, now);
      }
    }
  }

  // ---------------------------------------------------------------- runs of hits

  /** One run of a script by a user that lets the caller pass when the count is within `limit`. */
  datatype Hit = Hit(now: int, key: string, amount: int, ttl: int, limit: int)

  function Step(store: Store, h: Hit): (Store, bool) {
    var (s, current) := IncrByWithTtl(store, h.key, h.amount, h.ttl, h.now);
    (s, current <= h.limit)
  }

  /** The hits in the order Redis ran them. */
  datatype Trace = Start | Then(before: Trace, hit: Hit)

  function Run(t: Trace): Store {
    match t
    case Start => map[]
    case Then(before, hit) => Step(Run(before), hit).0
  }

  /** Whether the last hit of a trace passed. */
  predicate Passed(before: Trace, h: Hit) {
    Step(Run(before), h).1
  }

  /** Total weight passed on `key` at times in [lo, hi). */
  function PassedIn(t: Trace, key: string, lo: int, hi: int): int {
    match t
    case Start => 0
    case Then(before, h) =>
      PassedIn(before, key, lo, hi) + if h.key == key && Passed(before, h) && lo <= h.now < hi then h.amount else 0
  }

  /** Total weight passed on `key` in its latest window: since the last hit that found the key missing or expired. */
  function PassedInWindow(t: Trace, key: string): int {
    match t
    case Start => 0
    case Then(before, h) =>
      if h.key != key then PassedInWindow(before, key)
      else
        (if Alive(Run(before), key, h.now) then PassedInWindow(before, key) else 0)
        + if Passed(before, h) then h.amount else 0
  }

  /** No interleaving of the scripts, whatever the increments, leaves a counter without expiry. */
  lemma {:induction false} EveryCounterExpires(t: Trace)
    ensures forall key <- Run(t) :: Run(t)[key].expireAt.Some?
  {
    if t.Then? {
      EveryCounterExpires(t.before);
    }
  }

  // ---------------------------------------------------------------- the window theorem

  /** The hits happen in time order, the last no later than `clock`. */
  predicate Until(t: Trace, clock: int) {
    t.Then? ==> t.hit.now <= clock && Until(t.before, t.hit.now)
  }

  /** The hits on `key` form a window counter: one window length, positive weights, limits up to `limit`. */
  predicate CountsWindows(t: Trace, key: string, ttl: int, limit: int) {
    t.Then? ==>
      && CountsWindows(t.before, key, ttl, limit)
      && (t.hit.key == key ==> t.hit.ttl == ttl && t.hit.amount > 0 && t.hit.limit <= limit)
  }

  function Lookup(store: Store, key: string): Option<Entry> {
    if key in store then Some(store[key]) else None
  }

  /** The most that any interval as long as a window passes: the first hit of a window is the odd one out. */
  function SlidingBound(limit: int): int {
    if limit <= 0 then 0 else 2 * limit - 1
  }

  /**
   * The account of a counter against the interval [lo, lo + width): `current` was passed in its
   * latest window, `passed` in the interval. A window that starts before `lo` has spent at least
   * its first hit outside, and only one such window reaches into the interval.
   */
  predicate Accounted(counter: Option<Entry>, current: int, passed: int, width: int, limit: nat, lo: int, clock: int) {
    match counter
    case None => current == 0 && passed == 0
    case Some(e) =>
      && e.expireAt.Some? && e.value > 0
      && 0 <= current <= e.value && current <= limit
      && var start, outside := e.expireAt.value - width, Max(0, limit - 1);
         && start <= clock
         && if start + width <= lo then passed == 0
            else if start < lo then passed <= outside && passed <= e.value - 1
            else if start == lo then passed <= current
            else if start < lo + width then passed <= outside + current
            else passed <= outside + limit
  }

  lemma StepAccounted(store: Store, h: Hit, current: int, passed: int, limit: nat, lo: int, clock: int)
    requires Accounted(Lookup(store, h.key), current, passed, 1000 * h.ttl, limit, lo, clock)
    requires clock <= h.now && h.ttl > 0 && h.amount > 0 && h.limit <= limit
    ensures var (s, passes) := Step(store, h);
      var weight := if passes then h.amount else 0;
      Accounted(Lookup(s, h.key),
        (if Alive(store, h.key, h.now) then current else 0) + weight,
        passed + (if lo <= h.now < lo + 1000 * h.ttl then weight else 0),
        1000 * h.ttl, limit, lo, h.now)
  {
  }

  /** A hit on another key leaves a counter alone. */
  lemma OtherKeyUntouched(store: Store, h: Hit, key: string)
    requires h.key != key
    ensures Lookup(Step(store, h).0, key) == Lookup(store, key)
  {
  }

  lemma {:induction false} RunAccounted(t: Trace, key: string, ttl: int, limit: nat, lo: int, clock: int)
    requires CountsWindows(t, key, ttl, limit) && Until(t, clock) && ttl > 0
    ensures Accounted(Lookup(Run(t), key), PassedInWindow(t, key),
                      PassedIn(t, key, lo, lo + 1000 * ttl), 1000 * ttl, limit, lo, clock)
    decreases t
  {
    if t.Then? {
      var b, h := t.before, t.hit;
      RunAccounted(b, key, ttl, limit, lo, h.now);
      if h.key == key {
        StepAccounted(Run(b), h, PassedInWindow(b, key), PassedIn(b, key, lo, lo + 1000 * ttl), limit, lo, h.now);
      } else {
        OtherKeyUntouched(Run(b), h, key);
      }
    }
  }

  lemma {:induction false} HigherLimit(t: Trace, key: string, ttl: int, limit: int, higher: int)
    requires CountsWindows(t, key, ttl, limit) && limit <= higher
    ensures CountsWindows(t, key, ttl, higher)
  {
    if t.Then? {
      HigherLimit(t.before, key, ttl, limit, higher);
    }
  }

  /**
   * For every run of hits in time order, a window passes at most `limit`, and every half-open
   * interval as long as a window passes at most one less than twice that - requests when every
   * hit weighs 1, bytes when hits weigh their size. Where routes share a key with different
   * limits, `limit` is the largest of them.
   */
  lemma SlidingIntervalBound(t: Trace, key: string, ttl: int, limit: int, clock: int, lo: int)
    requires CountsWindows(t, key, ttl, limit) && Until(t, clock) && ttl > 0
    ensures PassedInWindow(t, key) <= Max(0, limit)
    ensures PassedIn(t, key, lo, lo + 1000 * ttl) <= SlidingBound(limit)
  {
    HigherLimit(t, key, ttl, limit, Max(0, limit));
    RunAccounted(t, key, ttl, Max(0, limit), lo, clock);
  }

  // ---------------------------------------------------------------- the bound is attained

  /** `n` more hits, all alike. */
  function Burst(t: Trace, h: Hit, n: nat): Trace {
    if n == 0 then t else Then(Burst(t, h, n - 1), h)
  }

  lemma {:induction false} BurstIsRun(t: Trace, h: Hit, n: nat, limit: int)
    requires CountsWindows(t, h.key, h.ttl, limit) && Until(t, h.now) && h.amount > 0 && h.limit <= limit
    ensures CountsWindows(Burst(t, h, n), h.key, h.ttl, limit) && Until(Burst(t, h, n), h.now)
  {
    if n > 0 {
      BurstIsRun(t, h, n - 1, limit);
    }
  }

  /** A burst that fits into the window its counter is in passes whole. */
  lemma {:induction false} BurstPasses(t: Trace, h: Hit, n: nat, lo: int, hi: int)
    requires h.amount == 1 && Alive(Run(t), h.key, h.now)
    requires 0 < Run(t)[h.key].value && Run(t)[h.key].value + n <= h.limit
    ensures var e := Run(t)[h.key];
      && h.key in Run(Burst(t, h, n)) && Run(Burst(t, h, n))[h.key] == Entry(e.value + n, e.expireAt)
      && PassedIn(Burst(t, h, n), h.key, lo, hi)
           == PassedIn(t, h.key, lo, hi) + if lo <= h.now < hi then n else 0
  {
    if n > 0 {
      BurstPasses(t, h, n - 1, lo, hi);
    }
  }

  /** The first hit of a window, and as many more of its kind as the limit lets through. */
  function FullWindow(t: Trace, h: Hit): Trace
    requires h.limit >= 1
  {
    Burst(Then(t, h), h, h.limit - 1)
  }

  lemma FirstHit(t: Trace, h: Hit, lo: int, hi: int)
    requires h.amount == 1 && h.ttl > 0 && h.limit >= 1 && !Alive(Run(t), h.key, h.now)
    ensures h.key in Run(Then(t, h)) && Run(Then(t, h))[h.key] == Entry(1, Some(h.now + 1000 * h.ttl))
    ensures PassedIn(Then(t, h), h.key, lo, hi) == PassedIn(t, h.key, lo, hi) + if lo <= h.now < hi then 1 else 0
  {
  }

  lemma FullWindowPasses(t: Trace, h: Hit, lo: int, hi: int)
    requires h.amount == 1 && h.ttl > 0 && h.limit >= 1 && !Alive(Run(t), h.key, h.now)
    ensures PassedIn(FullWindow(t, h), h.key, lo, hi)
         == PassedIn(t, h.key, lo, hi) + if lo <= h.now < hi then h.limit else 0
  {
    FirstHit(t, h, lo, hi);
    BurstPasses(Then(t, h), h, h.limit - 1, lo, hi);
  }

  /** A request at 0 and the rest of its window's limit just before that ends. */
  function UntilExpiry(key: string, ttl: int, limit: int): Trace
    requires limit >= 1
  {
    Burst(Then(Start, Hit(0, key, 1, ttl, limit)), Hit(1000 * ttl - 1, key, 1, ttl, limit), limit - 1)
  }

  lemma UntilExpiryPasses(key: string, ttl: int, limit: int)
    requires ttl > 0 && limit >= 1
    ensures var t := UntilExpiry(key, ttl, limit);
      && CountsWindows(t, key, ttl, limit) && Until(t, 1000 * ttl - 1)
      && PassedIn(t, key, 1, 1 + 1000 * ttl) == limit - 1
      && !Alive(Run(t), key, 1000 * ttl)
  {
    var h0, h1 := Hit(0, key, 1, ttl, limit), Hit(1000 * ttl - 1, key, 1, ttl, limit);
    FirstHit(Start, h0, 1, 1 + 1000 * ttl);
    BurstPasses(Then(Start, h0), h1, limit - 1, 1, 1 + 1000 * ttl);
    BurstIsRun(Then(Start, h0), h1, limit - 1, limit);
  }

  /** The same, and a full window right after. */
  function AroundExpiry(key: string, ttl: int, limit: int): Trace
    requires limit >= 1
  {
    FullWindow(UntilExpiry(key, ttl, limit), Hit(1000 * ttl, key, 1, ttl, limit))
  }

  /** For every window and every positive limit, some interval passes as much as the bound allows. */
  lemma BoundIsAttained(key: string, ttl: int, limit: int)
    requires ttl > 0 && limit >= 1
    ensures var t := AroundExpiry(key, ttl, limit);
      && CountsWindows(t, key, ttl, limit) && Until(t, 1000 * ttl)
      && PassedIn(t, key, 1, 1 + 1000 * ttl) == SlidingBound(limit)
  {
    var t, h := UntilExpiry(key, ttl, limit), Hit(1000 * ttl, key, 1, ttl, limit);
    UntilExpiryPasses(key, ttl, limit);
    FullWindowPasses(t, h, 1, 1 + 1000 * ttl);
    BurstIsRun(Then(t, h), h, limit - 1, limit);
  }

  /** If the run is one of hits in time order, its interval from `lo` on passes no more than the limit. */
  predicate KeepsLimit(t: Trace, clock: int, lo: int, key: string, ttl: int, limit: int) {
    CountsWindows(t, key, ttl, limit) && Until(t, clock) ==>
      PassedIn(t, key, lo, lo + 1000 * ttl) <= Max(0, limit)
  }

  /** Every run keeps every interval within the limit itself exactly when the limit is at most 1. */
  lemma LimitKeptIff(key: string, ttl: int, limit: int)
    requires ttl > 0
    ensures limit <= 1 <==>
      forall t: Trace, clock: int, lo: int :: KeepsLimit(t, clock, lo, key, ttl, limit)
  {
    if limit <= 1 {
      forall t: Trace, clock: int, lo: int ensures KeepsLimit(t, clock, lo, key, ttl, limit) {
        if CountsWindows(t, key, ttl, limit) && Until(t, clock) {
          SlidingIntervalBound(t, key, ttl, limit, clock, lo);
        }
      }
    } else {
      BoundIsAttained(key, ttl, limit);
      var t := AroundExpiry(key, ttl, limit);
      assert !KeepsLimit(t, 1000 * ttl, 1, key, ttl, limit);
    }
  }

  // ---------------------------------------------------------------- negative increments

  /** What is really uploaded on `key` at times in [lo, hi): the positive weights that pass. */
  function UploadedIn(t: Trace, key: string, lo: int, hi: int): int {
    match t
    case Start => 0
    case Then(before, h) =>
      UploadedIn(before, key, lo, hi)
      + if h.key == key && Passed(before, h) && lo <= h.now < hi then Max(0, h.amount) else 0
  }

  /** The hits on `key` have one window length, limits up to `limit` and non-zero weights from `least` on. */
  predicate CountsSizes(t: Trace, key: string, ttl: int, limit: int, least: int) {
    t.Then? ==>
      && CountsSizes(t.before, key, ttl, limit, least)
      && (t.hit.key == key ==>
            t.hit.ttl == ttl && t.hit.amount != 0 && t.hit.amount >= least && t.hit.limit <= limit)
  }

  lemma {:induction false} PositiveSizesAreCounted(
    t: Trace, key: string, ttl: int, limit: int, least: int, lo: int, hi: int)
    requires CountsSizes(t, key, ttl, limit, least) && least >= 0
    ensures CountsWindows(t, key, ttl, limit) && UploadedIn(t, key, lo, hi) == PassedIn(t, key, lo, hi)
  {
    if t.Then? {
      PositiveSizesAreCounted(t.before, key, ttl, limit, least, lo, hi);
    }
  }

  /** `n` uploads of `amount` at one instant, each followed by its negative. */
  function Seesaw(n: nat, key: string, amount: int, ttl: int, limit: int): Trace {
    if n == 0 then Start
    else
      Then(Then(Seesaw(n - 1, key, amount, ttl, limit), Hit(0, key, amount, ttl, limit)),
           Hit(0, key, -amount, ttl, limit))
  }

  lemma SeesawStep(store: Store, key: string, amount: int, ttl: int, limit: int)
    requires 0 < amount <= limit && ttl > 0
    requires key in store ==> store[key] == Entry(0, Some(1000 * ttl))
    ensures var (up, passed) := Step(store, Hit(0, key, amount, ttl, limit));
      && passed && key in up && up[key] == Entry(amount, Some(1000 * ttl))
      && var (down, passed') := Step(up, Hit(0, key, -amount, ttl, limit));
         passed' && key in down && down[key] == Entry(0, Some(1000 * ttl))
  {
  }

  /** Uploads of any size within the limit pass at one instant, any number of them. */
  lemma {:induction false} NegativeIncrementsDefeatTheLimit(n: nat, key: string, amount: int, ttl: int, limit: int)
    requires 0 < amount <= limit && ttl > 0
    ensures var t := Seesaw(n, key, amount, ttl, limit);
      && CountsSizes(t, key, ttl, limit, -amount) && Until(t, 0)
      && UploadedIn(t, key, 0, 1000 * ttl) == n * amount
      && (key in Run(t) ==> Run(t)[key] == Entry(0, Some(1000 * ttl)))
  {
    if n > 0 {
      NegativeIncrementsDefeatTheLimit(n - 1, key, amount, ttl, limit);
      SeesawStep(Run(Seesaw(n - 1, key, amount, ttl, limit)), key, amount, ttl, limit);
    }
  }

  lemma {:induction false} LowerSizes(t: Trace, key: string, ttl: int, limit: int, least: int, lower: int)
    requires CountsSizes(t, key, ttl, limit, least) && lower <= least
    ensures CountsSizes(t, key, ttl, limit, lower)
  {
    if t.Then? {
      LowerSizes(t.before, key, ttl, limit, least, lower);
    }
  }

  /** If the run is one of such sizes in time order, no more than the bound is uploaded from `lo` on. */
  predicate KeepsUploads(t: Trace, clock: int, lo: int, key: string, ttl: int, limit: int, least: int) {
    CountsSizes(t, key, ttl, limit, least) && Until(t, clock) ==>
      UploadedIn(t, key, lo, lo + 1000 * ttl) <= SlidingBound(limit)
  }

  /** The bound holds for what is really uploaded exactly when no size may be negative. */
  lemma UploadBoundIff(key: string, ttl: int, limit: int, least: int)
    requires ttl > 0 && limit >= 1
    ensures least >= 0 <==>
      forall t: Trace, clock: int, lo: int :: KeepsUploads(t, clock, lo, key, ttl, limit, least)
  {
    if least >= 0 {
      forall t: Trace, clock: int, lo: int ensures KeepsUploads(t, clock, lo, key, ttl, limit, least) {
        if CountsSizes(t, key, ttl, limit, least) && Until(t, clock) {
          PositiveSizesAreCounted(t, key, ttl, limit, least, lo, lo + 1000 * ttl);
          SlidingIntervalBound(t, key, ttl, limit, clock, lo);
        }
      }
    } else {
      var t := Seesaw(2 * limit, key, 1, ttl, limit);
      NegativeIncrementsDefeatTheLimit(2 * limit, key, 1, ttl, limit);
      LowerSizes(t, key, ttl, limit, -1, least);
      assert !KeepsUploads(t, 0, 0, key, ttl, limit, least);
    }
  }

  // ---------------------------------------------------------------- the rate-limit guard

  datatype Level = ApiKey | Instance | Recipient

  datatype RateLimitOptions = RateLimitOptions(level: Level, limit: Option<int>)

  datatype RateLimitConfig = RateLimitConfig(key: string, limit: int, windowSeconds: int)

  datatype Request = Request(
    apiKeyId: Option<string>, pathInstanceId: Option<string>, pathId: Option<string>,
    to: Option<string>)

  function Or(s: Option<string>, default: string): string {
    if s.Some? then s.value else default
  }

  predicate Truthy(s: Option<string>) {
    s.Some? && s.value != ""
  }

  /** Requests per minute of a plan; an unknown plan counts as FREE. */
  function PlanLimit(plan: string): int {
    match plan
    case "STARTER" => 500
    case "PRO" => 2_000
    case "ENTERPRISE" => 10_000
    case _ => 100
  }

  function LimitFor(level: Level, custom: Option<RateLimitOptions>, default: int): int {
    if custom.Some? && custom.value.level == level && custom.value.limit.Some?
       && custom.value.limit.value != 0
    then custom.value.limit.value else default
  }

  function InstanceOf(r: Request): Option<string> {
    if r.pathInstanceId.Some? then r.pathInstanceId else r.pathId
  }

  function ApiKeyConfig(r: Request, custom: Option<RateLimitOptions>, plan: Option<string>): RateLimitConfig {
    RateLimitConfig("rl:apikey:" + Or(r.apiKeyId, ""),
      LimitFor(ApiKey, custom, if Truthy(plan) then PlanLimit(plan.value) else 1000), 60)
  }

  function InstanceConfig(r: Request, custom: Option<RateLimitOptions>): RateLimitConfig {
    RateLimitConfig("rl:instance:" + Or(InstanceOf(r), ""), LimitFor(Instance, custom, 100), 60)
  }

  function RecipientConfig(r: Request, custom: Option<RateLimitOptions>): RateLimitConfig {
    RateLimitConfig("rl:recipient:" + Or(InstanceOf(r), "") + ":" + Or(r.to, ""), LimitFor(Recipient, custom, 10), 60)
  }

  lemma KindsDiffer(r: Request, custom: Option<RateLimitOptions>, plan: Option<string>)
    ensures ApiKeyConfig(r, custom, plan).key != InstanceConfig(r, custom).key
    ensures ApiKeyConfig(r, custom, plan).key != RecipientConfig(r, custom).key
    ensures InstanceConfig(r, custom).key != RecipientConfig(r, custom).key
  {
    assert ApiKeyConfig(r, custom, plan).key[3] == 'a';
    assert InstanceConfig(r, custom).key[3] == 'i';
    assert RecipientConfig(r, custom).key[3] == 'r';
  }

  /** Callers share a counter exactly when they are the same: API key, instance, or instance and recipient. */
  lemma CountersIdentify(r: Request, q: Request, custom: Option<RateLimitOptions>, other: Option<RateLimitOptions>,
    plan: Option<string>, planQ: Option<string>)
    ensures ApiKeyConfig(r, custom, plan).key == ApiKeyConfig(q, other, planQ).key <==>
      Or(r.apiKeyId, "") == Or(q.apiKeyId, "")
    ensures InstanceConfig(r, custom).key == InstanceConfig(q, other).key <==>
      Or(InstanceOf(r), "") == Or(InstanceOf(q), "")
    ensures ':' !in Or(InstanceOf(r), "") && ':' !in Or(InstanceOf(q), "") ==>
      (RecipientConfig(r, custom).key == RecipientConfig(q, other).key <==>
         Or(InstanceOf(r), "") == Or(InstanceOf(q), "") && Or(r.to, "") == Or(q.to, ""))
  {
    assert ApiKeyConfig(r, custom, plan).key[10..] == Or(r.apiKeyId, "");
    assert ApiKeyConfig(q, other, planQ).key[10..] == Or(q.apiKeyId, "");
    assert InstanceConfig(r, custom).key[12..] == Or(InstanceOf(r), "");
    assert InstanceConfig(q, other).key[12..] == Or(InstanceOf(q), "");
    var a, x, b, y := Or(InstanceOf(r), ""), Or(r.to, ""), Or(InstanceOf(q), ""), Or(q.to, "");
    assert RecipientConfig(r, custom).key[13..] == a + [':'] + x;
    assert RecipientConfig(q, other).key[13..] == b + [':'] + y;
    if ':' !in a && ':' !in b {
      FirstSeparatorSplits(a, ':', x, b, y);
    }
  }

  /** A route's instance is its `instanceId` parameter, or else its `id`. */
  lemma InstanceIsFirstParameter(r: Request, custom: Option<RateLimitOptions>, id: string)
    ensures InstanceConfig(r.(pathInstanceId := Some(id)), custom).key == "rl:instance:" + id
    ensures InstanceConfig(r.(pathInstanceId := None, pathId := Some(id)), custom).key == "rl:instance:" + id
  {
  }

  /** Requests per minute: by the plan for API keys, 100 for instances and 10 for recipients. */
  lemma DefaultLimits(r: Request, plan: Option<string>)
    ensures !Truthy(plan) ==> ApiKeyConfig(r, None, plan).limit == 1000
    ensures plan == Some("FREE") ==> ApiKeyConfig(r, None, plan).limit == 100
    ensures plan == Some("STARTER") ==> ApiKeyConfig(r, None, plan).limit == 500
    ensures plan == Some("PRO") ==> ApiKeyConfig(r, None, plan).limit == 2000
    ensures plan == Some("ENTERPRISE") ==> ApiKeyConfig(r, None, plan).limit == 10_000
    ensures InstanceConfig(r, None).limit == 100 && RecipientConfig(r, None).limit == 10
    ensures ApiKeyConfig(r, None, plan).windowSeconds == 60
    ensures InstanceConfig(r, None).windowSeconds == 60 && RecipientConfig(r, None).windowSeconds == 60
  {
  }

  /** A route's own limit, if it is not 0, replaces that of its level and of no other. */
  lemma CustomLimits(r: Request, level: Level, limit: int, plan: Option<string>)
    ensures var custom := Some(RateLimitOptions(level, Some(limit)));
      var free := limit == 0;
      var byPlan := ApiKeyConfig(r, None, plan);
      && ApiKeyConfig(r, custom, plan) == byPlan.(limit := if level == ApiKey && !free then limit else byPlan.limit)
      && InstanceConfig(r, custom)
           == InstanceConfig(r, None).(limit := if level == Instance && !free then limit else 100)
      && RecipientConfig(r, custom)
           == RecipientConfig(r, None).(limit := if level == Recipient && !free then limit else 10)
  {
  }

  predicate DistinctKeys(configs: seq<RateLimitConfig>) {
    forall i, j :: 0 <= i < j < |configs| ==> configs[i].key != configs[j].key
  }

  /** The counters of a request: of its API key, then its instance, then the recipient. */
  function ConfigsFor(r: Request, custom: Option<RateLimitOptions>, plan: Option<string>): seq<RateLimitConfig> {
    (if Truthy(r.apiKeyId) then [ApiKeyConfig(r, custom, plan)] else [])
    + (if Truthy(InstanceOf(r)) then [InstanceConfig(r, custom)] else [])
    + (if Truthy(r.to) && Truthy(InstanceOf(r)) then [RecipientConfig(r, custom)] else [])
  }

  lemma ConfigsMembers(r: Request, custom: Option<RateLimitOptions>, plan: Option<string>)
    ensures var configs := ConfigsFor(r, custom, plan);
      && DistinctKeys(configs)
      && (Truthy(r.apiKeyId) <==> ApiKeyConfig(r, custom, plan) in configs)
      && (Truthy(InstanceOf(r)) <==> InstanceConfig(r, custom) in configs)
      && (Truthy(InstanceOf(r)) && Truthy(r.to) <==> RecipientConfig(r, custom) in configs)
  {
    KindsDiffer(r, custom, plan);
  }

  /** The counters a request is checked against; no two share a key. */
  method BuildConfigs(r: Request, custom: Option<RateLimitOptions>, plan: Option<string>)
    returns (configs: seq<RateLimitConfig>)
    ensures DistinctKeys(configs)
    ensures Truthy(r.apiKeyId) <==> ApiKeyConfig(r, custom, plan) in configs
    ensures Truthy(InstanceOf(r)) <==> InstanceConfig(r, custom) in configs
    ensures Truthy(InstanceOf(r)) && Truthy(r.to) <==> RecipientConfig(r, custom) in configs
    ensures configs == ConfigsFor(r, custom, plan)
  {
    ConfigsMembers(r, custom, plan);
    configs := [];
    if Truthy(r.apiKeyId) {
      configs := configs + [ApiKeyConfig(r, custom, plan)];
    }
    assert configs == if Truthy(r.apiKeyId) then [ApiKeyConfig(r, custom, plan)] else [];
    var instanceId := InstanceOf(r);
    if Truthy(instanceId) {
      configs := configs + [InstanceConfig(r, custom)];
    }
    assert configs == (if Truthy(r.apiKeyId) then [ApiKeyConfig(r, custom, plan)] else [])
      + if Truthy(instanceId) then [InstanceConfig(r, custom)] else [];
    if Truthy(r.to) && Truthy(instanceId) {
      configs := configs + [RecipientConfig(r, custom)];
    }
    assert configs == ConfigsFor(r, custom, plan);
  }

  function HitOf(c: RateLimitConfig, now: int): Hit {
    Hit(now, c.key, 1, c.windowSeconds, c.limit)
  }

  /** The counters checked in order, up to the first that is over its limit. */
  function Checked(store: Store, configs: seq<RateLimitConfig>, now: int): (Store, bool)
    decreases |configs|
  {
    if configs == [] then (store, true)
    else
      var (s, passed) := Step(store, HitOf(configs[0], now));
      if passed then Checked(s, configs[1..], now) else (s, false)
  }

  class RateLimitGuard {
    const redis: RedisService

    constructor (redis: RedisService)
      ensures this.redis == redis
    {
      this.redis := redis;
    }

    /** The loop of `canActivate`; `admitted` is false when a check throws. */
    method CheckLimits(configs: seq<RateLimitConfig>, now: int) returns (admitted: bool)
      modifies redis
      ensures (redis.store, admitted) == Checked(old(redis.store), configs, now)
    {
      var i := 0;
      while i < |configs|
        invariant 0 <= i <= |configs|
        invariant Checked(redis.store, configs[i..], now) == Checked(old(redis.store), configs, now)
      {
        var current := redis.IncrWithTtl(configs[i].key, configs[i].windowSeconds, now);
        if current > configs[i].limit {
          return false;
        }
        i := i + 1;
      }
      return true;
    }
  }

  /** The check of configuration `i`, bumped on its own, is within its limit. */
  predicate Within(store: Store, configs: seq<RateLimitConfig>, i: nat, now: int)
    requires i < |configs|
  {
    Step(store, HitOf(configs[i], now)).1
  }

  predicate AllWithin(store: Store, configs: seq<RateLimitConfig>, n: nat, now: int)
    requires n <= |configs|
  {
    forall i :: 0 <= i < n ==> Within(store, configs, i, now)
  }

  /**
   * With distinct keys the checks are independent: a request is admitted exactly when every
   * counter, bumped on its own, is within its limit; a rejected request has consumed quota on
   * the counters up to and including the first that is over, and on no other.
   */
  lemma {:induction false} GuardExact(store: Store, configs: seq<RateLimitConfig>, now: int, key: string)
    requires DistinctKeys(configs)
    ensures var (after, admitted) := Checked(store, configs, now);
      && (admitted <==> AllWithin(store, configs, |configs|, now))
      && (forall i :: 0 <= i < |configs| && configs[i].key == key ==>
            Lookup(after, key) ==
              Lookup(if AllWithin(store, configs, i, now) then Step(store, HitOf(configs[i], now)).0 else store, key))
      && ((forall i :: 0 <= i < |configs| ==> configs[i].key != key) ==> Lookup(after, key) == Lookup(store, key))
    decreases |configs|
  {
    if configs != [] {
      var rest := configs[1..];
      var h := HitOf(configs[0], now);
      var (s, passed) := Step(store, h);
      assert passed == Within(store, configs, 0, now);
      if passed {
        GuardExact(s, rest, now, key);
        forall i | 0 <= i < |rest| ensures Within(s, rest, i, now) == Within(store, configs, i + 1, now) {
          OtherKeyIndependent(store, h, HitOf(rest[i], now));
        }
        forall i | 0 <= i <= |rest|
          ensures AllWithin(s, rest, i, now) == AllWithin(store, configs, i + 1, now)
        {
          AllWithinShift(s, rest, store, configs, i, now);
        }
        forall i | 0 <= i < |configs| && configs[i].key == key
          ensures Lookup(Checked(store, configs, now).0, key) ==
            Lookup(if AllWithin(store, configs, i, now) then Step(store, HitOf(configs[i], now)).0 else store, key)
        {
          if i > 0 {
            assert rest[i - 1] == configs[i];
            OtherKeyIndependent(store, h, HitOf(configs[i], now));
          }
        }
      }
      if configs[0].key != key {
        OtherKeyIndependent(store, h, Hit(now, key, 1, 1, 1));
      }
    }
  }

  lemma AllWithinShift(
    s: Store, rest: seq<RateLimitConfig>, store: Store, configs: seq<RateLimitConfig>, n: nat, now: int)
    requires configs != [] && rest == configs[1..] && n <= |rest|
    requires Within(store, configs, 0, now)
    requires forall i :: 0 <= i < |rest| ==> Within(s, rest, i, now) == Within(store, configs, i + 1, now)
    ensures AllWithin(s, rest, n, now) == AllWithin(store, configs, n + 1, now)
  {
    if AllWithin(s, rest, n, now) {
      forall i | 0 <= i < n + 1 ensures Within(store, configs, i, now) {
        if i > 0 {
          assert Within(s, rest, i - 1, now);
        }
      }
    }
    if AllWithin(store, configs, n + 1, now) {
      forall i | 0 <= i < n ensures Within(s, rest, i, now) {
        assert Within(store, configs, i + 1, now);
      }
    }
  }

  lemma OtherKeyIndependent(store: Store, h: Hit, g: Hit)
    requires h.key != g.key
    ensures var s := Step(store, h).0;
      && Lookup(s, g.key) == Lookup(store, g.key)
      && Step(s, g).1 == Step(store, g).1
      && Lookup(Step(s, g).0, g.key) == Lookup(Step(store, g).0, g.key)
  {
  }

  // ---------------------------------------------------------------- the outbound stages

  const ANTI_SPAM_LIMIT_PER_MINUTE := 30
  const ANTI_SPAM_WINDOW_SECONDS := 60
  const MEDIA_UPLOAD_LIMIT_BYTES := 50 * 1024 * 1024
  const MEDIA_UPLOAD_WINDOW_SECONDS := 60

  function AntiSpamHit(instanceId: string, to: string, now: int): Hit {
    Hit(now, "antispam:" + instanceId + ":" + to, 1, ANTI_SPAM_WINDOW_SECONDS, ANTI_SPAM_LIMIT_PER_MINUTE)
  }

  /** AntiSpamStage.execute: false when it throws. */
  method AntiSpamExecute(redis: RedisService, instanceId: string, to: string, now: int) returns (passed: bool)
    modifies redis
    ensures (redis.store, passed) == Step(old(redis.store), AntiSpamHit(instanceId, to, now))
  {
    var count := redis.IncrWithTtl("antispam:" + instanceId + ":" + to, ANTI_SPAM_WINDOW_SECONDS, now);
    return count <= ANTI_SPAM_LIMIT_PER_MINUTE;
  }

  /** All hits on the counter of an instance and recipient are the stage's. */
  predicate OnlyAntiSpam(t: Trace, instanceId: string, to: string) {
    t.Then? ==>
      && OnlyAntiSpam(t.before, instanceId, to)
      && (t.hit.key == AntiSpamHit(instanceId, to, 0).key ==> t.hit == AntiSpamHit(instanceId, to, t.hit.now))
  }

  lemma {:induction false} AntiSpamCounts(t: Trace, instanceId: string, to: string)
    requires OnlyAntiSpam(t, instanceId, to)
    ensures CountsWindows(t, AntiSpamHit(instanceId, to, 0).key, 60, 30)
  {
    if t.Then? {
      AntiSpamCounts(t.before, instanceId, to);
    }
  }

  /** An instance gets at most 59 messages to one recipient through in any minute, and 30 in a window. */
  lemma AntiSpamBound(t: Trace, instanceId: string, to: string, clock: int, lo: int)
    requires OnlyAntiSpam(t, instanceId, to) && Until(t, clock)
    ensures PassedInWindow(t, AntiSpamHit(instanceId, to, 0).key) <= 30
    ensures PassedIn(t, AntiSpamHit(instanceId, to, 0).key, lo, lo + 60_000) <= 59
  {
    AntiSpamCounts(t, instanceId, to);
    SlidingIntervalBound(t, AntiSpamHit(instanceId, to, 0).key, 60, 30, clock, lo);
  }

  /** The stage counts each instance and recipient on their own. */
  lemma AntiSpamIdentifies(a: string, x: string, b: string, y: string, now: int)
    requires ':' !in a && ':' !in b
    ensures AntiSpamHit(a, x, now).key == AntiSpamHit(b, y, now).key <==> a == b && x == y
  {
    assert AntiSpamHit(a, x, now).key[9..] == a + [':'] + x && AntiSpamHit(b, y, now).key[9..] == b + [':'] + y;
    FirstSeparatorSplits(a, ':', x, b, y);
  }

  datatype MediaVerdict = Ready | NoUrl | InvalidUrl | OverLimit

  const MEDIA_TYPES := {"image", "video", "audio", "document", "sticker"}

  function MediaHit(tenantId: string, sizeBytes: int, now: int): Hit {
    Hit(now, "rate:media:upload:" + tenantId, sizeBytes, MEDIA_UPLOAD_WINDOW_SECONDS, MEDIA_UPLOAD_LIMIT_BYTES)
  }

  predicate OnlyMedia(t: Trace, tenantId: string) {
    t.Then? ==>
      && OnlyMedia(t.before, tenantId)
      && (t.hit.key == MediaHit(tenantId, 0, 0).key ==>
            t.hit == MediaHit(tenantId, t.hit.amount, t.hit.now) && t.hit.amount > 0)
  }

  lemma {:induction false} MediaCounts(t: Trace, tenantId: string)
    requires OnlyMedia(t, tenantId)
    ensures CountsWindows(t, MediaHit(tenantId, 0, 0).key, 60, 52_428_800)
  {
    if t.Then? {
      MediaCounts(t.before, tenantId);
    }
  }

  /** With positive sizes a tenant gets 50 MiB through in a window and less than 100 MiB in any minute. */
  lemma MediaBound(t: Trace, tenantId: string, clock: int, lo: int)
    requires OnlyMedia(t, tenantId) && Until(t, clock)
    ensures PassedInWindow(t, MediaHit(tenantId, 0, 0).key) <= 52_428_800
    ensures PassedIn(t, MediaHit(tenantId, 0, 0).key, lo, lo + 60_000) < 104_857_600
  {
    MediaCounts(t, tenantId);
    SlidingIntervalBound(t, MediaHit(tenantId, 0, 0).key, 60, 52_428_800, clock, lo);
  }

  /** A message adds its bytes to what its tenant's counter holds, and passes while that is within 50 MiB. */
  lemma MediaAddsBytes(store: Store, tenantId: string, sizeBytes: int, now: int)
    ensures var key := "rate:media:upload:" + tenantId;
      var held := if Alive(store, key, now) then store[key].value else 0;
      var (s, passed) := Step(store, MediaHit(tenantId, sizeBytes, now));
      && key in s && s[key].value == held + sizeBytes
      && (passed <==> held + sizeBytes <= 52_428_800)
  {
  }

  lemma MediaIdentifies(a: string, b: string, now: int)
    ensures MediaHit(a, 1, now).key == MediaHit(b, 1, now).key <==> a == b
  {
    assert MediaHit(a, 1, now).key[18..] == a && MediaHit(b, 1, now).key[18..] == b;
  }

  /** MediaPreparationStage.execute; `urlParses` says whether `new URL` accepts the address. */
  method MediaExecute(redis: RedisService, tenantId: string, kind: string, url: Option<string>,
    urlParses: bool, sizeBytes: Option<int>, now: int) returns (verdict: MediaVerdict)
    modifies redis
    ensures kind !in MEDIA_TYPES ==> verdict == Ready
    ensures kind in MEDIA_TYPES ==>
      && (verdict == NoUrl <==> !Truthy(url))
      && (verdict == InvalidUrl <==> Truthy(url) && !urlParses)
    ensures var counted := kind in MEDIA_TYPES && Truthy(url) && urlParses && sizeBytes.Some? && sizeBytes.value != 0;
      if counted then
        (redis.store, verdict == Ready) == Step(old(redis.store), MediaHit(tenantId, sizeBytes.value, now))
      else redis.store == old(redis.store) && verdict != OverLimit
  {
    if kind !in MEDIA_TYPES {
      return Ready;
    }
    if !Truthy(url) {
      return NoUrl;
    }
    if !urlParses {
      return InvalidUrl;
    }
    if sizeBytes.Some? && sizeBytes.value != 0 {
      var currentBytes := redis.IncrbyWithTtl(
        "rate:media:upload:" + tenantId, sizeBytes.value, MEDIA_UPLOAD_WINDOW_SECONDS, now);
      if currentBytes > MEDIA_UPLOAD_LIMIT_BYTES {
        return OverLimit;
      }
    }
    return Ready;
  }
}
