/**
 * The two blacklist caches: the API's hash per instance (blacklist.service.ts) and the worker's
 * key per phone (anti-spam.service.ts), both over one table. Operations run to completion.
 */
module Blacklists {
  import opened Wrappers

  const CACHE_TTL_MS := 3_600_000
  const AUTO_BLACKLIST_THRESHOLD := 5

  /** A row of the table is known by instance and phone; it carries its failure count. */
  type Table = map<(string, string), int>

  datatype Hash = Hash(fields: map<string, bool>, expireAt: Option<int>)

  datatype Cached = Cached(value: bool, expireAt: int)

  /** The table, the API's hashes by instance, and the worker's keys by instance and phone. */
  datatype State = State(table: Table, hashes: map<string, Hash>, keys: map<(string, string), Cached>)

  const EMPTY := State(map[], map[], map[])

  datatype Error = InstanceNotFound | Conflict | NotFound

  predicate Member(s: State, instance: string, phone: string) {
    (instance, phone) in s.table
  }

  // ---------------------------------------------------------------- the API's hash

  predicate HashAlive(hashes: map<string, Hash>, instance: string, now: int) {
    instance in hashes && (hashes[instance].expireAt.None? || now < hashes[instance].expireAt.value)
  }

  function HGet(hashes: map<string, Hash>, instance: string, phone: string, now: int): Option<bool> {
    if HashAlive(hashes, instance, now) && phone in hashes[instance].fields
    then Some(hashes[instance].fields[phone]) else None
  }

  function HSet(hashes: map<string, Hash>, instance: string, phone: string, value: bool, now: int): map<string, Hash> {
    var h := if HashAlive(hashes, instance, now) then hashes[instance] else Hash(map[], None);
    hashes[instance := h.(fields := h.fields[phone := value])]
  }

  function HExpire(hashes: map<string, Hash>, instance: string, now: int): map<string, Hash> {
    if instance in hashes then hashes[instance := hashes[instance].(expireAt := Some(now + CACHE_TTL_MS))] else hashes
  }

  function PhonesOf(table: Table, instance: string): set<string> {
    set k <- table | k.0 == instance :: k.1
  }

  function AllBlocked(phones: set<string>): map<string, bool> {
    map phone <- phones :: true
  }

  /** The cache of an instance deleted and refilled from the table. */
  function Synced(s: State, instance: string, now: int): State {
    var phones := PhonesOf(s.table, instance);
    s.(hashes := if phones == {} then s.hashes - {instance}
                 else s.hashes[instance := Hash(AllBlocked(phones), Some(now + CACHE_TTL_MS))])
  }

  function LookedUp(s: State, instance: string, phone: string, now: int): (State, bool) {
    var cached := HGet(s.hashes, instance, phone, now);
    if cached.Some? then (s, cached.value)
    else
      var blocked := Member(s, instance, phone);
      (s.(hashes := HExpire(HSet(s.hashes, instance, phone, blocked, now), instance, now)), blocked)
  }

  function Added(s: State, owned: bool, instance: string, phone: string, now: int): (State, Option<Error>) {
    if !owned then (s, Some(InstanceNotFound))
    else if Member(s, instance, phone) then (s, Some(Conflict))
    else (Synced(s.(table := s.table[(instance, phone) := 0]), instance, now), None)
  }

  function Removed(s: State, owned: bool, instance: string, phone: string, now: int): (State, Option<Error>) {
    if !owned then (s, Some(InstanceNotFound))
    else if !Member(s, instance, phone) then (s, Some(NotFound))
    else (Synced(s.(table := s.table - {(instance, phone)}), instance, now), None)
  }

  /** A delivery failed; `recent` failed messages to the phone are on record for the last day. */
  function FailCounted(s: State, instance: string, phone: string, recent: int, now: int): State {
    if Member(s, instance, phone) then
      s.(table := s.table[(instance, phone) := s.table[(instance, phone)] + 1])
    else if recent >= AUTO_BLACKLIST_THRESHOLD then
      Synced(s.(table := s.table[(instance, phone) := recent]), instance, now)
    else s
  }

  lemma BlockedOneMore(all: set<string>, todo: set<string>, phone: string)
    requires todo <= all && phone in todo
    ensures AllBlocked(all - (todo - {phone})) == AllBlocked(all - todo)[phone := true]
    ensures todo == all ==> AllBlocked(all - todo) == map[]
    ensures todo - {phone} != all
  {
    assert all - (todo - {phone}) == all - todo + {phone};
  }

  // ---------------------------------------------------------------- the worker's keys

  function WorkerChecked(s: State, instance: string, phone: string, now: int): (State, bool) {
    var key := (instance, phone);
    if key in s.keys && now < s.keys[key].expireAt then (s, s.keys[key].value)
    else
      var blocked := Member(s, instance, phone);
      (s.(keys := s.keys[key := Cached(blocked, now + CACHE_TTL_MS)]), blocked)
  }

  function WorkerBlacklisted(s: State, instance: string, phone: string, failCount: int, now: int): (State, bool) {
    var key := (instance, phone);
    if failCount < AUTO_BLACKLIST_THRESHOLD then (s, false)
    else
      (s.(table := s.table[key := if key in s.table then s.table[key] else 0],
          keys := s.keys[key := Cached(true, now + CACHE_TTL_MS)]), true)
  }

  // ---------------------------------------------------------------- the services

  /** The database and Redis behind both services. */
  class Stores {
    var table: Table
    var hashes: map<string, Hash>
    var keys: map<(string, string), Cached>

    function View(): State
      reads this
    {
      State(table, hashes, keys)
    }

    constructor ()
      ensures View() == EMPTY
    {
      table, hashes, keys := map[], map[], map[];
    }
  }

  class BlacklistService {
    const stores: Stores

    constructor (stores: Stores)
      ensures this.stores == stores
    {
      this.stores := stores;
    }

    method SyncBlacklistCache(instance: string, now: int)
      modifies stores
      ensures stores.View() == Synced(old(stores.View()), instance, now)
    {
      stores.hashes := stores.hashes - {instance};
      var entries := PhonesOf(stores.table, instance);
      var todo := entries;
      ghost var rest := stores.hashes;
      while todo != {}
        invariant todo <= entries
        invariant stores.table == old(stores.table) && stores.keys == old(stores.keys)
        invariant stores.hashes == if todo == entries then rest
          else rest[instance := Hash(AllBlocked(entries - todo), None)]
        decreases todo
      {
        var phone :| phone in todo;
        BlockedOneMore(entries, todo, phone);
        stores.hashes := HSet(stores.hashes, instance, phone, true, now);
        todo := todo - {phone};
      }
      if entries != {} {
        assert entries - todo == entries;
        stores.hashes := HExpire(stores.hashes, instance, now);
      }
      assert stores.hashes == Synced(old(stores.View()), instance, now).hashes;
    }

    method IsBlacklisted(instance: string, phone: string, now: int) returns (blocked: bool)
      modifies stores
      ensures (stores.View(), blocked) == LookedUp(old(stores.View()), instance, phone, now)
    {
      var cached := HGet(stores.hashes, instance, phone, now);
      if cached.Some? {
        return cached.value;
      }
      blocked := (instance, phone) in stores.table;
      stores.hashes := HSet(stores.hashes, instance, phone, blocked, now);
      stores.hashes := HExpire(stores.hashes, instance, now);
    }

    method AddToBlacklist(owned: bool, instance: string, phone: string, now: int) returns (error: Option<Error>)
      modifies stores
      ensures (stores.View(), error) == Added(old(stores.View()), owned, instance, phone, now)
    {
      if !owned {
        return Some(InstanceNotFound);
      }
      if (instance, phone) in stores.table {
        return Some(Conflict);
      }
      stores.table := stores.table[(instance, phone) := 0];
      SyncBlacklistCache(instance, now);
      return None;
    }

    method RemoveFromBlacklist(owned: bool, instance: string, phone: string, now: int) returns (error: Option<Error>)
      modifies stores
      ensures (stores.View(), error) == Removed(old(stores.View()), owned, instance, phone, now)
    {
      if !owned {
        return Some(InstanceNotFound);
      }
      if (instance, phone) !in stores.table {
        return Some(NotFound);
      }
      stores.table := stores.table - {(instance, phone)};
      SyncBlacklistCache(instance, now);
      return None;
    }

    method IncrementFailCount(instance: string, phone: string, recent: int, now: int)
      modifies stores
      ensures stores.View() == FailCounted(old(stores.View()), instance, phone, recent, now)
    {
      if (instance, phone) in stores.table {
        stores.table := stores.table[(instance, phone) := stores.table[(instance, phone)] + 1];
        return;
      }
      if recent >= AUTO_BLACKLIST_THRESHOLD {
        stores.table := stores.table[(instance, phone) := recent];
        SyncBlacklistCache(instance, now);
      }
    }
  }

  class AntiSpamService {
    const stores: Stores

    constructor (stores: Stores)
      ensures this.stores == stores
    {
      this.stores := stores;
    }

    method CheckBlacklist(instance: string, phone: string, now: int) returns (blocked: bool)
      modifies stores
      ensures (stores.View(), blocked) == WorkerChecked(old(stores.View()), instance, phone, now)
    {
      var key := (instance, phone);
      if key in stores.keys && now < stores.keys[key].expireAt {
        return stores.keys[key].value;
      }
      blocked := key in stores.table;
      stores.keys := stores.keys[key := Cached(blocked, now + CACHE_TTL_MS)];
    }

    method AutoBlacklist(instance: string, phone: string, failCount: int, now: int) returns (done: bool)
      modifies stores
      ensures (stores.View(), done) == WorkerBlacklisted(old(stores.View()), instance, phone, failCount, now)
    {
      if failCount < AUTO_BLACKLIST_THRESHOLD {
        return false;
      }
      var key := (instance, phone);
      if key !in stores.table {
        stores.table := stores.table[key := 0];
      } else {
        assert stores.table == stores.table[key := stores.table[key]];
      }
      stores.keys := stores.keys[key := Cached(true, now + CACHE_TTL_MS)];
      return true;
    }
  }

  // ---------------------------------------------------------------- runs

  datatype Event =
    | Add(now: int, owned: bool, instance: string, phone: string)
    | Remove(now: int, owned: bool, instance: string, phone: string)
    | CountFailure(now: int, instance: string, phone: string, recent: int)
    | ApiLookup(now: int, instance: string, phone: string)
    | WorkerLookup(now: int, instance: string, phone: string)
    | WorkerBlock(now: int, instance: string, phone: string, failCount: int)

  function Step(s: State, e: Event): State {
    match e
    case Add(now, owned, instance, phone) => Added(s, owned, instance, phone, now).0
    case Remove(now, owned, instance, phone) => Removed(s, owned, instance, phone, now).0
    case CountFailure(now, instance, phone, recent) => FailCounted(s, instance, phone, recent, now)
    case ApiLookup(now, instance, phone) => LookedUp(s, instance, phone, now).0
    case WorkerLookup(now, instance, phone) => WorkerChecked(s, instance, phone, now).0
    case WorkerBlock(now, instance, phone, failCount) => WorkerBlacklisted(s, instance, phone, failCount, now).0
  }

  datatype Trace = Start | Then(before: Trace, event: Event)

  function Run(t: Trace): State {
    match t
    case Start => EMPTY
    case Then(before, e) => Step(Run(before), e)
  }

  // ---------------------------------------------------------------- what the history says

  predicate About(e: Event, instance: string, phone: string) {
    e.instance == instance && e.phone == phone
  }

  /** Whether a phone is listed, by the events about it: owners add and remove, five failures list it too. */
  predicate Listed(t: Trace, instance: string, phone: string) {
    match t
    case Start => false
    case Then(before, e) =>
      var was := Listed(before, instance, phone);
      if !About(e, instance, phone) then was
      else
        match e
        case Add(_, owned, _, _) => was || owned
        case Remove(_, owned, _, _) => was && !owned
        case CountFailure(_, _, _, recent) => was || recent >= 5
        case WorkerBlock(_, _, _, failCount) => was || failCount >= 5
        case _ => was
  }

  /** The failures on record for a listed phone. */
  function Failures(t: Trace, instance: string, phone: string): int {
    match t
    case Start => 0
    case Then(before, e) =>
      var was := Failures(before, instance, phone);
      if !About(e, instance, phone) then was
      else if Listed(before, instance, phone) then (if e.CountFailure? then was + 1 else was)
      else if e.CountFailure? then e.recent
      else 0
  }

  /** The table holds the listed phones with their failures, after any events about any phones. */
  lemma {:induction false} TableIsHistory(t: Trace, instance: string, phone: string)
    ensures Member(Run(t), instance, phone) <==> Listed(t, instance, phone)
    ensures Listed(t, instance, phone) ==> Run(t).table[(instance, phone)] == Failures(t, instance, phone)
  {
    if t.Then? {
      TableIsHistory(t.before, instance, phone);
    }
  }

  /** What the operations answer, by the history alone. */
  lemma AnswersAreHistory(t: Trace, owned: bool, instance: string, phone: string, failCount: int, now: int)
    ensures var listed := Listed(t, instance, phone);
      && Added(Run(t), owned, instance, phone, now).1
           == (if !owned then Some(InstanceNotFound) else if listed then Some(Conflict) else None)
      && Removed(Run(t), owned, instance, phone, now).1
           == (if !owned then Some(InstanceNotFound) else if listed then None else Some(NotFound))
      && (WorkerBlacklisted(Run(t), instance, phone, failCount, now).1 <==> failCount >= 5)
  {
    TableIsHistory(t, instance, phone);
  }

  /** A refilled cache answers every listed phone of its instance for an hour, and is that instance's only. */
  lemma SyncedExact(s: State, instance: string, phone: string, other: string, now: int, later: int)
    requires other != instance
    ensures var hashes := Synced(s, instance, now).hashes;
      && (now <= later < now + 3_600_000 ==>
            HGet(hashes, instance, phone, later) == if Member(s, instance, phone) then Some(true) else None)
      && HGet(hashes, other, phone, later) == HGet(s.hashes, other, phone, later)
  {
    assert phone in PhonesOf(s.table, instance) <==> Member(s, instance, phone);
  }

  /** A hash that has expired comes back empty: the first lookup brings its own phone only. */
  lemma ExpiredIsForgotten(s: State, instance: string, phone: string, other: string, now: int, later: int)
    requires !HashAlive(s.hashes, instance, now) && other != phone
    ensures HGet(LookedUp(s, instance, phone, now).0.hashes, instance, other, later) == None
  {
  }

  /** A write reaches the cache at once: after an accepted add the answer comes from it, and it is true. */
  lemma AddedIsCached(s: State, instance: string, phone: string, now: int, later: int)
    requires !Member(s, instance, phone) && now <= later < now + 3_600_000
    ensures HGet(Added(s, true, instance, phone, now).0.hashes, instance, phone, later) == Some(true)
  {
    SyncedExact(s.(table := s.table[(instance, phone) := 0]), instance, phone, instance + "x", now, later);
  }

  /** What the worker last wrote for a phone, and when: a lookup writes unless it finds a live entry. */
  function LastWrite(t: Trace, instance: string, phone: string): Option<(bool, int)> {
    match t
    case Start => None
    case Then(before, e) =>
      var was := LastWrite(before, instance, phone);
      if !About(e, instance, phone) then was
      else
        match e
        case WorkerLookup(now, _, _) =>
          if was.Some? && now < was.value.1 + 3_600_000 then was
          else Some((Listed(before, instance, phone), now))
        case WorkerBlock(now, _, _, failCount) => if failCount >= 5 then Some((true, now)) else was
        case _ => was
  }

  /** The worker's answer by the history alone: what it last wrote for an hour, and else whether the phone is listed. */
  lemma {:induction false} WorkerAnswersHistory(t: Trace, instance: string, phone: string, now: int)
    ensures WorkerChecked(Run(t), instance, phone, now).1 ==
      match LastWrite(t, instance, phone)
      case Some((value, at)) => if now < at + 3_600_000 then value else Listed(t, instance, phone)
      case None => Listed(t, instance, phone)
  {
    KeysAreLastWrites(t, instance, phone);
    TableIsHistory(t, instance, phone);
  }

  lemma {:induction false} KeysAreLastWrites(t: Trace, instance: string, phone: string)
    ensures var key := (instance, phone);
      && (key in Run(t).keys <==> LastWrite(t, instance, phone).Some?)
      && (key in Run(t).keys ==>
            var w := LastWrite(t, instance, phone).value;
            Run(t).keys[key] == Cached(w.0, w.1 + 3_600_000))
  {
    if t.Then? {
      KeysAreLastWrites(t.before, instance, phone);
      TableIsHistory(t.before, instance, phone);
    }
  }

  // ---------------------------------------------------------------- the API's cache is exact

  /** Every cached field agrees with the table. */
  predicate Coherent(s: State) {
    forall instance <- s.hashes :: forall phone <- s.hashes[instance].fields ::
      s.hashes[instance].fields[phone] == Member(s, instance, phone)
  }

  lemma SyncedCoherent(s: State, t: State, instance: string, phone: string, now: int)
    requires Coherent(s)
    requires t.hashes == s.hashes
    requires forall k :: k != (instance, phone) ==> (k in t.table <==> k in s.table)
    ensures Coherent(Synced(t, instance, now))
  {
  }

  lemma LookedUpCoherent(s: State, instance: string, phone: string, now: int)
    requires Coherent(s)
    ensures Coherent(LookedUp(s, instance, phone, now).0)
    ensures LookedUp(s, instance, phone, now).1 == Member(s, instance, phone)
  {
  }

  predicate ThroughService(t: Trace) {
    t.Then? ==> !t.event.WorkerBlock? && ThroughService(t.before)
  }

  lemma {:induction false} RunCoherent(t: Trace)
    requires ThroughService(t)
    ensures Coherent(Run(t))
  {
    if t.Then? {
      RunCoherent(t.before);
      var s := Run(t.before);
      match t.event {
        case Add(now, owned, instance, phone) =>
          SyncedCoherent(s, s.(table := s.table[(instance, phone) := 0]), instance, phone, now);
        case Remove(now, owned, instance, phone) =>
          SyncedCoherent(s, s.(table := s.table - {(instance, phone)}), instance, phone, now);
        case CountFailure(now, instance, phone, recent) =>
          SyncedCoherent(s, s.(table := s.table[(instance, phone) := recent]), instance, phone, now);
        case ApiLookup(now, instance, phone) => LookedUpCoherent(s, instance, phone, now);
        case WorkerLookup(_, _, _) =>
      }
    }
  }

  /** From `now` on the API answers membership, about every instance and phone. */
  ghost predicate AnswersRight(s: State, now: int) {
    forall i: string, p: string, n: int :: n >= now ==> LookedUp(s, i, p, n).1 == Member(s, i, p)
  }

  /**
   * With all writes through the service, `isBlacklisted` answers membership in the table at
   * once, after any sequence of adds, removes, automatic blacklisting, lookups and expiries.
   */
  lemma ApiAnswersMembership(t: Trace, now: int)
    requires ThroughService(t)
    ensures AnswersRight(Run(t), now)
  {
    RunCoherent(t);
  }

  /**
   * The worker's own blacklisting keeps the API's answers right exactly when no live field of
   * the API's hash says "not blocked".
   */
  lemma WorkerBlockAnswersIff(s: State, instance: string, phone: string, failCount: int, now: int)
    requires AnswersRight(s, now) && failCount >= AUTO_BLACKLIST_THRESHOLD
    ensures AnswersRight(WorkerBlacklisted(s, instance, phone, failCount, now).0, now) <==>
      HGet(s.hashes, instance, phone, now) != Some(false)
  {
    var t := WorkerBlacklisted(s, instance, phone, failCount, now).0;
    if HGet(s.hashes, instance, phone, now) == Some(false) {
      assert LookedUp(t, instance, phone, now).1 != Member(t, instance, phone);
    } else {
      forall i: string, p: string, n: int | n >= now ensures LookedUp(t, i, p, n).1 == Member(t, i, p) {
        assert LookedUp(s, i, p, n).1 == Member(s, i, p);
      }
    }
  }

  /** `n` lookups of numbers the hash does not hold, each just before it would expire. */
  function KeptAlive(t: Trace, instance: string, phone: string, n: nat): Trace {
    if n == 0 then t
    else Then(KeptAlive(t, instance, phone, n - 1),
              ApiLookup(n * (CACHE_TTL_MS - 1), instance, phone + Ones(n)))
  }

  function Ones(n: nat): (r: string)
    ensures |r| == n
  {
    seq(n, _ => '1')
  }

  /** `phone` is looked up and found free, and at once blocked by the worker. */
  function LookedUpThenBlocked(instance: string, phone: string): Trace {
    Then(Then(Start, ApiLookup(0, instance, phone)), WorkerBlock(0, instance, phone, AUTO_BLACKLIST_THRESHOLD))
  }

  lemma {:induction false} KeptAliveHolds(instance: string, phone: string, n: nat)
    ensures var s := Run(KeptAlive(LookedUpThenBlocked(instance, phone), instance, phone, n));
      && s.table == map[(instance, phone) := 0]
      && instance in s.hashes
      && s.hashes[instance].expireAt == Some(n * (CACHE_TTL_MS - 1) + CACHE_TTL_MS)
      && phone in s.hashes[instance].fields && !s.hashes[instance].fields[phone]
      && (forall p <- s.hashes[instance].fields :: |p| <= |phone| + n)
    decreases n
  {
    if n == 0 {
      assert Run(Start) == EMPTY;
    } else {
      KeptAliveHolds(instance, phone, n - 1);
      assert |phone + Ones(n)| == |phone| + n;
    }
  }

  /**
   * Without that, no time bounds how long the API goes on answering wrong: looking up other
   * numbers renews the whole hash, the stale field included.
   */
  lemma StaleAnswerOutlivesAnyBound(instance: string, phone: string, bound: nat)
    ensures exists t: Trace, now: int ::
      && WasAt(t, instance, phone, true, 0) && now >= bound
      && Member(Run(t), instance, phone) && !LookedUp(Run(t), instance, phone, now).1
  {
    var t := KeptAlive(LookedUpThenBlocked(instance, phone), instance, phone, bound);
    var now := bound * (CACHE_TTL_MS - 1);
    KeptAliveHolds(instance, phone, bound);
    BlockedAtZero(instance, phone, bound);
    assert HGet(Run(t).hashes, instance, phone, now) == Some(false);
    assert Member(Run(t), instance, phone) && !LookedUp(Run(t), instance, phone, now).1;
  }

  lemma {:induction false} BlockedAtZero(instance: string, phone: string, n: nat)
    ensures WasAt(KeptAlive(LookedUpThenBlocked(instance, phone), instance, phone, n), instance, phone, true, 0)
  {
    if n > 0 {
      BlockedAtZero(instance, phone, n - 1);
    } else {
      KeptAliveHolds(instance, phone, 0);
    }
  }

  // ---------------------------------------------------------------- the worker's cache lags

  /** Right after some event of the run at time `at`, membership was `value`. */
  predicate WasAt(t: Trace, instance: string, phone: string, value: bool, at: int) {
    t.Then? &&
      ((t.event.now == at && Member(Run(t), instance, phone) == value) || WasAt(t.before, instance, phone, value, at))
  }

  /** Right after some event of the run later than `since`, membership was `value`. */
  predicate WasAfter(t: Trace, instance: string, phone: string, value: bool, since: int) {
    t.Then? && (
      || (t.event.now > since && Member(Run(t), instance, phone) == value)
      || WasAfter(t.before, instance, phone, value, since))
  }

  lemma {:induction false} AtIsAfter(t: Trace, instance: string, phone: string, value: bool, at: int, since: int)
    requires WasAt(t, instance, phone, value, at) && at > since
    ensures WasAfter(t, instance, phone, value, since)
  {
    if !(t.event.now == at && Member(Run(t), instance, phone) == value) {
      AtIsAfter(t.before, instance, phone, value, at, since);
    }
  }

  /** Every key of the worker holds what membership was when it was written. */
  lemma {:induction false} KeysWereTrue(t: Trace, instance: string, phone: string)
    requires (instance, phone) in Run(t).keys
    ensures var c := Run(t).keys[(instance, phone)];
      WasAt(t, instance, phone, c.value, c.expireAt - CACHE_TTL_MS)
  {
    var key := (instance, phone);
    var s := Run(t.before);
    if key in s.keys && Run(t).keys[key] == s.keys[key] {
      KeysWereTrue(t.before, instance, phone);
    }
  }

  /**
   * Whoever writes the table, the worker answers membership as of this moment or as of right
   * after some event within the last 3600 seconds.
   */
  lemma WorkerAnswersRecentMembership(t: Trace, instance: string, phone: string, now: int)
    ensures var answer := WorkerChecked(Run(t), instance, phone, now).1;
      answer == Member(Run(t), instance, phone) || WasAfter(t, instance, phone, answer, now - CACHE_TTL_MS)
  {
    var s := Run(t);
    if (instance, phone) in s.keys && now < s.keys[(instance, phone)].expireAt {
      var c := s.keys[(instance, phone)];
      KeysWereTrue(t, instance, phone);
      AtIsAfter(t, instance, phone, c.value, c.expireAt - CACHE_TTL_MS, now - CACHE_TTL_MS);
    }
  }
}
