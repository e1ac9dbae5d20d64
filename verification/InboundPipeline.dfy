/**
 * Inbound jobs: deduplication with a time to live, the sequential stages of the pipeline, and
 * the forward stage that queues one delivery per webhook. Jobs of one message are processed one
 * after the other (apps/worker/src/pipeline).
 */
module InboundPipeline {
  import opened Wrappers
  import opened Intervals
  import opened JsText

  const DEDUP_TTL_SECONDS := 3600
  const DEDUP_TTL_MS := 1000 * DEDUP_TTL_SECONDS

  /** What a stage does with a context: pass one on, return null, or throw. */
  datatype StageOutcome = Continue | Halt | Throw

  datatype Config = Config(url: string, secret: string)

  /** One queued delivery; of its payload only the text stays, and the signature is abstract. */
  datatype Delivery = Delivery(dedupKey: string, config: Config, text: Option<string>)

  /**
   * One attempt of a job: when deduplication reads and writes its key, what the stages between
   * deduplication and forwarding do, the text they leave to forward, the enabled webhooks, and at
   * which of them adding throws.
   */
  datatype Attempt = Attempt(
    instanceId: string, messageKey: string, getAt: int, setAt: int, middle: seq<StageOutcome>,
    text: Option<string>, configs: seq<Config>, addThrowsAt: Option<nat>)

  datatype Verdict = Completed | Halted | Threw

  /** Keys with their expiry in milliseconds. */
  type Store = map<string, int>

  function DedupKey(a: Attempt): string {
    "dedup:msg:" + a.instanceId + ":" + a.messageKey
  }

  predicate Duplicate(store: Store, a: Attempt) {
    DedupKey(a) in store && a.getAt < store[DedupKey(a)]
  }

  /** The first stage that does not continue decides. */
  function StagesVerdict(stages: seq<StageOutcome>): Verdict {
    if stages == [] then Completed
    else match stages[0]
      case Continue => StagesVerdict(stages[1..])
      case Halt => Halted
      case Throw => Threw
  }

  /** Stage `i` is the first that does not continue. */
  predicate StopsAt(stages: seq<StageOutcome>, i: nat)
    requires i < |stages|
  {
    stages[i] != Continue && forall j :: 0 <= j < i ==> stages[j] == Continue
  }

  /** A job completes, halts or throws as the first stage does that does not continue. */
  lemma {:induction false} StagesVerdictIff(stages: seq<StageOutcome>)
    ensures StagesVerdict(stages) == Completed <==> forall i :: 0 <= i < |stages| ==> stages[i] == Continue
    ensures StagesVerdict(stages) == Halted <==>
      exists i :: 0 <= i < |stages| && StopsAt(stages, i) && stages[i] == Halt
    ensures StagesVerdict(stages) == Threw <==>
      exists i :: 0 <= i < |stages| && StopsAt(stages, i) && stages[i] == Throw
  {
    if stages != [] {
      var rest := stages[1..];
      StagesVerdictIff(rest);
      if stages[0] == Continue {
        forall i | 0 <= i < |rest| ensures StopsAt(rest, i) <==> StopsAt(stages, i + 1) {
          assert forall j :: 0 <= j < i ==> rest[j] == stages[j + 1];
          assert forall j :: 0 < j < i + 1 ==> stages[j] == rest[j - 1];
        }
        assert forall i :: 0 < i < |stages| ==> stages[i] == rest[i - 1];
      } else {
        assert StopsAt(stages, 0);
      }
    }
  }

  /** The webhooks that get a delivery when the context reaches the forward stage. */
  function Forwarded(a: Attempt): seq<Config> {
    if a.addThrowsAt.Some? && a.addThrowsAt.value < |a.configs| then a.configs[..a.addThrowsAt.value]
    else a.configs
  }

  /** What an attempt that deduplication lets through delivers. */
  function Delivered(a: Attempt): seq<Delivery> {
    if StagesVerdict(a.middle) == Completed then
      seq(|Forwarded(a)|, i requires 0 <= i < |Forwarded(a)| => Delivery(DedupKey(a), Forwarded(a)[i], a.text))
    else []
  }

  function AttemptVerdict(duplicate: bool, a: Attempt): Verdict {
    if duplicate then Halted
    else if StagesVerdict(a.middle) != Completed then StagesVerdict(a.middle)
    else if |Forwarded(a)| < |a.configs| then Threw
    else Completed
  }

  /** A new job throws when a stage does or a webhook cannot be queued; duplicates halt, and so do halted jobs. */
  lemma AttemptVerdictIff(duplicate: bool, a: Attempt)
    ensures var stages := a.middle;
      && (AttemptVerdict(duplicate, a) == Halted <==>
            duplicate || exists i :: 0 <= i < |stages| && StopsAt(stages, i) && stages[i] == Halt)
      && (AttemptVerdict(duplicate, a) == Threw <==>
            !duplicate &&
            ((exists i :: 0 <= i < |stages| && StopsAt(stages, i) && stages[i] == Throw)
             || ((forall i :: 0 <= i < |stages| ==> stages[i] == Continue)
                 && a.addThrowsAt.Some? && a.addThrowsAt.value < |a.configs|)))
  {
    StagesVerdictIff(a.middle);
  }

  function Deduped(store: Store, a: Attempt): Store {
    if Duplicate(store, a) then store else store[DedupKey(a) := a.setAt + DEDUP_TTL_MS]
  }

  /** The loop over the stages, for stages whose outcomes are known. */
  method RunStages(stages: seq<StageOutcome>) returns (verdict: Verdict)
    ensures verdict == StagesVerdict(stages)
  {
    var i := 0;
    while i < |stages|
      invariant 0 <= i <= |stages|
      invariant StagesVerdict(stages[i..]) == StagesVerdict(stages)
    {
      match stages[i] {
        case Continue =>
        case Halt => return Halted;
        case Throw => return Threw;
      }
      i := i + 1;
    }
    return Completed;
  }

  class MessagePipeline {
    var redis: Store
    var webhookQueue: seq<Delivery>

    constructor ()
      ensures redis == map[] && webhookQueue == []
    {
      redis, webhookQueue := map[], [];
    }

    /** MessageDeduplicationStage.execute */
    method Deduplicate(a: Attempt) returns (outcome: StageOutcome)
      modifies this`redis
      ensures outcome == if Duplicate(old(redis), a) then Halt else Continue
      ensures redis == if outcome == Halt then old(redis) else old(redis)[DedupKey(a) := a.setAt + DEDUP_TTL_MS]
    {
      var key := "dedup:msg:" + a.instanceId + ":" + a.messageKey;
      if key in redis && a.getAt < redis[key] {
        return Halt;
      }
      redis := redis[key := a.setAt + 1000 * DEDUP_TTL_SECONDS];
      return Continue;
    }

    /** WebhookForwardStage.execute: one delivery per webhook, until adding one throws. */
    method Forward(a: Attempt) returns (outcome: StageOutcome)
      modifies this`webhookQueue
      ensures webhookQueue == old(webhookQueue)
        + seq(|Forwarded(a)|, i requires 0 <= i < |Forwarded(a)| => Delivery(DedupKey(a), Forwarded(a)[i], a.text))
      ensures outcome == if |Forwarded(a)| < |a.configs| then Throw else Continue
    {
      for k := 0 to |a.configs|
        invariant k <= |Forwarded(a)|
        invariant webhookQueue == old(webhookQueue)
          + seq(k, i requires 0 <= i < k => Delivery(DedupKey(a), a.configs[i], a.text))
      {
        if a.addThrowsAt == Some(k) {
          return Throw;
        }
        webhookQueue := webhookQueue + [Delivery(DedupKey(a), a.configs[k], a.text)];
      }
      return Continue;
    }

    /** MessagePipelineService.process over all stages. */
    method Process(a: Attempt) returns (verdict: Verdict)
      modifies this
      ensures verdict == AttemptVerdict(Duplicate(old(redis), a), a)
      ensures redis == Deduped(old(redis), a)
      ensures webhookQueue == old(webhookQueue) + if Duplicate(old(redis), a) then [] else Delivered(a)
    {
      var outcome := Deduplicate(a);
      if outcome == Halt {
        return Halted;
      }
      verdict := RunStages(a.middle);
      if verdict != Completed {
        return;
      }
      outcome := Forward(a);
      return if outcome == Throw then Threw else Completed;
    }
  }

  /** Instance ids hold no colon, so a key stands for one instance and one WhatsApp id. */
  lemma KeysIdentifyMessages(a: Attempt, b: Attempt)
    requires ':' !in a.instanceId && ':' !in b.instanceId
    ensures DedupKey(a) == DedupKey(b) <==> a.instanceId == b.instanceId && a.messageKey == b.messageKey
  {
    assert DedupKey(a)[10..] == a.instanceId + [':'] + a.messageKey;
    assert DedupKey(b)[10..] == b.instanceId + [':'] + b.messageKey;
    FirstSeparatorSplits(a.instanceId, ':', a.messageKey, b.instanceId, b.messageKey);
  }

  // ---------------------------------------------------------------- runs

  /** Attempts in the order they are processed. */
  datatype Trace = Start | Then(before: Trace, attempt: Attempt)

  function Run(t: Trace): Store {
    match t
    case Start => map[]
    case Then(before, a) => Deduped(Run(before), a)
  }

  predicate Passes(before: Trace, a: Attempt, key: string) {
    DedupKey(a) == key && !Duplicate(Run(before), a)
  }

  /** When attempts with `key` passed deduplication. */
  function PassTimes(t: Trace, key: string): seq<int> {
    match t
    case Start => []
    case Then(before, a) => PassTimes(before, key) + if Passes(before, a, key) then [a.setAt] else []
  }

  /** Attempts on `key` do not overlap, and the last is over by `clock`. */
  predicate Serial(t: Trace, key: string, clock: int) {
    match t
    case Start => true
    case Then(before, a) =>
      if DedupKey(a) == key then a.getAt <= a.setAt <= clock && Serial(before, key, a.getAt)
      else Serial(before, key, clock)
  }

  /** Passes on `key` are in order and the time to live apart; the store tells the last of them. */
  predicate PassesKept(times: seq<int>, store: Store, key: string, clock: int) {
    && Sorted(times) && Spaced(times, 1, DEDUP_TTL_MS)
    && (key in store <==> times != [])
    && (times != [] ==>
          var last := times[|times| - 1];
          store[key] == last + DEDUP_TTL_MS && last <= clock)
  }

  lemma PassKept(times: seq<int>, store: Store, a: Attempt, key: string, clock: int)
    requires DedupKey(a) == key && a.getAt <= a.setAt <= clock
    requires PassesKept(times, store, key, a.getAt)
    ensures PassesKept(if Duplicate(store, a) then times else times + [a.setAt], Deduped(store, a), key, clock)
  {
  }

  lemma {:induction false} PassesSpaced(t: Trace, key: string, clock: int)
    requires Serial(t, key, clock)
    ensures PassesKept(PassTimes(t, key), Run(t), key, clock)
    decreases t
  {
    if t.Then? {
      if DedupKey(t.attempt) == key {
        PassesSpaced(t.before, key, t.attempt.getAt);
        PassKept(PassTimes(t.before, key), Run(t.before), t.attempt, key, clock);
        assert PassTimes(t.before, key) + [] == PassTimes(t.before, key);
      } else {
        PassesSpaced(t.before, key, clock);
        assert PassTimes(t, key) == PassTimes(t.before, key);
      }
    }
  }

  /** An attempt passes exactly when no attempt with its key has passed within the last 3600 seconds. */
  lemma PassesIff(t: Trace, a: Attempt)
    requires Serial(t, DedupKey(a), a.getAt)
    ensures var times := PassTimes(t, DedupKey(a));
      !Duplicate(Run(t), a) <==> forall i :: 0 <= i < |times| ==> times[i] + 3_600_000 <= a.getAt
  {
    PassesSpaced(t, DedupKey(a), a.getAt);
    LastPassDecides(PassTimes(t, DedupKey(a)), a.getAt);
  }

  lemma LastPassDecides(times: seq<int>, now: int)
    requires Sorted(times)
    ensures (forall i :: 0 <= i < |times| ==> times[i] + 3_600_000 <= now) <==>
      (times != [] ==> times[|times| - 1] + 3_600_000 <= now)
  {
    if times != [] && times[|times| - 1] + 3_600_000 <= now {
      forall i | 0 <= i < |times| ensures times[i] + 3_600_000 <= now {
        assert i < |times| - 1 ==> times[i] <= times[|times| - 1];
      }
    }
  }

  /** Each key passes deduplication at most once in any half-open interval of 3600 seconds. */
  lemma OnePassPerTtl(t: Trace, key: string, clock: int, lo: int)
    requires Serial(t, key, clock)
    ensures CountIn(PassTimes(t, key), lo, lo + 3_600_000) <= 1
  {
    PassesSpaced(t, key, clock);
    SpacedBoundsCount(PassTimes(t, key), 1, DEDUP_TTL_MS, lo);
  }

  /** All deliveries queued for `key`. */
  function Deliveries(t: Trace, key: string): seq<Delivery> {
    match t
    case Start => []
    case Then(before, a) => Deliveries(before, key) + if Passes(before, a, key) then Delivered(a) else []
  }

  /** The first attempt on `key`. */
  function First(t: Trace, key: string): Option<Attempt> {
    match t
    case Start => None
    case Then(before, a) =>
      if First(before, key).Some? then First(before, key) else if DedupKey(a) == key then Some(a) else None
  }

  /** Every later attempt on `key` reads it less than the time to live after the first wrote it. */
  predicate RetriedInTime(t: Trace, key: string) {
    t.Then? ==>
      && RetriedInTime(t.before, key)
      && (DedupKey(t.attempt) == key && First(t.before, key).Some? ==>
            t.attempt.getAt < First(t.before, key).value.setAt + DEDUP_TTL_MS)
  }

  /**
   * Across all retries a message is forwarded by its first attempt or not at all: the deliveries
   * of the whole run are those of the first attempt, at most one for each of its webhooks.
   */
  lemma {:induction false} OnlyFirstAttemptForwards(t: Trace, key: string)
    requires RetriedInTime(t, key)
    ensures match First(t, key)
      case None => Deliveries(t, key) == [] && key !in Run(t)
      case Some(a) =>
        && Deliveries(t, key) == Delivered(a)
        && |Delivered(a)| <= |a.configs|
        && (forall i :: 0 <= i < |Delivered(a)| ==> Delivered(a)[i] == Delivery(key, a.configs[i], a.text))
        && key in Run(t) && Run(t)[key] == a.setAt + DEDUP_TTL_MS
  {
    if t.Then? {
      OnlyFirstAttemptForwards(t.before, key);
    }
  }

  /** A delivery for every webhook of an attempt. */
  function AllDeliveries(a: Attempt): seq<Delivery> {
    seq(|a.configs|, i requires 0 <= i < |a.configs| => Delivery(DedupKey(a), a.configs[i], a.text))
  }

  /**
   * Whatever is retried, every delivery of a message is made exactly when there is no webhook or
   * its first attempt, taken as new, runs to the end of the pipeline.
   */
  lemma AllDeliveredIff(t: Trace, key: string)
    requires RetriedInTime(t, key) && First(t, key).Some?
    ensures var a := First(t, key).value;
      Deliveries(t, key) == AllDeliveries(a) <==> a.configs == [] || AttemptVerdict(false, a) == Completed
  {
    OnlyFirstAttemptForwards(t, key);
    var a := First(t, key).value;
    assert |Delivered(a)| == |a.configs| ==> Delivered(a) == AllDeliveries(a);
  }

  /**
   * A retry after a failure past deduplication is answered as a duplicate: the job then succeeds
   * with what the first attempt had queued, nothing if it threw before forwarding, and otherwise
   * the webhooks before the one that could not be queued.
   */
  lemma FailedMessageIsLost(t: Trace, retry: Attempt)
    requires First(t, DedupKey(retry)).Some? && RetriedInTime(Then(t, retry), DedupKey(retry))
    requires AttemptVerdict(false, First(t, DedupKey(retry)).value) == Threw
    ensures AttemptVerdict(Duplicate(Run(t), retry), retry) == Halted
    ensures var a, made := First(t, DedupKey(retry)).value, Deliveries(Then(t, retry), DedupKey(retry));
      if StagesVerdict(a.middle) == Threw then made == []
      else
        && a.addThrowsAt.Some? && a.addThrowsAt.value < |a.configs|
        && made == AllDeliveries(a)[..a.addThrowsAt.value]
  {
    OnlyFirstAttemptForwards(t, DedupKey(retry));
  }
}
