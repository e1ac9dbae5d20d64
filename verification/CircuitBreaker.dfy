/**
 * The circuit breaker of libs/shared/src/resilience/circuit-breaker.ts.
 *
 * `execute` runs atomically up to `await fn()` and atomically again when the call
 * completes, so many calls may be in flight at once. The interleaved protocol is a run of
 * events: a call begins, a call in flight succeeds or fails, or somebody resets the breaker.
 * A completion is applied to whatever state the breaker has reached by then.
 */
module CircuitBreaking {
  import opened Arithmetic

  datatype CircuitState = CLOSED | OPEN | HALF_OPEN

  datatype Options = Options(failureThreshold: int, resetTimeoutMs: int, halfOpenMaxAttempts: int)

  const DEFAULT_OPTIONS := Options(5, 30_000, 3)

  /** The fields of a breaker, as a value. */
  datatype Breaker = Breaker(
    state: CircuitState, failureCount: int, halfOpenAttempts: int, lastFailureTime: int)

  const FRESH := Breaker(CLOSED, 0, 0, 0)

  // ---------------------------------------------------------------- steps

  function Transitioned(b: Breaker, newState: CircuitState): Breaker {
    match newState
    case CLOSED => b.(state := CLOSED, failureCount := 0, halfOpenAttempts := 0)
    case OPEN => b.(state := OPEN)
    case HALF_OPEN => b.(state := HALF_OPEN, halfOpenAttempts := 0)
  }

  predicate TimeoutElapsed(o: Options, b: Breaker, now: int) {
    now - b.lastFailureTime >= o.resetTimeoutMs
  }

  /** `execute` up to `await fn()`: the state it leaves and whether `fn` is called. */
  function Begun(o: Options, b: Breaker, now: int): (Breaker, bool) {
    if b.state == OPEN && !TimeoutElapsed(o, b, now) then (b, false)
    else
      var c := if b.state == OPEN then Transitioned(b, HALF_OPEN) else b;
      if c.state != HALF_OPEN then (c, true)
      else if c.halfOpenAttempts >= o.halfOpenMaxAttempts then (Transitioned(c, OPEN), false)
      else (c.(halfOpenAttempts := c.halfOpenAttempts + 1), true)
  }

  function Succeeded(b: Breaker): Breaker {
    (if b.state == HALF_OPEN then Transitioned(b, CLOSED) else b).(failureCount := 0)
  }

  function Failed(o: Options, b: Breaker, now: int): Breaker {
    var c := b.(failureCount := b.failureCount + 1, lastFailureTime := now);
    if c.state == HALF_OPEN || c.failureCount >= o.failureThreshold then Transitioned(c, OPEN) else c
  }

  // ---------------------------------------------------------------- the class

  /** How an awaited call ended. */
  datatype Outcome = Success | Failure(at: int)

  datatype Call = Call(beginAt: int, outcome: Outcome)

  function SerialStep(o: Options, b: Breaker, c: Call): (Breaker, bool) {
    var (begun, admitted) := Begun(o, b, c.beginAt);
    if !admitted then (begun, false)
    else
      match c.outcome
      case Success => (Succeeded(begun), true)
      case Failure(at) => (Failed(o, begun, at), true)
  }

  class CircuitBreaker {
    const options: Options
    var state: CircuitState
    var failureCount: int
    var halfOpenAttempts: int
    var lastFailureTime: int

    function View(): Breaker
      reads this
    {
      Breaker(state, failureCount, halfOpenAttempts, lastFailureTime)
    }

    constructor (options: Options)
      ensures this.options == options && View() == FRESH
    {
      this.options := options;
      state, failureCount, halfOpenAttempts, lastFailureTime := CLOSED, 0, 0, 0;
    }

    method TransitionTo(newState: CircuitState)
      modifies this
      ensures View() == Transitioned(old(View()), newState)
    {
      state := newState;
      if newState == CLOSED {
        failureCount := 0;
        halfOpenAttempts := 0;
      }
      if newState == HALF_OPEN {
        halfOpenAttempts := 0;
      }
    }

    /** The synchronous prefix of `execute`; `admitted` says whether `fn` gets called. */
    method BeginExecute(now: int) returns (admitted: bool)
      modifies this
      ensures (View(), admitted) == Begun(options, old(View()), now)
    {
      if state == OPEN {
        if now - lastFailureTime >= options.resetTimeoutMs {
          TransitionTo(HALF_OPEN);
        } else {
          return false;
        }
      }
      if state == HALF_OPEN && halfOpenAttempts >= options.halfOpenMaxAttempts {
        TransitionTo(OPEN);
        return false;
      }
      if state == HALF_OPEN {
        halfOpenAttempts := halfOpenAttempts + 1;
      }
      return true;
    }

    method OnSuccess()
      modifies this
      ensures View() == Succeeded(old(View()))
    {
      if state == HALF_OPEN {
        TransitionTo(CLOSED);
      }
      failureCount := 0;
    }

    method OnFailure(now: int)
      modifies this
      ensures View() == Failed(options, old(View()), now)
    {
      failureCount := failureCount + 1;
      lastFailureTime := now;
      if state == HALF_OPEN {
        TransitionTo(OPEN);
        return;
      }
      if failureCount >= options.failureThreshold {
        TransitionTo(OPEN);
      }
    }

    method Reset()
      modifies this
      ensures View() == Transitioned(old(View()), CLOSED)
    {
      TransitionTo(CLOSED);
    }

    /** One call that begins and completes with nothing overlapping it. */
    method Execute(call: Call) returns (admitted: bool)
      modifies this
      ensures (View(), admitted) == SerialStep(options, old(View()), call)
    {
      admitted := BeginExecute(call.beginAt);
      if admitted {
        match call.outcome {
          case Success => OnSuccess();
          case Failure(at) => OnFailure(at);
        }
      }
    }
  }

  // ---------------------------------------------------------------- interleaved runs

  datatype Event =
    | Begin(now: int)
    | EndOk
    | EndFail(now: int)
    | Reset

  function Step(o: Options, b: Breaker, e: Event): (Breaker, bool) {
    match e
    case Begin(now) => Begun(o, b, now)
    case EndOk => (Succeeded(b), false)
    case EndFail(now) => (Failed(o, b, now), false)
    case Reset => (Transitioned(b, CLOSED), false)
  }

  function Run(o: Options, b: Breaker, events: seq<Event>): Breaker
    decreases |events|
  {
    if events == [] then b else Run(o, Step(o, b, events[0]).0, events[1..])
  }

  /** How many of the events are calls that were let through. */
  function Admissions(o: Options, b: Breaker, events: seq<Event>): nat
    decreases |events|
  {
    if events == [] then 0
    else
      var (c, admitted) := Step(o, b, events[0]);
      Admissions(o, c, events[1..]) + if admitted then 1 else 0
  }

  predicate Inv(o: Options, b: Breaker) {
    && 0 <= b.failureCount
    && 0 <= b.halfOpenAttempts <= Max(0, o.halfOpenMaxAttempts)
    && (b.state == CLOSED ==> b.halfOpenAttempts == 0)
  }

  /** Under every interleaving the probe counter stays within the half-open limit. */
  lemma {:induction false} InvHolds(o: Options, b: Breaker, events: seq<Event>)
    requires Inv(o, b)
    ensures Inv(o, Run(o, b, events))
    decreases |events|
  {
    if events != [] {
      InvHolds(o, Step(o, b, events[0]).0, events[1..]);
    }
  }

  predicate BelowThreshold(o: Options, b: Breaker) {
    b.state == CLOSED ==> b.failureCount < o.failureThreshold
  }

  lemma {:induction false} BelowThresholdHolds(o: Options, b: Breaker, events: seq<Event>)
    requires BelowThreshold(o, b) && o.failureThreshold >= 1
    ensures BelowThreshold(o, Run(o, b, events))
    decreases |events|
  {
    if events != [] {
      BelowThresholdHolds(o, Step(o, b, events[0]).0, events[1..]);
    }
  }

  /** A closed breaker is always below its threshold exactly when the threshold is at least 1. */
  lemma ClosedBelowThresholdIff(o: Options)
    ensures o.failureThreshold >= 1 <==> forall events :: BelowThreshold(o, Run(o, FRESH, events))
  {
    if o.failureThreshold >= 1 {
      forall events ensures BelowThreshold(o, Run(o, FRESH, events)) {
        BelowThresholdHolds(o, FRESH, events);
      }
    } else {
      assert !BelowThreshold(o, Run(o, FRESH, []));
    }
  }

  lemma {:induction false} RunAppend(o: Options, b: Breaker, xs: seq<Event>, ys: seq<Event>)
    ensures Run(o, b, xs + ys) == Run(o, Run(o, b, xs), ys)
    decreases |xs|
  {
    if xs == [] {
      assert xs + ys == ys;
    } else {
      assert (xs + ys)[1..] == xs[1..] + ys;
      RunAppend(o, Step(o, b, xs[0]).0, xs[1..], ys);
    }
  }

  /** The failures that have completed since the last success or reset, `streak` of them before the run. */
  function Streak(streak: int, events: seq<Event>): int {
    if events == [] then streak
    else
      var n := |events| - 1;
      match events[n]
      case EndFail(_) => Streak(streak, events[..n]) + 1
      case Begin(_) => Streak(streak, events[..n])
      case _ => 0
  }

  /** The breaker is closed after every prefix of the run. */
  predicate StaysClosed(o: Options, b: Breaker, events: seq<Event>) {
    forall k :: 0 <= k <= |events| ==> Run(o, b, events[..k]).state == CLOSED
  }

  predicate StaysShort(o: Options, streak: int, events: seq<Event>) {
    forall k :: 0 <= k <= |events| ==> Streak(streak, events[..k]) < o.failureThreshold
  }

  lemma RunStep(o: Options, b: Breaker, events: seq<Event>, k: nat)
    requires k < |events|
    ensures Run(o, b, events[..k + 1]) == Step(o, Run(o, b, events[..k]), events[k]).0
  {
    assert events[..k + 1] == events[..k] + [events[k]];
    RunAppend(o, b, events[..k], [events[k]]);
    var c := Run(o, b, events[..k]);
    assert Run(o, c, [events[k]]) == Run(o, Step(o, c, events[k]).0, [events[k]][1..]);
  }

  lemma StreakStep(streak: int, events: seq<Event>, k: nat)
    requires k < |events|
    ensures var before, after := Streak(streak, events[..k]), Streak(streak, events[..k + 1]);
      match events[k]
      case EndFail(_) => after == before + 1
      case Begin(_) => after == before
      case _ => after == 0
  {
    assert events[..k + 1][..k] == events[..k];
  }

  /** As long as the streak stays below the threshold it is the failure count of a closed breaker. */
  lemma {:induction false} CountsStreak(o: Options, b: Breaker, events: seq<Event>, k: nat)
    requires b.state == CLOSED && k <= |events|
    requires forall i :: 0 < i <= k ==> Streak(b.failureCount, events[..i]) < o.failureThreshold
    ensures var c := Run(o, b, events[..k]);
      c.state == CLOSED && c.failureCount == Streak(b.failureCount, events[..k])
    decreases k
  {
    if k > 0 {
      CountsStreak(o, b, events, k - 1);
      RunStep(o, b, events, k - 1);
      StreakStep(b.failureCount, events, k - 1);
    }
  }

  /** The first time the streak reaches the threshold, the breaker is open. */
  lemma {:induction false} OpensAtThreshold(o: Options, b: Breaker, events: seq<Event>, k: nat)
    requires BelowThreshold(o, b) && b.state == CLOSED && o.failureThreshold >= 1
    requires k <= |events| && Streak(b.failureCount, events[..k]) >= o.failureThreshold
    ensures !StaysClosed(o, b, events)
    decreases k
  {
    assert events[..0] == [];
    if i :| 0 < i < k && Streak(b.failureCount, events[..i]) >= o.failureThreshold {
      OpensAtThreshold(o, b, events, i);
    } else {
      CountsStreak(o, b, events, k - 1);
      RunStep(o, b, events, k - 1);
      StreakStep(b.failureCount, events, k - 1);
      assert Run(o, b, events[..k]).state == OPEN;
    }
  }

  /**
   * Under every interleaving: a closed breaker stays closed throughout a run exactly when at no
   * point of it the failures completed since the last success or reset reach the threshold.
   */
  lemma StaysClosedIff(o: Options, b: Breaker, events: seq<Event>)
    requires b.state == CLOSED && BelowThreshold(o, b) && o.failureThreshold >= 1
    ensures StaysClosed(o, b, events) <==> StaysShort(o, b.failureCount, events)
  {
    if StaysShort(o, b.failureCount, events) {
      forall k | 0 <= k <= |events| ensures Run(o, b, events[..k]).state == CLOSED {
        CountsStreak(o, b, events, k);
      }
    }
    if k :| 0 <= k <= |events| && Streak(b.failureCount, events[..k]) >= o.failureThreshold {
      OpensAtThreshold(o, b, events, k);
    }
  }

  /** When the last failure of a run completed, read off its events; 0 if none has. */
  function LastFailure(events: seq<Event>): int {
    if events == [] then 0
    else
      match events[|events| - 1]
      case EndFail(now) => now
      case _ => LastFailure(events[..|events| - 1])
  }

  lemma {:induction false} KeepsLastFailure(o: Options, events: seq<Event>)
    ensures Run(o, FRESH, events).lastFailureTime == LastFailure(events)
  {
    if events != [] {
      var n := |events| - 1;
      KeepsLastFailure(o, events[..n]);
      assert events[..n + 1] == events;
      RunStep(o, FRESH, events, n);
    }
  }

  /**
   * After every interleaving an open breaker admits a call exactly when the failure that completed
   * last, in whatever state, is `resetTimeoutMs` old and a probe is allowed.
   */
  lemma OpenAdmitsIff(o: Options, events: seq<Event>, now: int)
    requires Run(o, FRESH, events).state == OPEN
    ensures Begun(o, Run(o, FRESH, events), now).1 <==>
      now - LastFailure(events) >= o.resetTimeoutMs && o.halfOpenMaxAttempts >= 1
  {
    KeepsLastFailure(o, events);
  }

  /** Breakers that no later event tells apart: a closed one never looks at its last failure. */
  predicate Alike(b: Breaker, c: Breaker) {
    && b.state == c.state && b.failureCount == c.failureCount && b.halfOpenAttempts == c.halfOpenAttempts
    && (b.state != CLOSED ==> b.lastFailureTime == c.lastFailureTime)
  }

  lemma {:induction false} AlikeRuns(o: Options, b: Breaker, c: Breaker, events: seq<Event>)
    requires Alike(b, c)
    ensures Alike(Run(o, b, events), Run(o, c, events))
    decreases |events|
  {
    if events != [] {
      AlikeRuns(o, Step(o, b, events[0]).0, Step(o, c, events[0]).0, events[1..]);
    }
  }

  /** From whatever state, a reset breaker goes on as a new one does. */
  lemma ResetForgets(o: Options, b: Breaker, events: seq<Event>, now: int)
    ensures var r, n := Run(o, Step(o, b, Reset).0, events), Run(o, FRESH, events);
      r.state == n.state && Begun(o, r, now).1 == Begun(o, n, now).1
  {
    AlikeRuns(o, Step(o, b, Reset).0, FRESH, events);
  }

  /**
   * The first completion of a half-open episode decides: after a success the breaker goes on as
   * a new one does, after a failure it is open.
   */
  lemma ProbeDecides(o: Options, b: Breaker, failedAt: int, events: seq<Event>, now: int)
    requires b.state == HALF_OPEN
    ensures Step(o, b, EndFail(failedAt)).0.state == OPEN
    ensures var r, n := Run(o, Step(o, b, EndOk).0, events), Run(o, FRESH, events);
      r.state == n.state && Begun(o, r, now).1 == Begun(o, n, now).1
  {
    AlikeRuns(o, Step(o, b, EndOk).0, FRESH, events);
  }

  /** Events of a run that neither resets the breaker nor begins a call at or after `deadline`. */
  predicate BeforeDeadline(events: seq<Event>, clock: int, deadline: int) {
    forall e <- events ::
      && e != Reset
      && (e.Begin? ==> e.now < deadline)
      && (e.EndFail? ==> clock <= e.now)
  }

  /**
   * Once open, whatever calls still in flight do, nothing is admitted before the last failure
   * is `resetTimeoutMs` old; only `reset` can change that.
   */
  lemma {:induction false} OpenRejectsUntilTimeout(o: Options, b: Breaker, events: seq<Event>, clock: int)
    requires b.state == OPEN && clock <= b.lastFailureTime
    requires BeforeDeadline(events, clock, clock + o.resetTimeoutMs)
    ensures Run(o, b, events).state == OPEN && Admissions(o, b, events) == 0
    decreases |events|
  {
    if events != [] {
      assert events[0] in events;
      OpenRejectsUntilTimeout(o, Step(o, b, events[0]).0, events[1..], clock);
    }
  }

  // ---------------------------------------------------------------- the half-open limiter

  function Begins(times: seq<int>): seq<Event> {
    seq(|times|, i requires 0 <= i < |times| => Begin(times[i]))
  }

  /** Position in the limiter's cycle of `halfOpenMaxAttempts + 1` calls. */
  function Phase(b: Breaker): int {
    if b.state == HALF_OPEN then b.halfOpenAttempts else 0
  }

  lemma {:induction false} LimiterCycle(o: Options, b: Breaker, times: seq<int>)
    requires b.state != CLOSED && 0 <= Phase(b) <= Max(0, o.halfOpenMaxAttempts)
    requires forall t <- times :: TimeoutElapsed(o, b, t)
    ensures var m := Max(0, o.halfOpenMaxAttempts);
      Admissions(o, b, Begins(times)) == |times| - (Phase(b) + |times|) / (m + 1)
    decreases |times|
  {
    var m, n := Max(0, o.halfOpenMaxAttempts), |times|;
    if n == 0 {
      DivUnique(Phase(b), m + 1, 0, Phase(b));
    } else {
      assert times[0] in times;
      var (c, admitted) := Begun(o, b, times[0]);
      assert Begins(times)[1..] == Begins(times[1..]);
      assert forall t <- times[1..] :: t in times;
      LimiterCycle(o, c, times[1..]);
      if !admitted {
        DivStep(n - 1, m + 1);
      }
    }
  }

  /**
   * From OPEN with the timeout elapsed and nothing completing, `n` calls admit exactly
   * `n - n / (halfOpenMaxAttempts + 1)`: the limiter's return to OPEN keeps the old failure
   * time, so the next call starts a new half-open episode at once.
   */
  lemma ElapsedOpenAdmits(o: Options, b: Breaker, times: seq<int>)
    requires b.state == OPEN && forall t <- times :: TimeoutElapsed(o, b, t)
    ensures Admissions(o, b, Begins(times))
         == |times| - |times| / (Max(0, o.halfOpenMaxAttempts) + 1)
  {
    LimiterCycle(o, b, times);
  }

  /** Some number of calls, nothing completing, admits more than `bound`. */
  ghost predicate AdmitsMore(o: Options, b: Breaker, bound: nat) {
    exists times: seq<int> :: Admissions(o, b, Begins(times)) > bound
  }

  lemma ProbesUnbounded(o: Options, b: Breaker, bound: nat)
    requires b.state == OPEN && o.halfOpenMaxAttempts >= 1
    ensures AdmitsMore(o, b, bound)
  {
    var n := 2 * bound + 2;
    var times := seq(n, i => b.lastFailureTime + o.resetTimeoutMs);
    ElapsedOpenAdmits(o, b, times);
    DivByTwoOrMore(bound + 1, o.halfOpenMaxAttempts + 1);
  }

  /** Probes in flight have no bound, exactly when a probe is allowed at all. */
  lemma ProbesUnboundedIff(o: Options, b: Breaker)
    requires b.state == OPEN
    ensures o.halfOpenMaxAttempts >= 1 <==> forall bound: nat :: AdmitsMore(o, b, bound)
  {
    if o.halfOpenMaxAttempts >= 1 {
      forall bound: nat ensures AdmitsMore(o, b, bound) {
        ProbesUnbounded(o, b, bound);
      }
    } else {
      forall times: seq<int> ensures Admissions(o, b, Begins(times)) == 0 {
        NoProbesNoRecovery(o, b, Begins(times));
      }
      assert !AdmitsMore(o, b, 0);
    }
  }

  predicate StaysHalfOpen(o: Options, b: Breaker, events: seq<Event>)
    decreases |events|
  {
    b.state == HALF_OPEN && (events != [] ==> StaysHalfOpen(o, Step(o, b, events[0]).0, events[1..]))
  }

  /** What is bounded is each half-open episode. */
  lemma {:induction false} EpisodeBound(o: Options, b: Breaker, events: seq<Event>)
    requires StaysHalfOpen(o, b, events) && b.halfOpenAttempts <= o.halfOpenMaxAttempts
    ensures Admissions(o, b, events) <= o.halfOpenMaxAttempts - b.halfOpenAttempts
    decreases |events|
  {
    if events != [] {
      EpisodeBound(o, Step(o, b, events[0]).0, events[1..]);
    }
  }

  /** And as many are: the probes left are admitted at whatever times they come. */
  lemma {:induction false} EpisodeAdmits(o: Options, b: Breaker, times: seq<int>)
    requires b.state == HALF_OPEN && b.halfOpenAttempts + |times| <= o.halfOpenMaxAttempts
    ensures Admissions(o, b, Begins(times)) == |times|
    decreases |times|
  {
    if times != [] {
      assert Begins(times)[1..] == Begins(times[1..]);
      EpisodeAdmits(o, Begun(o, b, times[0]).0, times[1..]);
    }
  }

  // ---------------------------------------------------------------- serial runs

  /** A serial run: the final state, and for each call whether it was admitted. */
  function SerialRun(o: Options, calls: seq<Call>): (Breaker, seq<bool>) {
    if calls == [] then (FRESH, [])
    else
      var (b, admitted) := SerialRun(o, calls[..|calls| - 1]);
      var (c, a) := SerialStep(o, b, calls[|calls| - 1]);
      (c, admitted + [a])
  }

  /** The two-state specification: a failure streak, or the time of the last failure. */
  datatype TwoState = Closed(streak: nat) | Opened(lastFailure: int)

  function SpecStep(o: Options, s: TwoState, c: Call): (TwoState, bool) {
    if s.Opened? && c.beginAt - s.lastFailure < o.resetTimeoutMs then (s, false)
    else
      match c.outcome
      case Success => (Closed(0), true)
      case Failure(at) =>
        if s.Opened? || s.streak + 1 >= o.failureThreshold then (Opened(at), true)
        else (Closed(s.streak + 1), true)
  }

  function SpecRun(o: Options, calls: seq<Call>): (TwoState, seq<bool>) {
    if calls == [] then (Closed(0), [])
    else
      var (s, admitted) := SpecRun(o, calls[..|calls| - 1]);
      var (t, a) := SpecStep(o, s, calls[|calls| - 1]);
      (t, admitted + [a])
  }

  predicate Abstracts(b: Breaker, s: TwoState) {
    match s
    case Closed(streak) => b.state == CLOSED && b.failureCount == streak && b.halfOpenAttempts == 0
    case Opened(last) => b.state == OPEN && b.lastFailureTime == last
  }

  /**
   * With at least one probe allowed, calls that do not overlap see a two-state machine:
   * HALF_OPEN is never visible between calls and the limiter never rejects one.
   */
  lemma {:induction false} SerialRefinesTwoState(o: Options, calls: seq<Call>)
    requires o.halfOpenMaxAttempts >= 1
    ensures SerialRun(o, calls).1 == SpecRun(o, calls).1
    ensures Abstracts(SerialRun(o, calls).0, SpecRun(o, calls).0)
  {
    if calls != [] {
      SerialRefinesTwoState(o, calls[..|calls| - 1]);
    }
  }

  /** The breaker after a serial run that starts from `b`. */
  function SerialFold(o: Options, b: Breaker, calls: seq<Call>): Breaker
    decreases |calls|
  {
    if calls == [] then b else SerialFold(o, SerialStep(o, b, calls[0]).0, calls[1..])
  }

  lemma {:induction false} SerialRunContinues(o: Options, history: seq<Call>, calls: seq<Call>)
    ensures SerialRun(o, history + calls).0 == SerialFold(o, SerialRun(o, history).0, calls)
    decreases |calls|
  {
    if calls == [] {
      assert history + calls == history;
    } else {
      var longer := history + [calls[0]];
      SerialRunContinues(o, longer, calls[1..]);
      assert longer[..|history|] == history;
      assert history + calls == longer + calls[1..];
    }
  }

  lemma {:induction false} SerialRunLength(o: Options, calls: seq<Call>)
    ensures |SerialRun(o, calls).1| == |calls|
  {
    if calls != [] {
      SerialRunLength(o, calls[..|calls| - 1]);
    }
  }

  /** The failures at the end of a run that follow its last admitted success. */
  function TrailingFailures(calls: seq<Call>, admitted: seq<bool>): nat
    requires |calls| == |admitted|
  {
    if calls == [] then 0
    else
      var n := |calls| - 1;
      if !admitted[n] then TrailingFailures(calls[..n], admitted[..n])
      else if calls[n].outcome == Success then 0
      else TrailingFailures(calls[..n], admitted[..n]) + 1
  }

  /**
   * What the threshold means, read off the history alone: after a serial run the breaker is
   * open exactly when the admitted calls end in at least `failureThreshold` failures.
   */
  lemma {:induction false} OpenIffTrailingFailures(o: Options, calls: seq<Call>)
    requires o.halfOpenMaxAttempts >= 1 && o.failureThreshold >= 1
    ensures |SpecRun(o, calls).1| == |calls|
    ensures var (s, admitted) := SpecRun(o, calls);
      var trailing := TrailingFailures(calls, admitted);
      && (SerialRun(o, calls).0.state == OPEN <==> trailing >= o.failureThreshold)
      && (s.Closed? ==> s.streak == trailing)
  {
    SerialRefinesTwoState(o, calls);
    if calls != [] {
      var n := |calls| - 1;
      OpenIffTrailingFailures(o, calls[..n]);
      SerialRefinesTwoState(o, calls[..n]);
      var (s, admitted) := SpecRun(o, calls);
      assert admitted[..n] == SpecRun(o, calls[..n]).1;
    }
  }

  /** Without a probe an open breaker never lets a call through again, unless it is reset. */
  lemma {:induction false} NoProbesNoRecovery(o: Options, b: Breaker, events: seq<Event>)
    requires b.state == OPEN && o.halfOpenMaxAttempts <= 0
    requires Reset !in events
    ensures Run(o, b, events).state == OPEN && Admissions(o, b, events) == 0
    decreases |events|
  {
    if events != [] {
      NoProbesNoRecovery(o, Step(o, b, events[0]).0, events[1..]);
    }
  }
}
