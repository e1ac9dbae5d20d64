/**
 * Reconnection back-off with its own circuit: apps/worker/src/connection/reconnection.service.ts.
 * Times are milliseconds; `random` stands for `Math.random()`.
 */
module Reconnecting {
  import opened Wrappers
  import opened Intervals
  import opened Arithmetic

  const BASE_DELAY_MS := 1000
  const MAX_DELAY_MS := 60_000
  const MAX_ATTEMPTS := 10
  const CIRCUIT_COOLDOWN_MS := 300_000

  datatype InstanceState = InstanceState(
    attempts: int, circuitOpen: bool, circuitOpenedAt: Option<int>, timer: Option<nat>)

  const FRESH := InstanceState(0, false, None, None)

  /**
   * The service: a record per instance, the timers that have not fired or been cleared, and
   * the reconnections that timers have started and that have not settled.
   */
  datatype Service = Service(
    states: map<string, InstanceState>, live: map<nat, string>, running: map<nat, string>, nextTimer: nat)

  const EMPTY := Service(map[], map[], map[], 0)

  // ---------------------------------------------------------------- one instance

  function CappedDelay(attempt: nat): int {
    var exponential := BASE_DELAY_MS * Pow2(attempt);
    if exponential < MAX_DELAY_MS then exponential else MAX_DELAY_MS
  }

  /** The delays double from one second up to one minute. */
  lemma DelaysDouble(attempt: nat)
    ensures CappedDelay(0) == 1000
    ensures CappedDelay(attempt + 1) == Min(2 * CappedDelay(attempt), 60_000)
  {
  }

  predicate IsRandom(random: real) {
    0.0 <= random < 1.0
  }

  /** A capped delay plus its jitter. */
  function Jittered(capped: int, random: real): int {
    (capped as real + random * capped as real * 0.3).Floor
  }

  lemma Fraction(random: real, x: real)
    requires IsRandom(random) && x > 0.0
    ensures 0.0 <= random * x < x
  {
  }

  lemma FloorBounds(capped: int, jitter: real)
    requires 0.0 <= jitter < capped as real
    ensures capped <= (capped as real + jitter * 0.3).Floor
    ensures 10 * (capped as real + jitter * 0.3).Floor < 13 * capped
  {
  }

  lemma JitterBounds(capped: int, random: real)
    requires IsRandom(random) && capped > 0
    ensures capped <= Jittered(capped, random) && 10 * Jittered(capped, random) < 13 * capped
  {
    Fraction(random, capped as real);
    FloorBounds(capped, random * capped as real);
  }

  /** Every whole delay of that range does come up. */
  lemma JitterReaches(capped: int, delay: int) returns (random: real)
    requires capped > 0 && capped <= delay && 10 * delay < 13 * capped
    ensures IsRandom(random) && Jittered(capped, random) == delay
  {
    var x, y := (delay - capped) as real, capped as real * 0.3;
    assert 10.0 * x < 10.0 * y by {
      assert (10 * (delay - capped)) as real < (3 * capped) as real;
    }
    random := x / y;
    Quotient(x, y);
    Regroup(random, capped as real);
  }

  lemma Quotient(x: real, y: real)
    requires 0.0 <= x < y
    ensures 0.0 <= x / y < 1.0 && x / y * y == x
  {
    assert x / y * y == x;
  }

  lemma Regroup(random: real, x: real)
    ensures random * x * 0.3 == random * (x * 0.3)
  {
  }

  /** The delay lies in the 30% above the capped exponential, so it is always below 78 seconds. */
  function CalculateDelay(attempt: nat, random: real): (delay: int)
    requires IsRandom(random)
    ensures CappedDelay(attempt) <= delay && 10 * delay < 13 * CappedDelay(attempt)
    ensures BASE_DELAY_MS <= delay < 78_000
  {
    var capped := CappedDelay(attempt);
    JitterBounds(capped, random);
    Jittered(capped, random)
  }

  /** `isCircuitOpen`, which closes a circuit that has cooled down. A zero opening time is falsy. */
  function CheckCircuit(s: InstanceState, now: int): (InstanceState, bool) {
    if !s.circuitOpen then (s, false)
    else if s.circuitOpenedAt.Some? && s.circuitOpenedAt.value != 0
            && now - s.circuitOpenedAt.value >= CIRCUIT_COOLDOWN_MS then
      (s.(circuitOpen := false, circuitOpenedAt := None, attempts := 0), false)
    else (s, true)
  }

  /** `scheduleReconnection` on one record: the record it leaves and the delay, if it starts a timer. */
  function ScheduledOne(s: InstanceState, now: int, random: real, timer: nat): (InstanceState, Option<int>)
    requires IsRandom(random) && s.attempts >= 0
  {
    var (c, open) := CheckCircuit(s, now);
    if open then (c, None)
    else if c.attempts >= MAX_ATTEMPTS then
      (c.(circuitOpen := true, circuitOpenedAt := Some(now)), None)
    else
      (c.(attempts := c.attempts + 1, timer := Some(timer)), Some(CalculateDelay(c.attempts, random)))
  }

  // ---------------------------------------------------------------- the service

  function StateOf(v: Service, id: string): InstanceState {
    if id in v.states then v.states[id] else FRESH
  }

  predicate Valid(v: Service) {
    && (forall id <- v.states :: 0 <= v.states[id].attempts <= MAX_ATTEMPTS)
    && (forall t <- v.live :: t < v.nextTimer)
    && (forall t <- v.running :: t < v.nextTimer && t !in v.live)
  }

  function Scheduled(v: Service, id: string, now: int, random: real): (r: (Service, Option<int>))
    requires IsRandom(random) && Valid(v)
    ensures Valid(r.0)
  {
    var (s, delay) := ScheduledOne(StateOf(v, id), now, random, v.nextTimer);
    if delay.None? then (v.(states := v.states[id := s]), None)
    else (Service(v.states[id := s], v.live[v.nextTimer := id], v.running, v.nextTimer + 1), delay)
  }

  function Cancelled(v: Service, id: string): Service {
    var cleared := if id in v.states && v.states[id].timer.Some? then {v.states[id].timer.value} else {};
    v.(states := v.states - {id}, live := v.live - cleared)
  }

  function AttemptsReset(v: Service, id: string): Service {
    if id !in v.states then v
    else v.(states := v.states[id := v.states[id].(attempts := 0, circuitOpen := false, circuitOpenedAt := None)])
  }

  function Fired(v: Service, timer: nat): Service
    requires timer in v.live
  {
    v.(live := v.live - {timer}, running := v.running[timer := v.live[timer]])
  }

  function Settled(v: Service, timer: nat, failed: bool, now: int, random: real): (r: (Service, Option<int>))
    requires IsRandom(random) && Valid(v) && timer in v.running
    ensures Valid(r.0)
  {
    var w := v.(running := v.running - {timer});
    if failed then Scheduled(w, v.running[timer], now, random) else (w, None)
  }

  function Queried(v: Service, id: string, now: int): (Service, bool) {
    if id !in v.states then (v, false)
    else
      var (s, open) := CheckCircuit(v.states[id], now);
      (v.(states := v.states[id := s]), open)
  }

  class ReconnectionService {
    var states: map<string, InstanceState>
    var live: map<nat, string>
    var running: map<nat, string>
    var nextTimer: nat

    function View(): Service
      reads this
    {
      Service(states, live, running, nextTimer)
    }

    constructor ()
      ensures View() == EMPTY
    {
      states, live, running, nextTimer := map[], map[], map[], 0;
    }

    method IsCircuitOpen(id: string, now: int) returns (open: bool)
      requires id in states
      modifies this
      ensures id in states && (states[id], open) == CheckCircuit(old(states[id]), now)
      ensures states == old(states)[id := states[id]]
      ensures live == old(live) && running == old(running) && nextTimer == old(nextTimer)
    {
      var s := states[id];
      if !s.circuitOpen {
        return false;
      }
      if s.circuitOpenedAt.Some? && s.circuitOpenedAt.value != 0 {
        var elapsed := now - s.circuitOpenedAt.value;
        if elapsed >= CIRCUIT_COOLDOWN_MS {
          states := states[id := s.(circuitOpen := false, circuitOpenedAt := None, attempts := 0)];
          return false;
        }
      }
      return true;
    }

    /** Starts a timer and returns its delay, or returns None when the circuit keeps it from doing so. */
    method ScheduleReconnection(id: string, now: int, random: real) returns (delay: Option<int>)
      requires IsRandom(random) && Valid(View())
      modifies this
      ensures (View(), delay) == Scheduled(old(View()), id, now, random)
      ensures Valid(View())
    {
      if id !in states {
        states := states[id := FRESH];
      }
      var open := IsCircuitOpen(id, now);
      if open {
        return None;
      }
      var s := states[id];
      if s.attempts >= MAX_ATTEMPTS {
        states := states[id := s.(circuitOpen := true, circuitOpenedAt := Some(now))];
        assert states == old(states)[id := states[id]];
        return None;
      }
      delay := Some(CalculateDelay(s.attempts, random));
      states := states[id := s.(attempts := s.attempts + 1, timer := Some(nextTimer))];
      assert states == old(states)[id := states[id]];
      live, nextTimer := live[nextTimer := id], nextTimer + 1;
    }

    /** A timer fires: the reconnection starts. */
    method Fire(timer: nat)
      requires timer in live
      modifies this
      ensures View() == Fired(old(View()), timer)
    {
      live, running := live - {timer}, running[timer := live[timer]];
    }

    /** A reconnection settles; a failed one schedules the next. */
    method Settle(timer: nat, failed: bool, now: int, random: real) returns (delay: Option<int>)
      requires IsRandom(random) && Valid(View()) && timer in running
      modifies this
      ensures (View(), delay) == Settled(old(View()), timer, failed, now, random)
      ensures Valid(View())
    {
      var id := running[timer];
      running := running - {timer};
      delay := None;
      if failed {
        delay := ScheduleReconnection(id, now, random);
      }
    }

    method CancelReconnection(id: string)
      modifies this
      ensures View() == Cancelled(old(View()), id)
    {
      if id in states && states[id].timer.Some? {
        live := live - {states[id].timer.value};
      }
      states := states - {id};
    }

    method ResetAttempts(id: string)
      modifies this
      ensures View() == AttemptsReset(old(View()), id)
    {
      if id in states {
        states := states[id := states[id].(attempts := 0, circuitOpen := false, circuitOpenedAt := None)];
      }
    }

    method IsInstanceCircuitOpen(id: string, now: int) returns (open: bool)
      modifies this
      ensures (View(), open) == Queried(old(View()), id, now)
    {
      open := false;
      if id in states {
        open := IsCircuitOpen(id, now);
      }
    }
  }

  // ---------------------------------------------------------------- runs

  datatype Event =
    | Schedule(now: int, id: string, random: real)
    | TimerFires(now: int, timer: nat)
    | Settles(now: int, timer: nat, failed: bool, random: real)
    | Query(now: int, id: string)
    | Reset(now: int, id: string)
    | Cancel(now: int, id: string)

  predicate WellFormed(events: seq<Event>) {
    && (forall e <- events :: (e.Schedule? || e.Settles? ==> IsRandom(e.random)))
    && (forall i, j :: 0 <= i < j < |events| ==> events[i].now <= events[j].now)
  }

  /** One event: the service it leaves, and the instance a timer was started for. */
  function Step(v: Service, e: Event): (r: (Service, Option<string>))
    requires Valid(v) && (e.Schedule? || e.Settles? ==> IsRandom(e.random))
    ensures Valid(r.0)
  {
    match e
    case Schedule(now, id, random) =>
      var (w, delay) := Scheduled(v, id, now, random);
      (w, if delay.Some? then Some(id) else None)
    case TimerFires(_, timer) => (if timer in v.live then Fired(v, timer) else v, None)
    case Settles(now, timer, failed, random) =>
      if timer !in v.running then (v, None)
      else
        var (w, delay) := Settled(v, timer, failed, now, random);
        (w, if delay.Some? then Some(v.running[timer]) else None)
    case Query(now, id) => (Queried(v, id, now).0, None)
    case Reset(_, id) => (AttemptsReset(v, id), None)
    case Cancel(_, id) => (Cancelled(v, id), None)
  }

  lemma PrefixWellFormed(events: seq<Event>)
    requires WellFormed(events) && events != []
    ensures WellFormed(events[..|events| - 1])
    ensures var e := events[|events| - 1]; e.Schedule? || e.Settles? ==> IsRandom(e.random)
  {
  }

  /** The events before the last are no later than it, and as uninterrupted as the whole. */
  lemma PrefixEarlier(events: seq<Event>, id: string)
    requires WellFormed(events) && events != [] && Uninterrupted(events, id)
    ensures var init, e := events[..|events| - 1], events[|events| - 1];
      && Uninterrupted(init, id) && e in events
      && !(e.Reset? && e.id == id) && !(e.Cancel? && e.id == id)
      && forall d <- init :: d.now <= e.now
  {
  }

  lemma PacedLater(s: InstanceState, starts: seq<int>, clock: int, later: int)
    requires Paced(s, starts, clock) && clock <= later
    ensures Paced(s, starts, later)
  {
  }

  function Run(events: seq<Event>): (v: Service)
    requires WellFormed(events)
    ensures Valid(v)
  {
    if events == [] then EMPTY
    else
      PrefixWellFormed(events);
      Step(Run(events[..|events| - 1]), events[|events| - 1]).0
  }

  /** When timers were started for `id` in the run. */
  function Starts(events: seq<Event>, id: string): seq<int>
    requires WellFormed(events)
  {
    if events == [] then []
    else
      PrefixWellFormed(events);
      var init, e := events[..|events| - 1], events[|events| - 1];
      Starts(init, id) + if Step(Run(init), e).1 == Some(id) then [e.now] else []
  }

  predicate Uninterrupted(events: seq<Event>, id: string) {
    forall e <- events :: !(e.Reset? && e.id == id) && !(e.Cancel? && e.id == id)
  }

  /**
   * The starts before the current block of attempts are a full cooldown old, and an open
   * circuit was opened after a full block.
   */
  predicate Paced(s: InstanceState, starts: seq<int>, clock: int) {
    && 0 <= s.attempts <= MAX_ATTEMPTS && s.attempts <= |starts|
    && Sorted(starts) && Spaced(starts, MAX_ATTEMPTS, CIRCUIT_COOLDOWN_MS)
    && (forall i :: 0 <= i < |starts| ==> starts[i] <= clock)
    && (forall i :: 0 <= i < |starts| - s.attempts ==> starts[i] + CIRCUIT_COOLDOWN_MS <= clock)
    && (s.circuitOpen ==>
          && s.circuitOpenedAt.Some?
          && forall i :: 0 <= i < |starts| ==> starts[i] <= s.circuitOpenedAt.value)
  }

  lemma ScheduledOnePaced(s: InstanceState, starts: seq<int>, clock: int, now: int, random: real, timer: nat)
    requires Paced(s, starts, clock) && clock <= now && IsRandom(random)
    ensures var (t, delay) := ScheduledOne(s, now, random, timer);
      Paced(t, starts + if delay.Some? then [now] else [], now)
  {
  }

  lemma CheckPaced(s: InstanceState, starts: seq<int>, now: int)
    requires Paced(s, starts, now)
    ensures Paced(CheckCircuit(s, now).0, starts, now)
  {
  }

  lemma StepPaced(v: Service, e: Event, id: string, starts: seq<int>)
    requires Valid(v) && (e.Schedule? || e.Settles? ==> IsRandom(e.random))
    requires !(e.Reset? && e.id == id) && !(e.Cancel? && e.id == id)
    requires Paced(StateOf(v, id), starts, e.now)
    ensures var (w, started) := Step(v, e);
      Paced(StateOf(w, id), starts + if started == Some(id) then [e.now] else [], e.now)
  {
    var (w, started) := Step(v, e);
    var s := StateOf(v, id);
    assert starts + [] == starts;
    if (e.Schedule? && e.id == id)
      || (e.Settles? && e.timer in v.running && v.running[e.timer] == id && e.failed) {
      ScheduledOnePaced(s, starts, e.now, e.now, e.random, v.nextTimer);
      assert StateOf(w, id) == ScheduledOne(s, e.now, e.random, v.nextTimer).0;
    } else if e.Query? && e.id == id {
      CheckPaced(s, starts, e.now);
      assert StateOf(w, id) == CheckCircuit(s, e.now).0;
    } else {
      assert started != Some(id) && StateOf(w, id) == s;
    }
  }

  lemma {:induction false} RunPaced(events: seq<Event>, id: string, clock: int)
    requires WellFormed(events) && Uninterrupted(events, id)
    requires forall e <- events :: e.now <= clock
    ensures Paced(StateOf(Run(events), id), Starts(events, id), clock)
    decreases |events|
  {
    if events != [] {
      PrefixWellFormed(events);
      PrefixEarlier(events, id);
      var init, e := events[..|events| - 1], events[|events| - 1];
      RunPaced(init, id, e.now);
      StepPaced(Run(init), e, id, Starts(init, id));
      assert Run(events) == Step(Run(init), e).0;
      PacedLater(StateOf(Run(events), id), Starts(events, id), e.now, clock);
    }
  }

  /**
   * Without a reset or cancel of an instance, every half-open interval of 300000 ms holds at
   * most 10 timer starts for it, whatever timers overlap and whichever events drive them.
   */
  lemma AtMostTenStartsPerCooldown(events: seq<Event>, id: string, lo: int)
    requires WellFormed(events) && Uninterrupted(events, id)
    ensures CountIn(Starts(events, id), lo, lo + 300_000) <= 10
  {
    var clock := if events == [] then 0 else events[|events| - 1].now;
    forall e <- events ensures e.now <= clock {
      var i :| 0 <= i < |events| && events[i] == e;
    }
    RunPaced(events, id, clock);
    SpacedBoundsCount(Starts(events, id), MAX_ATTEMPTS, CIRCUIT_COOLDOWN_MS, lo);
  }

  // ---------------------------------------------------------------- when the circuit lets go

  /** A record whose circuit was opened at `at`, an instant that counts as one. */
  predicate OpenedAt(s: InstanceState, at: int) {
    s.circuitOpen && s.circuitOpenedAt == Some(at) && at != 0
  }

  /**
   * An open circuit starts a timer exactly when it has cooled down for 300 seconds, and then its
   * instance starts over: one attempt, a closed circuit and the shortest delay.
   */
  lemma CooledDownIff(v: Service, id: string, at: int, now: int, random: real)
    requires Valid(v) && IsRandom(random) && OpenedAt(StateOf(v, id), at)
    ensures var (w, delay) := Scheduled(v, id, now, random);
      && (delay.Some? <==> now - at >= 300_000)
      && (delay.Some? ==>
            && 1000 <= delay.value < 1300
            && StateOf(w, id) == InstanceState(1, false, None, Some(v.nextTimer))
            && v.nextTimer in w.live && w.live[v.nextTimer] == id)
      && (delay.None? ==> StateOf(w, id) == StateOf(v, id) && w.live == v.live)
  {
    assert CappedDelay(0) == 1000;
  }

  /** An opening at instant 0 does not count as one: that circuit waits for a reset. */
  lemma ZeroNeverCools(v: Service, id: string, now: int, random: real)
    requires Valid(v) && IsRandom(random)
    requires StateOf(v, id).circuitOpen && StateOf(v, id).circuitOpenedAt == Some(0)
    ensures Scheduled(v, id, now, random).1 == None && StateOf(Scheduled(v, id, now, random).0, id) == StateOf(v, id)
  {
  }

  /** A closed circuit starts a timer exactly when fewer than 10 attempts were made, and else opens at once. */
  lemma ClosedCircuitSchedules(v: Service, id: string, now: int, random: real)
    requires Valid(v) && IsRandom(random) && !StateOf(v, id).circuitOpen
    ensures var (w, delay) := Scheduled(v, id, now, random);
      && (delay.Some? <==> StateOf(v, id).attempts < 10)
      && (delay.Some? ==>
            && CappedDelay(StateOf(v, id).attempts) <= delay.value
            && StateOf(w, id).attempts == StateOf(v, id).attempts + 1
            && w.live == v.live[v.nextTimer := id])
      && (delay.None? ==> StateOf(w, id).circuitOpen && StateOf(w, id).circuitOpenedAt == Some(now) && w.live == v.live)
  {
  }

  /** After a reset the next schedule is a first one, whatever came before. */
  lemma ResetStartsOver(v: Service, id: string, now: int, random: real)
    requires Valid(v) && IsRandom(random)
    ensures Valid(AttemptsReset(v, id))
    ensures var (w, delay) := Scheduled(AttemptsReset(v, id), id, now, random);
      && delay.Some? && 1000 <= delay.value < 1300
      && StateOf(w, id) == InstanceState(1, false, None, Some(v.nextTimer))
      && w.live == v.live[v.nextTimer := id]
      && w.states - {id} == v.states - {id}
  {
    assert CappedDelay(0) == 1000;
    var w := Scheduled(AttemptsReset(v, id), id, now, random).0;
    assert w.states - {id} == v.states - {id};
  }

  /** Asking for the circuit says whether a schedule now would find it open, and changes nothing for it. */
  lemma QueryIsTransparent(v: Service, id: string, now: int, random: real)
    requires Valid(v) && IsRandom(random)
    ensures var (w, open) := Queried(v, id, now);
      && Valid(w) && Scheduled(w, id, now, random) == Scheduled(v, id, now, random)
      && (open <==> StateOf(v, id).circuitOpen && Scheduled(v, id, now, random).1 == None)
  {
    var (w, open) := Queried(v, id, now);
    if id in v.states {
      CheckedTwice(v.states[id], now, random, v.nextTimer);
      QueriedThenScheduled(v, id, now, random);
    }
  }

  lemma CheckedTwice(s: InstanceState, now: int, random: real, timer: nat)
    requires 0 <= s.attempts <= MAX_ATTEMPTS && IsRandom(random)
    ensures var (c, open) := CheckCircuit(s, now);
      && 0 <= c.attempts <= MAX_ATTEMPTS
      && ScheduledOne(c, now, random, timer) == ScheduledOne(s, now, random, timer)
      && (open <==> s.circuitOpen && ScheduledOne(s, now, random, timer).1 == None)
  {
  }

  lemma QueriedThenScheduled(v: Service, id: string, now: int, random: real)
    requires Valid(v) && IsRandom(random) && id in v.states
    requires var c := CheckCircuit(v.states[id], now).0;
      && 0 <= c.attempts <= MAX_ATTEMPTS
      && ScheduledOne(c, now, random, v.nextTimer) == ScheduledOne(v.states[id], now, random, v.nextTimer)
    ensures var w := Queried(v, id, now).0;
      Valid(w) && Scheduled(w, id, now, random) == Scheduled(v, id, now, random)
  {
    var w := Queried(v, id, now).0;
    var s := ScheduledOne(v.states[id], now, random, v.nextTimer).0;
    assert w.states[id := s] == v.states[id := s];
  }

  /** How often a timer was asked for: by a schedule, or by a reconnection that failed. */
  function Requests(events: seq<Event>, id: string): nat
    requires WellFormed(events)
  {
    if events == [] then 0
    else
      PrefixWellFormed(events);
      var init, e := events[..|events| - 1], events[|events| - 1];
      var v := Run(init);
      Requests(init, id)
      + if (e.Schedule? && e.id == id)
          || (e.Settles? && e.failed && e.timer in v.running && v.running[e.timer] == id) then 1 else 0
  }

  /** Timers are started on request only: none by a reconnection that succeeded. */
  lemma {:induction false} StartsAreRequested(events: seq<Event>, id: string)
    requires WellFormed(events)
    ensures |Starts(events, id)| <= Requests(events, id)
  {
    if events != [] {
      PrefixWellFormed(events);
      StartsAreRequested(events[..|events| - 1], id);
    }
  }

  // ---------------------------------------------------------------- a failing chain

  /** One failing reconnection: the jitter of its timer and how long it took to throw. */
  datatype Failure = Failure(random: real, latency: nat)

  /** A timer of `id` fires and its reconnection throws, up to the call that reschedules. */
  function Thrown(v: Service, timer: nat): Service
    requires timer in v.live
  {
    var w := Fired(v, timer);
    w.(running := w.running - {timer})
  }

  /** The delays of the chain in which every reconnection throws and reschedules, and what it leaves. */
  function Chain(v: Service, id: string, now: int, failures: nat -> Failure): (seq<int>, Service)
    requires forall i :: IsRandom(failures(i).random)
    requires Valid(v) && !StateOf(v, id).circuitOpen
    decreases MAX_ATTEMPTS - StateOf(v, id).attempts
  {
    var f := failures(StateOf(v, id).attempts);
    var (w, delay) := Scheduled(v, id, now, f.random);
    if delay.None? then ([], w)
    else
      var (delays, end) := Chain(Thrown(w, v.nextTimer), id, now + delay.value + f.latency, failures);
      ([delay.value] + delays, end)
  }

  /** The chain is what the service does: scheduling, then firing and settling by failing, over and over. */
  lemma ThrownIsSettled(v: Service, timer: nat, now: int, random: real)
    requires Valid(v) && timer in v.live && IsRandom(random)
    ensures Settled(Fired(v, timer), timer, true, now, random)
         == Scheduled(Thrown(v, timer), v.live[timer], now, random)
  {
  }

  function Sum(xs: seq<int>): int {
    if xs == [] then 0 else xs[0] + Sum(xs[1..])
  }

  /** The sum of the capped delays of the attempts still left. */
  function CappedTotal(attempt: nat): int
    decreases MAX_ATTEMPTS - attempt
  {
    if attempt >= MAX_ATTEMPTS then 0 else CappedDelay(attempt) + CappedTotal(attempt + 1)
  }

  /** What one turn of the chain changes: the record and the timer count. */
  lemma ChainTurn(v: Service, id: string, now: int, random: real)
    requires IsRandom(random) && Valid(v) && !StateOf(v, id).circuitOpen && StateOf(v, id).attempts < MAX_ATTEMPTS
    ensures var (w, delay) := Scheduled(v, id, now, random);
      && delay.Some? && CappedDelay(StateOf(v, id).attempts) <= delay.value
      && BASE_DELAY_MS <= delay.value < 78_000
      && v.nextTimer in w.live
      && var x := Thrown(w, v.nextTimer);
         && Valid(x) && !StateOf(x, id).circuitOpen && StateOf(x, id).attempts == StateOf(v, id).attempts + 1
         && x.live == v.live && x.running == v.running && x.nextTimer == v.nextTimer + 1
         && x.states - {id} == v.states - {id}
  {
    var (w, delay) := Scheduled(v, id, now, random);
    var x := Thrown(w, v.nextTimer);
    assert x.live == v.live;
    assert x.running == v.running;
    assert x.states - {id} == v.states - {id};
  }

  /** The delays of the attempts from `attempts` on. */
  predicate DelaysFit(delays: seq<int>, attempts: int) {
    && 0 <= attempts <= MAX_ATTEMPTS && |delays| == MAX_ATTEMPTS - attempts
    && (forall d <- delays :: BASE_DELAY_MS <= d < 78_000)
    && Sum(delays) >= CappedTotal(attempts)
  }

  lemma DelaysGrow(d: int, rest: seq<int>, attempts: nat)
    requires attempts < MAX_ATTEMPTS && DelaysFit(rest, attempts + 1)
    requires CappedDelay(attempts) <= d && BASE_DELAY_MS <= d < 78_000
    ensures DelaysFit([d] + rest, attempts)
  {
  }

  lemma {:induction false} ChainDelays(v: Service, id: string, now: int, failures: nat -> Failure)
    requires forall i :: IsRandom(failures(i).random)
    requires Valid(v) && !StateOf(v, id).circuitOpen
    ensures DelaysFit(Chain(v, id, now, failures).0, StateOf(v, id).attempts)
    decreases MAX_ATTEMPTS - StateOf(v, id).attempts
  {
    var attempts := StateOf(v, id).attempts;
    if attempts < MAX_ATTEMPTS {
      var f := failures(attempts);
      ChainTurn(v, id, now, f.random);
      var (w, delay) := Scheduled(v, id, now, f.random);
      var x, later := Thrown(w, v.nextTimer), now + delay.value + f.latency;
      var (rest, end) := Chain(x, id, later, failures);
      assert Chain(v, id, now, failures) == ([delay.value] + rest, end);
      ChainDelays(x, id, later, failures);
      DelaysGrow(delay.value, rest, attempts);
    }
  }

  /** Nothing of the instance is left pending, its circuit is open, and nothing else has changed. */
  predicate ChainOver(v: Service, end: Service, id: string) {
    && StateOf(end, id).circuitOpen
    && end.live == v.live && end.running == v.running
    && end.nextTimer == v.nextTimer + MAX_ATTEMPTS - StateOf(v, id).attempts
    && end.states - {id} == v.states - {id}
  }

  lemma OverLater(v: Service, x: Service, end: Service, id: string)
    requires ChainOver(x, end, id)
    requires x.live == v.live && x.running == v.running && x.states - {id} == v.states - {id}
    requires x.nextTimer - StateOf(x, id).attempts == v.nextTimer - StateOf(v, id).attempts
    ensures ChainOver(v, end, id)
  {
  }

  lemma {:induction false} ChainEnds(v: Service, id: string, now: int, failures: nat -> Failure)
    requires forall i :: IsRandom(failures(i).random)
    requires Valid(v) && !StateOf(v, id).circuitOpen
    ensures ChainOver(v, Chain(v, id, now, failures).1, id)
    decreases MAX_ATTEMPTS - StateOf(v, id).attempts
  {
    var attempts := StateOf(v, id).attempts;
    var f := failures(attempts);
    if attempts < MAX_ATTEMPTS {
      ChainTurn(v, id, now, f.random);
      var (w, delay) := Scheduled(v, id, now, f.random);
      var x, later := Thrown(w, v.nextTimer), now + delay.value + f.latency;
      var (rest, end) := Chain(x, id, later, failures);
      assert Chain(v, id, now, failures) == ([delay.value] + rest, end);
      ChainEnds(x, id, later, failures);
      OverLater(v, x, end, id);
    } else {
      ChainStops(v, id, now, f.random);
    }
  }

  lemma ChainStops(v: Service, id: string, now: int, random: real)
    requires IsRandom(random) && Valid(v) && !StateOf(v, id).circuitOpen && StateOf(v, id).attempts == MAX_ATTEMPTS
    ensures var (w, delay) := Scheduled(v, id, now, random);
      delay == None && ChainOver(v, w, id)
  {
  }

  /**
   * If every reconnection throws, the chain of an instance without a record starts exactly 10
   * timers, each below 78 seconds, waits at least 303 seconds in all, opens the circuit and
   * stops: no timer or reconnection of it is left, and other instances are untouched.
   */
  lemma FailingChain(v: Service, id: string, now: int, failures: nat -> Failure)
    requires forall i :: IsRandom(failures(i).random)
    requires Valid(v) && id !in v.states
    ensures var (delays, end) := Chain(v, id, now, failures);
      && |delays| == 10
      && (forall d <- delays :: d < 78_000)
      && Sum(delays) >= 303_000
      && StateOf(end, id).circuitOpen
      && end.live == v.live && end.running == v.running && end.nextTimer == v.nextTimer + 10
      && end.states - {id} == v.states
  {
    ChainDelays(v, id, now, failures);
    ChainEnds(v, id, now, failures);
    assert v.states - {id} == v.states;
    assert CappedDelay(5) == 32_000 && CappedDelay(6) == 60_000 && CappedDelay(7) == 60_000;
    assert CappedDelay(8) == 60_000 && CappedDelay(9) == 60_000;
    assert CappedTotal(6) == 240_000;
    assert CappedTotal(3) == 296_000;
  }

  /**
   * The instance is not given up for good: after such a chain a schedule starts nothing for 300
   * seconds from the opening, and the first one after that starts a new chain.
   */
  lemma ChainResumesIff(v: Service, id: string, now: int, failures: nat -> Failure, later: int, random: real)
    requires forall i :: IsRandom(failures(i).random)
    requires Valid(v) && id !in v.states && IsRandom(random) && now > 0
    ensures var end := Chain(v, id, now, failures).1;
      && Valid(end) && StateOf(end, id).circuitOpenedAt.Some?
      && var at := StateOf(end, id).circuitOpenedAt.value;
         && at >= now + 303_000 && OpenedAt(StateOf(end, id), at)
         && (Scheduled(end, id, later, random).1.Some? <==> later - at >= 300_000)
         && (later - at >= 300_000 ==> StateOf(Scheduled(end, id, later, random).0, id).attempts == 1)
  {
    FailingChain(v, id, now, failures);
    ChainOpensAfter(v, id, now, failures);
    var end := Chain(v, id, now, failures).1;
    CooledDownIff(end, id, StateOf(end, id).circuitOpenedAt.value, later, random);
  }

  /** The circuit opens when all delays have been waited for. */
  lemma {:induction false} ChainOpensAfter(v: Service, id: string, now: int, failures: nat -> Failure)
    requires forall i :: IsRandom(failures(i).random)
    requires Valid(v) && !StateOf(v, id).circuitOpen
    ensures var (delays, end) := Chain(v, id, now, failures);
      && Valid(end) && StateOf(end, id).circuitOpen && StateOf(end, id).circuitOpenedAt.Some?
      && StateOf(end, id).circuitOpenedAt.value >= now + Sum(delays)
    decreases MAX_ATTEMPTS - StateOf(v, id).attempts
  {
    var attempts := StateOf(v, id).attempts;
    if attempts < MAX_ATTEMPTS {
      var f := failures(attempts);
      ChainTurn(v, id, now, f.random);
      var (w, delay) := Scheduled(v, id, now, f.random);
      var x, later := Thrown(w, v.nextTimer), now + delay.value + f.latency;
      var (rest, end) := Chain(x, id, later, failures);
      assert Chain(v, id, now, failures) == ([delay.value] + rest, end);
      assert ([delay.value] + rest)[1..] == rest;
      ChainOpensAfter(x, id, later, failures);
    }
  }

  // ---------------------------------------------------------------- cancelling

  /** Something of `id` may still reconnect: a live timer, or a reconnection that has not settled. */
  predicate Pending(v: Service, id: string) {
    (exists t <- v.live :: v.live[t] == id) || (exists t <- v.running :: v.running[t] == id)
  }

  /**
   * Cancelling clears only the last timer: nothing of the instance is left exactly when no
   * other timer of it was live and no reconnection of it was running.
   */
  lemma CancelStopsIff(v: Service, id: string)
    ensures !Pending(Cancelled(v, id), id) <==>
      && (forall t <- v.live :: v.live[t] == id ==> id in v.states && v.states[id].timer == Some(t))
      && (forall t <- v.running :: v.running[t] != id)
  {
    var w := Cancelled(v, id);
    forall t | t in v.live && t !in w.live ensures id in v.states && v.states[id].timer == Some(t) {
    }
    forall t <- w.live ensures t in v.live && v.live[t] == w.live[t] {
    }
  }

  /** Two overlapping schedules do leave such a timer behind. */
  lemma OverwrittenTimerSurvivesCancel(id: string, now: int)
    ensures var events := [Schedule(now, id, 0.0), Schedule(now, id, 0.0), Cancel(now, id)];
      WellFormed(events) && Run(events).live == map[0 := id]
  {
    var s1 := Schedule(now, id, 0.0);
    var events := [s1, s1, Cancel(now, id)];
    var one, two := [s1], [s1, s1];
    assert events[..2] == two && two[..1] == one && one[..0] == [];
    assert WellFormed(one) && WellFormed(two) && WellFormed(events);
    assert Run(one) == Step(EMPTY, s1).0;
    assert Run(two) == Step(Run(one), s1).0;
    assert Run(two).live == map[0 := id, 1 := id];
    assert Run(events) == Step(Run(two), Cancel(now, id)).0;
  }

  /** A reconnection that was running when its instance was cancelled starts a new chain by failing. */
  lemma RunningAttemptOutlivesCancel(v: Service, id: string, timer: nat, now: int, random: real)
    requires Valid(v) && IsRandom(random) && timer in v.running && v.running[timer] == id
    ensures var w := Cancelled(v, id);
      && Valid(w) && timer in w.running
      && var (x, delay) := Settled(w, timer, true, now, random);
         && delay.Some? && BASE_DELAY_MS <= delay.value <= 1300
         && v.nextTimer in x.live && x.live[v.nextTimer] == id
         && StateOf(x, id) == InstanceState(1, false, None, Some(v.nextTimer))
  {
  }
}
