/**
 * The retry loop of libs/shared/src/http/http-client.ts over the circuit breaker, with the
 * back-off of retry.strategy.ts. One loop turn is described by what its environment does:
 * other requests of the same client may drive the shared breaker before the turn and while
 * its fetch is in flight. No caller aborts the request.
 */
module HttpRetry {
  import opened CircuitBreaking

  datatype RetryPolicy = RetryPolicy(
    maxAttempts: int, initialBackoffMs: real, maxBackoffMs: real, backoffMultiplier: real,
    jitter: bool, retryOnStatuses: seq<int>, retryOnNetworkError: bool)

  /** A Retry-After header as `Number` and `Date.parse` read it. */
  datatype RetryAfter = Absent | Seconds(value: real) | Date(at: real) | Unreadable

  /** What one fetch does; `parses` is false when decoding the body throws. */
  datatype Fetch = NetworkError | Response(ok: bool, status: int, retryAfter: RetryAfter, parses: bool)

  datatype Turn = Turn(
    before: seq<Event>, beginAt: int, during: seq<Event>, fetch: Fetch, endAt: int,
    now: real, random: real)

  datatype Verdict =
    | Returned(ok: bool, status: int, attempts: int)
    | BreakerOpen
    | RequestFailed(attempts: int)
    | Exhausted

  /** How the request ended, how often it went through the breaker, and how it slept. */
  datatype Report = Report(verdict: Verdict, passes: int, waits: seq<real>)

  // ---------------------------------------------------------------- back-off

  function Min(x: real, y: real): real { if x <= y then x else y }

  function NonNegative(x: real): real { if x <= 0.0 then 0.0 else x }

  function Pow(x: real, n: nat): real {
    if n == 0 then 1.0 else x * Pow(x, n - 1)
  }

  function Exponential(policy: RetryPolicy, n: nat): real {
    policy.initialBackoffMs * Pow(policy.backoffMultiplier, n)
  }

  function ComputeBackoffMs(
    attempt: int, policy: RetryPolicy, header: RetryAfter, now: real, random: real): (ms: real)
    requires attempt >= 1
    ensures ms <= policy.maxBackoffMs
  {
    match header
    case Seconds(value) => Min(value * 1000.0, policy.maxBackoffMs)
    case Date(at) => Min(NonNegative(at - now), policy.maxBackoffMs)
    case _ =>
      var exponential := Min(Exponential(policy, attempt - 1), policy.maxBackoffMs);
      if !policy.jitter then exponential
      else Min((exponential * (0.5 + random) + 0.5).Floor as real, policy.maxBackoffMs)
  }

  lemma {:induction false} PowGrows(x: real, n: nat)
    requires x >= 1.0
    ensures 1.0 <= Pow(x, n) <= Pow(x, n + 1)
  {
    if n > 0 {
      PowGrows(x, n - 1);
    }
    assert Pow(x, n + 1) == x * Pow(x, n);
    assert (x - 1.0) * Pow(x, n) >= 0.0;
  }

  /** Without jitter and header, a multiplier of at least 1 never shortens the wait. */
  lemma BackoffGrows(attempt: int, policy: RetryPolicy, now: real, random: real)
    requires attempt >= 1 && !policy.jitter
    requires policy.backoffMultiplier >= 1.0 && policy.initialBackoffMs >= 0.0
    ensures ComputeBackoffMs(attempt, policy, Absent, now, random)
         <= ComputeBackoffMs(attempt + 1, policy, Absent, now, random)
  {
    var p, q := Pow(policy.backoffMultiplier, attempt - 1), Pow(policy.backoffMultiplier, attempt);
    PowGrows(policy.backoffMultiplier, attempt - 1);
    assert policy.initialBackoffMs * (q - p) >= 0.0;
  }

  /**
   * A Retry-After header is honoured to the millisecond unless the maximum is shorter: given in
   * seconds, or as a date, which is then when the wait ends.
   */
  lemma HeaderHonoured(attempt: int, policy: RetryPolicy, header: RetryAfter, now: real, random: real)
    requires attempt >= 1 && policy.maxBackoffMs >= 0.0
    ensures var ms := ComputeBackoffMs(attempt, policy, header, now, random);
      && (header.Seconds? ==> ms / 1000.0 == header.value || ms == policy.maxBackoffMs < 1000.0 * header.value)
      && (header.Date? && header.at >= now ==> now + ms == header.at || ms == policy.maxBackoffMs < header.at - now)
      && (header.Date? && header.at < now ==> ms == 0.0)
  {
  }

  /** Without header and jitter, each wait is the last one times the multiplier, up to the maximum. */
  lemma BackoffMultiplies(attempt: int, policy: RetryPolicy, header: RetryAfter, now: real, random: real)
    requires attempt >= 1 && !policy.jitter && (header.Absent? || header.Unreadable?)
    requires policy.backoffMultiplier >= 1.0 && policy.maxBackoffMs >= 0.0
    ensures ComputeBackoffMs(1, policy, header, now, random) == Min(policy.initialBackoffMs, policy.maxBackoffMs)
    ensures ComputeBackoffMs(attempt + 1, policy, header, now, random)
         == Min(policy.backoffMultiplier * ComputeBackoffMs(attempt, policy, header, now, random), policy.maxBackoffMs)
  {
    var m, n := policy.backoffMultiplier, attempt - 1;
    ExponentialStep(policy, n);
    CappedProduct(m, Exponential(policy, n), policy.maxBackoffMs);
    PlainBackoff(1, policy, header, now, random);
    PlainBackoff(attempt, policy, header, now, random);
    PlainBackoff(attempt + 1, policy, header, now, random);
  }

  lemma PlainBackoff(attempt: int, policy: RetryPolicy, header: RetryAfter, now: real, random: real)
    requires attempt >= 1 && !policy.jitter && (header.Absent? || header.Unreadable?)
    ensures ComputeBackoffMs(attempt, policy, header, now, random)
         == Min(Exponential(policy, attempt - 1), policy.maxBackoffMs)
  {
  }

  lemma ExponentialStep(policy: RetryPolicy, n: nat)
    ensures Exponential(policy, 0) == policy.initialBackoffMs
    ensures Exponential(policy, n + 1) == policy.backoffMultiplier * Exponential(policy, n)
  {
    var first, m, p := policy.initialBackoffMs, policy.backoffMultiplier, Pow(policy.backoffMultiplier, n);
    assert Pow(m, n + 1) == m * p;
    assert first * (m * p) == m * (first * p);
  }

  lemma Larger(m: real, x: real, y: real)
    requires m >= 0.0 && x <= y
    ensures m * x <= m * y
  {
    assert m * (y - x) >= 0.0;
  }

  lemma CappedProduct(m: real, p: real, cap: real)
    requires m >= 1.0 && cap >= 0.0
    ensures Min(m * p, cap) == Min(m * Min(p, cap), cap)
  {
    if p > cap {
      Larger(cap, 1.0, m);
      Larger(m, cap, p);
    }
  }

  /** Jitter rounds a value within half the wait to either side, still up to the maximum. */
  lemma JitterRange(attempt: int, policy: RetryPolicy, header: RetryAfter, now: real, random: real)
    requires attempt >= 1 && policy.jitter && (header.Absent? || header.Unreadable?)
    requires 0.0 <= random < 1.0
    ensures var plain := ComputeBackoffMs(attempt, policy.(jitter := false), header, now, random);
      var ms, spread := ComputeBackoffMs(attempt, policy, header, now, random), plain * (0.5 + random);
      ms == policy.maxBackoffMs || spread - 0.5 < ms <= spread + 0.5
  {
  }

  // ---------------------------------------------------------------- the loop

  datatype Next = Stop(verdict: Verdict) | Wait(ms: real)

  /** One loop turn: the breaker it leaves, whether the fetch was made, and what follows. */
  function Attempt(o: Options, policy: RetryPolicy, b: Breaker, attempt: int, t: Turn): (Breaker, bool, Next)
    requires attempt >= 1
  {
    var (begun, admitted) := Begun(o, Run(o, b, t.before), t.beginAt);
    if !admitted then (begun, false, Stop(BreakerOpen))
    else
      var flown := Run(o, begun, t.during);
      var last := attempt == policy.maxAttempts;
      var thrown :=
        if !policy.retryOnNetworkError || last then Stop(RequestFailed(attempt))
        else Wait(ComputeBackoffMs(attempt, policy, Absent, t.now, t.random));
      match t.fetch
      case NetworkError => (Failed(o, flown, t.endAt), true, thrown)
      case Response(ok, status, retryAfter, parses) =>
        if ok || status !in policy.retryOnStatuses || last then
          (Succeeded(flown), true, if parses then Stop(Returned(ok, status, attempt)) else thrown)
        else
          (Succeeded(flown), true, Wait(ComputeBackoffMs(attempt, policy, retryAfter, t.now, t.random)))
  }

  function Requested(
    o: Options, policy: RetryPolicy, b: Breaker, turns: seq<Turn>,
    attempt: int, passes: int, waits: seq<real>): (Breaker, Report)
    requires attempt >= 1 && |turns| >= policy.maxAttempts
    decreases policy.maxAttempts - attempt
  {
    if attempt > policy.maxAttempts then (b, Report(Exhausted, passes, waits))
    else
      var (c, passed, next) := Attempt(o, policy, b, attempt, turns[attempt - 1]);
      var passes' := if passed then passes + 1 else passes;
      match next
      case Stop(verdict) => (c, Report(verdict, passes', waits))
      case Wait(ms) => Requested(o, policy, c, turns, attempt + 1, passes', waits + [ms])
  }

  class HttpClient {
    const breaker: CircuitBreaker

    constructor (failureThreshold: int := 10, resetTimeoutMs: int := 30_000)
      ensures fresh(breaker) && breaker.View() == FRESH
      ensures breaker.options == Options(failureThreshold, resetTimeoutMs, DEFAULT_OPTIONS.halfOpenMaxAttempts)
    {
      breaker := new CircuitBreaker(
        DEFAULT_OPTIONS.(failureThreshold := failureThreshold, resetTimeoutMs := resetTimeoutMs));
    }

    /** Steps that other requests of this client take on the shared breaker. */
    method Interfere(events: seq<Event>)
      modifies breaker
      ensures breaker.View() == Run(breaker.options, old(breaker.View()), events)
    {
      var i := 0;
      while i < |events|
        invariant 0 <= i <= |events|
        invariant Run(breaker.options, breaker.View(), events[i..])
               == Run(breaker.options, old(breaker.View()), events)
      {
        match events[i] {
          case Begin(now) => var _ := breaker.BeginExecute(now);
          case EndOk => breaker.OnSuccess();
          case EndFail(now) => breaker.OnFailure(now);
          case Reset => breaker.Reset();
        }
        i := i + 1;
      }
    }

    method Request(policy: RetryPolicy, turns: seq<Turn>) returns (report: Report)
      requires |turns| >= policy.maxAttempts
      modifies breaker
      ensures (breaker.View(), report)
           == Requested(breaker.options, policy, old(breaker.View()), turns, 1, 0, [])
    {
      var passes, waits := 0, [];
      var attempt := 1;
      while attempt <= policy.maxAttempts
        invariant attempt >= 1
        invariant Requested(breaker.options, policy, breaker.View(), turns, attempt, passes, waits)
               == Requested(breaker.options, policy, old(breaker.View()), turns, 1, 0, [])
      {
        var t := turns[attempt - 1];
        Interfere(t.before);
        var admitted := breaker.BeginExecute(t.beginAt);
        if !admitted {
          return Report(BreakerOpen, passes, waits);
        }
        passes := passes + 1;
        Interfere(t.during);
        var retryAfter := Absent;
        match t.fetch {
          case NetworkError =>
            breaker.OnFailure(t.endAt);
            if !policy.retryOnNetworkError || attempt == policy.maxAttempts {
              return Report(RequestFailed(attempt), passes, waits);
            }
          case Response(ok, status, header, parses) =>
            breaker.OnSuccess();
            if ok || status !in policy.retryOnStatuses || attempt == policy.maxAttempts {
              if parses {
                return Report(Returned(ok, status, attempt), passes, waits);
              } else if !policy.retryOnNetworkError || attempt == policy.maxAttempts {
                return Report(RequestFailed(attempt), passes, waits);
              }
            } else {
              retryAfter := header;
            }
        }
        waits := waits + [ComputeBackoffMs(attempt, policy, retryAfter, t.now, t.random)];
        attempt := attempt + 1;
      }
      report := Report(Exhausted, passes, waits);
    }
  }

  // ---------------------------------------------------------------- bounds on every request

  predicate Accounts(policy: RetryPolicy, r: Report) {
    match r.verdict
    case Returned(ok, status, attempts) =>
      && 1 <= attempts <= policy.maxAttempts
      && r.passes == attempts == |r.waits| + 1
      && (!ok && status in policy.retryOnStatuses ==> attempts == policy.maxAttempts)
    case RequestFailed(attempts) =>
      && 1 <= attempts <= policy.maxAttempts
      && r.passes == attempts == |r.waits| + 1
      && (policy.retryOnNetworkError ==> attempts == policy.maxAttempts)
    case BreakerOpen => r.passes == |r.waits| < policy.maxAttempts
    case Exhausted => policy.maxAttempts < 1 && r.passes == 0 && r.waits == []
  }

  lemma {:induction false} RequestAccountsFrom(
    o: Options, policy: RetryPolicy, b: Breaker, turns: seq<Turn>, attempt: int, waits: seq<real>)
    requires 1 <= attempt && |turns| >= policy.maxAttempts && |waits| == attempt - 1
    requires attempt == 1 || attempt <= policy.maxAttempts
    requires forall w <- waits :: w <= policy.maxBackoffMs
    ensures var r := Requested(o, policy, b, turns, attempt, |waits|, waits).1;
      Accounts(policy, r) && forall w <- r.waits :: w <= policy.maxBackoffMs
    decreases policy.maxAttempts - attempt
  {
    if attempt <= policy.maxAttempts {
      var (c, passed, next) := Attempt(o, policy, b, attempt, turns[attempt - 1]);
      if next.Wait? {
        RequestAccountsFrom(o, policy, c, turns, attempt + 1, waits + [next.ms]);
      }
    }
  }

  /**
   * Whatever the breaker, the server and other requests do: at most `maxAttempts` passes
   * through the breaker, one wait fewer than passes, no wait above `maxBackoffMs`, a
   * retryable status returned only by the last attempt, and the final throw reached exactly
   * when `maxAttempts < 1`.
   */
  lemma RequestAccounts(o: Options, policy: RetryPolicy, b: Breaker, turns: seq<Turn>)
    requires |turns| >= policy.maxAttempts
    ensures var r := Requested(o, policy, b, turns, 1, 0, []).1;
      && Accounts(policy, r)
      && (forall w <- r.waits :: w <= policy.maxBackoffMs)
      && (r.verdict.Exhausted? <==> policy.maxAttempts < 1)
  {
    RequestAccountsFrom(o, policy, b, turns, 1, []);
  }

  // ---------------------------------------------------------------- when a request goes on

  /** A fetch that is made again unless it was the last, by the policy alone. */
  predicate Retryable(policy: RetryPolicy, f: Fetch) {
    match f
    case NetworkError => policy.retryOnNetworkError
    case Response(ok, status, _, parses) =>
      (!ok && status in policy.retryOnStatuses) || (!parses && policy.retryOnNetworkError)
  }

  /** Only an answer that is retried for its status has its header read. */
  function HeaderRead(policy: RetryPolicy, f: Fetch): RetryAfter {
    if f.Response? && !f.ok && f.status in policy.retryOnStatuses then f.retryAfter else Absent
  }

  /** How long the fetch of an attempt asks to wait. */
  function AskedFor(policy: RetryPolicy, attempt: int, t: Turn): real
    requires attempt >= 1
  {
    ComputeBackoffMs(attempt, policy, HeaderRead(policy, t.fetch), t.now, t.random)
  }

  /** The request slept after retryable fetches only, as each asked, and its verdict is that of its last fetch. */
  predicate Justified(policy: RetryPolicy, turns: seq<Turn>, r: Report) {
    && |r.waits| <= |turns|
    && (forall i :: 0 <= i < |r.waits| ==>
          && Retryable(policy, turns[i].fetch)
          && r.waits[i] == AskedFor(policy, i + 1, turns[i]))
    && match r.verdict
       case Returned(ok, status, n) =>
         && 1 <= n <= |turns|
         && var f := turns[n - 1].fetch;
            && f.Response? && f.ok == ok && f.status == status && f.parses
            && (n == policy.maxAttempts || !Retryable(policy, f))
       case RequestFailed(n) =>
         && 1 <= n <= |turns|
         && var f := turns[n - 1].fetch;
            (f.NetworkError? || !f.parses) && (n == policy.maxAttempts || !Retryable(policy, f))
       case _ => true
  }

  lemma {:induction false} RequestJustifiedFrom(
    o: Options, policy: RetryPolicy, b: Breaker, turns: seq<Turn>, attempt: int, passes: int, waits: seq<real>)
    requires attempt >= 1 && |turns| >= policy.maxAttempts && |waits| == attempt - 1
    requires attempt == 1 || attempt <= policy.maxAttempts
    requires Justified(policy, turns, Report(Exhausted, passes, waits))
    ensures Justified(policy, turns, Requested(o, policy, b, turns, attempt, passes, waits).1)
    decreases policy.maxAttempts - attempt
  {
    if attempt <= policy.maxAttempts {
      var (c, passed, next) := Attempt(o, policy, b, attempt, turns[attempt - 1]);
      AttemptJustified(o, policy, b, attempt, turns[attempt - 1]);
      if next.Wait? {
        var passes' := if passed then passes + 1 else passes;
        RequestJustifiedFrom(o, policy, c, turns, attempt + 1, passes', waits + [next.ms]);
      }
    }
  }

  lemma AttemptJustified(o: Options, policy: RetryPolicy, b: Breaker, attempt: int, t: Turn)
    requires attempt >= 1
    ensures match Attempt(o, policy, b, attempt, t).2
      case Wait(ms) =>
        && attempt != policy.maxAttempts && Retryable(policy, t.fetch)
        && ms == AskedFor(policy, attempt, t)
      case Stop(Returned(ok, status, n)) =>
        && n == attempt && t.fetch.Response? && t.fetch.ok == ok && t.fetch.status == status && t.fetch.parses
        && (n == policy.maxAttempts || !Retryable(policy, t.fetch))
      case Stop(RequestFailed(n)) =>
        && n == attempt && (t.fetch.NetworkError? || !t.fetch.parses)
        && (n == policy.maxAttempts || !Retryable(policy, t.fetch))
      case Stop(verdict) => verdict == BreakerOpen
  {
  }

  /**
   * What a request reports is what its fetches and its policy alone justify: it goes on after a
   * retryable fetch only, for as long as that one asked, and returns the decodable answer or the
   * failure of the fetch it stopped at, whatever the breaker and other requests do.
   */
  lemma RequestJustified(o: Options, policy: RetryPolicy, b: Breaker, turns: seq<Turn>)
    requires |turns| >= policy.maxAttempts
    ensures Justified(policy, turns, Requested(o, policy, b, turns, 1, 0, []).1)
  {
    RequestJustifiedFrom(o, policy, b, turns, 1, 0, []);
  }

  /** A request that makes a fetch that is not retryable ends with it. */
  lemma FinalFetchEnds(o: Options, policy: RetryPolicy, b: Breaker, turns: seq<Turn>, n: nat)
    requires |turns| >= policy.maxAttempts && 1 <= n <= |turns| && !Retryable(policy, turns[n - 1].fetch)
    ensures var r := Requested(o, policy, b, turns, 1, 0, []).1;
      r.passes >= n ==>
        && r.passes == n
        && r.verdict == if turns[n - 1].fetch.Response? && turns[n - 1].fetch.parses
             then Returned(turns[n - 1].fetch.ok, turns[n - 1].fetch.status, n) else RequestFailed(n)
  {
    RequestJustified(o, policy, b, turns);
    RequestAccounts(o, policy, b, turns);
  }

  // ---------------------------------------------------------------- how long a request sleeps

  /** The time slept: a timer with a negative delay fires at once. */
  function Slept(waits: seq<real>): real {
    if waits == [] then 0.0
    else Slept(waits[..|waits| - 1]) + NonNegative(waits[|waits| - 1])
  }

  /** `n` waits of the longest kind. */
  function Longest(n: nat, cap: real): real {
    if n == 0 then 0.0 else Longest(n - 1, cap) + cap
  }

  lemma {:induction false} LongestIsProduct(n: nat, cap: real)
    ensures Longest(n, cap) == n as real * cap
  {
    if n > 0 {
      LongestIsProduct(n - 1, cap);
    }
  }

  lemma {:induction false} SleptBound(waits: seq<real>, cap: real, n: nat)
    requires cap >= 0.0 && |waits| <= n && forall w <- waits :: w <= cap
    ensures 0.0 <= Slept(waits) <= Longest(n, cap)
    decreases n
  {
    if n > 0 {
      var shorter := if waits == [] then waits else waits[..|waits| - 1];
      assert forall w <- shorter :: w in waits;
      SleptBound(shorter, cap, n - 1);
      assert waits != [] ==> waits[|waits| - 1] in waits;
    }
  }

  predicate SleepsAtMost(waits: seq<real>, n: nat, cap: real) {
    0.0 <= Slept(waits) <= n as real * NonNegative(cap)
  }

  lemma WaitsBound(waits: seq<real>, cap: real, n: nat)
    requires |waits| <= n && forall w <- waits :: w <= cap
    ensures SleepsAtMost(waits, n, cap)
  {
    SleptBound(waits, NonNegative(cap), n);
    LongestIsProduct(n, NonNegative(cap));
  }

  /** Even with Retry-After headers, the request sleeps at most `(maxAttempts - 1) * maxBackoffMs`. */
  lemma TotalWaitBound(o: Options, policy: RetryPolicy, b: Breaker, turns: seq<Turn>)
    requires |turns| >= policy.maxAttempts >= 1
    ensures SleepsAtMost(
      Requested(o, policy, b, turns, 1, 0, []).1.waits, policy.maxAttempts - 1, policy.maxBackoffMs)
  {
    var waits := Requested(o, policy, b, turns, 1, 0, []).1.waits;
    assert |waits| <= policy.maxAttempts - 1 && forall w <- waits :: w <= policy.maxBackoffMs by {
      RequestAccounts(o, policy, b, turns);
    }
    WaitsBound(waits, policy.maxBackoffMs, policy.maxAttempts - 1);
  }

  // ---------------------------------------------------------------- what the breaker sees

  /** The steps of this request and of the others on the shared breaker, in order, from `attempt` on. */
  function Steps(o: Options, policy: RetryPolicy, b: Breaker, turns: seq<Turn>, attempt: int): seq<Event>
    requires attempt >= 1 && |turns| >= policy.maxAttempts
    decreases policy.maxAttempts - attempt
  {
    if attempt > policy.maxAttempts then []
    else
      var t := turns[attempt - 1];
      var (c, passed, next) := Attempt(o, policy, b, attempt, t);
      Taken(t, passed) + if next.Wait? then Steps(o, policy, c, turns, attempt + 1) else []
  }

  /** The steps of one turn; a rejected one ends with its begin. */
  function Taken(t: Turn, passed: bool): seq<Event> {
    var begun := t.before + [Begin(t.beginAt)];
    if !passed then begun
    else begun + t.during + [if t.fetch == NetworkError then EndFail(t.endAt) else EndOk]
  }

  lemma RunOne(o: Options, b: Breaker, e: Event)
    ensures Run(o, b, [e]) == Step(o, b, e).0
  {
    assert Run(o, b, [e]) == Run(o, Step(o, b, e).0, [e][1..]);
  }

  lemma AttemptIsRun(o: Options, policy: RetryPolicy, b: Breaker, attempt: int, t: Turn)
    requires attempt >= 1
    ensures var (c, passed, _) := Attempt(o, policy, b, attempt, t);
      c == Run(o, b, Taken(t, passed))
  {
    var (c, passed, _) := Attempt(o, policy, b, attempt, t);
    var ready := Run(o, b, t.before);
    var begun := Step(o, ready, Begin(t.beginAt)).0;
    var end := if t.fetch == NetworkError then EndFail(t.endAt) else EndOk;
    RunAppend(o, b, t.before, [Begin(t.beginAt)]);
    RunOne(o, ready, Begin(t.beginAt));
    RunAppend(o, b, t.before + [Begin(t.beginAt)], t.during);
    RunAppend(o, b, t.before + [Begin(t.beginAt)] + t.during, [end]);
    RunOne(o, Run(o, begun, t.during), end);
  }

  /** The breaker that a request leaves is that of the interleaved protocol on those steps. */
  lemma {:induction false} RequestIsRun(
    o: Options, policy: RetryPolicy, b: Breaker, turns: seq<Turn>, attempt: int, passes: int, waits: seq<real>)
    requires attempt >= 1 && |turns| >= policy.maxAttempts
    ensures Requested(o, policy, b, turns, attempt, passes, waits).0 == Run(o, b, Steps(o, policy, b, turns, attempt))
    decreases policy.maxAttempts - attempt
  {
    if attempt <= policy.maxAttempts {
      var t := turns[attempt - 1];
      var (c, passed, next) := Attempt(o, policy, b, attempt, t);
      AttemptIsRun(o, policy, b, attempt, t);
      if next.Wait? {
        RequestIsRun(o, policy, c, turns, attempt + 1, if passed then passes + 1 else passes, waits + [next.ms]);
        RunAppend(o, b, Taken(t, passed), Steps(o, policy, c, turns, attempt + 1));
      } else {
        assert Taken(t, passed) + [] == Taken(t, passed);
      }
    }
  }

  /**
   * While a request runs and others share its breaker: the breaker stays closed exactly when at
   * no point the failures completed since the last success or reset reach the threshold. An
   * answer of any status is a success.
   */
  lemma BreakerStaysClosedIff(o: Options, policy: RetryPolicy, b: Breaker, turns: seq<Turn>)
    requires |turns| >= policy.maxAttempts
    requires b.state == CLOSED && BelowThreshold(o, b) && o.failureThreshold >= 1
    ensures var steps := Steps(o, policy, b, turns, 1);
      && Requested(o, policy, b, turns, 1, 0, []).0 == Run(o, b, steps)
      && (StaysClosed(o, b, steps) <==> StaysShort(o, b.failureCount, steps))
  {
    RequestIsRun(o, policy, b, turns, 1, 0, []);
    StaysClosedIff(o, b, Steps(o, policy, b, turns, 1));
  }

  predicate NoFailures(events: seq<Event>) {
    forall e <- events :: !e.EndFail?
  }

  lemma {:induction false} NoFailuresKeepClosed(o: Options, b: Breaker, events: seq<Event>)
    requires b.state == CLOSED && NoFailures(events)
    ensures Run(o, b, events).state == CLOSED
    decreases |events|
  {
    if events != [] {
      assert events[0] in events;
      NoFailuresKeepClosed(o, Step(o, b, events[0]).0, events[1..]);
    }
  }

  /**
   * A server that only answers, with whatever status, never opens the breaker: without a network
   * error of this request or another it stays closed and rejects nothing.
   */
  lemma {:induction false} AnswersKeepClosed(
    o: Options, policy: RetryPolicy, b: Breaker, turns: seq<Turn>, attempt: int, passes: int, waits: seq<real>)
    requires attempt >= 1 && |turns| >= policy.maxAttempts
    requires forall t <- turns :: t.fetch.Response? && NoFailures(t.before) && NoFailures(t.during)
    requires b.state == CLOSED
    ensures var (c, r) := Requested(o, policy, b, turns, attempt, passes, waits);
      c.state == CLOSED && !r.verdict.BreakerOpen?
    decreases policy.maxAttempts - attempt
  {
    if attempt <= policy.maxAttempts {
      var t := turns[attempt - 1];
      assert t in turns;
      NoFailuresKeepClosed(o, b, t.before);
      NoFailuresKeepClosed(o, Run(o, b, t.before), t.during);
      var (c, passed, next) := Attempt(o, policy, b, attempt, t);
      if next.Wait? {
        AnswersKeepClosed(o, policy, c, turns, attempt + 1, passes + 1, waits + [next.ms]);
      }
    }
  }

  // ---------------------------------------------------------------- requests one after another

  predicate Undisturbed(turns: seq<Turn>) {
    forall t <- turns :: t.before == [] && t.during == []
  }

  /** What a turn is to the breaker: an answer of any status succeeds, a network error fails. */
  function CallOf(t: Turn): Call {
    Call(t.beginAt, if t.fetch == NetworkError then Failure(t.endAt) else Success)
  }

  /** The calls that a request hands to the breaker from `attempt` on. */
  function Calls(o: Options, policy: RetryPolicy, b: Breaker, turns: seq<Turn>, attempt: int): seq<Call>
    requires attempt >= 1 && |turns| >= policy.maxAttempts
    decreases policy.maxAttempts - attempt
  {
    if attempt > policy.maxAttempts then []
    else
      var t := turns[attempt - 1];
      var (c, passed, next) := Attempt(o, policy, b, attempt, t);
      [CallOf(t)] + if next.Wait? then Calls(o, policy, c, turns, attempt + 1) else []
  }

  lemma TurnIsSerial(o: Options, policy: RetryPolicy, b: Breaker, attempt: int, t: Turn)
    requires attempt >= 1 && t.before == [] && t.during == []
    ensures SerialStep(o, b, CallOf(t)).0 == Attempt(o, policy, b, attempt, t).0
  {
  }

  lemma FoldOne(o: Options, b: Breaker, call: Call, rest: seq<Call>)
    ensures SerialFold(o, b, [call] + rest) == SerialFold(o, SerialStep(o, b, call).0, rest)
  {
    assert ([call] + rest)[1..] == rest;
  }

  /** To the breaker, an undisturbed request is a serial run of its turns. */
  lemma {:induction false} RequestIsSerial(o: Options, policy: RetryPolicy, b: Breaker, turns: seq<Turn>,
    attempt: int, passes: int, waits: seq<real>)
    requires attempt >= 1 && |turns| >= policy.maxAttempts && Undisturbed(turns)
    ensures Requested(o, policy, b, turns, attempt, passes, waits).0
         == SerialFold(o, b, Calls(o, policy, b, turns, attempt))
    decreases policy.maxAttempts - attempt
  {
    if attempt <= policy.maxAttempts {
      var t := turns[attempt - 1];
      assert t in turns;
      TurnIsSerial(o, policy, b, attempt, t);
      var (c, passed, next) := Attempt(o, policy, b, attempt, t);
      if next.Wait? {
        var passes' := if passed then passes + 1 else passes;
        RequestIsSerial(o, policy, c, turns, attempt + 1, passes', waits + [next.ms]);
        FoldOne(o, b, CallOf(t), Calls(o, policy, c, turns, attempt + 1));
      } else {
        FoldOne(o, b, CallOf(t), []);
      }
    }
  }

  /**
   * When the breaker opens, for requests one after another: a request leaves it open exactly when
   * the fetches let through in the whole history end in at least `failureThreshold` network errors.
   */
  lemma RequestOpensIff(o: Options, policy: RetryPolicy, history: seq<Call>, turns: seq<Turn>)
    requires |turns| >= policy.maxAttempts && Undisturbed(turns)
    requires o.halfOpenMaxAttempts >= 1 && o.failureThreshold >= 1
    ensures var b := SerialRun(o, history).0;
      var calls := history + Calls(o, policy, b, turns, 1);
      && |SerialRun(o, calls).1| == |calls|
      && (Requested(o, policy, b, turns, 1, 0, []).0.state == OPEN <==>
            TrailingFailures(calls, SerialRun(o, calls).1) >= o.failureThreshold)
  {
    var calls := history + Calls(o, policy, SerialRun(o, history).0, turns, 1);
    RequestIsSerial(o, policy, SerialRun(o, history).0, turns, 1, 0, []);
    SerialRunContinues(o, history, Calls(o, policy, SerialRun(o, history).0, turns, 1));
    SerialRunLength(o, calls);
    SerialRefinesTwoState(o, calls);
    OpenIffTrailingFailures(o, calls);
  }

  /** The network is down, and every retry begins before the breaker's timeout has passed. */
  predicate Outage(o: Options, turns: seq<Turn>) {
    && Undisturbed(turns)
    && (forall t <- turns :: t.fetch == NetworkError)
    && (forall i, j :: 0 <= i < |turns| && 0 <= j < |turns| && j == i + 1 ==>
          turns[j].beginAt - turns[i].endAt < o.resetTimeoutMs)
  }

  /**
   * In an outage a retrying request makes `min(maxAttempts, failures left to the threshold)`
   * fetches: it fails on its last attempt, or the breaker it opened itself rejects the next one.
   */
  lemma {:induction false} OutageTripsBreaker(
    o: Options, policy: RetryPolicy, b: Breaker, turns: seq<Turn>, attempt: int, passes: int, waits: seq<real>)
    requires 1 <= attempt <= policy.maxAttempts <= |turns| && policy.retryOnNetworkError
    requires Outage(o, turns)
    requires b.state == CLOSED && b.failureCount < o.failureThreshold
    ensures var (c, r) := Requested(o, policy, b, turns, attempt, passes, waits);
      var (tries, left) := (policy.maxAttempts - attempt + 1, o.failureThreshold - b.failureCount);
      && r.passes == passes + (if tries <= left then tries else left)
      && r.verdict == (if tries <= left then RequestFailed(policy.maxAttempts) else BreakerOpen)
      && (c.state == OPEN <==> tries >= left)
    decreases policy.maxAttempts - attempt
  {
    assert turns[attempt - 1] in turns;
    var (c, passed, next) := Attempt(o, policy, b, attempt, turns[attempt - 1]);
    if next.Wait? {
      if c.state == CLOSED {
        OutageTripsBreaker(o, policy, c, turns, attempt + 1, passes + 1, waits + [next.ms]);
      } else {
        assert turns[attempt] in turns;
        assert !TimeoutElapsed(o, c, turns[attempt].beginAt);
        assert Attempt(o, policy, c, attempt + 1, turns[attempt]) == (c, false, Stop(BreakerOpen));
      }
    }
  }
}
