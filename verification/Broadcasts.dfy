/**
 * Broadcast apportionment: the enqueue loop of
 * apps/api/src/modules/broadcasts/broadcasts.service.ts with its weighted variants, over the
 * round-robin instance strategy.
 */
module Broadcasts {
  import opened Wrappers
  import opened Arithmetic

  const DEFAULT_DELAY_BETWEEN_MS := 2000
  const MIN_VARIANTS_FOR_AB_TEST := 2
  const VARIANT_WEIGHT_TOTAL := 100

  /** Message content stays abstract: only which variant it came from matters. */
  datatype Variant = Variant(name: string, content: string, weight: int)

  datatype Job = Job(
    broadcastId: string, index: nat, instanceId: string, to: string, content: string,
    variantName: Option<string>, delay: int)

  datatype Error = NoInstances | NoRecipients | TooFewVariants | WrongTotal(total: int) | DuplicateNames

  // ---------------------------------------------------------------- variants

  function TotalWeight(variants: seq<Variant>): int {
    if variants == [] then 0
    else TotalWeight(variants[..|variants| - 1]) + variants[|variants| - 1].weight
  }

  /** The sum of the weights before variant `j`. */
  function Prefix(variants: seq<Variant>, j: nat): int
    requires j <= |variants|
  {
    TotalWeight(variants[..j])
  }

  predicate NonNegativeWeights(variants: seq<Variant>) {
    forall v <- variants :: v.weight >= 0
  }

  predicate UniqueNames(variants: seq<Variant>) {
    forall i, j :: 0 <= i < j < |variants| ==> variants[i].name != variants[j].name
  }

  function ValidationError(variants: seq<Variant>): Option<Error> {
    if |variants| < MIN_VARIANTS_FOR_AB_TEST then Some(TooFewVariants)
    else if TotalWeight(variants) != VARIANT_WEIGHT_TOTAL then Some(WrongTotal(TotalWeight(variants)))
    else if !UniqueNames(variants) then Some(DuplicateNames)
    else None
  }

  /** A test of at least two variants of different names whose weights make up 100. */
  predicate Valid(variants: seq<Variant>) {
    |variants| >= 2 && TotalWeight(variants) == 100 && UniqueNames(variants)
  }

  /** Valid tests and no others are accepted; the first fault is reported, in this order. */
  lemma RefusedIff(variants: seq<Variant>)
    ensures ValidationError(variants) == None <==> Valid(variants)
    ensures ValidationError(variants) == Some(TooFewVariants) <==> |variants| < 2
    ensures ValidationError(variants) == Some(WrongTotal(TotalWeight(variants))) <==>
      |variants| >= 2 && TotalWeight(variants) != 100
    ensures ValidationError(variants) == Some(DuplicateNames) <==>
      |variants| >= 2 && TotalWeight(variants) == 100
      && exists i, j :: 0 <= i < j < |variants| && variants[i].name == variants[j].name
  {
  }

  lemma {:induction false} PrefixStep(variants: seq<Variant>, j: nat)
    requires j < |variants|
    ensures Prefix(variants, j + 1) == Prefix(variants, j) + variants[j].weight
  {
    assert variants[..j + 1][..j] == variants[..j];
  }

  lemma {:induction false} PrefixMonotone(variants: seq<Variant>, i: nat, j: nat)
    requires i <= j <= |variants| && NonNegativeWeights(variants)
    ensures Prefix(variants, i) <= Prefix(variants, j)
    decreases j - i
  {
    if i < j {
      PrefixMonotone(variants, i, j - 1);
      PrefixStep(variants, j - 1);
      assert variants[j - 1] in variants;
    }
  }

  /** Recipient `index` falls on variant `j`: the position in the weight cycle lies in its share. */
  predicate Falls(variants: seq<Variant>, index: nat, j: nat)
    requires j < |variants| && TotalWeight(variants) > 0
  {
    Prefix(variants, j) <= index % TotalWeight(variants) < Prefix(variants, j + 1)
  }

  /** The share of variant `i` ends at or before `position`. */
  predicate EndsBefore(variants: seq<Variant>, i: nat, position: int)
    requires i < |variants|
  {
    Prefix(variants, i + 1) <= position
  }

  /**
   * The loop over accumulated weights. With a positive total it always returns from inside
   * the loop, even with negative weights: the last accumulated value is the total.
   * A zero total makes the remainder NaN, so the fallback to the last variant is taken.
   */
  method GetVariantForRecipient(variants: seq<Variant>, index: nat) returns (j: nat)
    requires variants != []
    ensures j < |variants|
    ensures TotalWeight(variants) > 0 ==>
      && index % TotalWeight(variants) < Prefix(variants, j + 1)
      && forall i :: 0 <= i < j ==> EndsBefore(variants, i, index % TotalWeight(variants))
    ensures TotalWeight(variants) > 0 && NonNegativeWeights(variants) ==>
      forall i :: 0 <= i < |variants| ==> (Falls(variants, index, i) <==> i == j)
    ensures TotalWeight(variants) == 0 ==> j == |variants| - 1
  {
    var totalWeight := TotalWeight(variants);
    assert variants[..|variants|] == variants;
    if totalWeight == 0 {
      return |variants| - 1;
    }
    var normalizedPosition := index % (if totalWeight < 0 then -totalWeight else totalWeight);
    var accumulated := 0;
    for k := 0 to |variants|
      invariant accumulated == Prefix(variants, k)
      invariant forall i :: 0 <= i < k ==> EndsBefore(variants, i, normalizedPosition)
    {
      PrefixStep(variants, k);
      accumulated := accumulated + variants[k].weight;
      if normalizedPosition < accumulated {
        if totalWeight > 0 && NonNegativeWeights(variants) {
          FallsOnlyOnce(variants, index, k);
        }
        return k;
      }
    }
    assert EndsBefore(variants, |variants| - 1, normalizedPosition);
    j := |variants| - 1;
  }

  lemma FallsOnlyOnce(variants: seq<Variant>, index: nat, k: nat)
    requires k < |variants| && TotalWeight(variants) > 0 && NonNegativeWeights(variants)
    requires index % TotalWeight(variants) < Prefix(variants, k + 1)
    requires forall i :: 0 <= i < k ==> EndsBefore(variants, i, index % TotalWeight(variants))
    ensures forall i :: 0 <= i < |variants| ==> (Falls(variants, index, i) <==> i == k)
  {
    var position := index % TotalWeight(variants);
    forall i | 0 <= i < |variants| ensures Falls(variants, index, i) <==> i == k {
      if i > k {
        PrefixMonotone(variants, k + 1, i);
      } else if i < k {
        assert EndsBefore(variants, i, position);
      } else if k > 0 {
        assert EndsBefore(variants, k - 1, position);
      } else {
        assert Prefix(variants, 0) == 0;
      }
    }
  }

  // ---------------------------------------------------------------- the enqueue loop

  function SelectInstance(pool: seq<string>, index: nat): string
    requires pool != []
  {
    pool[index % |pool|]
  }

  /** What the job of recipient `i` must be. */
  predicate IsJobFor(job: Job, id: string, pool: seq<string>, recipients: seq<string>, content: string,
    variants: seq<Variant>, delay: int, i: nat)
    requires pool != [] && i < |recipients|
  {
    && job.broadcastId == id && job.index == i && job.to == recipients[i]
    && job.instanceId == pool[i % |pool|] && job.delay == i * delay
    && if variants == [] then job.content == content && job.variantName == None
       else
         TotalWeight(variants) > 0 && NonNegativeWeights(variants) ==>
           exists j :: 0 <= j < |variants| && Falls(variants, i, j)
             && job.content == variants[j].content && job.variantName == Some(variants[j].name)
  }

  /** One job for each recipient, in order. */
  predicate Planned(jobs: seq<Job>, id: string, pool: seq<string>, recipients: seq<string>, content: string,
    variants: seq<Variant>, delay: int)
    requires pool != []
  {
    && |jobs| == |recipients|
    && forall i :: 0 <= i < |jobs| ==> IsJobFor(jobs[i], id, pool, recipients, content, variants, delay, i)
  }

  method Create(id: string, pool: seq<string>, recipients: seq<string>, content: string,
    variants: seq<Variant>, delayBetweenMs: Option<int>) returns (r: Result<seq<Job>, Error>)
    ensures r.Ok? <==> pool != [] && recipients != [] && (variants == [] || Valid(variants))
    ensures r == Err(NoInstances) <==> pool == []
    ensures r == Err(NoRecipients) <==> pool != [] && recipients == []
    ensures pool != [] && recipients != [] && r.Err? ==> Some(r.error) == ValidationError(variants)
    ensures r.Ok? ==>
      var delay := if delayBetweenMs.Some? then delayBetweenMs.value else DEFAULT_DELAY_BETWEEN_MS;
      Planned(r.value, id, pool, recipients, content, variants, delay)
  {
    if pool == [] {
      return Err(NoInstances);
    }
    if recipients == [] {
      return Err(NoRecipients);
    }
    if variants != [] && ValidationError(variants).Some? {
      return Err(ValidationError(variants).value);
    }
    var delay := if delayBetweenMs.Some? then delayBetweenMs.value else DEFAULT_DELAY_BETWEEN_MS;
    var jobs := [];
    for i := 0 to |recipients|
      invariant |jobs| == i
      invariant forall k :: 0 <= k < i ==>
        IsJobFor(jobs[k], id, pool, recipients, content, variants, delay, k)
    {
      var instanceId := SelectInstance(pool, i);
      var chosen, name := content, None;
      if variants != [] {
        var j := GetVariantForRecipient(variants, i);
        chosen, name := variants[j].content, Some(variants[j].name);
      }
      jobs := jobs + [Job(id, i, instanceId, recipients[i], chosen, name, i * delay)];
    }
    return Ok(jobs);
  }

  // ---------------------------------------------------------------- apportionment

  /** How many of the recipients 0..n fall on variant `j`. */
  function VariantCount(variants: seq<Variant>, j: nat, n: nat): nat
    requires j < |variants| && TotalWeight(variants) > 0
  {
    if n == 0 then 0
    else VariantCount(variants, j, n - 1) + if Falls(variants, n - 1, j) then 1 else 0
  }

  lemma DivModNext(n: nat, d: int)
    requires d > 0
    ensures n % d + 1 < d ==> (n + 1) / d == n / d && (n + 1) % d == n % d + 1
    ensures n % d + 1 == d ==> (n + 1) / d == n / d + 1 && (n + 1) % d == 0
  {
    if n % d + 1 < d {
      DivUnique(n + 1, d, n / d, n % d + 1);
    } else {
      DivUnique(n + 1, d, n / d + 1, 0);
    }
  }

  /** What a partial cycle of `n` recipients gives to a share of `w` that starts at `start`. */
  function PartialShare(start: int, w: int, n: int): int {
    Max(0, Min(w, n - start))
  }

  lemma CycleStep(q: int, w: int)
    ensures (q + 1) * w == q * w + w
  {
  }

  lemma ShareFits(variants: seq<Variant>, j: nat)
    requires j < |variants| && NonNegativeWeights(variants)
    ensures 0 <= Prefix(variants, j) && Prefix(variants, j) + variants[j].weight <= TotalWeight(variants)
    ensures Prefix(variants, j + 1) == Prefix(variants, j) + variants[j].weight && variants[j].weight >= 0
  {
    PrefixStep(variants, j);
    assert Prefix(variants, 0) == 0 && variants[..|variants|] == variants;
    PrefixMonotone(variants, 0, j);
    PrefixMonotone(variants, j + 1, |variants|);
    assert variants[j] in variants;
  }

  /**
   * Of `n` recipients, variant `j` gets its weight once per full cycle, and of the last,
   * partial cycle what reaches into its share.
   */
  lemma {:induction false} VariantApportionment(variants: seq<Variant>, j: nat, n: nat)
    requires j < |variants| && TotalWeight(variants) > 0 && NonNegativeWeights(variants)
    ensures var total, w := TotalWeight(variants), variants[j].weight;
      VariantCount(variants, j, n) == n / total * w + PartialShare(Prefix(variants, j), w, n % total)
  {
    var total, w := TotalWeight(variants), variants[j].weight;
    ShareFits(variants, j);
    if n == 0 {
      DivUnique(0, total, 0, 0);
    } else {
      VariantApportionment(variants, j, n - 1);
      DivModNext(n - 1, total);
      CycleStep((n - 1) / total, w);
    }
  }

  /** How many of the recipients 0..n go to pool position `r`. */
  function InstanceCount(k: nat, r: nat, n: nat): nat
    requires k > 0
  {
    if n == 0 then 0 else InstanceCount(k, r, n - 1) + if (n - 1) % k == r then 1 else 0
  }

  lemma {:induction false} InstanceApportionment(k: nat, r: nat, n: nat)
    requires r < k
    ensures InstanceCount(k, r, n) == n / k + if r < n % k then 1 else 0
  {
    if n == 0 {
      DivUnique(0, k, 0, 0);
    } else {
      InstanceApportionment(k, r, n - 1);
      DivModNext(n - 1, k);
    }
  }

  predicate Distinct(pool: seq<string>) {
    forall i, j :: 0 <= i < j < |pool| ==> pool[i] != pool[j]
  }

  /** The jobs go round the pool. */
  predicate RoundRobin(jobs: seq<Job>, pool: seq<string>)
    requires pool != []
  {
    forall i :: 0 <= i < |jobs| ==> jobs[i].instanceId == SelectInstance(pool, i)
  }

  /** How many of the jobs an instance gets. */
  function Load(jobs: seq<Job>, instanceId: string): nat {
    if jobs == [] then 0
    else
      Load(jobs[..|jobs| - 1], instanceId) + if jobs[|jobs| - 1].instanceId == instanceId then 1 else 0
  }

  lemma {:induction false} LoadIsCount(jobs: seq<Job>, pool: seq<string>, r: nat)
    requires r < |pool| && Distinct(pool) && RoundRobin(jobs, pool)
    ensures Load(jobs, pool[r]) == InstanceCount(|pool|, r, |jobs|)
  {
    if jobs != [] {
      LoadIsCount(jobs[..|jobs| - 1], pool, r);
    }
  }

  /** With distinct pool ids, the jobs of a broadcast that each instance gets: loads differ by at most one. */
  lemma InstanceLoads(jobs: seq<Job>, id: string, pool: seq<string>, recipients: seq<string>, content: string,
    variants: seq<Variant>, delay: int, r: nat, s: nat)
    requires r < |pool| && s < |pool| && Distinct(pool)
    requires Planned(jobs, id, pool, recipients, content, variants, delay)
    ensures Load(jobs, pool[r]) == |recipients| / |pool| + if r < |recipients| % |pool| then 1 else 0
    ensures Load(jobs, pool[r]) <= Load(jobs, pool[s]) + 1
  {
    LoadIsCount(jobs, pool, r);
    LoadIsCount(jobs, pool, s);
    InstanceApportionment(|pool|, r, |jobs|);
    InstanceApportionment(|pool|, s, |jobs|);
  }

  lemma SameResidueApart(k: nat, a: nat, b: nat)
    requires k > 0 && a < b && a % k == b % k
    ensures b - a >= k
  {
    if b - a < k {
      var d := b / k - a / k;
      assert b - a == k * d by {
        assert b == k * (b / k) + b % k && a == k * (a / k) + a % k;
      }
      if d >= 1 {
        MulMono(k, 1, d);
      } else {
        MulMono(k, d, 0);
      }
      assert false;
    }
  }

  /** With distinct pool ids, two jobs of one instance are at least a full round of delays apart. */
  lemma SameInstanceSpacing(jobs: seq<Job>, id: string, pool: seq<string>, recipients: seq<string>, content: string,
    variants: seq<Variant>, delay: nat, a: nat, b: nat)
    requires pool != [] && Distinct(pool)
    requires Planned(jobs, id, pool, recipients, content, variants, delay)
    requires a < b < |jobs| && jobs[a].instanceId == jobs[b].instanceId
    ensures jobs[b].delay - jobs[a].delay >= |pool| * delay
  {
    assert IsJobFor(jobs[a], id, pool, recipients, content, variants, delay, a);
    assert IsJobFor(jobs[b], id, pool, recipients, content, variants, delay, b);
    SameResidueApart(|pool|, a, b);
    MulMono(delay, |pool|, b - a);
    assert b * delay - a * delay == delay * (b - a);
  }

  // ---------------------------------------------------------------- instances crossed with variants

  /** No common divisor but 1. */
  ghost predicate Coprime(a: int, b: int) {
    forall d: int :: d > 0 && Divides(d, a) && Divides(d, b) ==> d == 1
  }

  predicate Divides(d: int, a: int)
    requires d > 0
  {
    a % d == 0
  }

  lemma DividesMultiple(d: int, a: int, b: int)
    requires d > 0 && Divides(d, a)
    ensures Divides(d, a * b)
  {
    assert a == d * (a / d);
    assert a * b == d * (a / d * b);
    DivUnique(a * b, d, a / d * b, 0);
  }

  lemma DividesSum(d: int, a: int, b: int)
    requires d > 0 && Divides(d, a) && Divides(d, b)
    ensures Divides(d, a + b)
  {
    assert a + b == d * (a / d + b / d);
    DivUnique(a + b, d, a / d + b / d, 0);
  }

  lemma DividesDividend(d: int, a: int, b: int)
    requires b > 0 && d > 0 && Divides(d, b) && Divides(d, a % b)
    ensures Divides(d, a)
  {
    DividesMultiple(d, b, a / b);
    DividesSum(d, b * (a / b), a % b);
    assert a == b * (a / b) + a % b;
  }

  lemma BezoutStep(b: int, q: int, r: int, u: int, v: int)
    ensures (b * q + r) * v + b * (u - q * v) == b * u + r * v
  {
  }

  /** Bezout's identity, by Euclid's algorithm. */
  lemma Bezout(a: int, b: int) returns (x: int, y: int)
    requires a > 0 && b >= 0 && Coprime(a, b)
    ensures a * x + b * y == 1
    decreases b
  {
    if b == 0 {
      DivUnique(a, a, 1, 0);
      DivUnique(0, a, 0, 0);
      assert Divides(a, a) && Divides(a, b);
      x, y := 1, 0;
    } else {
      var q, r := a / b, a % b;
      forall d: int | d > 0 && Divides(d, b) && Divides(d, r) ensures d == 1 {
        DividesDividend(d, a, b);
      }
      var u, v := Bezout(b, r);
      x, y := v, u - q * v;
      BezoutStep(b, q, r, u, v);
    }
  }

  /** If a divides n * b and is coprime to b, it divides n. */
  lemma EuclidsLemma(a: int, b: int, n: int)
    requires a > 0 && b > 0 && Coprime(a, b) && Divides(a, n * b)
    ensures Divides(a, n)
  {
    var x, y := Bezout(a, b);
    assert n == a * (n * x) + (n * b) * y by {
      assert n * (a * x + b * y) == n;
    }
    DivUnique(a * (n * x), a, n * x, 0);
    DividesMultiple(a, n * b, y);
    DividesSum(a, a * (n * x), n * b * y);
  }

  /** How many of the `n` recipients from `from` on have residue `r` modulo k and `c` modulo t. */
  function PairCount(k: nat, r: nat, t: nat, c: nat, from: nat, n: nat): nat
    requires k > 0 && t > 0
  {
    if n == 0 then 0
    else
      PairCount(k, r, t, c, from, n - 1)
      + if (from + n - 1) % k == r && (from + n - 1) % t == c then 1 else 0
  }

  lemma {:induction false} PairCountZero(k: nat, r: nat, t: nat, c: nat, from: nat, n: nat)
    requires k > 0 && t > 0
    requires forall i :: from <= i < from + n ==> !(i % k == r && i % t == c)
    ensures PairCount(k, r, t, c, from, n) == 0
  {
    if n > 0 {
      PairCountZero(k, r, t, c, from, n - 1);
    }
  }

  lemma {:induction false} PairCountOne(k: nat, r: nat, t: nat, c: nat, from: nat, n: nat, at: nat)
    requires k > 0 && t > 0 && from <= at < from + n
    requires forall i :: from <= i < from + n ==> (i % k == r && i % t == c <==> i == at)
    ensures PairCount(k, r, t, c, from, n) == 1
  {
    if at == from + n - 1 {
      PairCountZero(k, r, t, c, from, n - 1);
    } else {
      PairCountOne(k, r, t, c, from, n - 1, at);
    }
  }

  lemma ModOfSum(x: int, d: int, m: int)
    requires d > 0
    ensures (x + d * m) % d == x % d
  {
    assert x + d * m == d * (x / d + m) + x % d by {
      assert x == d * (x / d) + x % d;
    }
    DivUnique(x + d * m, d, x / d + m, x % d);
  }

  lemma SameResidueDivides(a: int, b: int, d: int)
    requires d > 0 && a % d == b % d
    ensures Divides(d, a - b)
  {
    DivUnique(a - b, d, a / d - b / d, 0);
  }

  lemma ResidueOf(z: int, r: nat, d: nat, m: int)
    requires r < d && z == r + d * m
    ensures z % d == r
  {
    DivUnique(z, d, m, r);
  }

  /** The Chinese remainder theorem: every residue pair occurs. */
  lemma PairSolvable(k: nat, r: nat, t: nat, c: nat) returns (z: int)
    requires r < k && c < t && Coprime(k, t)
    ensures z % k == r && z % t == c
  {
    var x, y := Bezout(k, t);
    z := r + k * (x * (c - r));
    ResidueOf(z, r, k, x * (c - r));
    assert z == c + t * (y * (r - c)) by {
      assert (k * x) * (c - r) == (1 - t * y) * (c - r);
    }
    ResidueOf(z, c, t, y * (r - c));
  }

  /** It occurs inside any window of k * t numbers. */
  lemma PairExists(k: nat, r: nat, t: nat, c: nat, from: nat) returns (at: nat)
    requires r < k && c < t && Coprime(k, t)
    ensures from <= at < from + k * t && at % k == r && at % t == c
  {
    var z := PairSolvable(k, r, t, c);
    var m := k * t;
    MulMono(k, 1, t);
    var q := (z - from) / m;
    at := from + (z - from) % m;
    assert at == z + m * -q;
    assert m * -q == k * (t * -q) == t * (k * -q);
    ModOfSum(z, k, t * -q);
    ModOfSum(z, t, k * -q);
  }

  /** Equal residue pairs are a multiple of k * t apart. */
  lemma PairUnique(k: nat, t: nat, a: int, b: int)
    requires k > 0 && t > 0 && Coprime(k, t)
    requires a % k == b % k && a % t == b % t && -(k * t) < a - b < k * t
    ensures a == b
  {
    SameResidueDivides(a, b, k);
    SameResidueDivides(a, b, t);
    var n := (a - b) / t;
    assert a - b == n * t;
    EuclidsLemma(k, t, n);
    var p := n / k;
    assert a - b == k * t * p by {
      assert n == k * p;
      assert n * t == k * p * t;
    }
    if p >= 1 {
      MulMono(k * t, 1, p);
    } else if p <= -1 {
      MulMono(k * t, p, -1);
    }
  }

  lemma EachResiduePairOnce(k: nat, r: nat, t: nat, c: nat, from: nat)
    requires r < k && c < t && Coprime(k, t)
    ensures PairCount(k, r, t, c, from, k * t) == 1
  {
    var at := PairExists(k, r, t, c, from);
    forall i | from <= i < from + k * t ensures i % k == r && i % t == c <==> i == at {
      if i % k == r && i % t == c {
        PairUnique(k, t, i, at);
      }
    }
    PairCountOne(k, r, t, c, from, k * t, at);
  }

  /** Uses of (pool position r, variant j) among the `n` recipients from `from` on. */
  function UseCount(k: nat, r: nat, variants: seq<Variant>, j: nat, from: nat, n: nat): nat
    requires k > 0 && j < |variants| && TotalWeight(variants) > 0
  {
    if n == 0 then 0
    else
      UseCount(k, r, variants, j, from, n - 1)
      + if (from + n - 1) % k == r && Falls(variants, from + n - 1, j) then 1 else 0
  }

  /** The residue pairs (r, c) with lo <= c < hi, counted together. */
  function PairsCount(k: nat, r: nat, t: nat, lo: nat, hi: nat, from: nat, n: nat): nat
    requires k > 0 && t > 0 && lo <= hi
    decreases hi - lo
  {
    if lo == hi then 0 else PairCount(k, r, t, lo, from, n) + PairsCount(k, r, t, lo + 1, hi, from, n)
  }

  lemma {:induction false} PairsCountStep(k: nat, r: nat, t: nat, lo: nat, hi: nat, from: nat, n: nat)
    requires k > 0 && t > 0 && lo <= hi && n > 0
    ensures PairsCount(k, r, t, lo, hi, from, n)
         == PairsCount(k, r, t, lo, hi, from, n - 1)
          + if (from + n - 1) % k == r && lo <= (from + n - 1) % t < hi then 1 else 0
    decreases hi - lo
  {
    if lo < hi {
      PairsCountStep(k, r, t, lo + 1, hi, from, n);
    }
  }

  lemma {:induction false} PairsCountEmpty(k: nat, r: nat, t: nat, lo: nat, hi: nat, from: nat)
    requires k > 0 && t > 0 && lo <= hi
    ensures PairsCount(k, r, t, lo, hi, from, 0) == 0
    decreases hi - lo
  {
    if lo < hi {
      PairsCountEmpty(k, r, t, lo + 1, hi, from);
    }
  }

  lemma {:induction false} UsesArePairs(k: nat, r: nat, variants: seq<Variant>, j: nat, from: nat, n: nat)
    requires k > 0 && j < |variants| && TotalWeight(variants) > 0
    requires 0 <= Prefix(variants, j) <= Prefix(variants, j + 1)
    ensures UseCount(k, r, variants, j, from, n)
         == PairsCount(k, r, TotalWeight(variants), Prefix(variants, j), Prefix(variants, j + 1), from, n)
  {
    var t, lo, hi := TotalWeight(variants), Prefix(variants, j), Prefix(variants, j + 1);
    if n == 0 {
      PairsCountEmpty(k, r, t, lo, hi, from);
    } else {
      UsesArePairs(k, r, variants, j, from, n - 1);
      PairsCountStep(k, r, t, lo, hi, from, n);
    }
  }

  lemma {:induction false} PairsCountExact(k: nat, r: nat, t: nat, lo: nat, hi: nat, from: nat)
    requires r < k && lo <= hi <= t && t > 0 && Coprime(k, t)
    ensures PairsCount(k, r, t, lo, hi, from, k * t) == hi - lo
    decreases hi - lo
  {
    if lo < hi {
      EachResiduePairOnce(k, r, t, lo, from);
      PairsCountExact(k, r, t, lo + 1, hi, from);
    }
  }

  /**
   * If the pool size is coprime to the total weight, then in any `k * total` consecutive
   * recipients every (instance, variant) pair is used exactly `weight` times.
   */
  lemma PairsUsedByWeight(k: nat, r: nat, variants: seq<Variant>, j: nat, from: nat)
    requires r < k && j < |variants| && NonNegativeWeights(variants)
    requires TotalWeight(variants) > 0 && Coprime(k, TotalWeight(variants))
    ensures UseCount(k, r, variants, j, from, k * TotalWeight(variants)) == variants[j].weight
  {
    ShareFits(variants, j);
    UsesArePairs(k, r, variants, j, from, k * TotalWeight(variants));
    PairsCountExact(k, r, TotalWeight(variants), Prefix(variants, j), Prefix(variants, j + 1), from);
  }

  /** The validated case: 100 * k consecutive recipients, k coprime to 100. */
  lemma ValidatedPairsUsedByWeight(k: nat, r: nat, variants: seq<Variant>, j: nat, from: nat)
    requires ValidationError(variants) == None && NonNegativeWeights(variants)
    requires r < k && j < |variants| && Coprime(k, 100)
    ensures UseCount(k, r, variants, j, from, 100 * k) == variants[j].weight
  {
    PairsUsedByWeight(k, r, variants, j, from);
  }

  // ---------------------------------------------------------------- the same, read off the jobs

  predicate ValidWeights(variants: seq<Variant>) {
    ValidationError(variants) == None && NonNegativeWeights(variants)
  }

  /** Each job names the variant that its index falls on. */
  predicate Labelled(jobs: seq<Job>, variants: seq<Variant>)
    requires TotalWeight(variants) > 0
  {
    forall i, j :: 0 <= i < |jobs| && 0 <= j < |variants| ==>
      (jobs[i].variantName == Some(variants[j].name) <==> Falls(variants, i, j))
  }

  lemma FallsOnOne(variants: seq<Variant>, index: nat, i: nat, j: nat)
    requires i < |variants| && j < |variants| && TotalWeight(variants) > 0 && NonNegativeWeights(variants)
    requires Falls(variants, index, i) && Falls(variants, index, j)
    ensures i == j
  {
    if i < j {
      PrefixMonotone(variants, i + 1, j);
    } else if j < i {
      PrefixMonotone(variants, j + 1, i);
    }
  }

  lemma PlannedIsLabelled(jobs: seq<Job>, id: string, pool: seq<string>, recipients: seq<string>, content: string,
    variants: seq<Variant>, delay: int)
    requires pool != [] && ValidWeights(variants)
    requires Planned(jobs, id, pool, recipients, content, variants, delay)
    ensures Labelled(jobs, variants)
  {
    forall i, j | 0 <= i < |jobs| && 0 <= j < |variants|
      ensures jobs[i].variantName == Some(variants[j].name) <==> Falls(variants, i, j)
    {
      assert IsJobFor(jobs[i], id, pool, recipients, content, variants, delay, i);
      var m :| 0 <= m < |variants| && Falls(variants, i, m) && jobs[i].variantName == Some(variants[m].name);
      if Falls(variants, i, j) {
        FallsOnOne(variants, i, m, j);
      }
    }
  }

  /** How many of the jobs carry a variant. */
  function Share(jobs: seq<Job>, name: string): nat {
    if jobs == [] then 0
    else Share(jobs[..|jobs| - 1], name) + if jobs[|jobs| - 1].variantName == Some(name) then 1 else 0
  }

  lemma {:induction false} ShareIsCount(jobs: seq<Job>, variants: seq<Variant>, j: nat)
    requires j < |variants| && TotalWeight(variants) > 0 && Labelled(jobs, variants)
    ensures Share(jobs, variants[j].name) == VariantCount(variants, j, |jobs|)
  {
    if jobs != [] {
      ShareIsCount(jobs[..|jobs| - 1], variants, j);
    }
  }

  /** The share of the jobs of a broadcast that carries variant `j`. */
  lemma VariantShares(jobs: seq<Job>, id: string, pool: seq<string>, recipients: seq<string>, content: string,
    variants: seq<Variant>, delay: int, j: nat)
    requires pool != [] && ValidWeights(variants) && j < |variants|
    requires Planned(jobs, id, pool, recipients, content, variants, delay)
    ensures Share(jobs, variants[j].name)
         == |recipients| / 100 * variants[j].weight
          + PartialShare(Prefix(variants, j), variants[j].weight, |recipients| % 100)
  {
    PlannedIsLabelled(jobs, id, pool, recipients, content, variants, delay);
    ShareIsCount(jobs, variants, j);
    VariantApportionment(variants, j, |jobs|);
  }

  /** The job names a variant, and carries the content of every variant of that name. */
  predicate NamesItsContent(job: Job, variants: seq<Variant>) {
    && (exists v <- variants :: job.variantName == Some(v.name))
    && (forall v <- variants :: job.variantName == Some(v.name) ==> job.content == v.content)
  }

  /**
   * Every recipient gets one job, in order, under the broadcast's id and its own index, and with
   * the content of the variant the job names or, without variants, that of the broadcast.
   */
  lemma JobsServeRecipients(jobs: seq<Job>, id: string, pool: seq<string>, recipients: seq<string>, content: string,
    variants: seq<Variant>, delay: int)
    requires pool != [] && (variants != [] ==> ValidWeights(variants))
    requires Planned(jobs, id, pool, recipients, content, variants, delay)
    ensures seq(|jobs|, i requires 0 <= i < |jobs| => jobs[i].to) == recipients
    ensures forall i :: 0 <= i < |jobs| ==> jobs[i].broadcastId == id && jobs[i].index == i
    ensures variants == [] ==> forall job <- jobs :: job.content == content && job.variantName == None
    ensures variants != [] ==> forall job <- jobs :: NamesItsContent(job, variants)
  {
    if variants != [] {
      forall i | 0 <= i < |jobs| ensures NamesItsContent(jobs[i], variants) {
        assert IsJobFor(jobs[i], id, pool, recipients, content, variants, delay, i);
        assert UniqueNames(variants);
      }
    }
  }

  /** How many of the `n` jobs from `from` on use an instance with a variant. */
  function Uses(jobs: seq<Job>, instanceId: string, name: string, from: nat, n: nat): nat
    requires from + n <= |jobs|
  {
    if n == 0 then 0
    else
      Uses(jobs, instanceId, name, from, n - 1)
      + if jobs[from + n - 1].instanceId == instanceId && jobs[from + n - 1].variantName == Some(name) then 1 else 0
  }

  lemma {:induction false} UsesAreCounted(jobs: seq<Job>, pool: seq<string>, variants: seq<Variant>,
    r: nat, j: nat, from: nat, n: nat)
    requires r < |pool| && j < |variants| && TotalWeight(variants) > 0 && from + n <= |jobs|
    requires Distinct(pool) && RoundRobin(jobs, pool) && Labelled(jobs, variants)
    ensures Uses(jobs, pool[r], variants[j].name, from, n) == UseCount(|pool|, r, variants, j, from, n)
  {
    if n > 0 {
      UsesAreCounted(jobs, pool, variants, r, j, from, n - 1);
      assert SelectInstance(pool, from + n - 1) == pool[r] <==> (from + n - 1) % |pool| == r;
    }
  }

  /**
   * Of the jobs of a broadcast over a pool of distinct ids whose size k is coprime to 100, any
   * 100 * k consecutive ones use every (instance, variant) pair exactly `weight` times.
   */
  lemma JobsUsedByWeight(jobs: seq<Job>, id: string, pool: seq<string>, recipients: seq<string>, content: string,
    variants: seq<Variant>, delay: int, r: nat, j: nat, from: nat)
    requires r < |pool| && Distinct(pool) && Coprime(|pool|, 100)
    requires ValidWeights(variants) && j < |variants|
    requires Planned(jobs, id, pool, recipients, content, variants, delay) && from + 100 * |pool| <= |jobs|
    ensures Uses(jobs, pool[r], variants[j].name, from, 100 * |pool|) == variants[j].weight
  {
    PlannedIsLabelled(jobs, id, pool, recipients, content, variants, delay);
    UsesAreCounted(jobs, pool, variants, r, j, from, 100 * |pool|);
    ValidatedPairsUsedByWeight(|pool|, r, variants, j, from);
  }

  // ---------------------------------------------------------------- other pool sizes

  /**
   * Coprimality is needed: if d > 1 divides both the pool size and the total, a variant whose
   * weight is between 1 and d - 1 is never used with some instance, however many recipients there are.
   */
  lemma SharedDivisorStarves(k: nat, variants: seq<Variant>, j: nat, d: nat, from: nat, n: nat)
    requires k > 0 && j < |variants| && NonNegativeWeights(variants) && TotalWeight(variants) > 0
    requires d > 1 && Divides(d, k) && Divides(d, TotalWeight(variants))
    requires 0 < variants[j].weight < d
    ensures exists r :: 0 <= r < k && UseCount(k, r, variants, j, from, n) == 0
  {
    var t, lo, w := TotalWeight(variants), Prefix(variants, j), variants[j].weight;
    PrefixStep(variants, j);
    var r := (lo + w) % d;
    assert r < k by {
      assert k == d * (k / d);
      if k / d < 1 {
        MulMono(d, k / d, 0);
      } else {
        MulMono(d, 1, k / d);
      }
    }
    forall i | from <= i < from + n ensures !(i % k == r && Falls(variants, i, j)) {
      if i % k == r && Falls(variants, i, j) {
        ResidueOfResidue(i, k, d);
        ResidueOfResidue(i, t, d);
        var c := i % t;
        DivUnique(r, d, 0, r);
        assert c % d == (lo + w) % d;
        SameResidueDivides(lo + w, c, d);
        assert 0 < lo + w - c < d;
        DivUnique(lo + w - c, d, 0, lo + w - c);
        assert false;
      }
    }
    NoUses(k, r, variants, j, from, n);
  }

  lemma ResidueOfResidue(i: int, k: int, d: int)
    requires k > 0 && d > 0 && Divides(d, k)
    ensures (i % k) % d == i % d
  {
    assert i == i % k + d * (k / d * (i / k)) by {
      assert i == k * (i / k) + i % k;
      assert k == d * (k / d);
    }
    ModOfSum(i % k, d, k / d * (i / k));
  }

  lemma {:induction false} NoUses(k: nat, r: nat, variants: seq<Variant>, j: nat, from: nat, n: nat)
    requires k > 0 && j < |variants| && TotalWeight(variants) > 0
    requires forall i :: from <= i < from + n ==> !(i % k == r && Falls(variants, i, j))
    ensures UseCount(k, r, variants, j, from, n) == 0
  {
    if n > 0 {
      NoUses(k, r, variants, j, from, n - 1);
    }
  }

  /** Every (instance, variant) pair is used exactly `weight` times in every 100 * k recipients. */
  ghost predicate Exact(k: nat, variants: seq<Variant>)
    requires k > 0 && TotalWeight(variants) == 100
  {
    forall r: nat, j: nat, from: nat ::
      r < k && j < |variants| ==> UseCount(k, r, variants, j, from, 100 * k) == variants[j].weight
  }

  /** The exact condition: pools coprime to 100, and only those, serve every valid A/B test exactly. */
  lemma ExactIffCoprime(k: nat)
    requires k > 0
    ensures Coprime(k, 100) <==>
      forall variants: seq<Variant> :: ValidWeights(variants) ==> Exact(k, variants)
  {
    if Coprime(k, 100) {
      forall variants: seq<Variant>, r: nat, j: nat, from: nat
        | ValidWeights(variants) && r < k && j < |variants|
        ensures UseCount(k, r, variants, j, from, 100 * k) == variants[j].weight
      {
        ValidatedPairsUsedByWeight(k, r, variants, j, from);
      }
    } else {
      var d: int :| d > 0 && Divides(d, k) && Divides(d, 100) && d != 1;
      var a, b := Variant("a", "", 1), Variant("b", "", 99);
      var variants := [a, b];
      assert variants[..1] == [a];
      assert TotalWeight([a]) == 1;
      assert TotalWeight(variants) == 100;
      assert ValidationError(variants) == None;
      SharedDivisorStarves(k, variants, 0, d, 0, 100 * k);
      assert !Exact(k, variants);
    }
  }
}
