/** Counting time-stamped events over half-open intervals. */
module Intervals {

  /** How many of `times` lie in the half-open interval [lo, hi). */
  function CountIn(times: seq<int>, lo: int, hi: int): nat {
    if times == [] then 0
    else
      var init, last := times[..|times| - 1], times[|times| - 1];
      CountIn(init, lo, hi) + if lo <= last < hi then 1 else 0
  }

  predicate Sorted(times: seq<int>) {
    forall i, j :: 0 <= i < j < |times| ==> times[i] <= times[j]
  }

  /** Every element lies at least `gap` after the element `n` places before it. */
  predicate Spaced(times: seq<int>, n: nat, gap: int) {
    forall i, j :: 0 <= i < |times| && 0 <= j < |times| && j == i + n ==> times[i] + gap <= times[j]
  }

  lemma {:induction false} CountSkipsEarly(times: seq<int>, early: nat, lo: int, hi: int)
    requires early <= |times|
    requires forall i :: 0 <= i < early ==> times[i] < lo
    ensures CountIn(times, lo, hi) <= |times| - early
  {
    if |times| > 0 {
      CountSkipsEarly(times[..|times| - 1], if early == |times| then early - 1 else early, lo, hi);
    }
  }

  /** A sorted, spaced trace puts at most `n` elements into any half-open interval of length `gap`. */
  lemma {:induction false} SpacedBoundsCount(times: seq<int>, n: nat, gap: int, lo: int)
    requires Sorted(times) && Spaced(times, n, gap)
    ensures CountIn(times, lo, lo + gap) <= n
  {
    if |times| > 0 {
      var last := times[|times| - 1];
      if lo <= last < lo + gap {
        var early := if |times| <= n then 0 else |times| - n;
        forall i | 0 <= i < early ensures times[i] < lo {
          assert times[i] <= times[early - 1];
          assert times[early - 1] + gap <= times[early - 1 + n];
        }
        CountSkipsEarly(times, early, lo, lo + gap);
      } else {
        SpacedBoundsCount(times[..|times| - 1], n, gap, lo);
      }
    }
  }
}
