/**
 * The SizeReward wrapper (gridworld/env.py): it keeps the largest
 * intersection seen since the last reset and rewards each step with how
 * much that maximum grew.  The intersection is read from the environment
 * after every step; here it is the argument of Step.
 */
module SizeRewardWrapper {

  function Max(a: int, b: int): (m: int)
    ensures m >= a && m >= b && (m == a || m == b)
  {
    if a >= b then a else b
  }

  /** `size` after the given intersections, starting from 0 at reset. */
  function SizeAfter(intersections: seq<int>): int
  {
    if intersections == [] then 0
    else Max(intersections[|intersections| - 1], SizeAfter(intersections[..|intersections| - 1]))
  }

  /** The first reward term of each step. */
  function Gains(intersections: seq<int>): (gains: seq<int>)
    ensures |gains| == |intersections|
  {
    if intersections == [] then []
    else
      var before := intersections[..|intersections| - 1];
      Gains(before) + [SizeAfter(intersections) - SizeAfter(before)]
  }

  function Sum(xs: seq<int>): int
  {
    if xs == [] then 0 else Sum(xs[..|xs| - 1]) + xs[|xs| - 1]
  }

  /** `size` never decreases: a longer run of steps has at least the size of any prefix. */
  lemma {:induction false} SizeMonotone(intersections: seq<int>, i: nat)
    requires i <= |intersections|
    ensures SizeAfter(intersections[..i]) <= SizeAfter(intersections)
    decreases |intersections|
  {
    if i < |intersections| {
      var before := intersections[..|intersections| - 1];
      assert before[..i] == intersections[..i];
      SizeMonotone(before, i);
    } else {
      assert intersections[..i] == intersections;
    }
  }

  /** `size` is the largest intersection seen, or 0 if none was positive. */
  lemma {:induction false} SizeIsRunningMax(intersections: seq<int>)
    ensures SizeAfter(intersections) >= 0
    ensures forall k :: 0 <= k < |intersections| ==> intersections[k] <= SizeAfter(intersections)
    ensures SizeAfter(intersections) == 0 || exists k :: 0 <= k < |intersections| && intersections[k] == SizeAfter(intersections)
  {
    if intersections != [] {
      var before := intersections[..|intersections| - 1];
      SizeIsRunningMax(before);
      assert forall k :: 0 <= k < |before| ==> before[k] == intersections[k];
    }
  }

  /** Every reward term is non-negative, and they add up to the final size. */
  lemma {:induction false} GainsTelescope(intersections: seq<int>)
    ensures forall k :: 0 <= k < |intersections| ==> Gains(intersections)[k] >= 0
    ensures Sum(Gains(intersections)) == SizeAfter(intersections)
  {
    if intersections != [] {
      var before := intersections[..|intersections| - 1];
      GainsTelescope(before);
      var g := Gains(intersections);
      assert g[..|g| - 1] == Gains(before);
    }
  }

  class SizeReward {
    var size: int
    /** The intersections seen since the last reset. */
    ghost var seen: seq<int>

    ghost predicate Valid()
      reads this
    {
      size == SizeAfter(seen)
    }

    constructor ()
      ensures Valid() && seen == [] && size == 0
    {
      size := 0;
      seen := [];
    }

    method Reset()
      modifies this
      ensures Valid() && seen == [] && size == 0
    {
      size := 0;
      seen := [];
    }

    /** The reward term `max(intersection, size) - size`, and the new size. */
    method Step(intersection: int) returns (gain: int)
      requires Valid()
      modifies this
      ensures Valid() && seen == old(seen) + [intersection]
      ensures gain == SizeAfter(seen) - SizeAfter(old(seen)) && gain >= 0
      ensures size >= old(size) && size >= intersection
    {
      gain := Max(intersection, size) - size;
      size := Max(intersection, size);
      seen := seen + [intersection];
      assert seen[..|seen| - 1] == old(seen);
    }
  }
}
