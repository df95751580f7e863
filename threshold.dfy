/** Vote-threshold arithmetic: `computeDefaultThreshold` and the percentage
    rounding of the manual quorum-set parser. All divisions are on
    non-negative operands, where C++ and Dafny division agree. */
module Threshold {
  import opened QuorumSets

  /** n = 2f+1, threshold = n - f: the smallest strict majority of n. */
  function SimpleMajority(n: nat): (t: nat)
    requires n >= 1
    ensures 1 <= t <= n
    ensures 2 * t > n && 2 * (t - 1) <= n
    ensures n - t == (n - 1) / 2
  {
    n - (n - 1) / 2
  }

  /** n = 3f+1, threshold = n - f: f is the largest number of faults with 3f < n. */
  function Byzantine(n: nat): (t: nat)
    requires n >= 1
    ensures 1 <= t <= n
    ensures 3 * (n - t) < n && n <= 3 * (n - t + 1)
    ensures n - t == (n - 1) / 3
  {
    n - (n - 1) / 3
  }

  /** `computeDefaultThreshold(qset, simpleMajority)`. */
  function ComputeDefaultThreshold(q: QuorumSet, simpleMajority: bool): (t: nat)
    ensures t == 0 <==> TopSize(q) == 0
    ensures TopSize(q) > 0 ==> 1 <= t <= TopSize(q)
    ensures TopSize(q) > 0 && simpleMajority && q.innerSets == [] ==>
              TopSize(q) - t == (TopSize(q) - 1) / 2 && 2 * t > TopSize(q)
    ensures TopSize(q) > 0 && !(simpleMajority && q.innerSets == []) ==>
              TopSize(q) - t == (TopSize(q) - 1) / 3 && 3 * (TopSize(q) - t) < TopSize(q)
  {
    var topSize := TopSize(q);
    if topSize == 0 then 0
    else if simpleMajority && |q.innerSets| == 0 then SimpleMajority(topSize)
    else Byzantine(topSize)
  }

  /** "round up: n*percent/100", i.e. `1 + (n*percent - 1) / 100` for n >= 1. */
  function PercentThreshold(n: nat, percent: nat): (t: nat)
    requires n >= 1 && 1 <= percent <= 100
    ensures t >= 1
  {
    1 + (n * percent - 1) / 100
  }

  /** The percentage threshold is the ceiling of n*percent/100: the least t with
      100*t >= n*percent. Hence it lies in [1, n] and equals n at 100%. */
  lemma PercentThresholdIsCeiling(n: nat, percent: nat)
    requires n >= 1 && 1 <= percent <= 100
    ensures var t := PercentThreshold(n, percent);
            100 * (t - 1) < n * percent <= 100 * t && 1 <= t <= n
    ensures percent == 100 ==> PercentThreshold(n, percent) == n
  {
    var m := n * percent;
    var t := PercentThreshold(n, percent);
    assert m >= 1 by { MulPositive(n, percent); }
    var d := (m - 1) / 100;
    assert 100 * d <= m - 1 < 100 * d + 100;
    assert m <= 100 * n by { MulMonotone(n, percent, 100); }
    if percent == 100 {
      assert m == 100 * n;
      assert (100 * n - 1) / 100 == n - 1;
    }
  }

  lemma MulPositive(a: nat, b: nat)
    requires a >= 1 && b >= 1
    ensures a * b >= 1
  {
  }

  lemma MulMonotone(a: nat, b: nat, c: nat)
    requires b <= c
    ensures a * b <= a * c
  {
  }
}
