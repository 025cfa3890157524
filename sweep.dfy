// The sweep: evaluate the reward formula on an evenly spaced grid of split
// percentages and collect the Curve, StakeDAO and total shares in three
// parallel lists, index-aligned with the grid.
module Sweep {
  import opened RewardFormula

  /** Number of grid points the simulator samples. */
  const Resolution: nat := 2000

  /** The grid of split percentages: n evenly spaced points from 0 to 100,
      both ends included (numpy's linspace(0, 100, n)). */
  function SplitGrid(n: nat): (splits: seq<real>)
    requires n >= 2
    ensures |splits| == n
    ensures splits[0] == 0.0 && splits[n - 1] == 100.0
    ensures forall i :: 0 <= i < n ==> 0.0 <= splits[i] <= 100.0
    ensures forall i, j :: 0 <= i < j < n ==> splits[i] < splits[j]
  {
    GridIncreasing(n);
    GridPointMonotone(n, 0, n - 1);
    seq(n, i requires 0 <= i < n => GridPoint(n, i))
  }

  /** Grid point i of n: i steps of 100 / (n - 1) from 0. */
  function GridPoint(n: nat, i: nat): (x: real)
    requires n >= 2
    ensures x * ((n - 1) as real) == 100.0 * (i as real)
    ensures x >= 0.0
  {
    100.0 * (i as real) / ((n - 1) as real)
  }

  lemma GridPointMonotone(n: nat, i: nat, j: nat)
    requires n >= 2 && i <= j < n
    ensures GridPoint(n, 0) == 0.0 && GridPoint(n, n - 1) == 100.0
    ensures i < j ==> GridPoint(n, i) < GridPoint(n, j)
    ensures GridPoint(n, i) <= GridPoint(n, j)
  {
    var d := (n - 1) as real;
    assert GridPoint(n, 0) * d == 0.0;
    assert GridPoint(n, n - 1) * d == 100.0 * d;
    if i < j {
      QuotientStrictlyMonotone(100.0 * (i as real), 100.0 * (j as real), d);
    }
  }

  lemma QuotientStrictlyMonotone(a: real, b: real, d: real)
    requires a < b && d > 0.0
    ensures a / d < b / d
  {
    assert b / d - a / d == (b - a) / d;
  }

  lemma GridIncreasing(n: nat)
    requires n >= 2
    ensures forall i :: 0 <= i < n ==> 0.0 <= GridPoint(n, i) <= 100.0
    ensures forall i, j :: 0 <= i < j < n ==> GridPoint(n, i) < GridPoint(n, j)
  {
    forall i, j | 0 <= i < j < n
      ensures GridPoint(n, i) < GridPoint(n, j)
    {
      GridPointMonotone(n, i, j);
    }
    forall i | 0 <= i < n
      ensures 0.0 <= GridPoint(n, i) <= 100.0
    {
      GridPointMonotone(n, 0, i);
      GridPointMonotone(n, i, n - 1);
    }
  }

  /** The loop over the grid: each pass evaluates the formula at split
      fraction splits[i] / 100 and appends the three shares to their lists. */
  method Run(p: Params, n: nat)
    returns (splits: seq<real>, curve: seq<real>, stakeDao: seq<real>, total: seq<real>)
    requires p.totalVeCrv != 0.0 && n >= 2
    ensures splits == SplitGrid(n)
    ensures |curve| == n && |stakeDao| == n && |total| == n
    ensures forall i :: 0 <= i < n ==>
      var sample := Evaluate(p, splits[i] / 100.0);
      curve[i] == sample.rewardCurve && stakeDao[i] == sample.rewardStakeDao &&
      total[i] == sample.rewardTotal
    ensures forall i :: 0 <= i < n ==> total[i] == curve[i] + stakeDao[i]
    ensures stakeDao[0] == 0.0 && total[0] == curve[0]
    ensures InSliderRange(p) ==> forall i :: 0 <= i < n ==>
      0.0 <= curve[i] <= 100.0 && 0.0 <= stakeDao[i] <= 100.0 && 0.0 <= total[i] <= 100.0
  {
    splits := SplitGrid(n);
    var splitFracs := seq(n, i requires 0 <= i < n => splits[i] / 100.0);
    curve, stakeDao, total := [], [], [];
    for i := 0 to n
      invariant |curve| == i && |stakeDao| == i && |total| == i
      invariant forall k :: 0 <= k < i ==>
        var sample := Evaluate(p, splitFracs[k]);
        curve[k] == sample.rewardCurve && stakeDao[k] == sample.rewardStakeDao &&
        total[k] == sample.rewardTotal
    {
      var sample := Evaluate(p, splitFracs[i]);
      curve := curve + [sample.rewardCurve];
      stakeDao := stakeDao + [sample.rewardStakeDao];
      total := total + [sample.rewardTotal];
    }
    NothingRouted(p);
    if InSliderRange(p) {
      forall i | 0 <= i < n
        ensures 0.0 <= curve[i] <= 100.0 && 0.0 <= stakeDao[i] <= 100.0
        ensures 0.0 <= total[i] <= 100.0
      {
        RewardBounds(p, splitFracs[i]);
      }
    }
  }
}
