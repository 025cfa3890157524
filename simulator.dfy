// The simulator end to end: sweep the split at the fixed resolution, then
// summarise the total-reward curve.
module Simulator {
  import opened RewardFormula
  import Sweep
  import opened Summary

  /** The default highlight, 50%, lies exactly halfway between grid points 999
      and 1000 of the 2000-point grid (99900/1999 and 100000/1999). The
      first-index rule breaks the tie in favour of 999. */
  lemma DefaultHighlightTie()
    ensures var splits := Sweep.SplitGrid(Sweep.Resolution);
      && Distance(splits[999], 50.0) == Distance(splits[1000], 50.0)
      && IsFirstArgMin(Distances(splits, 50.0), 999)
  {
    var splits := Sweep.SplitGrid(Sweep.Resolution);
    var d := Distances(splits, 50.0);
    assert splits[999] == Sweep.GridPoint(2000, 999);
    assert splits[1000] == Sweep.GridPoint(2000, 1000);
    assert splits[999] * 1999.0 == 99900.0;
    assert splits[1000] * 1999.0 == 100000.0;
    assert d[999] == 50.0 - splits[999];
    assert d[1000] == splits[1000] - 50.0;
    forall j | 0 <= j < |d|
      ensures d[999] <= d[j]
      ensures j < 999 ==> d[999] < d[j]
    {
      if j < 999 {
        assert splits[j] < splits[999];
      } else if j > 999 {
        assert j == 1000 || splits[1000] < splits[j];
      }
    }
  }

  /** Sweep at Sweep.Resolution points and report the highlighted and the best
      sampled split. `highlightSplit` is a percentage, like the grid. */
  method Simulate(p: Params, highlightSplit: real)
    returns (splits: seq<real>, totals: seq<real>, report: Report)
    requires p.totalVeCrv != 0.0
    ensures splits == Sweep.SplitGrid(Sweep.Resolution) && |totals| == Sweep.Resolution
    ensures forall i :: 0 <= i < |totals| ==> totals[i] == Evaluate(p, splits[i] / 100.0).rewardTotal
    ensures IsFirstArgMax(totals, report.maxIndex)
    ensures report.maxReward == totals[report.maxIndex]
    ensures report.optimalSplit == splits[report.maxIndex]
    ensures IsFirstArgMin(Distances(splits, highlightSplit), report.highlightIndex)
    ensures report.highlightedReward == totals[report.highlightIndex]
    // The two ends of the grid are hit exactly: at 0% only the Curve share is
    // earned, at 100% the formula is read at split fraction 1.
    ensures highlightSplit == 0.0 ==>
      report.highlightIndex == 0 && report.highlightedReward == Evaluate(p, 0.0).rewardCurve
    ensures highlightSplit == 100.0 ==>
      report.highlightIndex == Sweep.Resolution - 1 &&
      report.highlightedReward == Evaluate(p, 1.0).rewardTotal
    // The default highlight of 50% is a tie, resolved to the lower grid point.
    ensures highlightSplit == 50.0 ==>
      report.highlightIndex == 999 && report.highlightedReward == totals[999]
    ensures InSliderRange(p) ==> 0.0 <= report.maxReward <= 100.0
    ensures InSliderRange(p) ==> 0.0 <= report.highlightedReward <= report.maxReward
  {
    var curve, stakeDao;
    splits, curve, stakeDao, totals := Sweep.Run(p, Sweep.Resolution);
    report := Summarize(splits, totals, highlightSplit);
    NothingRouted(p);
    assert splits[0] / 100.0 == 0.0;
    assert splits[Sweep.Resolution - 1] / 100.0 == 1.0;
    if highlightSplit == 50.0 {
      DefaultHighlightTie();
      FirstArgMinUnique(Distances(splits, highlightSplit), report.highlightIndex, 999);
    }
  }
}
