// The summary lookups over a finished sweep: the reward at the grid point
// nearest the highlighted split, and the first grid point with the largest
// total reward. Both are numpy-style searches that break ties by the lowest
// index.
module Summary {

  /** |x - h|. */
  function Distance(x: real, h: real): (d: real)
    ensures d >= 0.0
    ensures d == 0.0 <==> x == h
  {
    if x >= h then x - h else h - x
  }

  /** |splits - h| element by element. */
  function Distances(splits: seq<real>, h: real): (d: seq<real>)
    ensures |d| == |splits|
    ensures forall i :: 0 <= i < |splits| ==> d[i] == Distance(splits[i], h)
  {
    seq(|splits|, i requires 0 <= i < |splits| => Distance(splits[i], h))
  }

  /** k is the first index holding the largest value (numpy's argmax). */
  predicate IsFirstArgMax(values: seq<real>, k: nat) {
    && k < |values|
    && (forall j :: 0 <= j < |values| ==> values[j] <= values[k])
    && (forall j :: 0 <= j < k ==> values[j] < values[k])
  }

  /** k is the first index holding the smallest value (numpy's argmin). */
  predicate IsFirstArgMin(values: seq<real>, k: nat) {
    && k < |values|
    && (forall j :: 0 <= j < |values| ==> values[k] <= values[j])
    && (forall j :: 0 <= j < k ==> values[k] < values[j])
  }

  /** Tie-breaking by the lowest index makes the answer unique. */
  lemma FirstArgMaxUnique(values: seq<real>, k1: nat, k2: nat)
    requires IsFirstArgMax(values, k1) && IsFirstArgMax(values, k2)
    ensures k1 == k2
  {
    assert values[k1] <= values[k2] && values[k2] <= values[k1];
  }

  lemma FirstArgMinUnique(values: seq<real>, k1: nat, k2: nat)
    requires IsFirstArgMin(values, k1) && IsFirstArgMin(values, k2)
    ensures k1 == k2
  {
    assert values[k1] <= values[k2] && values[k2] <= values[k1];
  }

  /** Linear scan for the first maximum; a later element replaces the
      candidate only when strictly larger. */
  method ArgMax(values: seq<real>) returns (k: nat)
    requires |values| > 0
    ensures IsFirstArgMax(values, k)
  {
    k := 0;
    for i := 1 to |values|
      invariant k < i
      invariant forall j :: 0 <= j < i ==> values[j] <= values[k]
      invariant forall j :: 0 <= j < k ==> values[j] < values[k]
    {
      if values[i] > values[k] {
        k := i;
      }
    }
  }

  /** Linear scan for the first minimum; a later element replaces the
      candidate only when strictly smaller. */
  method ArgMin(values: seq<real>) returns (k: nat)
    requires |values| > 0
    ensures IsFirstArgMin(values, k)
  {
    k := 0;
    for i := 1 to |values|
      invariant k < i
      invariant forall j :: 0 <= j < i ==> values[k] <= values[j]
      invariant forall j :: 0 <= j < k ==> values[k] < values[j]
    {
      if values[i] < values[k] {
        k := i;
      }
    }
  }

  /** What the simulator reports about one sweep. */
  datatype Report = Report(
    highlightIndex: nat,
    highlightedReward: real,
    maxIndex: nat,
    maxReward: real,
    optimalSplit: real
  )

  predicate StrictlyIncreasing(s: seq<real>) {
    forall i, j :: 0 <= i < j < |s| ==> s[i] < s[j]
  }

  /** The summary lookups: argmin of |splits - highlight| and argmax of the
      total rewards, each value read at the index found. */
  method Summarize(splits: seq<real>, totals: seq<real>, highlightSplit: real)
    returns (report: Report)
    requires |splits| == |totals| > 0
    ensures IsFirstArgMin(Distances(splits, highlightSplit), report.highlightIndex)
    ensures report.highlightedReward == totals[report.highlightIndex]
    ensures IsFirstArgMax(totals, report.maxIndex)
    ensures report.maxReward == totals[report.maxIndex]
    ensures report.optimalSplit == splits[report.maxIndex]
    ensures StrictlyIncreasing(splits) ==> forall j :: 0 <= j < |splits| && splits[j] == highlightSplit ==>
      report.highlightIndex == j && report.highlightedReward == totals[j]
  {
    var distances := Distances(splits, highlightSplit);
    var highlightIndex := ArgMin(distances);
    var maxIndex := ArgMax(totals);
    report := Report(highlightIndex, totals[highlightIndex], maxIndex, totals[maxIndex], splits[maxIndex]);
    if StrictlyIncreasing(splits) {
      forall j | 0 <= j < |splits| && splits[j] == highlightSplit
        ensures highlightIndex == j
      {
        assert distances[highlightIndex] <= distances[j] == 0.0;
        assert splits[highlightIndex] == splits[j];
      }
    }
  }
}
