# Reward-share split simulator, modelled in Dafny

The simulator asks one question about a Curve gauge: a user holds a fixed
fraction of a pool (the "pool dominance") and routes a fraction `s` of that
position through StakeDAO, keeping the rest as a direct Curve deposit. What
share of the gauge's rewards does the user collect, as a function of `s`?

For each `s` the script works out these quantities in order:
- the user's fraction routed to StakeDAO;
- StakeDAO's fraction of the pool;
- the user's pro-rata share of StakeDAO;
- StakeDAO's boosted working balance, which uses its veCRV holdings and is capped at its raw balance;
- the unboosted working balance of the direct Curve deposit;
- the working supply;
- the Curve reward share and StakeDAO's reward share after its fee;
- their sum.

It samples `s` on a grid of 2000 evenly spaced points from 0% to 100%. It then
reports the reward at the grid point nearest a highlighted split, and the first
grid point with the largest total reward.

The model has four modules:

- `RewardFormula` (`reward_formula.dfy`): the inputs (`Params`), the slider
  ranges (`InSliderRange`) and the per-sample formula (`Evaluate`). `Evaluate` is a pure
  function over `real` that returns every intermediate quantity; its contract
  gives the sum identity and the "denominator > 0, else 0" conventions. The
  lemmas about it cover the working-balance cap, the exact 100% partition of
  the gauge and the [0, 100] bounds. Each of those lemmas hands the fields of
  one sample to a small arithmetic step lemma over plain reals.
- `Sweep` (`sweep.dfy`): the grid (`SplitGrid`) and the loop (`Run`), which
  appends the Curve, StakeDAO and total shares to three lists. The loop is proved
  against `Evaluate` element by element.
- `Summary` (`summary.dfy`): the first-index argmin and argmax as linear scans,
  and `Summarize`, which reads the highlighted reward, the maximum reward and
  the optimal split.
- `Simulator` (`simulator.dfy`): the whole script, which sweeps at 2000 points and then summarises.

All arithmetic is exact rational arithmetic over Dafny's `real`. The percentage
inputs are folded into fractions: `poolUserFrac` is the dominance slider / 100 and
`stakeDaoFee` is the fee slider / 100.

The slider labelled "Pool dominance" is the user's own fraction of the pool:
line 11 calls it the fixed user pool share, and lines 26-27 give the other
depositors `1 - pool_user_frac`. StakeDAO's pool fraction is therefore those
other depositors plus the user's routed part. With a dominance of 0, which is
below the slider's minimum, that fraction is `(1 - 0) + 0 * s = 1` at every
split, and the user's StakeDAO reward is 0 because nothing is routed
(`NoDominance`). With a dominance of 100% and nothing routed, the fraction is
exactly 0, and only the guard at line 37 avoids a division by zero
(`FullDominanceNothingRouted`).

## Model

| member | source | states |
|---|---|---|
| `RewardFormula.Min` | origin-optimal-split-simulator.py:40-43 | the working-balance minimum is at most each argument and equal to one of them |
| `RewardFormula.PoolFractions` | origin-optimal-split-simulator.py:35-37 | under the slider ranges, for every split in [0,1]: 0 <= routed fraction <= StakeDAO pool fraction <= 1, and the user's share of StakeDAO is in [0,1] |
| `RewardFormula.Evaluate` | origin-optimal-split-simulator.py:35-52 | the loop body for one split fraction. It requires a non-zero total veCRV, because line 41 divides by it unguarded. It ensures the total is the Curve reward plus the user's StakeDAO reward. A StakeDAO pool fraction that is not > 0 gives a user share of 0 and a StakeDAO reward of 0. A working supply that is not > 0 gives 0 for the Curve reward, the pre-share StakeDAO reward, the user's StakeDAO reward and the total. Its other properties are the lemma rows below: `PoolFractions`, `FullDominanceNothingRouted`, `NothingRouted`, `NoDominance`, `WorkingBalanceCap`, `WorkingSupplyPositive`, `SharesPartition` and `RewardBounds` |
| `RewardFormula.FullDominanceNothingRouted` | origin-optimal-split-simulator.py:35-37 | at 100% dominance and split 0, a point inside the slider ranges, StakeDAO's pool fraction is exactly 0, so the guard sets the user's share and StakeDAO reward to 0 |
| `RewardFormula.NothingRouted` | origin-optimal-split-simulator.py:35-52 | at split 0 the routed fraction, the user's StakeDAO share and the StakeDAO reward are 0, so the total equals the Curve reward |
| `RewardFormula.NoDominance` | origin-optimal-split-simulator.py:26-52 | with dominance 0 the StakeDAO pool fraction is 1 at every split, and the user's StakeDAO share and reward are 0 |
| `RewardFormula.WorkingBalanceCap` | origin-optimal-split-simulator.py:40-43 | StakeDAO's working balance is at most its raw balance (pool fraction * 100) and at most the boosted balance 0.4 * pool fraction * 100 + 0.6 * (100 * holdings / total); with no holdings and a non-negative pool fraction it is exactly 0.4 * pool fraction * 100 |
| `RewardFormula.WorkingSupplyPositive` | origin-optimal-split-simulator.py:40-45 | under the slider ranges both working balances are non-negative and the working supply is at least 40, so the zero guard of lines 48-49 never fires there |
| `RewardFormula.SharesPartition` | origin-optimal-split-simulator.py:44-49 | whenever the working supply is > 0, the Curve share plus StakeDAO's pre-fee share is exactly 100 |
| `RewardFormula.RewardBounds` | origin-optimal-split-simulator.py:35-52 | under the slider ranges, for every split in [0,1], the Curve reward, the user's StakeDAO reward and the total each lie in [0,100] |
| `Sweep.GridPoint` | origin-optimal-split-simulator.py:22 | grid point i of n is non-negative and is exactly i steps of 100 / (n - 1): x * (n - 1) == 100 * i |
| `Sweep.SplitGrid` | origin-optimal-split-simulator.py:22-23 | the grid has n points, starts at 0, ends at 100, lies in [0,100] and is strictly increasing |
| `Sweep.Run` | origin-optimal-split-simulator.py:29-57 | the three lists have length n and are aligned with the grid: element i is the formula's Curve, StakeDAO and total reward at split fraction splits[i] / 100; every total is the sum of the aligned Curve and StakeDAO entries; the first entry has no StakeDAO reward; under the slider ranges every entry is in [0,100] |
| `Summary.Distance` | origin-optimal-split-simulator.py:71 | the distance between a grid point and the highlight is non-negative, and it is zero exactly when they are equal |
| `Summary.ArgMin` | origin-optimal-split-simulator.py:71 | returns an index whose value is <= every element and strictly below every earlier element, i.e. the first minimum |
| `Summary.ArgMax` | origin-optimal-split-simulator.py:75 | returns an index whose value is >= every element and strictly above every earlier element, i.e. the first maximum |
| `Summary.FirstArgMinUnique` | origin-optimal-split-simulator.py:71 | at most one index satisfies the first-minimum specification, so the argmin is fully determined |
| `Summary.FirstArgMaxUnique` | origin-optimal-split-simulator.py:75 | at most one index satisfies the first-maximum specification, so the argmax is fully determined |
| `Summary.Summarize` | origin-optimal-split-simulator.py:71-77 | the highlight index is the first minimum of the distances from each grid point to the highlight (nearest, ties to the lowest index), and the highlighted reward is read there; the max index is the first maximum of the totals and the max reward and optimal split are read there; on a strictly increasing grid, a highlight equal to splits[j] selects index j and its exact total |
| `Simulator.DefaultHighlightTie` | origin-optimal-split-simulator.py:17-22 | the default highlight 50 is equally far from grid points 999 and 1000 of the 2000-point grid, and 999 is the first minimum of the distances |
| `Simulator.Simulate` | origin-optimal-split-simulator.py:22-77 | the totals at the 2000-point grid are the formula's totals; the report picks the first maximum and the first nearest grid point, i.e. the lowest index on a tie; the default highlight of 50 resolves to index 999; a 0% highlight reads the pure Curve share at index 0 and a 100% highlight reads the last point; under the slider ranges the highlighted reward and the max reward lie in [0,100] and the highlighted reward is at most the max |

## Left out

- Streamlit page set-up, sidebar widgets and their clamping (lines 1-17): the widget ranges appear only as the `InSliderRange` precondition of the bounds lemmas.
- The percent-to-fraction conversions (lines 19 and 26): the inputs are taken as fractions.
- The matplotlib plot (lines 59-68) and the markdown summary and caption (lines 79-87), including the `int(fee * 100)` display truncation and the two-decimal formatting: presentation only.
- IEEE-754 rounding in numpy's linspace and in the formula: the model is exact over `real`, so tolerance effects are not modelled.
- A zero total veCRV: Python would raise a division error at line 41. `Evaluate` requires a non-zero `totalVeCrv`, and the slider enforces at least 0.1.
- The concrete default scenario (118, 794, 93%, 17%): its empirical optimum is not computed, because nothing is executed here.
- Determinism of the sweep: it is not stated as a separate lemma. The postconditions of `Sweep.Run` and `Summary.Summarize` fix every output as a function of the inputs.
