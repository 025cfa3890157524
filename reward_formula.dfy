// The per-sample reward formula of the split simulator: for one split
// fraction, how much of a Curve gauge's rewards the user collects when a
// fraction of their pool position is routed through StakeDAO and the rest is
// deposited on Curve directly. All arithmetic is exact over `real`.
module RewardFormula {

  /** The scenario's scalar inputs, already converted from percentages to fractions. */
  datatype Params = Params(
    stakeDaoVeCrv: real,  // veCRV held by StakeDAO (millions)
    totalVeCrv: real,     // total veCRV in existence (millions)
    poolUserFrac: real,   // the user's fraction of the pool (the "pool dominance" slider / 100)
    stakeDaoFee: real     // StakeDAO's fee on the rewards it distributes (the fee slider / 100)
  )

  /** The ranges the sidebar widgets enforce on the inputs. */
  predicate InSliderRange(p: Params) {
    && p.stakeDaoVeCrv >= 0.0
    && p.totalVeCrv >= 0.1
    && 0.01 <= p.poolUserFrac <= 1.0
    && 0.0 <= p.stakeDaoFee <= 0.17
  }

  /** Every quantity the loop body computes for one split fraction, in source order. */
  datatype Sample = Sample(
    userStakeDaoFrac: real,
    poolStakeDaoFrac: real,
    userStakeDaoShare: real,
    stakeDaoWorkingBalance: real,
    curveDepositWorkingBalance: real,
    workingSupply: real,
    rewardCurve: real,
    totalRewardStakeDao: real,
    rewardStakeDao: real,
    rewardTotal: real
  )

  /** Element-wise minimum of two scalars. */
  function Min(a: real, b: real): (m: real)
    ensures m <= a && m <= b
    ensures m == a || m == b
  {
    if a <= b then a else b
  }

  /** The loop body for split fraction `s`. Only the veCRV ratio divides
      without a guard, so only `totalVeCrv` must be non-zero. The two guarded
      divisions follow the convention "no denominator, no reward", and the
      total is the sum of the two reward components. */
  function Evaluate(p: Params, s: real): (r: Sample)
    requires p.totalVeCrv != 0.0
    ensures r.rewardTotal == r.rewardCurve + r.rewardStakeDao
    ensures r.poolStakeDaoFrac <= 0.0 ==>
      r.userStakeDaoShare == 0.0 && r.rewardStakeDao == 0.0
    ensures r.workingSupply <= 0.0 ==>
      && r.rewardCurve == 0.0 && r.totalRewardStakeDao == 0.0
      && r.rewardStakeDao == 0.0 && r.rewardTotal == 0.0
  {
    var userStakeDaoFrac := p.poolUserFrac * s;
    var poolStakeDaoFrac := (1.0 - p.poolUserFrac) + userStakeDaoFrac;
    var userStakeDaoShare :=
      if poolStakeDaoFrac > 0.0 then userStakeDaoFrac / poolStakeDaoFrac else 0.0;
    var stakeDaoWorkingBalance := Min(
      0.4 * poolStakeDaoFrac * 100.0 + 0.6 * (100.0 * p.stakeDaoVeCrv / p.totalVeCrv),
      poolStakeDaoFrac * 100.0);
    var curveDepositWorkingBalance := 0.4 * (100.0 - poolStakeDaoFrac * 100.0);
    var workingSupply := stakeDaoWorkingBalance + curveDepositWorkingBalance;
    var rewardCurve :=
      if workingSupply > 0.0 then 100.0 * curveDepositWorkingBalance / workingSupply else 0.0;
    var totalRewardStakeDao :=
      if workingSupply > 0.0
      then (100.0 * stakeDaoWorkingBalance / workingSupply) * (1.0 - p.stakeDaoFee)
      else 0.0;
    var rewardStakeDao := totalRewardStakeDao * userStakeDaoShare;
    Sample(userStakeDaoFrac, poolStakeDaoFrac, userStakeDaoShare,
           stakeDaoWorkingBalance, curveDepositWorkingBalance, workingSupply,
           rewardCurve, totalRewardStakeDao, rewardStakeDao,
           rewardCurve + rewardStakeDao)
  }

  // ---------------------------------------------------------------------
  // Arithmetic steps, stated over plain reals so that each proof sees only the
  // quantities it needs

  lemma QuotientInUnit(a: real, b: real)
    requires 0.0 <= a <= b && b > 0.0
    ensures 0.0 <= a / b <= 1.0
  {
    assert a / b * b == a;
  }

  lemma QuotientNonNegative(a: real, b: real)
    requires 0.0 <= a && b > 0.0
    ensures 0.0 <= a / b
  {
  }

  lemma ScaleInRange(x: real, y: real, hi: real)
    requires 0.0 <= x <= hi && 0.0 <= y <= 1.0
    ensures 0.0 <= x * y <= x <= hi
  {
  }

  lemma PercentagesOfWhole(a: real, b: real, whole: real)
    requires whole > 0.0 && a + b == whole
    ensures 100.0 * a / whole + 100.0 * b / whole == 100.0
  {
    assert 100.0 * a / whole + 100.0 * b / whole == 100.0 * (a + b) / whole;
  }

  /** Two parts of 100, the second scaled down twice, stay within [0, 100]. */
  lemma SplitOfHundred(kept: real, shared: real, afterFee: real, share: real)
    requires 0.0 <= kept && 0.0 <= shared && kept + shared == 100.0
    requires 0.0 <= afterFee <= 1.0 && 0.0 <= share <= 1.0
    ensures 0.0 <= shared * afterFee * share <= shared
    ensures 0.0 <= kept + shared * afterFee * share <= 100.0
  {
    ScaleInRange(shared, afterFee, shared);
    ScaleInRange(shared * afterFee, share, shared);
    var x := shared * afterFee * share;
    assert 0.0 <= x <= shared;
    assert kept + x <= kept + shared == 100.0;
  }

  /** Lines 35-37 on plain reals: the routed fraction, the pool fraction and
      the guarded share. */
  lemma FractionSteps(d: real, s: real, u: real, pool: real, share: real)
    requires 0.0 <= d <= 1.0 && 0.0 <= s <= 1.0
    requires u == d * s && pool == (1.0 - d) + u
    requires share == if pool > 0.0 then u / pool else 0.0
    ensures 0.0 <= u <= pool <= 1.0 && 0.0 <= share <= 1.0
  {
    ScaleInRange(d, s, 1.0);
    if pool > 0.0 {
      QuotientInUnit(u, pool);
    }
  }

  /** Lines 40-43 on plain reals: the capped working balance. */
  lemma CapSteps(pool: real, boost: real, balance: real)
    requires balance == Min(0.4 * pool * 100.0 + 0.6 * boost, pool * 100.0)
    ensures balance <= pool * 100.0
    ensures balance <= 0.4 * pool * 100.0 + 0.6 * boost
    ensures boost == 0.0 && pool >= 0.0 ==> balance == 0.4 * pool * 100.0
  {
    if boost == 0.0 && pool >= 0.0 {
      assert 0.4 * pool * 100.0 + 0.6 * boost == 0.4 * pool * 100.0 <= pool * 100.0;
    }
  }

  /** Lines 40-45 on plain reals: both working balances are non-negative and
      their sum is at least 40 when the pool fraction is a fraction. */
  lemma WorkingSupplySteps(pool: real, boost: real, stakeDao: real, curve: real, supply: real)
    requires 0.0 <= pool <= 1.0 && boost >= 0.0
    requires stakeDao == Min(0.4 * pool * 100.0 + 0.6 * boost, pool * 100.0)
    requires curve == 0.4 * (100.0 - pool * 100.0)
    requires supply == stakeDao + curve
    ensures 0.0 <= stakeDao && 0.0 <= curve && supply >= 40.0
  {
    assert stakeDao >= 0.4 * pool * 100.0;
    assert supply >= 0.4 * pool * 100.0 + 0.4 * (100.0 - pool * 100.0) == 40.0;
  }

  /** Lines 48-52 on plain reals, with a positive working supply. */
  lemma RewardSteps(share: real, fee: real, stakeDao: real, curve: real, supply: real,
                    rewardCurve: real, totalStakeDao: real, rewardStakeDao: real, total: real)
    requires 0.0 <= share <= 1.0 && 0.0 <= fee <= 1.0
    requires 0.0 <= stakeDao && 0.0 <= curve && supply == stakeDao + curve && supply > 0.0
    requires rewardCurve == 100.0 * curve / supply
    requires totalStakeDao == (100.0 * stakeDao / supply) * (1.0 - fee)
    requires rewardStakeDao == totalStakeDao * share
    requires total == rewardCurve + rewardStakeDao
    ensures 0.0 <= rewardCurve <= 100.0
    ensures 0.0 <= rewardStakeDao <= 100.0
    ensures 0.0 <= total <= 100.0
  {
    var gross := 100.0 * stakeDao / supply;
    PercentagesOfWhole(curve, stakeDao, supply);
    QuotientNonNegative(100.0 * curve, supply);
    QuotientNonNegative(100.0 * stakeDao, supply);
    SplitOfHundred(rewardCurve, gross, 1.0 - fee, share);
    assert rewardStakeDao == gross * (1.0 - fee) * share;
  }

  // ---------------------------------------------------------------------
  // Properties of one sample

  /** Under the slider ranges the routed fraction, StakeDAO's pool fraction
      and the user's share of StakeDAO are all fractions. */
  lemma PoolFractions(p: Params, s: real)
    requires InSliderRange(p) && 0.0 <= s <= 1.0
    ensures var r := Evaluate(p, s);
      && 0.0 <= r.userStakeDaoFrac <= r.poolStakeDaoFrac <= 1.0
      && 0.0 <= r.userStakeDaoShare <= 1.0
  {
    var r := Evaluate(p, s);
    FractionSteps(p.poolUserFrac, s, r.userStakeDaoFrac, r.poolStakeDaoFrac, r.userStakeDaoShare);
  }

  /** At full pool dominance with nothing routed, StakeDAO's pool fraction is
      exactly 0: this point is inside the slider ranges (it is the first grid
      point at 100% dominance), and only the guard on the share avoids a
      division by zero there. */
  lemma FullDominanceNothingRouted(p: Params)
    requires p.totalVeCrv != 0.0 && p.poolUserFrac == 1.0
    ensures var r := Evaluate(p, 0.0);
      && r.poolStakeDaoFrac == 0.0
      && r.userStakeDaoShare == 0.0
      && r.rewardStakeDao == 0.0
  {
    var r := Evaluate(p, 0.0);
    assert r.userStakeDaoFrac == 1.0 * 0.0 == 0.0;
    assert r.poolStakeDaoFrac == (1.0 - 1.0) + 0.0 == 0.0;
  }

  /** Routing nothing to StakeDAO earns nothing through StakeDAO: the total is
      the Curve share alone. */
  lemma NothingRouted(p: Params)
    requires p.totalVeCrv != 0.0
    ensures var r := Evaluate(p, 0.0);
      && r.userStakeDaoFrac == 0.0
      && r.userStakeDaoShare == 0.0
      && r.rewardStakeDao == 0.0
      && r.rewardTotal == r.rewardCurve
  {
    var r := Evaluate(p, 0.0);
    assert r.userStakeDaoFrac == p.poolUserFrac * 0.0 == 0.0;
    if r.poolStakeDaoFrac > 0.0 {
      assert r.userStakeDaoShare == 0.0 / r.poolStakeDaoFrac == 0.0;
    } else {
      assert r.userStakeDaoShare == 0.0;
    }
    assert r.rewardStakeDao == r.totalRewardStakeDao * 0.0 == 0.0;
  }

  /** A pool dominance of zero (outside the slider's range) leaves the whole
      pool with StakeDAO's other depositors, and the user earns nothing there. */
  lemma NoDominance(p: Params, s: real)
    requires p.totalVeCrv != 0.0 && p.poolUserFrac == 0.0
    ensures var r := Evaluate(p, s);
      && r.poolStakeDaoFrac == 1.0
      && r.userStakeDaoShare == 0.0
      && r.rewardStakeDao == 0.0
      && r.rewardTotal == r.rewardCurve
  {
    var r := Evaluate(p, s);
    assert r.userStakeDaoFrac == 0.0 * s == 0.0;
    assert r.poolStakeDaoFrac == 1.0;
    assert r.userStakeDaoShare == 0.0 / 1.0 == 0.0;
    assert r.rewardStakeDao == r.totalRewardStakeDao * 0.0 == 0.0;
  }

  /** StakeDAO's working balance is the boosted balance capped at the raw balance;
      with no veCRV it is exactly the unboosted 40%. */
  lemma WorkingBalanceCap(p: Params, s: real)
    requires p.totalVeCrv != 0.0
    ensures var r := Evaluate(p, s);
      && r.stakeDaoWorkingBalance <= r.poolStakeDaoFrac * 100.0
      && r.stakeDaoWorkingBalance
           <= 0.4 * r.poolStakeDaoFrac * 100.0 + 0.6 * (100.0 * p.stakeDaoVeCrv / p.totalVeCrv)
      && (p.stakeDaoVeCrv == 0.0 && r.poolStakeDaoFrac >= 0.0 ==>
            r.stakeDaoWorkingBalance == 0.4 * r.poolStakeDaoFrac * 100.0)
  {
    var r := Evaluate(p, s);
    var boost := 100.0 * p.stakeDaoVeCrv / p.totalVeCrv;
    if p.stakeDaoVeCrv == 0.0 {
      assert boost == 0.0 / p.totalVeCrv == 0.0;
    }
    CapSteps(r.poolStakeDaoFrac, boost, r.stakeDaoWorkingBalance);
  }

  /** Under the slider ranges the working supply is at least 40: StakeDAO's
      balance is boosted to at least 40% of its raw stake and the direct Curve
      deposit is weighted at exactly 40%. So the zero guard never fires there. */
  lemma WorkingSupplyPositive(p: Params, s: real)
    requires InSliderRange(p) && 0.0 <= s <= 1.0
    ensures var r := Evaluate(p, s);
      && 0.0 <= r.stakeDaoWorkingBalance
      && 0.0 <= r.curveDepositWorkingBalance
      && r.workingSupply >= 40.0
  {
    var r := Evaluate(p, s);
    PoolFractions(p, s);
    var boost := 100.0 * p.stakeDaoVeCrv / p.totalVeCrv;
    QuotientNonNegative(100.0 * p.stakeDaoVeCrv, p.totalVeCrv);
    WorkingSupplySteps(r.poolStakeDaoFrac, boost, r.stakeDaoWorkingBalance,
                       r.curveDepositWorkingBalance, r.workingSupply);
  }

  /** The Curve share and StakeDAO's pre-fee share split the gauge exactly. */
  lemma SharesPartition(p: Params, s: real)
    requires p.totalVeCrv != 0.0
    ensures var r := Evaluate(p, s);
      r.workingSupply > 0.0 ==>
        100.0 * r.curveDepositWorkingBalance / r.workingSupply
        + 100.0 * r.stakeDaoWorkingBalance / r.workingSupply == 100.0
  {
    var r := Evaluate(p, s);
    if r.workingSupply > 0.0 {
      PercentagesOfWhole(r.curveDepositWorkingBalance, r.stakeDaoWorkingBalance, r.workingSupply);
    }
  }

  /** Under the slider ranges every reward share is a percentage. */
  lemma RewardBounds(p: Params, s: real)
    requires InSliderRange(p) && 0.0 <= s <= 1.0
    ensures var r := Evaluate(p, s);
      && 0.0 <= r.rewardCurve <= 100.0
      && 0.0 <= r.rewardStakeDao <= 100.0
      && 0.0 <= r.rewardTotal <= 100.0
  {
    var r := Evaluate(p, s);
    PoolFractions(p, s);
    WorkingSupplyPositive(p, s);
    RewardSteps(r.userStakeDaoShare, p.stakeDaoFee, r.stakeDaoWorkingBalance,
                r.curveDepositWorkingBalance, r.workingSupply, r.rewardCurve,
                r.totalRewardStakeDao, r.rewardStakeDao, r.rewardTotal);
  }
}
