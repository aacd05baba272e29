/** Allocation conserves: every distributed unit is allocated or carried, and every allocated unit
    reaches a pool's pending amounts or its tier carry. */
module AllocationLaws {
  import opened Numbers
  import opened Sums
  import opened Allocation

  /** What a pool holds of the depositor tranche, and of the pool tranche, before its next gulp. */
  function BackstopHeld(p: PoolEmissions): int {
    p.pendingUsdc + p.pendingXlm + p.tierCarry
  }

  ghost function BackstopHeldOf(pools: map<Address, PoolEmissions>): map<Address, int> {
    map p | p in pools :: BackstopHeld(pools[p])
  }

  ghost function PoolHeldOf(pools: map<Address, PoolEmissions>): map<Address, int> {
    map p | p in pools :: pools[p].accruedPool
  }

  predicate OngoingLedger(o: Ongoing) {
    && ValidOngoing(o) && o.totalDistributed <= I128_MAX
    && o.totalDistributed == o.backstopAllocated + o.poolAllocated + o.splitCarry + o.backstopCarry + o.poolCarry
  }

  lemma ReplacePool(pools: map<Address, PoolEmissions>, pool: Address, p: PoolEmissions)
    ensures var next := pools[pool := p];
            && Sum(BackstopHeldOf(next)) == Sum(BackstopHeldOf(pools)) - BackstopHeld(PoolOf(pools, pool))
               + BackstopHeld(p)
            && Sum(PoolHeldOf(next)) == Sum(PoolHeldOf(pools)) - PoolOf(pools, pool).accruedPool + p.accruedPool
  {
    hide BackstopHeld;
    NothingHeld();
    var next := pools[pool := p];
    assert BackstopHeldOf(next) == BackstopHeldOf(pools)[pool := BackstopHeld(p)];
    assert PoolHeldOf(next) == PoolHeldOf(pools)[pool := p.accruedPool];
    SumUpdate(BackstopHeldOf(pools), pool, BackstopHeld(p));
    SumUpdate(PoolHeldOf(pools), pool, p.accruedPool);
  }

  lemma NothingHeld()
    ensures BackstopHeld(NoEmissions()) == 0
  {
  }

  /** acc units have been given out of `value` for `part` of `whole`: acc / value <= part / whole. */
  predicate Within(acc: int, value: int, part: int, whole: int) {
    acc * whole <= value * part
  }

  lemma WithinStep(acc: int, value: int, part: int, more: int, whole: int, given: int)
    requires Within(acc, value, part, whole) && 0 < whole && 0 <= value && 0 <= more
    requires ProportionalFloor(value, more, whole) == Success(given)
    ensures Within(acc + given, value, part + more, whole) && 0 <= given
    ensures more == 0 ==> given == 0
  {
    DivBounds(value * more, whole);
    MulNonNegative(value, more);
    DivMonotone(0, value * more, whole);
    assert (acc + given) * whole == acc * whole + given * whole;
    assert value * (part + more) == value * part + value * more;
    if more == 0 {
      DivUnique(0, whole, 0);
    }
  }

  lemma WithinWhole(acc: int, value: int, whole: int)
    requires Within(acc, value, whole, whole) && 0 < whole
    ensures acc <= value
  {
    if acc > value {
      MulMonotone(value + 1, acc, whole);
    }
  }

  lemma ProportionOnlyOverflows(value: int, part: int, whole: int)
    requires 0 <= value && 0 <= part && 0 < whole
    ensures ProportionalFloor(value, part, whole).Success? || ProportionalFloor(value, part, whole) == Failure(Overflow)
  {
  }

  /** The 70/30 split gives away exactly what it is handed; the carry is what neither side divides. */
  lemma SplitConserves(distribution: int, carry: int)
    requires 0 <= distribution && 0 <= carry
    ensures match QuoteSplit(distribution, carry)
            case Failure(e) => e == Overflow
            case Success((backstop, pool, rest)) =>
              && 0 <= backstop && 0 <= pool && 0 <= rest <= 1
              && backstop + pool + rest == distribution + carry
              && 10 * backstop <= 7 * (distribution + carry) < 10 * backstop + 10
              && 10 * pool <= 3 * (distribution + carry) < 10 * pool + 10
  {
  }

  /** A pool's tier split conserves; a pool without weight is left untouched. */
  lemma PoolSplitConserves(p: PoolEmissions, usdcWeight: int, xlmWeight: int, allocation: int)
    requires ValidPoolEmissions(p) && 0 <= usdcWeight && 0 <= xlmWeight && 0 <= allocation
    requires usdcWeight + xlmWeight == 0 ==> allocation == 0
    ensures match AllocatePool(p, usdcWeight, xlmWeight, allocation)
            case Failure(e) => e == Overflow
            case Success(q) =>
              && ValidPoolEmissions(q) && BackstopHeld(q) == BackstopHeld(p) + allocation
              && q.accruedPool == p.accruedPool && q.activeUsdc == p.activeUsdc && q.activeXlm == p.activeXlm
              && p.pendingUsdc <= q.pendingUsdc && p.pendingXlm <= q.pendingXlm
              && (usdcWeight == 0 ==> q.pendingUsdc == p.pendingUsdc)
              && (xlmWeight == 0 ==> q.pendingXlm == p.pendingXlm)
  {
    hide ProportionalFloor, Within;
    var whole := usdcWeight + xlmWeight;
    var distribution := allocation + p.tierCarry;
    if 0 < whole {
      ProportionOnlyOverflows(distribution, usdcWeight, whole);
      ProportionOnlyOverflows(distribution, xlmWeight, whole);
      var usdc, xlm := ProportionalFloor(distribution, usdcWeight, whole),
          ProportionalFloor(distribution, xlmWeight, whole);
      if usdc.Success? && xlm.Success? {
        WithinZero(distribution, whole);
        WithinStep(0, distribution, 0, usdcWeight, whole, usdc.value);
        WithinStep(usdc.value, distribution, usdcWeight, xlmWeight, whole, xlm.value);
        WithinWhole(usdc.value + xlm.value, distribution, whole);
      }
    }
  }

  lemma WithinZero(value: int, whole: int)
    ensures Within(0, value, 0, whole)
  {
  }

  predicate ValidWeight(w: Weight) {
    0 <= w.usdc && 0 <= w.xlm && ValidPoolEmissions(w.state)
  }

  function WeightSum(weights: seq<Weight>): int {
    if weights == [] then 0 else weights[0].usdc + weights[0].xlm + WeightSum(weights[1..])
  }

  /** The weights name distinct pools, each with the record currently stored for it. */
  predicate FreshWeights(weights: seq<Weight>, pools: map<Address, PoolEmissions>) {
    && (forall i | 0 <= i < |weights| :: ValidWeight(weights[i]) && weights[i].state == PoolOf(pools, weights[i].pool))
    && (forall i, j | 0 <= i < j < |weights| :: weights[i].pool != weights[j].pool)
  }

  ghost predicate SameCaches(before: map<Address, PoolEmissions>, after: map<Address, PoolEmissions>) {
    && (forall p :: PoolOf(after, p).activeUsdc == PoolOf(before, p).activeUsdc)
    && (forall p :: PoolOf(after, p).activeXlm == PoolOf(before, p).activeXlm)
  }

  predicate ValidPools(pools: map<Address, PoolEmissions>) {
    forall p | p in pools :: ValidPoolEmissions(pools[p])
  }

  lemma {:induction false} WeightSumNonNegative(weights: seq<Weight>)
    requires forall i | 0 <= i < |weights| :: ValidWeight(weights[i])
    ensures 0 <= WeightSum(weights)
  {
    if weights != [] {
      WeightSumNonNegative(weights[1..]);
    }
  }

  /** Pending amounts of each kind belong to pools that have the tier to stream them to. */
  predicate Placed(pools: map<Address, PoolEmissions>, usdcPools: set<Address>, xlmPools: set<Address>) {
    forall p | p in pools ::
      (pools[p].pendingUsdc > 0 ==> p in usdcPools) && (pools[p].pendingXlm > 0 ==> p in xlmPools)
  }

  predicate WeightPlaced(w: Weight, usdcPools: set<Address>, xlmPools: set<Address>) {
    (w.usdc > 0 ==> w.pool in usdcPools) && (w.xlm > 0 ==> w.pool in xlmPools)
  }

  predicate WeightsPlaced(weights: seq<Weight>, usdcPools: set<Address>, xlmPools: set<Address>) {
    forall i | 0 <= i < |weights| :: WeightPlaced(weights[i], usdcPools, xlmPools)
  }

  /** What the pool records look like after one pool was given more. */
  ghost predicate Given(before: map<Address, PoolEmissions>, after: map<Address, PoolEmissions>,
                        backstop: int, pool: int, usdcPools: set<Address>, xlmPools: set<Address>)
  {
    && ValidPools(after) && SameCaches(before, after)
    && Sum(BackstopHeldOf(after)) == Sum(BackstopHeldOf(before)) + backstop
    && Sum(PoolHeldOf(after)) == Sum(PoolHeldOf(before)) + pool
    && Placed(after, usdcPools, xlmPools)
  }

  lemma StoreGiven(pools: map<Address, PoolEmissions>, w: Weight, p: PoolEmissions,
                   usdcPools: set<Address>, xlmPools: set<Address>)
    requires ValidPools(pools) && ValidPoolEmissions(p) && Placed(pools, usdcPools, xlmPools)
    requires WeightPlaced(w, usdcPools, xlmPools) && w.state == PoolOf(pools, w.pool)
    requires p.activeUsdc == w.state.activeUsdc && p.activeXlm == w.state.activeXlm
    requires w.usdc == 0 ==> p.pendingUsdc == w.state.pendingUsdc
    requires w.xlm == 0 ==> p.pendingXlm == w.state.pendingXlm
    requires 0 <= w.usdc && 0 <= w.xlm
    ensures Given(pools, pools[w.pool := p], BackstopHeld(p) - BackstopHeld(w.state),
                  p.accruedPool - w.state.accruedPool, usdcPools, xlmPools)
  {
    hide BackstopHeld, BackstopHeldOf, PoolHeldOf;
    ReplacePool(pools, w.pool, p);
  }

  /** One turn of the allocation loop. */
  lemma AllocateOneConserves(w: Weight, backstop: int, pool: int, eligible: int, a: Allocated, done: int,
                             usdcPools: set<Address>, xlmPools: set<Address>)
    requires ValidWeight(w) && w.state == PoolOf(a.pools, w.pool) && ValidPools(a.pools)
    requires Placed(a.pools, usdcPools, xlmPools) && WeightPlaced(w, usdcPools, xlmPools)
    requires 0 <= backstop && 0 <= pool && 0 <= done && 0 <= a.backstop && 0 <= a.pool
    requires done + w.usdc + w.xlm <= eligible
    requires Within(a.backstop, backstop, done, eligible) && Within(a.pool, pool, done, eligible)
    ensures match AllocateOne(w, backstop, pool, eligible, a)
            case Failure(e) => e == Overflow
            case Success(b) =>
              && b.pools == a.pools[w.pool := PoolOf(b.pools, w.pool)]
              && Given(a.pools, b.pools, b.backstop - a.backstop, b.pool - a.pool, usdcPools, xlmPools)
              && a.backstop <= b.backstop && a.pool <= b.pool
              && (eligible == 0 ==> b.backstop == a.backstop && b.pool == a.pool)
              && Within(b.backstop, backstop, done + w.usdc + w.xlm, eligible)
              && Within(b.pool, pool, done + w.usdc + w.xlm, eligible)
  {
    hide Within, ProportionalFloor, AllocatePool, BackstopHeld, Given, ValidPools, Placed, WeightPlaced;
    var weight := w.usdc + w.xlm;
    if eligible == 0 {
      PoolSplitConserves(w.state, w.usdc, w.xlm, 0);
      var state := AllocatePool(w.state, w.usdc, w.xlm, 0);
      if state.Success? {
        HeldIgnoresAccrued(state.value, state.value.accruedPool);
        StoreGiven(a.pools, w, state.value, usdcPools, xlmPools);
      }
    } else {
      ProportionOnlyOverflows(backstop, weight, eligible);
      ProportionOnlyOverflows(pool, weight, eligible);
      var backstopShare, poolShare := ProportionalFloor(backstop, weight, eligible),
          ProportionalFloor(pool, weight, eligible);
      if backstopShare.Success? && poolShare.Success? {
        WithinStep(a.backstop, backstop, done, weight, eligible, backstopShare.value);
        WithinStep(a.pool, pool, done, weight, eligible, poolShare.value);
        PoolSplitConserves(w.state, w.usdc, w.xlm, backstopShare.value);
        var state := AllocatePool(w.state, w.usdc, w.xlm, backstopShare.value);
        if state.Success? {
          var accrued := state.value.accruedPool + poolShare.value;
          HeldIgnoresAccrued(state.value, accrued);
          StoreGiven(a.pools, w, state.value.(accruedPool := accrued), usdcPools, xlmPools);
        }
      }
    }
  }

  lemma HeldIgnoresAccrued(p: PoolEmissions, accrued: int)
    ensures BackstopHeld(p.(accruedPool := accrued)) == BackstopHeld(p)
  {
  }

  lemma GivenTwice(a: map<Address, PoolEmissions>, b: map<Address, PoolEmissions>, c: map<Address, PoolEmissions>,
                   b1: int, p1: int, b2: int, p2: int, usdcPools: set<Address>, xlmPools: set<Address>)
    requires Given(a, b, b1, p1, usdcPools, xlmPools) && Given(b, c, b2, p2, usdcPools, xlmPools)
    ensures Given(a, c, b1 + b2, p1 + p2, usdcPools, xlmPools)
  {
    hide BackstopHeldOf, PoolHeldOf, Placed, ValidPools;
  }

  lemma NothingGiven(a: map<Address, PoolEmissions>, usdcPools: set<Address>, xlmPools: set<Address>)
    requires ValidPools(a) && Placed(a, usdcPools, xlmPools)
    ensures Given(a, a, 0, 0, usdcPools, xlmPools)
  {
  }

  lemma GivenKeeps(a: map<Address, PoolEmissions>, b: map<Address, PoolEmissions>, b1: int, p1: int,
                   usdcPools: set<Address>, xlmPools: set<Address>)
    requires Given(a, b, b1, p1, usdcPools, xlmPools)
    ensures ValidPools(b) && Placed(b, usdcPools, xlmPools) && SameCaches(a, b)
  {
  }

  lemma RestStaysFresh(weights: seq<Weight>, pools: map<Address, PoolEmissions>, q: PoolEmissions)
    requires FreshWeights(weights, pools) && weights != []
    ensures FreshWeights(weights[1..], pools[weights[0].pool := q])
  {
  }

  /** The allocation loop over the rest of the zone. */
  lemma {:induction false} AllocateFromConserves(weights: seq<Weight>, backstop: int, pool: int, eligible: int,
                                                 a: Allocated,
                                                 done: int, usdcPools: set<Address>, xlmPools: set<Address>)
    requires FreshWeights(weights, a.pools) && ValidPools(a.pools)
    requires Placed(a.pools, usdcPools, xlmPools) && WeightsPlaced(weights, usdcPools, xlmPools)
    requires 0 <= backstop && 0 <= pool && 0 <= done && done + WeightSum(weights) == eligible
    requires 0 <= a.backstop && 0 <= a.pool
    requires Within(a.backstop, backstop, done, eligible) && Within(a.pool, pool, done, eligible)
    ensures match AllocateFrom(weights, backstop, pool, eligible, a)
            case Failure(e) => e == Overflow
            case Success(b) =>
              && Given(a.pools, b.pools, b.backstop - a.backstop, b.pool - a.pool, usdcPools, xlmPools)
              && a.backstop <= b.backstop && a.pool <= b.pool
              && (eligible == 0 ==> b.backstop == a.backstop && b.pool == a.pool)
              && Within(b.backstop, backstop, eligible, eligible) && Within(b.pool, pool, eligible, eligible)
    decreases |weights|
  {
    hide Within, AllocateOne, Given, ValidPools, Placed, WeightPlaced;
    if weights == [] {
      NothingGiven(a.pools, usdcPools, xlmPools);
    } else {
      var w, rest := weights[0], weights[1..];
      WeightSumNonNegative(rest);
      AllocateOneConserves(w, backstop, pool, eligible, a, done, usdcPools, xlmPools);
      var next := AllocateOne(w, backstop, pool, eligible, a);
      if next.Success? {
        var b := next.value;
        RestStaysFresh(weights, a.pools, PoolOf(b.pools, w.pool));
        GivenKeeps(a.pools, b.pools, b.backstop - a.backstop, b.pool - a.pool, usdcPools, xlmPools);
        hide FreshWeights;
        AllocateFromConserves(rest, backstop, pool, eligible, b, done + w.usdc + w.xlm, usdcPools, xlmPools);
        var last := AllocateFrom(rest, backstop, pool, eligible, b);
        if last.Success? {
          var c := last.value;
          GivenTwice(a.pools, b.pools, c.pools, b.backstop - a.backstop, b.pool - a.pool,
                     c.backstop - b.backstop, c.pool - b.pool, usdcPools, xlmPools);
        }
      }
    }
  }

  /** Storing the totals: what was given out of each distribution is booked, the rest is carried. */
  lemma TotalsConserve(o: Ongoing, amount: int, checkpoint: nat, splitCarry: int, backstopDistribution: int,
                       poolDistribution: int,
                       backstop: int, pool: int)
    requires OngoingLedger(o) && 0 <= amount && 0 <= splitCarry && 0 <= backstop <= backstopDistribution
             && 0 <= pool <= poolDistribution
    requires FitsI128(backstopDistribution) && FitsI128(poolDistribution)
    requires backstopDistribution + poolDistribution + splitCarry
             == amount + o.splitCarry + o.backstopCarry + o.poolCarry
    ensures match TotalsAfter(o, amount, checkpoint, splitCarry, backstopDistribution, poolDistribution, backstop, pool)
            case Failure(e) => e == Overflow
            case Success(n) =>
              && OngoingLedger(n) && n.lastDistribution == Some(checkpoint)
              && n.totalDistributed == o.totalDistributed + amount && n.backstopClaimed == o.backstopClaimed
              && n.backstopAllocated == o.backstopAllocated + backstop && n.poolAllocated == o.poolAllocated + pool
  {
  }

  /** A whole distribution keeps the global ledger and delivers exactly what it books: the totals'
      growth equals the growth of what pools hold. No check inside can fail except for overflow. */
  lemma DistributionConserves(o: Ongoing, pools: map<Address, PoolEmissions>, amount: int, checkpoint: nat,
                              weights: seq<Weight>, eligible: int, usdcPools: set<Address>, xlmPools: set<Address>)
    requires OngoingLedger(o) && ValidPools(pools) && FreshWeights(weights, pools)
    requires Placed(pools, usdcPools, xlmPools) && WeightsPlaced(weights, usdcPools, xlmPools)
    requires 0 <= amount && eligible == WeightSum(weights)
    ensures match AllocateDistribution(o, pools, amount, checkpoint, weights, eligible)
            case Failure(e) => e == Overflow
            case Success((n, next)) =>
              && OngoingLedger(n) && n.lastDistribution == Some(checkpoint)
              && n.totalDistributed == o.totalDistributed + amount && n.backstopClaimed == o.backstopClaimed
              && Given(pools, next, n.backstopAllocated - o.backstopAllocated, n.poolAllocated - o.poolAllocated,
                       usdcPools, xlmPools)
  {
    hide Within, QuoteSplit, AllocateFrom, FreshWeights, Given, ValidPools, Placed, WeightsPlaced, TotalsAfter;
    SplitConserves(amount, o.splitCarry);
    var split := QuoteSplit(amount, o.splitCarry);
    if split.Success? {
      var (backstopSplit, poolSplit, splitCarry) := split.value;
      var backstop, pool := backstopSplit + o.backstopCarry, poolSplit + o.poolCarry;
      WeightsNonNegative(weights, pools);
      WithinZero(backstop, eligible);
      WithinZero(pool, eligible);
      AllocateFromConserves(weights, backstop, pool, eligible, Allocated(pools, 0, 0), 0, usdcPools, xlmPools);
      var a := AllocateFrom(weights, backstop, pool, eligible, Allocated(pools, 0, 0));
      if a.Success? {
        if eligible > 0 {
          WithinWhole(a.value.backstop, backstop, eligible);
          WithinWhole(a.value.pool, pool, eligible);
        }
        if FitsI128(backstop) && FitsI128(pool) {
          TotalsConserve(o, amount, checkpoint, splitCarry, backstop, pool, a.value.backstop, a.value.pool);
        }
      }
    }
  }

  /** A proportional share, rounded down. */
  predicate ShareOf(given: int, value: int, part: int, whole: int) {
    given * whole <= value * part < given * whole + whole
  }

  lemma FloorIsShare(value: int, part: int, whole: int)
    requires 0 < whole && ProportionalFloor(value, part, whole).Success?
    ensures ShareOf(ProportionalFloor(value, part, whole).value, value, part, whole)
  {
    DivBounds(value * part, whole);
  }

  /** Between its two tiers a pool's amount, with what was carried, goes by weight; at most one unit is
      carried on. */
  lemma TierSplitProRata(p: PoolEmissions, usdcWeight: int, xlmWeight: int, allocation: int)
    requires ValidPoolEmissions(p) && 0 <= usdcWeight && 0 <= xlmWeight && 0 <= allocation && 0 < usdcWeight + xlmWeight
    requires AllocatePool(p, usdcWeight, xlmWeight, allocation).Success?
    ensures var q, total, whole := AllocatePool(p, usdcWeight, xlmWeight, allocation).value, allocation + p.tierCarry,
              usdcWeight + xlmWeight;
            && ShareOf(q.pendingUsdc - p.pendingUsdc, total, usdcWeight, whole)
            && ShareOf(q.pendingXlm - p.pendingXlm, total, xlmWeight, whole)
            && 0 <= q.tierCarry <= 1
  {
    hide ProportionalFloor, ShareOf;
    var q, total, whole := AllocatePool(p, usdcWeight, xlmWeight, allocation).value, allocation + p.tierCarry,
        usdcWeight + xlmWeight;
    FloorIsShare(total, usdcWeight, whole);
    FloorIsShare(total, xlmWeight, whole);
    SharesLeaveOne(q.pendingUsdc - p.pendingUsdc, q.pendingXlm - p.pendingXlm, total, usdcWeight, xlmWeight);
  }

  lemma SharesLeaveOne(x: int, y: int, total: int, a: int, b: int)
    requires 0 < a + b && ShareOf(x, total, a, a + b) && ShareOf(y, total, b, a + b)
    ensures total - 1 <= x + y
  {
    assert total * a + total * b == total * (a + b);
    assert (x + y + 2) * (a + b) == x * (a + b) + (a + b) + (y * (a + b) + (a + b));
    if x + y + 2 <= total {
      MulMonotone(x + y + 2, total, a + b);
    }
  }

  /** Pools that are not in the rest of the zone are left alone by it. */
  lemma {:induction false} OthersUntouched(weights: seq<Weight>, backstop: int, pool: int, eligible: int, a: Allocated,
                                           other: Address)
    requires AllocateFrom(weights, backstop, pool, eligible, a).Success?
    requires forall i | 0 <= i < |weights| :: weights[i].pool != other
    ensures PoolOf(AllocateFrom(weights, backstop, pool, eligible, a).value.pools, other) == PoolOf(a.pools, other)
    decreases |weights|
  {
    hide ProportionalFloor, AllocatePool, NoEmissions;
    if weights != [] {
      var next := AllocateOne(weights[0], backstop, pool, eligible, a).value;
      assert weights[0].pool != other;
      OthersUntouched(weights[1..], backstop, pool, eligible, next, other);
    }
  }

  lemma OneTurnProRata(w: Weight, backstop: int, pool: int, eligible: int, a: Allocated)
    requires ValidWeight(w) && 0 <= backstop && 0 <= pool && 0 < eligible
    requires AllocateOne(w, backstop, pool, eligible, a).Success?
    ensures var p := PoolOf(AllocateOne(w, backstop, pool, eligible, a).value.pools, w.pool);
            && ShareOf(BackstopHeld(p) - BackstopHeld(w.state), backstop, w.usdc + w.xlm, eligible)
            && ShareOf(p.accruedPool - w.state.accruedPool, pool, w.usdc + w.xlm, eligible)
  {
    hide ProportionalFloor, AllocatePool, ShareOf, BackstopHeld;
    var weight := w.usdc + w.xlm;
    var backstopShare := ProportionalFloor(backstop, weight, eligible).value;
    FloorIsShare(backstop, weight, eligible);
    FloorIsShare(pool, weight, eligible);
    WithinZero(backstop, eligible);
    WithinStep(0, backstop, 0, weight, eligible, backstopShare);
    PoolSplitConserves(w.state, w.usdc, w.xlm, backstopShare);
    var state := AllocatePool(w.state, w.usdc, w.xlm, backstopShare).value;
    HeldIgnoresAccrued(state, PoolOf(AllocateOne(w, backstop, pool, eligible, a).value.pools, w.pool).accruedPool);
  }

  /** Every pool of the zone ends with exactly its proportion, rounded down, of both tranches. */
  lemma {:induction false} AllocatedProRata(weights: seq<Weight>, backstop: int, pool: int, eligible: int,
                                            a: Allocated, i: nat)
    requires FreshWeights(weights, a.pools) && i < |weights| && 0 <= backstop && 0 <= pool && 0 < eligible
    requires AllocateFrom(weights, backstop, pool, eligible, a).Success?
    ensures var w := weights[i];
            var p := PoolOf(AllocateFrom(weights, backstop, pool, eligible, a).value.pools, w.pool);
            && ShareOf(BackstopHeld(p) - BackstopHeld(w.state), backstop, w.usdc + w.xlm, eligible)
            && ShareOf(p.accruedPool - w.state.accruedPool, pool, w.usdc + w.xlm, eligible)
    decreases |weights|
  {
    hide AllocateOne, ShareOf, BackstopHeld, NoEmissions;
    var next := AllocateOne(weights[0], backstop, pool, eligible, a).value;
    var rest := weights[1..];
    if i == 0 {
      OneTurnProRata(weights[0], backstop, pool, eligible, a);
      assert forall j | 0 <= j < |rest| :: rest[j] == weights[j + 1];
      OthersUntouched(rest, backstop, pool, eligible, next, weights[0].pool);
    } else {
      OneTurnStores(weights[0], backstop, pool, eligible, a);
      RestStaysFresh(weights, a.pools, PoolOf(next.pools, weights[0].pool));
      AllocatedProRata(rest, backstop, pool, eligible, next, i - 1);
    }
  }

  lemma OneTurnStores(w: Weight, backstop: int, pool: int, eligible: int, a: Allocated)
    requires AllocateOne(w, backstop, pool, eligible, a).Success?
    ensures var next := AllocateOne(w, backstop, pool, eligible, a).value;
            next.pools == a.pools[w.pool := PoolOf(next.pools, w.pool)]
  {
    hide ProportionalFloor, AllocatePool;
  }

  lemma WeightsNonNegative(weights: seq<Weight>, pools: map<Address, PoolEmissions>)
    requires FreshWeights(weights, pools)
    ensures 0 <= WeightSum(weights)
  {
    WeightSumNonNegative(weights);
  }

  /** So a distribution gives each pool of the zone its proportion of 70 and of 30 percent, carries
      included. */
  lemma DistributionProRata(o: Ongoing, pools: map<Address, PoolEmissions>, amount: int, checkpoint: nat,
                            weights: seq<Weight>, eligible: int, i: nat)
    requires OngoingLedger(o) && FreshWeights(weights, pools) && i < |weights| && 0 <= amount && 0 < eligible
    requires AllocateDistribution(o, pools, amount, checkpoint, weights, eligible).Success?
    ensures QuoteSplit(amount, o.splitCarry).Success?
    ensures var (backstop, pool, _) := QuoteSplit(amount, o.splitCarry).value;
            var w := weights[i];
            var p := PoolOf(AllocateDistribution(o, pools, amount, checkpoint, weights, eligible).value.1, w.pool);
            && ShareOf(BackstopHeld(p) - BackstopHeld(w.state), backstop + o.backstopCarry, w.usdc + w.xlm, eligible)
            && ShareOf(p.accruedPool - w.state.accruedPool, pool + o.poolCarry, w.usdc + w.xlm, eligible)
  {
    hide AllocateFrom, QuoteSplit, TotalsAfter, ShareOf, BackstopHeld, FreshWeights;
    SplitConserves(amount, o.splitCarry);
    var (backstop, pool, _) := QuoteSplit(amount, o.splitCarry).value;
    AllocatedProRata(weights, backstop + o.backstopCarry, pool + o.poolCarry, eligible, Allocated(pools, 0, 0), i);
  }
}
