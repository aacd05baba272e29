/** Splitting distributed BLNT: 70/30 between depositors and pools, over the reward zone by weight, and
    over each pool's two emission tiers, with every remainder carried forward. */
module Allocation {
  import opened Numbers

  /** Contract-wide totals. */
  datatype Ongoing = Ongoing(
    backstopAllocated: int,
    backstopCarry: int,
    backstopClaimed: int,
    lastDistribution: Option<nat>,
    poolAllocated: int,
    poolCarry: int,
    splitCarry: int,
    totalDistributed: int)

  /** One pool's undelivered allocation and its cached active LP amounts. */
  datatype PoolEmissions = PoolEmissions(
    accruedPool: int,
    activeUsdc: int,
    activeXlm: int,
    tierCarry: int,
    pendingUsdc: int,
    pendingXlm: int)

  function NoEmissions(): PoolEmissions {
    PoolEmissions(0, 0, 0, 0, 0, 0)
  }

  function NothingSince(last: Option<nat>): Ongoing {
    Ongoing(0, 0, 0, last, 0, 0, 0, 0)
  }

  /** LP supply and BLNT reserve of the two canonical liquidity pools, as read in one invocation. */
  datatype Composition = Composition(usdcSupply: Int128, usdcReserve: Int128, xlmSupply: Int128, xlmReserve: Int128)

  datatype Weight = Weight(pool: Address, state: PoolEmissions, usdc: int, xlm: int)

  predicate ValidPoolEmissions(p: PoolEmissions) {
    && 0 <= p.accruedPool && 0 <= p.activeUsdc && 0 <= p.activeXlm
    && 0 <= p.tierCarry && 0 <= p.pendingUsdc && 0 <= p.pendingXlm
  }

  predicate ValidOngoing(o: Ongoing) {
    && 0 <= o.backstopAllocated && 0 <= o.backstopCarry && 0 <= o.backstopClaimed
    && 0 <= o.poolAllocated && 0 <= o.poolCarry && 0 <= o.splitCarry && 0 <= o.totalDistributed
    && o.backstopClaimed <= o.backstopAllocated
  }

  function PoolOf(pools: map<Address, PoolEmissions>, pool: Address): PoolEmissions {
    if pool in pools then pools[pool] else NoEmissions()
  }

  /** Reads and writes of the two records validate their signs. */
  function CheckedPool(p: PoolEmissions): Result<PoolEmissions> {
    if ValidPoolEmissions(p) then Success(p) else Failure(InvalidEmissionValue)
  }

  function CheckedOngoing(o: Ongoing): Result<Ongoing> {
    if ValidOngoing(o) then Success(o) else Failure(InvalidEmissionValue)
  }

  /** A checked subtraction that also refuses a negative result. */
  function NonNegativeSub(left: int, right: int): Result<int> {
    if 0 <= left - right <= I128_MAX then Success(left - right) else Failure(InvalidOngoingBalance)
  }

  /** Floor of value * numerator / denominator through 256 bits. */
  function ProportionalFloor(value: int, numerator: int, denominator: int): Result<int> {
    if value < 0 || numerator < 0 || denominator <= 0 then Failure(InvalidEmissionValue)
    else I128(value * numerator / denominator)
  }

  function QuoteSplit(distribution: int, priorCarry: int): Result<(int, int, int)> {
    if distribution < 0 || priorCarry < 0 then Failure(InvalidEmissionValue)
    else
      var total :- I128(distribution + priorCarry);
      var backstop :- ProportionalFloor(total, 7, 10);
      var pool :- ProportionalFloor(total, 3, 10);
      var given :- I128(backstop + pool);
      if 0 <= total - given then Success((backstop, pool, total - given)) else Failure(Overflow)
  }

  /** Underlying BLNT of an LP amount. */
  function UnderlyingBlnt(lpAmount: int, supply: int, reserve: int): Result<int> {
    if lpAmount < 0 || supply <= 0 || reserve < 0 || lpAmount > supply then Failure(InvalidEmissionValue)
    else ProportionalFloor(lpAmount, reserve, supply)
  }

  predicate Readable(supply: int, reserve: int) {
    supply > 0 && reserve >= 0
  }

  /** Running totals of the weight-collecting loop. */
  datatype Collected = Collected(weights: seq<Weight>, eligible: int, usdc: int, xlm: int)

  /** One pool's turn. `composition` is absent before activation, when active BLNT:USDC LP is the weight. */
  function CollectOne(pools: map<Address, PoolEmissions>, pool: Address, composition: Option<Composition>, c: Collected)
    : Result<Collected>
  {
    var state :- CheckedPool(PoolOf(pools, pool));
    match composition
    case None =>
      var weight :- I128(state.activeUsdc + 0);
      var eligible :- I128(c.eligible + weight);
      Success(Collected(c.weights + [Weight(pool, state, state.activeUsdc, 0)], eligible, c.usdc, c.xlm))
    case Some(comet) =>
      var usdcTotal :- I128(c.usdc + state.activeUsdc);
      var usdc :- UnderlyingBlnt(state.activeUsdc, comet.usdcSupply, comet.usdcReserve);
      var xlmTotal :- I128(c.xlm + state.activeXlm);
      var xlm :- UnderlyingBlnt(state.activeXlm, comet.xlmSupply, comet.xlmReserve);
      var weight :- I128(usdc + xlm);
      var eligible :- I128(c.eligible + weight);
      Success(Collected(c.weights + [Weight(pool, state, usdc, xlm)], eligible, usdcTotal, xlmTotal))
  }

  function CollectFrom(pools: map<Address, PoolEmissions>, zone: seq<Address>, composition: Option<Composition>,
                       c: Collected)
    : Result<Collected>
    decreases |zone|
  {
    if zone == [] then Success(c)
    else
      var next :- CollectOne(pools, zone[0], composition, c);
      CollectFrom(pools, zone[1..], composition, next)
  }

  function CollectWeights(pools: map<Address, PoolEmissions>, zone: seq<Address>, composition: Option<Composition>)
    : Result<(seq<Weight>, int)>
  {
    if zone == [] then Success(([], 0))
    else if composition.Some? && !(Readable(composition.value.usdcSupply, composition.value.usdcReserve)
                                   && Readable(composition.value.xlmSupply, composition.value.xlmReserve)) then
      Failure(InvalidEmissionValue)
    else
      var c :- CollectFrom(pools, zone, composition, Collected([], 0, 0, 0));
      if composition.Some? && (c.usdc > composition.value.usdcSupply || c.xlm > composition.value.xlmSupply) then
        Failure(NoEligibleWeight)
      else
        Success((c.weights, c.eligible))
  }

  /** Split a pool's share of the depositor tranche between its two emission tiers. */
  function AllocatePool(p: PoolEmissions, usdcWeight: int, xlmWeight: int, allocation: int): Result<PoolEmissions> {
    if allocation < 0 then Failure(InvalidEmissionValue)
    else
      var weight :- I128(usdcWeight + xlmWeight);
      var distribution :- I128(allocation + p.tierCarry);
      if weight == 0 then Success(p)
      else
        var usdc :- ProportionalFloor(distribution, usdcWeight, weight);
        var xlm :- ProportionalFloor(distribution, xlmWeight, weight);
        var both :- I128(usdc + xlm);
        var carry :- NonNegativeSub(distribution, both);
        var pendingUsdc :- I128(p.pendingUsdc + usdc);
        var pendingXlm :- I128(p.pendingXlm + xlm);
        Success(p.(tierCarry := carry, pendingUsdc := pendingUsdc, pendingXlm := pendingXlm))
  }

  /** Running totals of the allocation loop. */
  datatype Allocated = Allocated(pools: map<Address, PoolEmissions>, backstop: int, pool: int)

  function AllocateOne(w: Weight, backstopDistribution: int, poolDistribution: int, eligible: int, a: Allocated)
    : Result<Allocated>
  {
    var weight :- I128(w.usdc + w.xlm);
    var backstopShare :- if eligible == 0 then Success(0)
        else ProportionalFloor(backstopDistribution, weight, eligible);
    var poolShare :- if eligible == 0 then Success(0) else ProportionalFloor(poolDistribution, weight, eligible);
    var state :- AllocatePool(w.state, w.usdc, w.xlm, backstopShare);
    var accruedPool :- I128(state.accruedPool + poolShare);
    var stored :- CheckedPool(state.(accruedPool := accruedPool));
    var backstop :- I128(a.backstop + backstopShare);
    var pool :- I128(a.pool + poolShare);
    Success(Allocated(a.pools[w.pool := stored], backstop, pool))
  }

  function AllocateFrom(weights: seq<Weight>, backstopDistribution: int, poolDistribution: int, eligible: int,
                        a: Allocated)
    : Result<Allocated>
    decreases |weights|
  {
    if weights == [] then Success(a)
    else
      var next :- AllocateOne(weights[0], backstopDistribution, poolDistribution, eligible, a);
      AllocateFrom(weights[1..], backstopDistribution, poolDistribution, eligible, next)
  }

  /** The runtime check every stored total passes: all that was distributed is somewhere. */
  function StoreOngoing(o: Ongoing): Result<Ongoing> {
    var valid :- CheckedOngoing(o);
    var given :- I128(o.backstopAllocated + o.poolAllocated);
    var tranches :- I128(o.backstopCarry + o.poolCarry);
    var carries :- I128(o.splitCarry + tranches);
    var accounted :- I128(given + carries);
    if accounted != o.totalDistributed then Failure(InvalidOngoingBalance) else Success(o)
  }

  /** The totals once `backstop` and `pool` units were given out of the two distributions. */
  function TotalsAfter(o: Ongoing, amount: int, checkpoint: nat, splitCarry: int, backstopDistribution: int,
                       poolDistribution: int,
                       backstop: int, pool: int)
    : Result<Ongoing>
  {
    var totalDistributed :- I128(o.totalDistributed + amount);
    var backstopAllocated :- I128(o.backstopAllocated + backstop);
    var poolAllocated :- I128(o.poolAllocated + pool);
    var backstopCarry :- NonNegativeSub(backstopDistribution, backstop);
    var poolCarry :- NonNegativeSub(poolDistribution, pool);
    StoreOngoing(Ongoing(backstopAllocated, backstopCarry, o.backstopClaimed, Some(checkpoint),
                         poolAllocated, poolCarry, splitCarry, totalDistributed))
  }

  function AllocateDistribution(o: Ongoing, pools: map<Address, PoolEmissions>, amount: int, checkpoint: nat,
                                weights: seq<Weight>, eligible: int)
    : Result<(Ongoing, map<Address, PoolEmissions>)>
  {
    var (backstopSplit, poolSplit, splitCarry) :- QuoteSplit(amount, o.splitCarry);
    var backstopDistribution :- I128(backstopSplit + o.backstopCarry);
    var poolDistribution :- I128(poolSplit + o.poolCarry);
    var a :- AllocateFrom(weights, backstopDistribution, poolDistribution, eligible, Allocated(pools, 0, 0));
    var stored :- TotalsAfter(o, amount, checkpoint, splitCarry, backstopDistribution, poolDistribution, a.backstop,
        a.pool);
    Success((stored, a.pools))
  }
}
