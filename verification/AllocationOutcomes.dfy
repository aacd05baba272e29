/** What one distribution does to every pool, to the unit, and when it is refused: only if the total ever
    distributed would leave 128 bits. */
module AllocationOutcomes {
  import opened Numbers
  import opened Sums
  import opened Allocation
  import opened AllocationLaws

  /** A proportional floor: refused for a sign, or for a quotient over 128 bits; the product may be wider. */
  lemma ProportionalExact(value: int, part: int, whole: int)
    ensures var r := ProportionalFloor(value, part, whole);
            if value < 0 || part < 0 || whole <= 0 then r == Failure(InvalidEmissionValue)
            else if I128_MAX < value * part / whole then r == Failure(Overflow)
            else
              && r == Success(value * part / whole) && 0 <= r.value
              && r.value * whole <= value * part < r.value * whole + whole
  {
    if 0 <= value && 0 <= part && 0 < whole {
      MulNonNegative(value, part);
      DivBounds(value * part, whole);
      DivMonotone(0, value * part, whole);
    }
  }

  /** The BLNT under an amount of LP: its floor proportion of the reserve. Refused for an unreadable pool, a negative
      amount or one above the supply; then it is at most the reserve. */
  lemma UnderlyingExact(lp: int, supply: int, reserve: int)
    ensures var r := UnderlyingBlnt(lp, supply, reserve);
            if lp < 0 || supply <= 0 || reserve < 0 || supply < lp then r == Failure(InvalidEmissionValue)
            else if I128_MAX < lp * reserve / supply then r == Failure(Overflow)
            else r == Success(lp * reserve / supply) && r.value * supply <= lp * reserve < r.value * supply + supply
    ensures 0 <= lp <= supply && 0 < supply && 0 <= reserve ==> 0 <= lp * reserve / supply <= reserve
  {
    ProportionalExact(lp, reserve, supply);
    if 0 <= lp <= supply && 0 < supply && 0 <= reserve {
      ProportionAtMost(reserve, lp, supply);
      assert reserve * lp == lp * reserve;
    }
  }

  /** value * part / whole, rounded down. */
  function Part(value: int, part: int, whole: int): int {
    if whole <= 0 then 0 else value * part / whole
  }

  lemma PartExact(value: int, part: int, whole: int)
    requires 0 <= value && 0 <= part <= whole && 0 < whole
    ensures 0 <= Part(value, part, whole) <= value
    ensures Part(value, part, whole) * whole <= value * part < Part(value, part, whole) * whole + whole
    ensures value <= I128_MAX ==> ProportionalFloor(value, part, whole) == Success(Part(value, part, whole))
    ensures part == 0 ==> Part(value, part, whole) == 0
  {
    ProportionAtMost(value, part, whole);
    ProportionalExact(value, part, whole);
    DivBounds(value * part, whole);
    if part == 0 {
      DivUnique(0, whole, 0);
    }
  }

  /** A pool's record after its share of a distribution of `backstop` to depositors and `pool` to pools: its part of
      both by weight, the depositors' part and its own carry split between its two tiers by weight, the rest carried. */
  function PoolAfter(p: PoolEmissions, usdc: int, xlm: int, backstop: int, pool: int, eligible: int): PoolEmissions {
    var weight := usdc + xlm;
    TierSplit(p, usdc, xlm, Part(backstop, weight, eligible)).(
      accruedPool := p.accruedPool + Part(pool, weight, eligible))
  }

  function TierSplit(p: PoolEmissions, usdc: int, xlm: int, allocation: int): PoolEmissions {
    var weight, total := usdc + xlm, allocation + p.tierCarry;
    if weight <= 0 then p
    else
      var toUsdc, toXlm := Part(total, usdc, weight), Part(total, xlm, weight);
      p.(tierCarry := total - toUsdc - toXlm, pendingUsdc := p.pendingUsdc + toUsdc, pendingXlm := p.pendingXlm + toXlm)
  }

  lemma TwoParts(total: int, a: int, b: int)
    requires 0 <= total && 0 <= a && 0 <= b && 0 < a + b
    ensures total - 1 <= Part(total, a, a + b) + Part(total, b, a + b) <= total
  {
    var d := a + b;
    var x, y := Part(total, a, d), Part(total, b, d);
    PartExact(total, a, d);
    PartExact(total, b, d);
    hide Part;
    SumWithin(total, a, b, x, y);
  }

  lemma SumWithin(total: int, a: int, b: int, x: int, y: int)
    requires 0 < a + b && x * (a + b) <= total * a < x * (a + b) + (a + b)
    requires y * (a + b) <= total * b < y * (a + b) + (a + b)
    ensures total - 1 <= x + y <= total
  {
    Distribute(total, a, b);
    Distribute(a + b, x, y);
    Between(x + y, total, a + b);
  }

  lemma Distribute(m: int, a: int, b: int)
    ensures m * (a + b) == m * a + m * b == a * m + b * m
  {
  }

  lemma Between(q: int, n: int, d: int)
    requires 0 < d && d * q <= n * d < d * q + 2 * d
    ensures n - 1 <= q <= n
  {
    if n < q {
      MulMonotone(n + 1, q, d);
    }
    if q < n - 1 {
      MulMonotone(q + 2, n, d);
    }
  }

  /** Splitting between the tiers overflows nothing that the pool's total does not, and carries at most one unit. */
  lemma AllocatePoolExact(p: PoolEmissions, usdc: int, xlm: int, allocation: int)
    requires ValidPoolEmissions(p) && 0 <= usdc && 0 <= xlm && 0 <= allocation && usdc + xlm <= I128_MAX
    requires BackstopHeld(p) + allocation <= I128_MAX && (usdc + xlm == 0 ==> allocation == 0)
    ensures AllocatePool(p, usdc, xlm, allocation) == Success(TierSplit(p, usdc, xlm, allocation))
    ensures var q := TierSplit(p, usdc, xlm, allocation);
            && ValidPoolEmissions(q) && BackstopHeld(q) == BackstopHeld(p) + allocation
            && q.accruedPool == p.accruedPool && (0 < usdc + xlm ==> q.tierCarry <= 1)
  {
    hide ProportionalFloor, Part;
    var weight, total := usdc + xlm, allocation + p.tierCarry;
    if 0 < weight {
      PartExact(total, usdc, weight);
      PartExact(total, xlm, weight);
      TwoParts(total, usdc, xlm);
    }
  }

  lemma AllocateOneExact(w: Weight, backstop: int, pool: int, eligible: int, a: Allocated)
    requires ValidWeight(w) && w.usdc + w.xlm <= eligible <= I128_MAX && 0 <= backstop && 0 <= pool
    requires 0 <= a.backstop <= backstop && 0 <= a.pool <= pool && backstop <= I128_MAX && pool <= I128_MAX
    requires var b, p := Part(backstop, w.usdc + w.xlm, eligible), Part(pool, w.usdc + w.xlm, eligible);
             && a.backstop + b <= backstop && a.pool + p <= pool
             && BackstopHeld(w.state) + b <= I128_MAX && w.state.accruedPool + p <= I128_MAX
    ensures var b, p := Part(backstop, w.usdc + w.xlm, eligible), Part(pool, w.usdc + w.xlm, eligible);
            AllocateOne(w, backstop, pool, eligible, a) ==
            Success(Allocated(a.pools[w.pool := PoolAfter(w.state, w.usdc, w.xlm, backstop, pool, eligible)],
                              a.backstop + b, a.pool + p))
  {
    hide ProportionalFloor, AllocatePool, AllocateOne, BackstopHeld, Part, TierSplit;
    var weight := w.usdc + w.xlm;
    HeldSigned(w.state);
    if 0 < eligible {
      PartExact(backstop, weight, eligible);
      PartExact(pool, weight, eligible);
    } else {
      NoPart(backstop, weight, eligible);
      NoPart(pool, weight, eligible);
    }
    AllocatePoolExact(w.state, w.usdc, w.xlm, Part(backstop, weight, eligible));
    OneTurn(w, backstop, pool, eligible, a, Part(backstop, weight, eligible), Part(pool, weight, eligible));
  }

  lemma NoPart(value: int, part: int, whole: int)
    requires whole <= 0
    ensures Part(value, part, whole) == 0
  {
  }

  /** A turn of the loop once its two shares and the tier split are known. */
  lemma OneTurn(w: Weight, backstop: int, pool: int, eligible: int, a: Allocated, toDepositors: int, toPool: int)
    requires w.usdc + w.xlm <= I128_MAX && 0 <= w.usdc && 0 <= w.xlm
    requires if eligible == 0 then toDepositors == 0 && toPool == 0
             else
               && ProportionalFloor(backstop, w.usdc + w.xlm, eligible) == Success(toDepositors)
               && ProportionalFloor(pool, w.usdc + w.xlm, eligible) == Success(toPool)
    requires AllocatePool(w.state, w.usdc, w.xlm, toDepositors).Success?
    requires 0 <= toDepositors && 0 <= toPool && 0 <= a.backstop && 0 <= a.pool && 0 <= w.state.accruedPool
    requires a.backstop + toDepositors <= I128_MAX && a.pool + toPool <= I128_MAX
    requires var q := AllocatePool(w.state, w.usdc, w.xlm, toDepositors).value;
             q.accruedPool == w.state.accruedPool && w.state.accruedPool + toPool <= I128_MAX
             && ValidPoolEmissions(q.(accruedPool := q.accruedPool + toPool))
    ensures var q := AllocatePool(w.state, w.usdc, w.xlm, toDepositors).value;
            AllocateOne(w, backstop, pool, eligible, a) ==
            Success(Allocated(a.pools[w.pool := q.(accruedPool := q.accruedPool + toPool)], a.backstop + toDepositors,
                              a.pool + toPool))
  {
    hide ProportionalFloor, AllocatePool;
  }

  lemma WithinPart(acc: int, value: int, part: int, whole: int)
    requires Within(acc, value, part, whole) && 0 <= part <= whole && 0 < whole && 0 <= value
    ensures acc <= value
  {
    MulMonotone(part, whole, value);
    if value < acc {
      MulMonotone(value + 1, acc, whole);
    }
  }

  lemma HeldWithin(pools: map<Address, PoolEmissions>, pool: Address)
    requires ValidPools(pools)
    ensures 0 <= BackstopHeld(PoolOf(pools, pool)) <= Sum(BackstopHeldOf(pools))
    ensures 0 <= PoolOf(pools, pool).accruedPool <= Sum(PoolHeldOf(pools))
  {
    hide BackstopHeld, ValidPoolEmissions, NoEmissions, Sum;
    NothingHeld();
    HeldSigned(NoEmissions());
    forall p | p in pools ensures 0 <= BackstopHeld(pools[p]) && 0 <= pools[p].accruedPool {
      HeldSigned(pools[p]);
    }
    AtMostSum(BackstopHeldOf(pools), pool);
    AtMostSum(PoolHeldOf(pools), pool);
  }

  lemma HeldSigned(p: PoolEmissions)
    ensures ValidPoolEmissions(p) ==> 0 <= BackstopHeld(p) && 0 <= p.accruedPool
    ensures p == NoEmissions() ==> p.accruedPool == 0
  {
  }

  /** The rest of the zone: each pool gets its share, no other pool changes, and nothing overflows. */
  lemma {:induction false} AllocateFromExact(weights: seq<Weight>, backstop: int, pool: int, eligible: int,
                                             a: Allocated, done: int, usdcPools: set<Address>, xlmPools: set<Address>)
    requires FreshWeights(weights, a.pools) && ValidPools(a.pools)
    requires Placed(a.pools, usdcPools, xlmPools) && WeightsPlaced(weights, usdcPools, xlmPools)
    requires 0 <= backstop <= I128_MAX && 0 <= pool <= I128_MAX && 0 <= done && done + WeightSum(weights) == eligible
    requires 0 <= a.backstop <= backstop && 0 <= a.pool <= pool && eligible <= I128_MAX
    requires Within(a.backstop, backstop, done, eligible) && Within(a.pool, pool, done, eligible)
    requires Sum(BackstopHeldOf(a.pools)) + backstop - a.backstop <= I128_MAX
    requires Sum(PoolHeldOf(a.pools)) + pool - a.pool <= I128_MAX
    ensures var r := AllocateFrom(weights, backstop, pool, eligible, a);
            && r.Success?
            && (forall i | 0 <= i < |weights| ::
                 PoolOf(r.value.pools, weights[i].pool)
                 == PoolAfter(weights[i].state, weights[i].usdc, weights[i].xlm, backstop, pool, eligible))
            && (forall x: Address :: (forall i | 0 <= i < |weights| :: weights[i].pool != x) ==>
                 PoolOf(r.value.pools, x) == PoolOf(a.pools, x))
    decreases |weights|
  {
    hide Within, AllocateOne, Given, ValidPools, Placed, WeightPlaced, Sum, BackstopHeldOf, PoolHeldOf, BackstopHeld,
         PoolAfter, FreshWeights, Part;
    if weights != [] {
      var w, rest := weights[0], weights[1..];
      FreshFirst(weights, a.pools);
      WeightsNonNegative(rest, a.pools[w.pool := w.state]) by {
        RestStaysFresh(weights, a.pools, w.state);
      }
      HeldWithin(a.pools, w.pool);
      TurnFits(w, backstop, pool, eligible, a, done);
      AllocateOneExact(w, backstop, pool, eligible, a);
      AllocateOneConserves(w, backstop, pool, eligible, a, done, usdcPools, xlmPools);
      var b := AllocateOne(w, backstop, pool, eligible, a).value;
      RestStaysFresh(weights, a.pools, PoolOf(b.pools, w.pool));
      GivenKeeps(a.pools, b.pools, b.backstop - a.backstop, b.pool - a.pool, usdcPools, xlmPools);
      GivenSums(a.pools, b.pools, b.backstop - a.backstop, b.pool - a.pool, usdcPools, xlmPools);
      AllocateFromExact(rest, backstop, pool, eligible, b, done + w.usdc + w.xlm, usdcPools, xlmPools);
      var r := AllocateFrom(rest, backstop, pool, eligible, b).value;
      FreshFirst(weights, a.pools);
      assert forall i | 0 <= i < |rest| :: rest[i] == weights[i + 1] && rest[i].pool != w.pool;
      forall x: Address | forall i | 0 <= i < |weights| :: weights[i].pool != x
        ensures PoolOf(r.pools, x) == PoolOf(a.pools, x)
      {
        assert weights[0].pool != x;
      }
      forall i | 0 <= i < |weights|
        ensures PoolOf(r.pools, weights[i].pool)
             == PoolAfter(weights[i].state, weights[i].usdc, weights[i].xlm, backstop, pool, eligible)
      {
        if 0 < i {
          assert rest[i - 1] == weights[i];
        }
      }
    }
  }

  lemma FreshFirst(weights: seq<Weight>, pools: map<Address, PoolEmissions>)
    requires FreshWeights(weights, pools) && weights != []
    ensures ValidWeight(weights[0]) && weights[0].state == PoolOf(pools, weights[0].pool)
    ensures forall i | 0 < i < |weights| :: weights[i].pool != weights[0].pool
  {
  }

  lemma GivenSums(a: map<Address, PoolEmissions>, b: map<Address, PoolEmissions>, backstop: int, pool: int,
                  usdcPools: set<Address>, xlmPools: set<Address>)
    requires Given(a, b, backstop, pool, usdcPools, xlmPools)
    ensures Sum(BackstopHeldOf(b)) == Sum(BackstopHeldOf(a)) + backstop
    ensures Sum(PoolHeldOf(b)) == Sum(PoolHeldOf(a)) + pool
  {
    hide ValidPools, Placed, SameCaches, Sum;
  }

  /** One turn's shares stay within what is left to give. */
  lemma TurnFits(w: Weight, backstop: int, pool: int, eligible: int, a: Allocated, done: int)
    requires ValidWeight(w) && 0 <= done && done + w.usdc + w.xlm <= eligible && 0 <= backstop && 0 <= pool
    requires 0 <= a.backstop <= backstop && 0 <= a.pool <= pool
    requires Within(a.backstop, backstop, done, eligible) && Within(a.pool, pool, done, eligible)
    requires backstop <= I128_MAX && pool <= I128_MAX
    ensures a.backstop + Part(backstop, w.usdc + w.xlm, eligible) <= backstop
    ensures a.pool + Part(pool, w.usdc + w.xlm, eligible) <= pool
  {
    hide Within, ProportionalFloor, Part;
    var weight := w.usdc + w.xlm;
    if 0 < eligible {
      PartExact(backstop, weight, eligible);
      PartExact(pool, weight, eligible);
      WithinStep(a.backstop, backstop, done, weight, eligible, Part(backstop, weight, eligible));
      WithinStep(a.pool, pool, done, weight, eligible, Part(pool, weight, eligible));
      WithinPart(a.backstop + Part(backstop, weight, eligible), backstop, done + weight, eligible);
      WithinPart(a.pool + Part(pool, weight, eligible), pool, done + weight, eligible);
    } else {
      NoPart(backstop, weight, eligible);
      NoPart(pool, weight, eligible);
    }
  }

  /** What a distribution of `amount` gives depositors and pools, carries included, and what the split leaves. */
  function ToDepositors(o: Ongoing, amount: int): int {
    (amount + o.splitCarry) * 7 / 10 + o.backstopCarry
  }

  function ToPools(o: Ongoing, amount: int): int {
    (amount + o.splitCarry) * 3 / 10 + o.poolCarry
  }

  function Unsplit(o: Ongoing, amount: int): int {
    var total := amount + o.splitCarry;
    total - total * 7 / 10 - total * 3 / 10
  }

  lemma SplitExact(o: Ongoing, amount: int)
    requires 0 <= o.splitCarry && 0 <= amount && amount + o.splitCarry <= I128_MAX
    ensures var total := amount + o.splitCarry;
            QuoteSplit(amount, o.splitCarry) == Success((total * 7 / 10, total * 3 / 10, Unsplit(o, amount)))
    ensures 0 <= Unsplit(o, amount) <= 1
  {
    SplitConserves(amount, o.splitCarry);
  }

  /** A whole distribution succeeds exactly while the total ever distributed fits 128 bits. It gives 70 percent to
      depositors and 30 to pools, and of each every zone pool its part by weight; pools outside the zone get nothing;
      what is not given is carried. */
  lemma AllocationExact(o: Ongoing, pools: map<Address, PoolEmissions>, amount: int, checkpoint: nat,
                        weights: seq<Weight>, eligible: int, usdcPools: set<Address>, xlmPools: set<Address>)
    requires OngoingLedger(o) && ValidPools(pools) && FreshWeights(weights, pools)
    requires Placed(pools, usdcPools, xlmPools) && WeightsPlaced(weights, usdcPools, xlmPools)
    requires 0 <= amount && eligible == WeightSum(weights) <= I128_MAX
    requires Sum(BackstopHeldOf(pools)) <= o.backstopAllocated && Sum(PoolHeldOf(pools)) <= o.poolAllocated
    ensures var r := AllocateDistribution(o, pools, amount, checkpoint, weights, eligible);
            && (r.Failure? ==> r.error == Overflow)
            && (r.Success? <==> o.totalDistributed + amount <= I128_MAX)
            && (r.Success? ==>
                  var (n, next) := r.value;
                  && n.totalDistributed == o.totalDistributed + amount && n.lastDistribution == Some(checkpoint)
                  && n.backstopClaimed == o.backstopClaimed && n.splitCarry == Unsplit(o, amount)
                  && n.backstopAllocated + n.backstopCarry == o.backstopAllocated + ToDepositors(o, amount)
                  && n.poolAllocated + n.poolCarry == o.poolAllocated + ToPools(o, amount)
                  && (forall i | 0 <= i < |weights| ::
                       PoolOf(next, weights[i].pool)
                       == PoolAfter(weights[i].state, weights[i].usdc, weights[i].xlm, ToDepositors(o, amount),
                                    ToPools(o, amount), eligible))
                  && (forall x: Address :: (forall i | 0 <= i < |weights| :: weights[i].pool != x) ==>
                       PoolOf(next, x) == PoolOf(pools, x)))
  {
    hide Within, QuoteSplit, AllocateFrom, FreshWeights, Given, ValidPools, Placed, WeightsPlaced, Sum, PoolAfter,
         BackstopHeldOf, PoolHeldOf;
    DistributionConserves(o, pools, amount, checkpoint, weights, eligible, usdcPools, xlmPools);
    if o.totalDistributed + amount <= I128_MAX {
      SplitExact(o, amount);
      var backstop, pool := ToDepositors(o, amount), ToPools(o, amount);
      WeightsNonNegative(weights, pools);
      WithinZero(backstop, eligible);
      WithinZero(pool, eligible);
      AllocateFromExact(weights, backstop, pool, eligible, Allocated(pools, 0, 0), 0, usdcPools, xlmPools);
      AllocateFromConserves(weights, backstop, pool, eligible, Allocated(pools, 0, 0), 0, usdcPools, xlmPools);
      var a := AllocateFrom(weights, backstop, pool, eligible, Allocated(pools, 0, 0)).value;
      if 0 < eligible {
        WithinWhole(a.backstop, backstop, eligible);
        WithinWhole(a.pool, pool, eligible);
      }
      TotalsExact(o, amount, checkpoint, backstop, pool, a.backstop, a.pool);
    }
  }

  lemma TotalsExact(o: Ongoing, amount: int, checkpoint: nat, backstopDistribution: int, poolDistribution: int,
                    backstop: int, pool: int)
    requires OngoingLedger(o) && 0 <= amount && o.totalDistributed + amount <= I128_MAX
    requires backstopDistribution == ToDepositors(o, amount) && poolDistribution == ToPools(o, amount)
    requires 0 <= backstop <= backstopDistribution && 0 <= pool <= poolDistribution && 0 <= Unsplit(o, amount)
    ensures TotalsAfter(o, amount, checkpoint, Unsplit(o, amount), backstopDistribution, poolDistribution, backstop,
              pool)
            == Success(Ongoing(o.backstopAllocated + backstop, backstopDistribution - backstop, o.backstopClaimed,
                 Some(checkpoint), o.poolAllocated + pool, poolDistribution - pool, Unsplit(o, amount),
                 o.totalDistributed + amount))
  {
  }
}
