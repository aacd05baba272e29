/** What a pool weighs, in BLNT or in LP, and exactly when weighing the zone or entering and leaving it succeeds. */
module WeightOutcomes {
  import opened Numbers
  import opened Sums
  import opened TierLaws
  import opened Allocation
  import opened AllocationLaws
  import opened AllocationOutcomes
  import opened Backstops
  import opened BookLaws
  import opened WeightLaws
  import opened DistributionLaws
  import PoolBalances

  // Weights.

  /** A pool's weight through each of its LP tiers: before activation the active BLNT:USDC LP itself, after it the
      BLNT under the active LP, rounded down. */
  function UsdcWeight(p: PoolEmissions, composition: Option<Composition>): int {
    match composition
    case None => p.activeUsdc
    case Some(k) => Part(p.activeUsdc, k.usdcReserve, k.usdcSupply)
  }

  function XlmWeight(p: PoolEmissions, composition: Option<Composition>): int {
    match composition
    case None => 0
    case Some(k) => Part(p.activeXlm, k.xlmReserve, k.xlmSupply)
  }

  function WeightIn(p: PoolEmissions, composition: Option<Composition>): int {
    UsdcWeight(p, composition) + XlmWeight(p, composition)
  }

  function ZoneWeight(pools: map<Address, PoolEmissions>, zone: seq<Address>, composition: Option<Composition>): int {
    if zone == [] then 0
    else WeightIn(PoolOf(pools, zone[0]), composition) + ZoneWeight(pools, zone[1..], composition)
  }

  lemma UnderlyingIsPart(lp: int, supply: int, reserve: int)
    requires 0 <= lp <= supply && Readable(supply, reserve) && reserve <= I128_MAX
    ensures UnderlyingBlnt(lp, supply, reserve) == Success(Part(lp, reserve, supply))
    ensures 0 <= Part(lp, reserve, supply) <= reserve && (lp == 0 ==> Part(lp, reserve, supply) == 0)
  {
    UnderlyingExact(lp, supply, reserve);
    if lp == 0 {
      DivUnique(0, supply, 0);
    }
  }

  /** A weight of the collecting loop is the pool's weight. */
  lemma WeightIsPart(w: Weight, pools: map<Address, PoolEmissions>, pool: Address, composition: Option<Composition>)
    requires WeightIs(w, pools, pool, composition) && Readables(composition)
    requires Covers(composition, PoolOf(pools, pool).activeUsdc, PoolOf(pools, pool).activeXlm)
    requires ValidPoolEmissions(PoolOf(pools, pool))
    ensures w.usdc == UsdcWeight(PoolOf(pools, pool), composition) && 0 <= w.usdc
    ensures w.xlm == XlmWeight(PoolOf(pools, pool), composition) && 0 <= w.xlm
  {
    hide UnderlyingBlnt, Part;
    var p := PoolOf(pools, pool);
    if composition.Some? {
      UnderlyingIsPart(p.activeUsdc, composition.value.usdcSupply, composition.value.usdcReserve);
      UnderlyingIsPart(p.activeXlm, composition.value.xlmSupply, composition.value.xlmReserve);
    }
  }

  lemma OneWeightFits(pools: map<Address, PoolEmissions>, pool: Address, composition: Option<Composition>, s: Collected)
    requires ValidPoolEmissions(PoolOf(pools, pool)) && Readables(composition)
    requires 0 <= s.usdc && 0 <= s.xlm && 0 <= s.eligible
    requires Covers(composition, s.usdc + PoolOf(pools, pool).activeUsdc, s.xlm + PoolOf(pools, pool).activeXlm)
    ensures 0 <= WeightIn(PoolOf(pools, pool), composition)
    ensures CollectOne(pools, pool, composition, s).Success?
            <==> s.eligible + WeightIn(PoolOf(pools, pool), composition) <= I128_MAX
    ensures CollectOne(pools, pool, composition, s).Success? ==>
              CollectOne(pools, pool, composition, s).value.eligible
              == s.eligible + WeightIn(PoolOf(pools, pool), composition)
  {
    hide UnderlyingBlnt, Part, PoolOf;
    var p := PoolOf(pools, pool);
    if composition.Some? {
      UnderlyingIsPart(p.activeUsdc, composition.value.usdcSupply, composition.value.usdcReserve);
      UnderlyingIsPart(p.activeXlm, composition.value.xlmSupply, composition.value.xlmReserve);
    }
  }

  lemma {:induction false} ZoneWeightNonNegative(pools: map<Address, PoolEmissions>, zone: seq<Address>,
                                                 composition: Option<Composition>)
    requires ValidPools(pools) && Readables(composition)
    ensures 0 <= ZoneWeight(pools, zone, composition)
    decreases |zone|
  {
    if zone != [] {
      PoolRecordValid(pools, zone[0]);
      var p := PoolOf(pools, zone[0]);
      if composition.Some? {
        PartNonNegative(p.activeUsdc, composition.value.usdcReserve, composition.value.usdcSupply);
        PartNonNegative(p.activeXlm, composition.value.xlmReserve, composition.value.xlmSupply);
      }
      hide Part, PoolOf;
      ZoneWeightNonNegative(pools, zone[1..], composition);
    }
  }

  lemma PartNonNegative(value: int, part: int, whole: int)
    requires 0 <= value && 0 <= part && 0 < whole
    ensures 0 <= Part(value, part, whole)
  {
    MulNonNegative(value, part);
    DivMonotone(0, value * part, whole);
  }

  lemma {:induction false} CollectFromFits(pools: map<Address, PoolEmissions>, zone: seq<Address>,
                                           composition: Option<Composition>, s: Collected)
    requires ValidPools(pools) && Readables(composition)
    requires 0 <= s.usdc && 0 <= s.xlm && 0 <= s.eligible <= I128_MAX
    requires Covers(composition, s.usdc + ActiveSum(pools, zone, BlntUsdc), s.xlm + ActiveSum(pools, zone, BlntXlm))
    ensures CollectFrom(pools, zone, composition, s).Success?
            <==> s.eligible + ZoneWeight(pools, zone, composition) <= I128_MAX
    decreases |zone|
  {
    hide CollectOne, PoolOf, WeightIn, WeightIs;
    if zone != [] {
      var rest := zone[1..];
      forall i | 0 <= i < |zone| ensures ValidPoolEmissions(PoolOf(pools, zone[i])) {
        PoolRecordValid(pools, zone[i]);
      }
      assert forall i | 0 <= i < |rest| :: rest[i] == zone[i + 1];
      ActiveSumNonNegative(pools, rest, BlntUsdc);
      ActiveSumNonNegative(pools, rest, BlntXlm);
      ZoneWeightNonNegative(pools, rest, composition);
      OneWeightFits(pools, zone[0], composition, s);
      CollectOneExact(pools, zone[0], composition, s);
      var next := CollectOne(pools, zone[0], composition, s);
      if next.Success? {
        WeightState(next.value.weights[|s.weights|], pools, zone[0], composition);
        CollectFromFits(pools, rest, composition, next.value);
      }
    }
  }

  /** Weighing the zone: refused exactly for unreadable liquidity pools or when the total leaves 128 bits; otherwise
      each zone pool's weight, in order, and their sum. */
  lemma CollectOutcome(b: Book, c: Deployment, composition: Option<Composition>, now: nat)
    requires Holdings(b, c, now)
    requires Covers(composition, HeldOf(b, BlntUsdc), HeldOf(b, BlntXlm))
    ensures var r, total := CollectWeights(b.pools, b.zone, composition), ZoneWeight(b.pools, b.zone, composition);
            if b.zone == [] then r == Success(([], 0))
            else if !Readables(composition) then r == Failure(InvalidEmissionValue)
            else if I128_MAX < total then r == Failure(Overflow)
            else
              && r.Success? && r.value.1 == total && |r.value.0| == |b.zone|
              && forall i | 0 <= i < |b.zone| ::
                   var p := PoolOf(b.pools, b.zone[i]);
                   r.value.0[i] == Weight(b.zone[i], p, UsdcWeight(p, composition), XlmWeight(p, composition))
  {
    hide WeightIs, CollectFrom, CacheAgrees, TiersInv, EntryCaps, Custody, ValidConfig, PoolOf, PoolsWith, Part,
         FreshWeights, WeightsPlaced, ZoneWeight;
    if b.zone != [] && Readables(composition) {
      ZoneWithinHeld(b, c, BlntUsdc, now);
      ZoneWithinHeld(b, c, BlntXlm, now);
      CollectWeightsExact(b, c, composition, now);
      CollectFromFits(b.pools, b.zone, composition, Collected([], 0, 0, 0));
      var r := CollectWeights(b.pools, b.zone, composition);
      if r.Success? {
        var weights := r.value.0;
        forall i | 0 <= i < |b.zone|
          ensures var p := PoolOf(b.pools, b.zone[i]);
                  weights[i] == Weight(b.zone[i], p, UsdcWeight(p, composition), XlmWeight(p, composition))
        {
          PoolRecordValid(b.pools, b.zone[i]);
          WeightState(weights[i], b.pools, b.zone[i], composition);
          PartOfSum(b.pools, b.zone, BlntUsdc, i);
          PartOfSum(b.pools, b.zone, BlntXlm, i);
          WeightIsPart(weights[i], b.pools, b.zone[i], composition);
        }
        SumIsZoneWeight(weights, b.pools, b.zone, composition);
      }
    }
  }

  lemma {:induction false} PartOfSum(pools: map<Address, PoolEmissions>, zone: seq<Address>, asset: Asset, i: nat)
    requires i < |zone| && forall j | 0 <= j < |zone| :: 0 <= Cached(PoolOf(pools, zone[j]), asset)
    ensures Cached(PoolOf(pools, zone[i]), asset) <= ActiveSum(pools, zone, asset)
    decreases |zone|
  {
    hide PoolOf;
    var rest := zone[1..];
    assert forall j | 0 <= j < |rest| :: rest[j] == zone[j + 1];
    ActiveSumNonNegative(pools, rest, asset);
    if 0 < i {
      PartOfSum(pools, rest, asset, i - 1);
    }
  }

  lemma {:induction false} SumIsZoneWeight(weights: seq<Weight>, pools: map<Address, PoolEmissions>, zone: seq<Address>,
                                           composition: Option<Composition>)
    requires |weights| == |zone|
    requires forall i | 0 <= i < |zone| ::
               var p := PoolOf(pools, zone[i]);
               weights[i] == Weight(zone[i], p, UsdcWeight(p, composition), XlmWeight(p, composition))
    ensures WeightSum(weights) == ZoneWeight(pools, zone, composition)
    decreases |zone|
  {
    hide PoolOf, UsdcWeight, XlmWeight;
    if zone != [] {
      assert forall i | 0 <= i < |zone[1..]| :: zone[1..][i] == zone[i + 1] && weights[1..][i] == weights[i + 1];
      SumIsZoneWeight(weights[1..], pools, zone[1..], composition);
    }
  }

  // The weight that entry and removal compare.

  /** Through one LP tier after activation: nothing without the tier; otherwise the active LP must be within the
      supply of a readable liquidity pool. */
  function SpotPart(c: Deployment, pool: Address, asset: Asset, active: int, supply: int, reserve: int): Result<int>
    requires pool in c.config
  {
    if asset !in c.config[pool] then Success(0)
    else if supply <= 0 || reserve < 0 || supply < active then Failure(InvalidEmissionValue)
    else if I128_MAX < active * reserve / supply then Failure(Overflow)
    else Success(active * reserve / supply)
  }

  function PoolWeightIs(b: Book, c: Deployment, pool: Address, comet: Composition): Result<int> {
    var p := PoolOf(b.pools, pool);
    if pool !in c.config then Failure(NotPool)
    else if b.migration.activatedAt.None? then Success(p.activeUsdc)
    else
      var usdc :- SpotPart(c, pool, BlntUsdc, p.activeUsdc, comet.usdcSupply, comet.usdcReserve);
      var xlm :- SpotPart(c, pool, BlntXlm, p.activeXlm, comet.xlmSupply, comet.xlmReserve);
      if usdc + xlm <= I128_MAX then Success(usdc + xlm) else Failure(Overflow)
  }

  lemma SpotExact(b: Book, c: Deployment, pool: Address, asset: Asset, supply: int, reserve: int, active: int, now: nat)
    requires ValidConfig(c) && TiersInv(b, c, now) && pool in c.config && IsLp(asset)
    requires ActiveAssetsOf(b, c, pool, asset) == Success(active)
    ensures SpotUnderlying(b, c, pool, asset, supply, reserve) == SpotPart(c, pool, asset, active, supply, reserve)
    ensures SpotPart(c, pool, asset, active, supply, reserve).Success? ==>
              0 <= SpotPart(c, pool, asset, active, supply, reserve).value
  {
    hide TiersInv, ValidConfig, UnderlyingBlnt;
    EmissionTierExact(c, pool, asset);
    QuoteExact(b, c, pool, asset, now);
    UnderlyingExact(active, supply, reserve);
    if 0 < supply && 0 <= reserve && 0 <= active {
      MulNonNegative(active, reserve);
      DivMonotone(0, active * reserve, supply);
    }
  }

  lemma PoolWeightExact(b: Book, c: Deployment, pool: Address, comet: Composition, now: nat)
    requires Holdings(b, c, now)
    ensures PoolWeight(b, c, pool, comet) == PoolWeightIs(b, c, pool, comet)
    ensures PoolWeight(b, c, pool, comet).Success? ==> 0 <= PoolWeight(b, c, pool, comet).value
  {
    hide TiersInv, PoolsInv, ZoneInv, Custody, EntryCaps, ValidConfig, ActiveAssetsOf, SpotUnderlying, SpotPart,
         EmissionTier;
    if pool in c.config {
      assert CacheAgrees(b, c, pool);
      QuoteExact(b, c, pool, BlntUsdc, now);
      var p := PoolOf(b.pools, pool);
      SpotExact(b, c, pool, BlntUsdc, comet.usdcSupply, comet.usdcReserve, p.activeUsdc, now);
      SpotExact(b, c, pool, BlntXlm, comet.xlmSupply, comet.xlmReserve, p.activeXlm, now);
    } else {
      NoSuchPool(b, c, pool, comet);
    }
  }

  lemma NoSuchPool(b: Book, c: Deployment, pool: Address, comet: Composition)
    requires pool !in c.config
    ensures PoolWeight(b, c, pool, comet) == Failure(NotPool)
  {
  }

  // Entering and leaving the zone.

  function Without(zone: seq<Address>, pool: Address): seq<Address> {
    if zone == [] then [] else (if zone[0] == pool then [] else [zone[0]]) + Without(zone[1..], pool)
  }

  lemma {:induction false} WithoutAbsent(zone: seq<Address>, pool: Address)
    requires pool !in zone
    ensures Without(zone, pool) == zone
  {
    if zone != [] {
      WithoutAbsent(zone[1..], pool);
    }
  }

  /** Removing by index keeps the order of the others. */
  lemma {:induction false} RemovedInOrder(zone: seq<Address>, pool: Address)
    requires Distinct(zone)
    ensures match IndexOf(zone, pool)
            case None => pool !in zone
            case Some(i) => pool in zone && i < |zone| && WithoutIndex(zone, i) == Without(zone, pool)
    decreases |zone|
  {
    IndexOfExact(zone, pool);
    if zone != [] {
      DistinctRest(zone);
      if zone[0] == pool {
        WithoutAbsent(zone[1..], pool);
      } else {
        RemovedInOrder(zone[1..], pool);
        if IndexOf(zone[1..], pool).Some? {
          ShiftedRemoval(zone, IndexOf(zone[1..], pool).value);
        }
      }
    }
  }

  lemma DistinctRest(zone: seq<Address>)
    requires Distinct(zone) && zone != []
    ensures Distinct(zone[1..]) && zone[0] !in zone[1..]
  {
  }

  lemma ShiftedRemoval(zone: seq<Address>, i: nat)
    requires zone != [] && i < |zone[1..]|
    ensures WithoutIndex(zone, i + 1) == [zone[0]] + WithoutIndex(zone[1..], i)
  {
    var rest := zone[1..];
    assert zone[..i + 1] == [zone[0]] + rest[..i];
    assert zone[i + 2..] == rest[i + 1..];
  }

  /** Nothing was ever distributed, or the zone was weighed within the last hour. */
  predicate FreshlyWeighed(b: Book, now: nat) {
    b.distributionStarted ==> b.zoneCheckpoint.Some? && b.zoneCheckpoint.value <= now <= b.zoneCheckpoint.value + 3_600
  }

  /** The zone a full one becomes: the named member must weigh strictly less than the entrant. */
  function MakeRoom(b: Book, c: Deployment, entrant: int, toRemove: Option<Address>, comet: Composition)
    : Result<seq<Address>>
  {
    if |b.zone| < 30 then Success(b.zone)
    else if toRemove.None? then Failure(RewardZoneFull)
    else if toRemove.value !in b.zone then Failure(InvalidRewardZoneEntry)
    else
      var weight :- PoolWeightIs(b, c, toRemove.value, comet);
      if entrant <= weight then Failure(InvalidRewardZoneEntry) else Success(Without(b.zone, toRemove.value))
  }

  /** Entering the zone: every refusal in order, and the zone it leaves. */
  lemma AddRewardOutcome(b: Book, c: Deployment, e: EmitterState, toAdd: Address, toRemove: Option<Address>,
                         comet: Composition, now: nat)
    requires BookInv(b, c, now)
    ensures var r, weight := AddReward(b, c, e, toAdd, toRemove, comet, now), PoolWeightIs(b, c, toAdd, comet);
            if b.migration.activatedAt.None? && e.backstop == c.self then r == Failure(MigrationNotActive)
            else if toAdd in b.zone then r == Failure(InvalidRewardZoneEntry)
            else if weight.Failure? then r == Failure(weight.error)
            else if weight.value <= 0 then r == Failure(InvalidRewardZoneEntry)
            else if !(b.zone == [] && b.migration.activatedAt.Some?) && !FreshlyWeighed(b, now) then
              r == Failure(DistributionCheckpointRequired)
            else
              match MakeRoom(b, c, weight.value, toRemove, comet)
              case Failure(x) => r == Failure(x)
              case Success(kept) => r.Success? && r.value == b.(pools := r.value.pools, zone := [toAdd] + kept)
  {
    hide TiersInv, PoolsInv, CacheAgrees, Custody, EntryCaps, ValidConfig, GlobalLedger, PoolWeight, Refresh, Sum,
         CacheInv, PoolWeightIs, QuoteFits, Without, IndexOf, WithoutIndex, Recached;
    PoolWeightExact(b, c, toAdd, comet, now);
    if toRemove.Some? {
      PoolWeightExact(b, c, toRemove.value, comet, now);
      RemovedInOrder(b.zone, toRemove.value);
    }
    if PoolWeight(b, c, toAdd, comet).Success? {
      WeightNeedsPool(b, c, toAdd, comet);
      CacheEverywhere(b, c);
      RefreshKeeps(b, c, toAdd, now);
      CachesQuoted(b, c, toAdd, now);
    }
  }

  lemma CachesQuoted(b: Book, c: Deployment, pool: Address, now: nat)
    requires Holdings(b, c, now) && pool in c.config
    ensures QuoteFits(b, c, pool, BlntUsdc) && QuoteFits(b, c, pool, BlntXlm)
  {
    hide TiersInv, ActiveAssetsOf, PoolsInv, ZoneInv, Custody, EntryCaps, EmissionTier, QuoteFits, QuoteIs;
    assert CacheAgrees(b, c, pool);
    QuoteExact(b, c, pool, BlntUsdc, now);
    QuoteExact(b, c, pool, BlntXlm, now);
  }

  /** Leaving the zone: every refusal in order, and the zone it leaves. */
  lemma RemoveRewardOutcome(b: Book, c: Deployment, e: EmitterState, toRemove: Address, comet: Composition, now: nat)
    requires BookInv(b, c, now)
    ensures var r, weight := RemoveReward(b, c, e, toRemove, comet, now), PoolWeightIs(b, c, toRemove, comet);
            if b.migration.activatedAt.None? && e.backstop == c.self then r == Failure(MigrationNotActive)
            else if toRemove !in b.zone then r == Failure(InvalidRewardZoneEntry)
            else if weight.Failure? then r == Failure(weight.error)
            else if weight.value != 0 then r == Failure(InvalidRewardZoneEntry)
            else if !FreshlyWeighed(b, now) then r == Failure(DistributionCheckpointRequired)
            else r == Success(b.(zone := Without(b.zone, toRemove)))
  {
    hide TiersInv, PoolsInv, CacheInv, Custody, EntryCaps, ValidConfig, GlobalLedger, PoolWeight, PoolWeightIs, Without,
         IndexOf, WithoutIndex;
    PoolWeightExact(b, c, toRemove, comet, now);
    RemovedInOrder(b.zone, toRemove);
  }

  /** All shares of each LP tier of the pool are queued. */
  predicate AllQueued(b: Book, c: Deployment, pool: Address)
    requires pool in c.config
  {
    forall i | 0 <= i < |c.config[pool]| && IsLp(c.config[pool][i]) ::
      TierOf(b, TierKey(pool, i)).pool.q4w == TierOf(b, TierKey(pool, i)).pool.shares
  }

  /** Queued LP weighs nothing: once all of a pool's LP is queued, its cached amounts are zero, it draws nothing from a
      distribution, and it can be taken out of the zone. */
  lemma QueuedPoolLeaves(b: Book, c: Deployment, e: EmitterState, pool: Address, comet: Composition, now: nat)
    requires BookInv(b, c, now) && pool in b.zone && pool in c.config && AllQueued(b, c, pool)
    ensures PoolOf(b.pools, pool).activeUsdc == 0 == PoolOf(b.pools, pool).activeXlm
    ensures Readables(Some(comet)) && (IsActive(b) || e.backstop != c.self) && FreshlyWeighed(b, now) ==>
              RemoveReward(b, c, e, pool, comet, now) == Success(b.(zone := Without(b.zone, pool)))
  {
    hide BookInv, QuoteIs, RemoveReward, Without;
    HoldingsAll(b, c, now);
    CachesAreActiveParts(b, c, now);
    QueuedQuoteIsZero(b, c, pool, BlntUsdc, PoolOf(b.pools, pool).activeUsdc, now);
    QueuedQuoteIsZero(b, c, pool, BlntXlm, PoolOf(b.pools, pool).activeXlm, now);
    RemoveRewardOutcome(b, c, e, pool, comet, now);
    if Readables(Some(comet)) {
      NothingWeighsNothing(comet.usdcSupply, comet.usdcReserve);
      NothingWeighsNothing(comet.xlmSupply, comet.xlmReserve);
    }
  }

  lemma HoldingsAll(b: Book, c: Deployment, now: nat)
    requires BookInv(b, c, now)
    ensures Holdings(b, c, now) && TiersInv(b, c, now) && ValidConfig(c)
  {
    hide TiersInv, PoolsInv, CacheInv, ZoneInv, Custody, EntryCaps, GlobalLedger, ValidConfig;
  }

  lemma NothingWeighsNothing(supply: int, reserve: int)
    requires Readable(supply, reserve)
    ensures 0 * reserve / supply == 0
  {
    DivUnique(0, supply, 0);
  }

  lemma QueuedQuoteIsZero(b: Book, c: Deployment, pool: Address, asset: Asset, amount: int, now: nat)
    requires pool in c.config && AllQueued(b, c, pool) && IsLp(asset) && QuoteIs(b, c, pool, asset, amount)
    requires TiersInv(b, c, now)
    ensures amount == 0
  {
    hide TiersInv, ActivePart;
    if asset in c.config[pool] {
      var i :| 0 <= i < |c.config[pool]| && c.config[pool][i] == asset;
      var key := TierKey(pool, i);
      TierOfInv(b, c, key, now);
      PoolIsValid(TierOf(b, key), now, Earns(c, key));
      NoActivePart(TierOf(b, key).pool, amount);
    }
  }

  lemma NoActivePart(p: PoolBalances.PoolRecord, amount: int)
    requires PoolBalances.ValidPool(p) && p.q4w == p.shares && ActivePart(p, amount) && 0 <= amount
    ensures amount == 0
  {
    if 0 < p.shares && 0 < amount {
      MulMonotone(1, amount, p.shares);
    }
  }
}
