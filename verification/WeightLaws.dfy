/** What the reward zone weighs: the cached amounts are backed by custody, so the weight loop meets none
    of its own refusals, and every use of a pool's weight sees the same number. */
module WeightLaws {
  import opened Numbers
  import opened Sums
  import Tiers
  import opened TierLaws
  import opened Allocation
  import opened AllocationLaws
  import opened Backstops
  import opened BookLaws
  import PoolBalances

  function Cached(p: PoolEmissions, asset: Asset): int {
    if asset == BlntUsdc then p.activeUsdc else p.activeXlm
  }

  function ActiveSum(pools: map<Address, PoolEmissions>, zone: seq<Address>, asset: Asset): int {
    if zone == [] then 0 else Cached(PoolOf(pools, zone[0]), asset) + ActiveSum(pools, zone[1..], asset)
  }

  /** Some tier of the pool holds at least `amount`. */
  ghost predicate Backed(m: map<TierKey, int>, pool: Address, amount: int) {
    amount == 0 || exists k :: k in m && k.pool == pool && amount <= m[k]
  }

  /** Distinct pools draw on distinct tiers. */
  lemma {:induction false} ActiveSumWithin(m: map<TierKey, int>, pools: map<Address, PoolEmissions>,
                                           zone: seq<Address>, asset: Asset)
    requires forall k | k in m :: 0 <= m[k]
    requires Distinct(zone)
    requires forall i | 0 <= i < |zone| :: Backed(m, zone[i], Cached(PoolOf(pools, zone[i]), asset))
    ensures ActiveSum(pools, zone, asset) <= Sum(m)
    decreases |zone|
  {
    hide PoolOf, Sum;
    if zone == [] {
      SumNonNegative(m);
    } else {
      var rest := zone[1..];
      assert forall i | 0 <= i < |rest| :: rest[i] == zone[i + 1] && rest[i] != zone[0];
      var amount := Cached(PoolOf(pools, zone[0]), asset);
      if amount == 0 {
        ActiveSumWithin(m, pools, rest, asset);
      } else {
        assert Backed(m, zone[0], amount);
        var k :| k in m && k.pool == zone[0] && amount <= m[k];
        SumRemove(m, k);
        forall i | 0 <= i < |rest| ensures Backed(m - {k}, rest[i], Cached(PoolOf(pools, rest[i]), asset)) {
          BackedWithout(m, k, rest[i], Cached(PoolOf(pools, rest[i]), asset));
        }
        ActiveSumWithin(m - {k}, pools, rest, asset);
      }
    }
  }

  lemma BackedWithout(m: map<TierKey, int>, k: TierKey, pool: Address, amount: int)
    requires Backed(m, pool, amount) && k.pool != pool
    ensures Backed(m - {k}, pool, amount)
  {
    if amount != 0 {
      var j :| j in m && j.pool == pool && amount <= m[j];
      assert j in m - {k};
    }
  }

  lemma CacheBacked(b: Book, c: Deployment, pool: Address, asset: Asset, now: nat)
    requires ValidConfig(c) && TiersInv(b, c, now) && pool in c.config && CacheAgrees(b, c, pool)
    requires asset == BlntUsdc || asset == BlntXlm
    ensures 0 <= Cached(PoolOf(b.pools, pool), asset)
    ensures Backed(TokensOf(c, b.tiers, asset), pool, Cached(PoolOf(b.pools, pool), asset))
    ensures 0 < Cached(PoolOf(b.pools, pool), asset) ==> pool in PoolsWith(c, asset)
  {
    hide TiersInv, TierAsset;
    QuoteExact(b, c, pool, asset, now);
    EmissionTierExact(c, pool, asset);
    var amount := Cached(PoolOf(b.pools, pool), asset);
    match EmissionTier(c, pool, asset).value
    case None =>
    case Some(k) =>
      if k in b.tiers {
        assert TokensOf(c, b.tiers, asset)[k] == TierOf(b, k).pool.tokens;
      } else {
        assert TierOf(b, k).pool.tokens == 0;
      }
  }

  lemma TokensNonNegative(b: Book, c: Deployment, asset: Asset, now: nat)
    requires TiersInv(b, c, now)
    ensures forall k | k in TokensOf(c, b.tiers, asset) :: 0 <= TokensOf(c, b.tiers, asset)[k]
  {
    hide TierInv;
    forall k | k in b.tiers ensures 0 <= b.tiers[k].pool.tokens {
      PoolIsValid(b.tiers[k], now, Earns(c, k));
    }
  }

  lemma PoolIsValid(t: Tiers.Tier, now: nat, eligible: bool)
    requires TierInv(t, now, eligible)
    ensures PoolBalances.ValidPool(t.pool)
  {
  }

  /** All that the zone counts as active LP is in custody. */
  lemma ZoneWithinHeld(b: Book, c: Deployment, asset: Asset, now: nat)
    requires Holdings(b, c, now) && (asset == BlntUsdc || asset == BlntXlm)
    ensures ActiveSum(b.pools, b.zone, asset) <= HeldOf(b, asset)
    ensures forall i | 0 <= i < |b.zone| ::
              && 0 <= Cached(PoolOf(b.pools, b.zone[i]), asset)
              && (0 < Cached(PoolOf(b.pools, b.zone[i]), asset) ==> b.zone[i] in PoolsWith(c, asset))
  {
    hide TiersInv, CacheAgrees, Cached, Backed, Sum, TokensOf, EntryCaps, PoolOf;
    TokensNonNegative(b, c, asset, now);
    forall i | 0 <= i < |b.zone|
      ensures Backed(TokensOf(c, b.tiers, asset), b.zone[i], Cached(PoolOf(b.pools, b.zone[i]), asset))
      ensures 0 <= Cached(PoolOf(b.pools, b.zone[i]), asset)
      ensures 0 < Cached(PoolOf(b.pools, b.zone[i]), asset) ==> b.zone[i] in PoolsWith(c, asset)
    {
      CacheBacked(b, c, b.zone[i], asset, now);
    }
    ActiveSumWithin(TokensOf(c, b.tiers, asset), b.pools, b.zone, asset);
  }

  /** The weight a pool record earns: active BLNT:USDC LP before activation, underlying BLNT after. */
  predicate WeightIs(w: Weight, pools: map<Address, PoolEmissions>, pool: Address, composition: Option<Composition>) {
    && w.pool == pool && w.state == PoolOf(pools, pool)
    && match composition
       case None => w.usdc == w.state.activeUsdc && w.xlm == 0
       case Some(k) =>
         && UnderlyingBlnt(w.state.activeUsdc, k.usdcSupply, k.usdcReserve) == Success(w.usdc)
         && UnderlyingBlnt(w.state.activeXlm, k.xlmSupply, k.xlmReserve) == Success(w.xlm)
  }

  predicate Readables(composition: Option<Composition>) {
    match composition
    case None => true
    case Some(k) => Readable(k.usdcSupply, k.usdcReserve) && Readable(k.xlmSupply, k.xlmReserve)
  }

  predicate Covers(composition: Option<Composition>, usdc: int, xlm: int) {
    match composition
    case None => true
    case Some(k) => usdc <= k.usdcSupply && xlm <= k.xlmSupply
  }

  lemma UnderlyingBounded(lp: int, supply: int, reserve: int)
    requires 0 <= lp <= supply && Readable(supply, reserve)
    ensures match UnderlyingBlnt(lp, supply, reserve)
            case Failure(x) => x == Overflow
            case Success(w) => 0 <= w <= reserve && (lp == 0 ==> w == 0)
  {
    ProportionAtMost(reserve, lp, supply);
    assert lp * reserve == reserve * lp;
  }

  /** One turn of the loop, for a pool whose cached amounts fit what is left of the supplies. */
  lemma CollectOneExact(pools: map<Address, PoolEmissions>, pool: Address, composition: Option<Composition>,
                        s: Collected)
    requires ValidPoolEmissions(PoolOf(pools, pool)) && Readables(composition)
    requires Covers(composition, PoolOf(pools, pool).activeUsdc, PoolOf(pools, pool).activeXlm)
    ensures match CollectOne(pools, pool, composition, s)
            case Failure(x) => x == Overflow
            case Success(r) =>
              && |r.weights| == |s.weights| + 1 && r.weights[..|s.weights|] == s.weights
              && var w := r.weights[|s.weights|];
              && WeightIs(w, pools, pool, composition) && 0 <= w.usdc && 0 <= w.xlm
              && r.eligible == s.eligible + w.usdc + w.xlm
              && r.usdc == s.usdc + (if composition.Some? then w.state.activeUsdc else 0)
              && r.xlm == s.xlm + (if composition.Some? then w.state.activeXlm else 0)
              && (w.state.activeUsdc == 0 ==> w.usdc == 0) && (w.state.activeXlm == 0 ==> w.xlm == 0)
  {
    hide UnderlyingBlnt;
    var p := PoolOf(pools, pool);
    if composition.Some? {
      UnderlyingBounded(p.activeUsdc, composition.value.usdcSupply, composition.value.usdcReserve);
      UnderlyingBounded(p.activeXlm, composition.value.xlmSupply, composition.value.xlmReserve);
    }
  }

  /** A collected weight: whose it is, and that it vanishes with the amount it weighs. */
  predicate Collects(w: Weight, pools: map<Address, PoolEmissions>, pool: Address, composition: Option<Composition>) {
    && WeightIs(w, pools, pool, composition) && 0 <= w.usdc && 0 <= w.xlm
    && (w.state.activeUsdc == 0 ==> w.usdc == 0) && (w.state.activeXlm == 0 ==> w.xlm == 0)
  }

  lemma {:induction false} ActiveSumNonNegative(pools: map<Address, PoolEmissions>, zone: seq<Address>, asset: Asset)
    requires forall i | 0 <= i < |zone| :: 0 <= Cached(PoolOf(pools, zone[i]), asset)
    ensures 0 <= ActiveSum(pools, zone, asset)
  {
    if zone != [] {
      ActiveSumNonNegative(pools, zone[1..], asset);
    }
  }

  lemma {:induction false} CollectFromExact(pools: map<Address, PoolEmissions>, zone: seq<Address>,
                                            composition: Option<Composition>, s: Collected)
    requires ValidPools(pools) && Readables(composition) && 0 <= s.usdc && 0 <= s.xlm
    requires Covers(composition, s.usdc + ActiveSum(pools, zone, BlntUsdc), s.xlm + ActiveSum(pools, zone, BlntXlm))
    ensures match CollectFrom(pools, zone, composition, s)
            case Failure(x) => x == Overflow
            case Success(r) =>
              && |r.weights| == |s.weights| + |zone| && r.weights[..|s.weights|] == s.weights
              && (forall i | 0 <= i < |zone| :: Collects(r.weights[|s.weights| + i], pools, zone[i], composition))
              && r.eligible == s.eligible + WeightSum(r.weights[|s.weights|..])
              && (composition.Some? ==>
                    && r.usdc == s.usdc + ActiveSum(pools, zone, BlntUsdc)
                    && r.xlm == s.xlm + ActiveSum(pools, zone, BlntXlm))
    decreases |zone|
  {
    hide CollectOne, WeightIs, PoolOf;
    if zone != [] {
      var rest := zone[1..];
      PoolRecordValid(pools, zone[0]);
      forall i | 0 <= i < |rest| ensures ValidPoolEmissions(PoolOf(pools, rest[i])) {
        PoolRecordValid(pools, rest[i]);
      }
      ActiveSumNonNegative(pools, rest, BlntUsdc);
      ActiveSumNonNegative(pools, rest, BlntXlm);
      CollectOneExact(pools, zone[0], composition, s);
      var next := CollectOne(pools, zone[0], composition, s);
      if next.Success? {
        WeightState(next.value.weights[|s.weights|], pools, zone[0], composition);
        CollectFromExact(pools, rest, composition, next.value);
        var last := CollectFrom(pools, rest, composition, next.value);
        if last.Success? {
          JoinWeights(s.weights, next.value.weights, last.value.weights, rest);
          forall i | 0 <= i < |zone| ensures Collects(last.value.weights[|s.weights| + i], pools, zone[i],
            composition) {
            if i > 0 {
              assert zone[i] == rest[i - 1];
            }
          }
        }
      }
    }
  }

  lemma WeightState(w: Weight, pools: map<Address, PoolEmissions>, pool: Address, composition: Option<Composition>)
    requires WeightIs(w, pools, pool, composition)
    ensures w.state == PoolOf(pools, pool) && w.pool == pool
  {
  }

  lemma JoinWeights(a: seq<Weight>, b: seq<Weight>, c: seq<Weight>, rest: seq<Address>)
    requires |b| == |a| + 1 && b[..|a|] == a && |c| == |b| + |rest| && c[..|b|] == b
    ensures c[..|a|] == a && c[|a|] == b[|a|]
    ensures WeightSum(c[|a|..]) == b[|a|].usdc + b[|a|].xlm + WeightSum(c[|b|..])
  {
    assert c[|a|..][1..] == c[|b|..];
    assert c[..|a|] == c[..|b|][..|a|];
    assert c[|a|] == c[..|b|][|a|];
  }

  /** What a distribution needs of the collected weights. */
  ghost predicate ZoneWeights(b: Book, c: Deployment, composition: Option<Composition>, weights: seq<Weight>,
                              eligible: int) {
    && |weights| == |b.zone|
    && (forall i | 0 <= i < |weights| :: WeightIs(weights[i], b.pools, b.zone[i], composition))
    && FreshWeights(weights, b.pools) && WeightsPlaced(weights, PoolsWith(c, BlntUsdc), PoolsWith(c, BlntXlm))
    && eligible == WeightSum(weights)
  }

  /** With LP supplies no smaller than the contract's own balances, the loop is refused only for an
      unreadable reserve: neither a pool's amount nor the zone's total ever exceeds the supply. */
  lemma CollectWeightsExact(b: Book, c: Deployment, composition: Option<Composition>, now: nat)
    requires Holdings(b, c, now)
    requires Covers(composition, HeldOf(b, BlntUsdc), HeldOf(b, BlntXlm))
    ensures match CollectWeights(b.pools, b.zone, composition)
            case Failure(x) => x == Overflow || (x == InvalidEmissionValue && !Readables(composition))
            case Success((weights, eligible)) => ZoneWeights(b, c, composition, weights, eligible)
  {
    hide WeightIs, CollectFrom, CacheAgrees, TiersInv, EntryCaps, Custody, ValidConfig, PoolOf, PoolsWith;
    ZoneWithinHeld(b, c, BlntUsdc, now);
    ZoneWithinHeld(b, c, BlntXlm, now);
    if b.zone == [] {
    } else if Readables(composition) {
      CollectFromExact(b.pools, b.zone, composition, Collected([], 0, 0, 0));
      var r := CollectFrom(b.pools, b.zone, composition, Collected([], 0, 0, 0));
      if r.Success? {
        var weights := r.value.weights;
        assert weights[0..] == weights;
        forall i | 0 <= i < |weights|
          ensures ValidWeight(weights[i]) && weights[i].pool == b.zone[i]
                  && weights[i].state == PoolOf(b.pools, weights[i].pool)
          ensures WeightPlaced(weights[i], PoolsWith(c, BlntUsdc), PoolsWith(c, BlntXlm))
          ensures WeightIs(weights[i], b.pools, b.zone[i], composition)
        {
          assert Collects(weights[0 + i], b.pools, b.zone[i], composition);
          WeightState(weights[i], b.pools, b.zone[i], composition);
          PoolRecordValid(b.pools, b.zone[i]);
        }
      }
    }
  }

  /** Cache agreement, as its users see it: reward-zone entry and removal compare the very number the
      next distribution allocates by, before activation and after. */
  lemma EntryWeightIsDistributionWeight(b: Book, c: Deployment, pool: Address, comet: Composition, w: Weight)
    requires pool in c.config && CacheAgrees(b, c, pool) && Readables(Some(comet)) && FitsI128(w.usdc + w.xlm)
    requires WeightIs(w, b.pools, pool, if IsActive(b) then Some(comet) else None)
    ensures PoolWeight(b, c, pool, comet) == Success(w.usdc + w.xlm)
  {
    if IsActive(b) {
      SpotIsUnderlying(b, c, pool, BlntUsdc, comet.usdcSupply, comet.usdcReserve, w.state.activeUsdc);
      SpotIsUnderlying(b, c, pool, BlntXlm, comet.xlmSupply, comet.xlmReserve, w.state.activeXlm);
    }
  }

  lemma SpotIsUnderlying(b: Book, c: Deployment, pool: Address, asset: Asset, supply: int, reserve: int, active: int)
    requires pool in c.config && ActiveAssetsOf(b, c, pool, asset) == Success(active) && Readable(supply, reserve)
    requires UnderlyingBlnt(active, supply, reserve).Success?
    ensures SpotUnderlying(b, c, pool, asset, supply, reserve) == UnderlyingBlnt(active, supply, reserve)
  {
    hide Tiers.ActiveAssets;
    if EmissionTier(c, pool, asset).value.None? {
      DivUnique(0, supply, 0);
    }
  }
}
