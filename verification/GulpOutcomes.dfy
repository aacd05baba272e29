/** Exactly when a gulp succeeds, and into which tier each amount goes. */
module GulpOutcomes {
  import opened Numbers
  import opened Sums
  import Tiers
  import opened TierLaws
  import opened TierOutcomes
  import opened Allocation
  import opened AllocationLaws
  import opened AllocationOutcomes
  import opened Backstops
  import opened BookLaws
  import opened DistributionLaws
  import opened DistributionOutcomes

  // Gulp.

  predicate TierHolds(c: Deployment, key: TierKey, asset: Asset) {
    key.pool in c.config && key.tier < |c.config[key.pool]| && c.config[key.pool][key.tier] == asset
  }

  /** What a gulp streams into a tier: the pool's pending BLNT of the tier's own LP, and nothing anywhere else. */
  function GulpTo(b: Book, c: Deployment, pool: Address, key: TierKey): int {
    var p := PoolOf(b.pools, pool);
    if key.pool != pool then 0
    else if TierHolds(c, key, BlntUsdc) then p.pendingUsdc
    else if TierHolds(c, key, BlntXlm) then p.pendingXlm
    else 0
  }

  /** The widths a restart needs: the index as of now, the rate and the end of the seven days. */
  predicate Restartable(t: Tiers.Tier, pending: int, now: nat) {
    && (t.stream.None? || PresentIndex(t, now) <= I128_MAX)
    && (SCALAR_7 * pending + Remaining(t, now)) / 604_800 <= U64_MAX && now + 604_800 <= U64_MAX
  }

  /** A tier that was given nothing is as it was; otherwise `pending` was added to what it accounts for, and all that
      it had not streamed is streamed evenly over the next seven days. Nobody's entitlement changes. */
  ghost predicate Restarted(t: Tiers.Tier, s: Tiers.Tier, pending: int, now: nat) {
    if pending == 0 then s == t
    else
      && s == t.(stream := s.stream, forfeited := s.forfeited, funded := t.funded + pending)
      && s.stream.Some? && s.stream.value.lastTime == now && s.stream.value.expiration == now + 604_800
      && s.stream.value.eps * 604_800 + s.stream.value.scheduleCarry == SCALAR_7 * pending + Remaining(t, now)
      && 0 <= s.stream.value.scheduleCarry < 604_800
      && forall u: Address :: Fair(t, s, u, 0, now)
  }

  lemma TierHoldsIsAsset(c: Deployment, key: TierKey, asset: Asset)
    ensures TierHolds(c, key, asset) <==> TierAsset(c, key) == Success(asset)
  {
  }

  /** Setting one rate: the only tier that can change is the pool's tier of that LP. */
  lemma SetTokenRateOutcome(b: Book, c: Deployment, pool: Address, asset: Asset, pending: int, now: nat)
    requires Holdings(b, c, now) && pool in c.config && IsLp(asset) && 0 <= pending
    requires pending > 0 ==> pool in PoolsWith(c, asset)
    ensures var r := SetTokenRate(b, c, pool, asset, pending, now);
            && (r.Failure? ==> r.error == Overflow)
            && (r.Success? <==>
                  pending == 0
                  || forall k: TierKey ::
                       k.pool == pool && TierHolds(c, k, asset) ==> Restartable(TierOf(b, k), pending, now))
            && (r.Success? ==>
                  && r.value == b.(tiers := r.value.tiers)
                  && forall k: TierKey ::
                       if k.pool == pool && TierHolds(c, k, asset)
                       then Restarted(TierOf(b, k), TierOf(r.value, k), pending, now)
                       else TierOf(r.value, k) == TierOf(b, k))
  {
    hide TierInv, Tiers.SetEmissionRate, EmissionTier, Holdings, Restartable, Restarted, TierHolds, TierAsset;
    if pending > 0 {
      HoldingsTiers(b, c, now);
      EmissionTierExact(c, pool, asset);
      EmissionTierTotal(c, pool, asset);
      var key := EmissionTier(c, pool, asset).value.value;
      forall k: TierKey ensures k.pool == pool && TierHolds(c, k, asset) <==> k == key {
        TierHoldsIsAsset(c, k, asset);
      }
      TierOfInv(b, c, key, now);
      LpEarns(c, key, asset);
      RateExact(TierOf(b, key), pending, now);
    } else {
      NothingRestarted(b, now);
    }
  }

  lemma HoldingsTiers(b: Book, c: Deployment, now: nat)
    requires Holdings(b, c, now)
    ensures TiersInv(b, c, now) && ValidConfig(c)
  {
    hide TiersInv, PoolsInv, CacheInv, ZoneInv, Custody, EntryCaps, ValidConfig;
  }

  lemma LpEarns(c: Deployment, key: TierKey, asset: Asset)
    requires TierAsset(c, key) == Success(asset) && IsLp(asset)
    ensures Earns(c, key)
  {
  }

  lemma RateExact(t: Tiers.Tier, pending: int, now: nat)
    requires TierInv(t, now, true) && 0 < pending
    ensures var r := Tiers.SetEmissionRate(t, pending, now);
            && (r.Failure? ==> r.error == Overflow) && (r.Success? <==> Restartable(t, pending, now))
            && (r.Success? ==> Restarted(t, r.value, pending, now))
  {
    hide TierInv, Fair, PresentIndex, Remaining, Tiers.SetEmissionRate;
    RestartExact(t, pending, now);
  }

  lemma NothingRestarted(b: Book, now: nat)
    ensures forall k: TierKey :: Restarted(TierOf(b, k), TierOf(b, k), 0, now)
  {
  }

  lemma OneLpEach(c: Deployment, key: TierKey)
    ensures !(TierHolds(c, key, BlntUsdc) && TierHolds(c, key, BlntXlm))
  {
  }

  /** Both rates: each LP's pending amount goes to the pool's tier of that LP. */
  lemma RatesOutcome(b: Book, c: Deployment, pool: Address, now: nat)
    requires BookInv(b, c, now) && pool in c.config
    ensures var p := PoolOf(b.pools, pool);
            var first := SetTokenRate(b, c, pool, BlntUsdc, p.pendingUsdc, now);
            var second :=
              if first.Success? then SetTokenRate(first.value, c, pool, BlntXlm, p.pendingXlm, now) else first;
            && (second.Failure? ==> second.error == Overflow)
            && (second.Success? <==> RatesFit(b, c, pool, now))
            && (second.Success? ==>
                  && second.value == b.(tiers := second.value.tiers)
                  && forall k: TierKey :: Restarted(TierOf(b, k), TierOf(second.value, k), GulpTo(b, c, pool, k), now))
  {
    hide Holdings, PoolsInv, CacheInv, Sum, FundedOf, ClaimedOf, GlobalLedger, SetTokenRate, SameBalances, PoolsWith,
         SameCaches, ValidPoolEmissions, PoolOf, RatesFit, LpFits, Routed, GulpTo, TierInv, ZoneInv, Custody, EntryCaps,
         OngoingLedger, BackstopHeldOf, PoolHeldOf, Restarted;
    HoldingsParts(b, c, now);
    PendingPlaced(b, c, pool);
    var p := PoolOf(b.pools, pool);
    PendingSigned(p);
    SetTokenRateKeeps(b, c, pool, BlntUsdc, p.pendingUsdc, now);
    OneRate(b, c, pool, BlntUsdc, p.pendingUsdc, now);
    var first := SetTokenRate(b, c, pool, BlntUsdc, p.pendingUsdc, now);
    RatesFitByLp(b, c, pool, now);
    if first.Success? {
      OneRate(first.value, c, pool, BlntXlm, p.pendingXlm, now);
      RoutedElsewhere(b, first.value, c, pool, p.pendingUsdc, p.pendingXlm, now);
      var second := SetTokenRate(first.value, c, pool, BlntXlm, p.pendingXlm, now);
      if second.Success? {
        BothRouted(b, first.value, second.value, c, pool, now);
      }
    }
  }

  /** Only the pool's tier of this LP may have been restarted. */
  ghost predicate Routed(b: Book, n: Book, c: Deployment, pool: Address, asset: Asset, pending: int, now: nat) {
    forall k: TierKey ::
      if k.pool == pool && TierHolds(c, k, asset) then Restarted(TierOf(b, k), TierOf(n, k), pending, now)
      else TierOf(n, k) == TierOf(b, k)
  }

  lemma OneRate(b: Book, c: Deployment, pool: Address, asset: Asset, pending: int, now: nat)
    requires Holdings(b, c, now) && pool in c.config && IsLp(asset) && 0 <= pending
    requires pending > 0 ==> pool in PoolsWith(c, asset)
    ensures var r := SetTokenRate(b, c, pool, asset, pending, now);
            && (r.Failure? ==> r.error == Overflow) && (r.Success? <==> LpFits(b, c, pool, asset, pending, now))
            && (r.Success? ==>
                  r.value == b.(tiers := r.value.tiers) && Routed(b, r.value, c, pool, asset, pending, now))
  {
    hide Holdings, SetTokenRate, Restartable, Restarted, TierHolds, TierOf;
    SetTokenRateOutcome(b, c, pool, asset, pending, now);
  }

  lemma RoutedElsewhere(b: Book, n: Book, c: Deployment, pool: Address, usdc: int, xlm: int, now: nat)
    requires Routed(b, n, c, pool, BlntUsdc, usdc, now)
    ensures LpFits(n, c, pool, BlntXlm, xlm, now) <==> LpFits(b, c, pool, BlntXlm, xlm, now)
  {
    hide Restartable, Restarted, TierOf;
    forall k: TierKey | k.pool == pool && TierHolds(c, k, BlntXlm) ensures TierOf(n, k) == TierOf(b, k) {
      OneLpEach(c, k);
    }
  }

  lemma BothRouted(b: Book, first: Book, second: Book, c: Deployment, pool: Address, now: nat)
    requires Routed(b, first, c, pool, BlntUsdc, PoolOf(b.pools, pool).pendingUsdc, now)
    requires Routed(first, second, c, pool, BlntXlm, PoolOf(b.pools, pool).pendingXlm, now)
    ensures forall k: TierKey :: Restarted(TierOf(b, k), TierOf(second, k), GulpTo(b, c, pool, k), now)
  {
    hide PoolOf, Restarted, TierHolds, TierOf;
    NothingRestarted(b, now);
    forall k: TierKey ensures Restarted(TierOf(b, k), TierOf(second, k), GulpTo(b, c, pool, k), now) {
      OneLpEach(c, k);
      assert Restarted(TierOf(b, k), TierOf(b, k), 0, now);
    }
  }

  ghost predicate LpFits(b: Book, c: Deployment, pool: Address, asset: Asset, pending: int, now: nat) {
    pending == 0
    || forall k: TierKey :: k.pool == pool && TierHolds(c, k, asset) ==> Restartable(TierOf(b, k), pending, now)
  }

  lemma RatesFitByLp(b: Book, c: Deployment, pool: Address, now: nat)
    requires 0 <= PoolOf(b.pools, pool).pendingUsdc && 0 <= PoolOf(b.pools, pool).pendingXlm
    ensures RatesFit(b, c, pool, now)
            <==> && LpFits(b, c, pool, BlntUsdc, PoolOf(b.pools, pool).pendingUsdc, now)
                 && LpFits(b, c, pool, BlntXlm, PoolOf(b.pools, pool).pendingXlm, now)
  {
    hide PoolOf, Restartable, TierHolds, TierOf;
    var p := PoolOf(b.pools, pool);
    forall k: TierKey ensures !(TierHolds(c, k, BlntUsdc) && TierHolds(c, k, BlntXlm)) {
      OneLpEach(c, k);
    }
    if RatesFit(b, c, pool, now) {
      forall k: TierKey | k.pool == pool && TierHolds(c, k, BlntUsdc) && p.pendingUsdc != 0
        ensures Restartable(TierOf(b, k), p.pendingUsdc, now)
      {
        assert RestartFits(b, c, pool, k, now);
      }
      forall k: TierKey | k.pool == pool && TierHolds(c, k, BlntXlm) && p.pendingXlm != 0
        ensures Restartable(TierOf(b, k), p.pendingXlm, now)
      {
        assert RestartFits(b, c, pool, k, now);
      }
    }
  }

  predicate RestartFits(b: Book, c: Deployment, pool: Address, key: TierKey, now: nat) {
    0 < GulpTo(b, c, pool, key) ==> Restartable(TierOf(b, key), GulpTo(b, c, pool, key), now)
  }

  ghost predicate RatesFit(b: Book, c: Deployment, pool: Address, now: nat) {
    forall k: TierKey :: RestartFits(b, c, pool, k, now)
  }

  /** A gulp: every refusal in order. Otherwise each LP's pending BLNT is streamed into the pool's tier of that LP, the
      pool's own tranche is added to its allowance, all three are cleared, and no other tier or pool changes. */
  lemma GulpOutcome(b: Book, c: Deployment, pool: Address, grant: Grant, now: nat)
    requires BookInv(b, c, now)
    ensures var r, p := Gulp(b, c, pool, grant, now), PoolOf(b.pools, pool);
            if pool !in c.config then r == Failure(NotPool)
            else if pool in b.gulps && (now < b.gulps[pool] + 86_400 || U64_MAX < b.gulps[pool] + 86_400) then
              r == Failure(PoolEmissionGulpTooSoon)
            else if p.pendingUsdc == 0 && p.pendingXlm == 0 && p.accruedPool == 0 then r == Success((b, 0, 0))
            else if !RatesFit(b, c, pool, now) then r == Failure(Overflow)
            else if p.accruedPool > 0 && !(FitsI128(grant.allowance + p.accruedPool)
                                           && grant.sequence + 180 * 17_280 - 1 <= U32_MAX) then r == Failure(Overflow)
            else
              && r.Success? && r.value.1 == p.pendingUsdc + p.pendingXlm && r.value.2 == p.accruedPool
              && var n := r.value.0;
              && n == b.(tiers := n.tiers,
                         pools := b.pools[pool := p.(pendingUsdc := 0, pendingXlm := 0, accruedPool := 0)],
                         gulps := b.gulps[pool := now], granted := b.granted + p.accruedPool,
                         approvals := if p.accruedPool == 0 then b.approvals
                                      else b.approvals[pool := Approval(grant.allowance + p.accruedPool,
                                             grant.sequence + 180 * 17_280 - 1)])
              && forall k: TierKey :: Restarted(TierOf(b, k), TierOf(n, k), GulpTo(b, c, pool, k), now)
  {
    hide BookInv, Sum, FundedOf, ClaimedOf, SetTokenRate, NoEmissions, RatesFit, Restarted, GulpTo, ValidPools, Placed,
         PoolsInv, OngoingLedger, BackstopHeldOf, PoolHeldOf;
    if pool in c.config {
      RatesOutcome(b, c, pool, now);
      PendingFits(b, c, pool, now);
      GulpUnfolds(b, c, pool, grant, now);
    }
  }

  lemma PendingFits(b: Book, c: Deployment, pool: Address, now: nat)
    requires BookInv(b, c, now)
    ensures var p := PoolOf(b.pools, pool);
            ValidPoolEmissions(p) && 0 <= p.pendingUsdc + p.pendingXlm <= I128_MAX
  {
    hide BookInv, Sum, BackstopHeldOf, PoolHeldOf, PoolOf;
    HeldWithinAllocated(b, c, now);
    BookPoolsValid(b, c, now);
    PoolRecordValid(b.pools, pool);
    HeldWithin(b.pools, pool);
  }

  lemma GulpUnfolds(b: Book, c: Deployment, pool: Address, grant: Grant, now: nat)
    requires pool in c.config && ValidPoolEmissions(PoolOf(b.pools, pool))
    requires var p := PoolOf(b.pools, pool); 0 <= p.pendingUsdc + p.pendingXlm <= I128_MAX
    ensures var r, p := Gulp(b, c, pool, grant, now), PoolOf(b.pools, pool);
            var first := SetTokenRate(b, c, pool, BlntUsdc, p.pendingUsdc, now);
            var second :=
              if first.Success? then SetTokenRate(first.value, c, pool, BlntXlm, p.pendingXlm, now) else first;
            if pool in b.gulps && (now < b.gulps[pool] + 86_400 || U64_MAX < b.gulps[pool] + 86_400) then
              r == Failure(PoolEmissionGulpTooSoon)
            else if p.pendingUsdc == 0 && p.pendingXlm == 0 && p.accruedPool == 0 then r == Success((b, 0, 0))
            else if second.Failure? then r == Failure(second.error)
            else if p.accruedPool > 0 && !(FitsI128(grant.allowance + p.accruedPool)
                                           && grant.sequence + 180 * 17_280 - 1 <= U32_MAX) then r == Failure(Overflow)
            else
              var s := second.value;
              r == Success((s.(pools := s.pools[pool := p.(pendingUsdc := 0, pendingXlm := 0, accruedPool := 0)],
                               gulps := s.gulps[pool := now], granted := s.granted + p.accruedPool,
                               approvals := if p.accruedPool == 0 then s.approvals
                                            else s.approvals[pool := Approval(grant.allowance + p.accruedPool,
                                                   grant.sequence + 180 * 17_280 - 1)]),
                            p.pendingUsdc + p.pendingXlm, p.accruedPool))
  {
    hide SetTokenRate, PoolOf;
  }
}
