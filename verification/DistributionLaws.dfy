/** Distribution, gulp and reward-zone changes keep the contract-wide invariant and account for every
    unit. */
module DistributionLaws {
  import opened Numbers
  import opened Sums
  import Tiers
  import opened TierLaws
  import opened Allocation
  import opened AllocationLaws
  import opened Backstops
  import opened BookLaws
  import opened WeightLaws
  import UserBalances
  import PoolBalances

  type Tier = Tiers.Tier

  /** Balances, custody, the zone and what pools were granted are untouched. */
  predicate LedgersOnly(b: Book, n: Book) {
    && n.tiers == b.tiers && n.zone == b.zone && n.held == b.held
    && n.gulps == b.gulps && n.granted == b.granted && n.approvals == b.approvals
  }

  // Distribution.

  lemma SameCachesAgree(b: Book, n: Book, c: Deployment)
    requires CacheInv(b, c) && n.tiers == b.tiers && SameCaches(b.pools, n.pools)
    ensures CacheInv(n, c)
  {
    hide ActiveAssetsOf, PoolOf;
    forall pool | pool in c.config ensures CacheAgrees(n, c, pool) {
      SameQuote(b, n, c, pool, BlntUsdc);
      SameQuote(b, n, c, pool, BlntXlm);
      assert CacheAgrees(b, c, pool);
    }
  }

  lemma HoldingsIgnoreLedgers(b: Book, n: Book, c: Deployment, now: nat)
    requires Holdings(b, c, now) && LedgersOnly(b, n) && PoolsInv(n, c) && SameCaches(b.pools, n.pools)
    ensures Holdings(n, c, now)
  {
    hide CacheAgrees, CacheInv, SameCaches, ValidConfig, EntryCaps, Custody, TiersInv, PoolsInv, ZoneInv;
    SameCachesAgree(b, n, c);
    CapsIgnorePools(b, n, c);
    TiersIgnorePools(b, n, c, now);
    ZoneStored(b, n, c);
  }

  lemma GivenLedger(b: Book, n: Book, o: Ongoing, usdcPools: set<Address>, xlmPools: set<Address>)
    requires GlobalLedger(b) && LedgersOnly(b, n) && n.ongoing == o && OngoingLedger(o)
    requires o.backstopClaimed == b.ongoing.backstopClaimed
    requires Given(b.pools, n.pools, o.backstopAllocated - b.ongoing.backstopAllocated,
                   o.poolAllocated - b.ongoing.poolAllocated, usdcPools, xlmPools)
    ensures GlobalLedger(n)
  {
    hide Sum, OngoingLedger, FundedOf, ClaimedOf, BackstopHeldOf, PoolHeldOf, Placed, ValidPools, SameCaches;
  }

  /** What one allocation leaves of the global record. */
  predicate Distributed(b: Book, n: Book, amount: int, checkpoint: nat) {
    && n.ongoing.totalDistributed == b.ongoing.totalDistributed + amount
    && n.ongoing.lastDistribution == Some(checkpoint)
    && n.zoneCheckpoint == Some(checkpoint) && n.distributionStarted
  }

  /** Allocating over freshly collected weights can fail only by overflow: the runtime conservation
      check, every checked subtraction and every sign check hold. */
  lemma AllocateIntoKeeps(b: Book, c: Deployment, amount: int, checkpoint: nat, composition: Option<Composition>,
                          weights: seq<Weight>, eligible: int, now: nat)
    requires BookInv(b, c, now) && ZoneWeights(b, c, composition, weights, eligible) && 0 <= amount
    ensures var r := AllocateInto(b, amount, checkpoint, weights, eligible);
            if r.Failure? then r.error == Overflow
            else
              && BookInv(r.value, c, now) && LedgersOnly(b, r.value) && Distributed(b, r.value, amount, checkpoint)
              && r.value.migration == b.migration && r.value.bindingVerified == b.bindingVerified
  {
    hide Holdings, OngoingLedger, ValidPools, Placed, FreshWeights, WeightsPlaced, AllocateDistribution, Sum,
         GlobalLedger, Given;
    BookPools(b, c, now);
    DistributionConserves(b.ongoing, b.pools, amount, checkpoint, weights, eligible, PoolsWith(c, BlntUsdc),
      PoolsWith(c, BlntXlm));
    var r := AllocateInto(b, amount, checkpoint, weights, eligible);
    if r.Success? {
      var n := r.value;
      var db, dp := n.ongoing.backstopAllocated - b.ongoing.backstopAllocated,
          n.ongoing.poolAllocated - b.ongoing.poolAllocated;
      GivenKeeps(b.pools, n.pools, db, dp, PoolsWith(c, BlntUsdc), PoolsWith(c, BlntXlm));
      HoldingsIgnoreLedgers(b, n, c, now);
      GivenLedger(b, n, n.ongoing, PoolsWith(c, BlntUsdc), PoolsWith(c, BlntXlm));
    }
  }

  lemma BookPools(b: Book, c: Deployment, now: nat)
    requires BookInv(b, c, now)
    ensures PoolsInv(b, c) && OngoingLedger(b.ongoing)
  {
    hide TiersInv, CacheInv, ZoneInv, Custody, EntryCaps, PoolsInv, OngoingLedger;
  }

  lemma SameRecords(pools: map<Address, PoolEmissions>)
    ensures SameCaches(pools, pools)
  {
  }

  /** Moving the checkpoint alone distributes nothing. */
  lemma AdvanceOnlyKeeps(b: Book, c: Deployment, checkpoint: nat, now: nat)
    requires BookInv(b, c, now)
    ensures var r := AdvanceOnly(b, b.ongoing, checkpoint);
            if r.Failure? then r.error == Overflow
            else
              && BookInv(r.value, c, now) && LedgersOnly(b, r.value) && Distributed(b, r.value, 0, checkpoint)
              && r.value.migration == b.migration && r.value.bindingVerified == b.bindingVerified
  {
    hide Holdings, Sum, FundedOf, ClaimedOf, BackstopHeldOf, PoolHeldOf;
    BookPools(b, c, now);
    var r := AdvanceOnly(b, b.ongoing, checkpoint);
    if r.Success? {
      SameRecords(b.pools);
      HoldingsIgnoreLedgers(b, r.value, c, now);
    }
  }

  /** Fields the ledgers do not look at. */
  lemma FlagsKeep(b: Book, n: Book, c: Deployment, now: nat)
    requires BookInv(b, c, now) && LedgersOnly(b, n) && n.pools == b.pools
    requires n.ongoing == b.ongoing.(lastDistribution := n.ongoing.lastDistribution)
    ensures BookInv(n, c, now)
  {
    hide Holdings, Sum, FundedOf, ClaimedOf, BackstopHeldOf, PoolHeldOf;
    BookPools(b, c, now);
    SameRecords(b.pools);
    HoldingsIgnoreLedgers(b, n, c, now);
  }

  // Reward zone.

  lemma {:induction false} IndexOfExact(zone: seq<Address>, pool: Address)
    ensures match IndexOf(zone, pool)
            case None => pool !in zone
            case Some(i) => i < |zone| && zone[i] == pool
  {
    if zone != [] && zone[0] != pool {
      IndexOfExact(zone[1..], pool);
    }
  }

  lemma WithoutIndexExact(zone: seq<Address>, i: nat)
    requires Distinct(zone) && i < |zone|
    ensures var z := WithoutIndex(zone, i);
            && |z| == |zone| - 1 && Distinct(z)
            && (forall p :: p in z <==> p in zone && p != zone[i])
  {
    var z := WithoutIndex(zone, i);
    assert forall j | 0 <= j < |z| :: z[j] == if j < i then zone[j] else zone[j + 1];
    forall p ensures p in z <==> p in zone && p != zone[i] {
      if p in zone && p != zone[i] {
        var j :| 0 <= j < |zone| && zone[j] == p;
        assert z[if j < i then j else j - 1] == p;
      }
    }
  }

  lemma ZoneReplaced(b: Book, n: Book, c: Deployment, now: nat)
    requires BookInv(b, c, now) && n == b.(zone := n.zone) && ZoneInv(n, c)
    ensures BookInv(n, c, now)
  {
    hide Sum, CacheAgrees, ZoneInv, ValidConfig, OngoingLedger, TiersInv, EntryCaps, Custody, CacheInv, FundedOf,
         ClaimedOf,
         BackstopHeldOf, PoolHeldOf;
    CapsIgnorePools(b, n, c);
    TiersIgnorePools(b, n, c, now);
    SameRecords(b.pools);
    SameCachesAgree(b, n, c);
  }

  lemma WeightNeedsPool(b: Book, c: Deployment, pool: Address, comet: Composition)
    requires PoolWeight(b, c, pool, comet).Success?
    ensures pool in c.config
  {
  }

  /** An added pool has positive weight; a full zone gives up exactly the named, strictly lighter
      member. Membership stays duplicate-free, within 30, and within registered pools. */
  lemma AddRewardKeeps(b: Book, c: Deployment, e: EmitterState, toAdd: Address, toRemove: Option<Address>,
                       comet: Composition, now: nat)
    requires BookInv(b, c, now)
    ensures var r := AddReward(b, c, e, toAdd, toRemove, comet, now);
            r.Success? ==>
              && BookInv(r.value, c, now) && r.value == b.(pools := r.value.pools, zone := r.value.zone)
              && toAdd !in b.zone && PoolWeight(b, c, toAdd, comet).Success? && PoolWeight(b, c, toAdd, comet).value > 0
              && (|b.zone| < MAX_RZ_SIZE ==> forall p :: p in r.value.zone <==> p in b.zone || p == toAdd)
              && (|b.zone| == MAX_RZ_SIZE ==>
                    && toRemove.Some? && toRemove.value in b.zone && PoolWeight(b, c, toRemove.value, comet).Success?
                    && PoolWeight(b, c, toRemove.value, comet).value < PoolWeight(b, c, toAdd, comet).value
                    && forall p :: p in r.value.zone <==> (p in b.zone && p != toRemove.value) || p == toAdd)
  {
    hide TiersInv, PoolsInv, CacheAgrees, Custody, EntryCaps, ValidConfig, GlobalLedger, PoolWeight, Refresh, Sum,
         CacheInv;
    var r := AddReward(b, c, e, toAdd, toRemove, comet, now);
    if r.Success? {
      WeightNeedsPool(b, c, toAdd, comet);
      var refreshed := Refresh(b, c, toAdd).value;
      CachesWhole(b, c, toAdd, true) by {
        assert forall p | p in c.config && (p != toAdd || !true) :: CacheAgrees(b, c, p) by { CacheEverywhere(b, c); }
      }
      RefreshKeeps(b, c, toAdd, now);
      RefreshedBook(b, refreshed, c, now);
      if |b.zone| == MAX_RZ_SIZE {
        IndexOfExact(b.zone, toRemove.value);
        WithoutIndexExact(b.zone, IndexOf(b.zone, toRemove.value).value);
      }
      AddedZone(b, refreshed, r.value, c, toAdd);
      ZoneReplaced(refreshed, r.value, c, now);
    }
  }

  lemma CacheEverywhere(b: Book, c: Deployment)
    requires CacheInv(b, c)
    ensures forall p | p in c.config :: CacheAgrees(b, c, p)
  {
    hide CacheAgrees;
  }

  lemma AddedZone(b: Book, refreshed: Book, n: Book, c: Deployment, toAdd: Address)
    requires ZoneInv(b, c) && toAdd in c.config && n == refreshed.(zone := n.zone) && n.zone != [] && n.zone[0] == toAdd
    requires toAdd !in b.zone && |n.zone| <= MAX_RZ_SIZE && Distinct(n.zone[1..])
    requires forall p | p in n.zone[1..] :: p in b.zone
    ensures ZoneInv(n, c)
  {
    var rest := n.zone[1..];
    forall i | 0 <= i < |n.zone| ensures n.zone[i] in c.config && (i > 0 ==> n.zone[i] != toAdd) {
      if i > 0 {
        assert rest[i - 1] == n.zone[i] && rest[i - 1] in rest;
      }
    }
    forall i, j | 0 <= i < j < |n.zone| ensures n.zone[i] != n.zone[j] {
      if i > 0 {
        assert rest[i - 1] == n.zone[i] && rest[j - 1] == n.zone[j];
      }
    }
  }

  lemma RefreshedBook(b: Book, n: Book, c: Deployment, now: nat)
    requires BookInv(b, c, now) && n == b.(pools := n.pools) && PoolsInv(n, c) && CacheInv(n, c)
    requires Sum(BackstopHeldOf(n.pools)) == Sum(BackstopHeldOf(b.pools))
    requires Sum(PoolHeldOf(n.pools)) == Sum(PoolHeldOf(b.pools))
    ensures BookInv(n, c, now)
  {
    hide GlobalLedger, TiersInv, CacheInv, ZoneInv, PoolsInv, EntryCaps, Custody, ValidConfig, BackstopHeldOf,
         PoolHeldOf, Sum;
    CapsIgnorePools(b, n, c);
    TiersIgnorePools(b, n, c, now);
    ZoneStored(b, n, c);
    LedgerRecached(b, n);
  }

  /** Only a weightless member can be removed. */
  lemma RemoveRewardKeeps(b: Book, c: Deployment, e: EmitterState, toRemove: Address, comet: Composition, now: nat)
    requires BookInv(b, c, now)
    ensures var r := RemoveReward(b, c, e, toRemove, comet, now);
            r.Success? ==>
              && BookInv(r.value, c, now) && r.value == b.(zone := r.value.zone)
              && toRemove in b.zone && PoolWeight(b, c, toRemove, comet) == Success(0)
              && forall p :: p in r.value.zone <==> p in b.zone && p != toRemove
  {
    hide TiersInv, PoolsInv, CacheAgrees, Custody, EntryCaps, ValidConfig, GlobalLedger, PoolWeight, CacheInv;
    var r := RemoveReward(b, c, e, toRemove, comet, now);
    if r.Success? {
      IndexOfExact(b.zone, toRemove);
      WithoutIndexExact(b.zone, IndexOf(b.zone, toRemove).value);
      ShrunkZone(b, r.value, c);
      ZoneReplaced(b, r.value, c, now);
    }
  }

  lemma ShrunkZone(b: Book, n: Book, c: Deployment)
    requires ZoneInv(b, c) && Distinct(n.zone) && |n.zone| <= |b.zone| && forall p | p in n.zone :: p in b.zone
    ensures ZoneInv(n, c)
  {
    forall i | 0 <= i < |n.zone| ensures n.zone[i] in c.config {
      assert n.zone[i] in b.zone;
    }
  }

  // Gulp.

  /** Only stream and history fields may differ. */
  ghost predicate SameTier(s: Tier, t: Tier) {
    && t.pool == s.pool
    && forall u: Address :: Tiers.DepositorOf(t, u).balance == Tiers.DepositorOf(s, u).balance
  }

  ghost predicate SameBalances(b: Book, n: Book) {
    forall k: TierKey :: SameTier(TierOf(b, k), TierOf(n, k))
  }

  lemma SameTierQuote(b: Book, n: Book, c: Deployment, key: TierKey, t: Tier, pool: Address, asset: Asset)
    requires n.tiers == b.tiers[key := t] && t.pool == TierOf(b, key).pool
    ensures ActiveAssetsOf(n, c, pool, asset) == ActiveAssetsOf(b, c, pool, asset)
  {
    hide EmissionTier, PoolBalances.ConvertToTokens;
  }

  lemma CachesSame(b: Book, n: Book, c: Deployment, key: TierKey, t: Tier)
    requires CacheInv(b, c) && n == b.(tiers := b.tiers[key := t]) && t.pool == TierOf(b, key).pool
    ensures CacheInv(n, c)
  {
    hide ActiveAssetsOf, PoolOf;
    forall pool | pool in c.config ensures CacheAgrees(n, c, pool) {
      assert CacheAgrees(b, c, pool);
      SameTierQuote(b, n, c, key, t, pool, BlntUsdc);
      SameTierQuote(b, n, c, key, t, pool, BlntXlm);
    }
  }

  lemma CustodySame(b: Book, n: Book, c: Deployment, key: TierKey, t: Tier)
    requires Custody(b, c) && n == b.(tiers := b.tiers[key := t]) && t.pool == TierOf(b, key).pool
    ensures Custody(n, c)
  {
    hide TokensOf, Sum, TierAsset;
    forall asset: Asset ensures Sum(TokensOf(c, n.tiers, asset)) <= HeldOf(n, asset) {
      StoreTokens(c, b.tiers, key, t, asset);
    }
  }

  lemma CapsSame(b: Book, n: Book, c: Deployment, key: TierKey, t: Tier)
    requires EntryCaps(b, c) && n.tiers == b.tiers[key := t] && SameTier(TierOf(b, key), t)
    ensures EntryCaps(n, c)
  {
    forall u: Address, pool | pool in c.config ensures EntriesFrom(n, c, u, pool, 0) <= UserBalances.MAX_Q4W_SIZE {
      StoreEntries(b, n, c, key, t, u, pool, 0);
    }
  }

  /** Storing a tier whose balances did not change disturbs no holding. */
  lemma StoreSame(b: Book, n: Book, c: Deployment, key: TierKey, t: Tier, now: nat)
    requires Holdings(b, c, now) && Configured(c, key) && TierInv(t, now, Earns(c, key)) && SameTier(TierOf(b, key), t)
    requires n == b.(tiers := b.tiers[key := t])
    ensures Holdings(n, c, now) && SameBalances(b, n)
  {
    hide TierInv, TiersInv, PoolsInv, CacheInv, ZoneInv, Custody, EntryCaps, ValidConfig, Earns, Configured;
    TiersStored(b, n, c, key, t, now);
    PoolsStored(b, n, c);
    CachesSame(b, n, c, key, t);
    CustodySame(b, n, c, key, t);
    CapsSame(b, n, c, key, t);
    ZoneStored(b, n, c);
  }

  /** The same for a tier written only if it changed, with what its history adds to the ledgers. */
  lemma PutSame(b: Book, c: Deployment, key: TierKey, t: Tier, now: nat)
    requires Holdings(b, c, now) && Configured(c, key) && TierInv(t, now, Earns(c, key)) && SameTier(TierOf(b, key), t)
    ensures var n := Put(b, key, t);
            && Holdings(n, c, now) && SameBalances(b, n) && n == b.(tiers := n.tiers) && TierOf(n, key) == t
            && (forall k: TierKey :: k != key ==> TierOf(n, k) == TierOf(b, k))
            && Sum(FundedOf(n.tiers)) == Sum(FundedOf(b.tiers)) - TierOf(b, key).funded + t.funded
            && Sum(ClaimedOf(n.tiers)) == Sum(ClaimedOf(b.tiers)) - TierOf(b, key).claimed + t.claimed
            && (forall asset: Asset :: Sum(TokensOf(c, n.tiers, asset)) == Sum(TokensOf(c, b.tiers, asset)))
  {
    hide Holdings, TierInv, Sum, FundedOf, ClaimedOf, TokensOf, SameBalances, Earns, Configured, TierAsset;
    if t == TierOf(b, key) {
      NothingMoved(b);
    } else {
      StoreSame(b, Put(b, key, t), c, key, t, now);
      StoreTier(c, b.tiers, key, t);
      forall asset: Asset ensures Sum(TokensOf(c, Put(b, key, t).tiers, asset)) == Sum(TokensOf(c, b.tiers, asset)) {
        StoreTokens(c, b.tiers, key, t, asset);
      }
    }
  }

  lemma SetTokenRateKeeps(b: Book, c: Deployment, pool: Address, asset: Asset, pending: int, now: nat)
    requires Holdings(b, c, now) && pool in c.config && IsLp(asset) && 0 <= pending
    requires pending > 0 ==> pool in PoolsWith(c, asset)
    ensures var r := SetTokenRate(b, c, pool, asset, pending, now);
            if r.Failure? then r.error == Overflow
            else
              && Holdings(r.value, c, now) && r.value == b.(tiers := r.value.tiers) && SameBalances(b, r.value)
              && Sum(FundedOf(r.value.tiers)) == Sum(FundedOf(b.tiers)) + pending
              && Sum(ClaimedOf(r.value.tiers)) == Sum(ClaimedOf(b.tiers))
  {
    hide TierInv, PoolsInv, CacheInv, ZoneInv, Custody, EntryCaps, Sum, FundedOf, ClaimedOf, Tiers.SetEmissionRate,
         EmissionTier;
    if pending > 0 {
      EmissionTierExact(c, pool, asset);
      EmissionTierTotal(c, pool, asset);
      var key := EmissionTier(c, pool, asset).value.value;
      TierOfInv(b, c, key, now);
      SetRateKeeps(TierOf(b, key), pending, now);
      var r := Tiers.SetEmissionRate(TierOf(b, key), pending, now);
      if r.Success? {
        PutSame(b, c, key, r.value, now);
      }
    } else {
      NothingMoved(b);
    }
  }

  lemma SameBalancesTwice(a: Book, b: Book, c: Book)
    requires SameBalances(a, b) && SameBalances(b, c)
    ensures SameBalances(a, c)
  {
    forall k: TierKey ensures SameTier(TierOf(a, k), TierOf(c, k)) {
      assert SameTier(TierOf(a, k), TierOf(b, k)) && SameTier(TierOf(b, k), TierOf(c, k));
    }
  }

  lemma PendingPlaced(b: Book, c: Deployment, pool: Address)
    requires PoolsInv(b, c)
    ensures var p := PoolOf(b.pools, pool);
            && ValidPoolEmissions(p)
            && (p.pendingUsdc > 0 ==> pool in PoolsWith(c, BlntUsdc))
               && (p.pendingXlm > 0 ==> pool in PoolsWith(c, BlntXlm))
  {
  }

  lemma EmissionTierTotal(c: Deployment, pool: Address, asset: Asset)
    requires pool in c.config
    ensures EmissionTier(c, pool, asset).Success?
  {
  }

  function Gulped(p: PoolEmissions): PoolEmissions {
    p.(pendingUsdc := 0, pendingXlm := 0, accruedPool := 0)
  }

  lemma GulpedRecords(pools: map<Address, PoolEmissions>, pool: Address, usdcPools: set<Address>,
                      xlmPools: set<Address>)
    requires ValidPools(pools) && Placed(pools, usdcPools, xlmPools)
    ensures var next := pools[pool := Gulped(PoolOf(pools, pool))];
            ValidPools(next) && Placed(next, usdcPools, xlmPools) && SameCaches(pools, next)
  {
  }

  lemma GulpedHeld(p: PoolEmissions)
    ensures BackstopHeld(Gulped(p)) == BackstopHeld(p) - p.pendingUsdc - p.pendingXlm
  {
  }

  lemma GulpedPools(b: Book, n: Book, c: Deployment, pool: Address)
    requires PoolsInv(b, c) && n.pools == b.pools[pool := Gulped(PoolOf(b.pools, pool))]
    ensures PoolsInv(n, c) && SameCaches(b.pools, n.pools)
    ensures var p := PoolOf(b.pools, pool);
            && Sum(BackstopHeldOf(n.pools)) == Sum(BackstopHeldOf(b.pools)) - p.pendingUsdc - p.pendingXlm
            && Sum(PoolHeldOf(n.pools)) == Sum(PoolHeldOf(b.pools)) - p.accruedPool
  {
    hide Sum, BackstopHeldOf, PoolHeldOf, PoolsWith, PoolOf, ValidPools, Placed, SameCaches, BackstopHeld;
    var p := PoolOf(b.pools, pool);
    GulpedRecords(b.pools, pool, PoolsWith(c, BlntUsdc), PoolsWith(c, BlntXlm));
    GulpedHeld(p);
    ReplacePool(b.pools, pool, Gulped(p));
  }

  /** The tail of a gulp: both rates are set, the pool's amounts are cleared. */
  lemma GulpSettles(b: Book, s: Book, n: Book, c: Deployment, pool: Address, now: nat)
    requires BookInv(b, c, now) && Holdings(s, c, now) && s == b.(tiers := s.tiers)
    requires var p := PoolOf(b.pools, pool);
             && Sum(FundedOf(s.tiers)) == Sum(FundedOf(b.tiers)) + p.pendingUsdc + p.pendingXlm
             && Sum(ClaimedOf(s.tiers)) == Sum(ClaimedOf(b.tiers))
             && 0 <= p.accruedPool
             && n == s.(pools := s.pools[pool := Gulped(p)], gulps := s.gulps[pool := now],
                granted := s.granted + p.accruedPool, approvals := n.approvals)
    ensures BookInv(n, c, now)
  {
    hide Holdings, PoolsInv, CacheInv, Sum, FundedOf, ClaimedOf, BackstopHeldOf, PoolHeldOf, OngoingLedger,
         SameCaches, PoolOf;
    HoldingsParts(s, c, now);
    GulpedPools(s, n, c, pool);
    HoldingsIgnoreGulps(s, n, c, now);
  }

  lemma GulpForm(b: Book, c: Deployment, pool: Address, grant: Grant, now: nat, first: Result<Book>,
                 second: Result<Book>)
    requires pool in c.config && !GulpedRecently(b, pool, now) && ValidPoolEmissions(PoolOf(b.pools, pool))
    requires first == SetTokenRate(b, c, pool, BlntUsdc, PoolOf(b.pools, pool).pendingUsdc, now)
    requires second == if first.Success?
             then SetTokenRate(first.value, c, pool, BlntXlm, PoolOf(b.pools, pool).pendingXlm, now) else first
    requires first.Success? ==> first.value == b.(tiers := first.value.tiers)
    requires second.Success? ==> second.value == b.(tiers := second.value.tiers)
    ensures var p, r := PoolOf(b.pools, pool), Gulp(b, c, pool, grant, now);
            if r.Failure? then r.error == Overflow || (second == Failure(r.error))
            else
              var (n, backstopAmount, poolAmount) := r.value;
              && backstopAmount == p.pendingUsdc + p.pendingXlm && poolAmount == p.accruedPool
              && ((n == b && p == Gulped(p))
                  || (second.Success?
                      && n == second.value.(pools := b.pools[pool := Gulped(p)], gulps := b.gulps[pool := now],
                                            granted := b.granted + p.accruedPool, approvals := n.approvals)
                      && n.approvals == Approved(b.approvals, pool, p.accruedPool, grant)))
  {
    hide SetTokenRate, GulpedRecently, PoolOf;
  }

  lemma HoldingsIgnoreGulps(b: Book, n: Book, c: Deployment, now: nat)
    requires Holdings(b, c, now) && PoolsInv(n, c) && SameCaches(b.pools, n.pools)
    requires n.tiers == b.tiers && n.zone == b.zone && n.held == b.held
    ensures Holdings(n, c, now)
  {
    hide CacheAgrees, CacheInv, SameCaches, ValidConfig, EntryCaps, Custody, TiersInv, PoolsInv, ZoneInv;
    SameCachesAgree(b, n, c);
    CapsIgnorePools(b, n, c);
    TiersIgnorePools(b, n, c, now);
    ZoneStored(b, n, c);
  }

  /** A positive tranche is added to the allowance the pool had, for 180 days of ledgers. */
  function Approved(approvals: map<Address, Approval>, pool: Address, amount: int, grant: Grant)
    : map<Address, Approval>
  {
    if amount <= 0 then approvals
    else approvals[pool := Approval(grant.allowance + amount, grant.sequence + LEDGER_BUMP_USER)]
  }

  /** What a gulp does: the pending BLNT moves into the pool's streams, its tranche is granted and approved, to
      the unit. */
  ghost predicate GulpEffect(b: Book, n: Book, c: Deployment, pool: Address, backstopAmount: int, poolAmount: int,
                             grant: Grant, now: nat) {
    && BookInv(n, c, now) && SameBalances(b, n)
    && n.ongoing == b.ongoing && n.migration == b.migration && n.zone == b.zone && n.held == b.held
    && n.zoneCheckpoint == b.zoneCheckpoint && n.distributionStarted == b.distributionStarted
    && n.bindingVerified == b.bindingVerified
    && Sum(FundedOf(n.tiers)) == Sum(FundedOf(b.tiers)) + backstopAmount
    && n.granted == b.granted + poolAmount
    && var p := PoolOf(b.pools, pool);
    && backstopAmount == p.pendingUsdc + p.pendingXlm && poolAmount == p.accruedPool
    && PoolOf(n.pools, pool) == Gulped(p)
    && n.approvals == Approved(b.approvals, pool, poolAmount, grant)
  }

  lemma NothingGulped(b: Book, c: Deployment, pool: Address, grant: Grant, now: nat)
    requires BookInv(b, c, now) && PoolOf(b.pools, pool) == Gulped(PoolOf(b.pools, pool))
    ensures GulpEffect(b, b, c, pool, PoolOf(b.pools, pool).pendingUsdc + PoolOf(b.pools, pool).pendingXlm,
                       PoolOf(b.pools, pool).accruedPool, grant, now)
  {
    hide BookInv, SameBalances, Sum, NoEmissions;
    NothingMoved(b);
  }

  lemma AllGulped(b: Book, s: Book, n: Book, c: Deployment, pool: Address, grant: Grant, now: nat)
    requires BookInv(b, c, now) && Holdings(s, c, now) && s == b.(tiers := s.tiers) && SameBalances(b, s)
    requires 0 <= PoolOf(b.pools, pool).accruedPool
    requires var p := PoolOf(b.pools, pool);
             && Sum(FundedOf(s.tiers)) == Sum(FundedOf(b.tiers)) + p.pendingUsdc + p.pendingXlm
             && Sum(ClaimedOf(s.tiers)) == Sum(ClaimedOf(b.tiers))
             && n == s.(pools := s.pools[pool := Gulped(p)], gulps := s.gulps[pool := now],
                granted := s.granted + p.accruedPool,
                approvals := Approved(b.approvals, pool, p.accruedPool, grant))
    ensures GulpEffect(b, n, c, pool, PoolOf(b.pools, pool).pendingUsdc + PoolOf(b.pools, pool).pendingXlm,
                       PoolOf(b.pools, pool).accruedPool, grant, now)
  {
    hide BookInv, Holdings, SameBalances, Sum, FundedOf, ClaimedOf, Gulped, NoEmissions;
    GulpSettles(b, s, n, c, pool, now);
    SameTiersBalance(b, s, n);
  }

  /** Setting both rates either overflows or moves exactly what is pending. */
  lemma RatesSet(b: Book, c: Deployment, pool: Address, now: nat)
    requires BookInv(b, c, now) && pool in c.config
    ensures var p := PoolOf(b.pools, pool);
            var first := SetTokenRate(b, c, pool, BlntUsdc, p.pendingUsdc, now);
            var second :=
              if first.Success? then SetTokenRate(first.value, c, pool, BlntXlm, p.pendingXlm, now) else first;
            && ValidPoolEmissions(p) && 0 <= p.accruedPool
            && (first.Success? ==> first.value == b.(tiers := first.value.tiers))
            && if second.Failure? then second.error == Overflow
               else
                 && Holdings(second.value, c, now) && second.value == b.(tiers := second.value.tiers)
                 && SameBalances(b, second.value)
                 && Sum(FundedOf(second.value.tiers)) == Sum(FundedOf(b.tiers)) + p.pendingUsdc + p.pendingXlm
                 && Sum(ClaimedOf(second.value.tiers)) == Sum(ClaimedOf(b.tiers))
  {
    hide Holdings, PoolsInv, CacheInv, Sum, FundedOf, ClaimedOf, GlobalLedger, SetTokenRate, SameBalances, PoolsWith,
         SameCaches, ValidPoolEmissions, PoolOf;
    HoldingsParts(b, c, now);
    PendingPlaced(b, c, pool);
    var p := PoolOf(b.pools, pool);
    PendingSigned(p);
    SetTokenRateKeeps(b, c, pool, BlntUsdc, p.pendingUsdc, now);
    var first := SetTokenRate(b, c, pool, BlntUsdc, p.pendingUsdc, now);
    if first.Success? {
      SetTokenRateKeeps(first.value, c, pool, BlntXlm, p.pendingXlm, now);
      var second := SetTokenRate(first.value, c, pool, BlntXlm, p.pendingXlm, now);
      if second.Success? {
        SameBalancesTwice(b, first.value, second.value);
      }
    }
  }

  /** A gulp is refused only for an unregistered pool, within a day of the last one, or by overflow:
      pending BLNT always has a tier to stream into. */
  lemma GulpKeeps(b: Book, c: Deployment, pool: Address, grant: Grant, now: nat)
    requires BookInv(b, c, now)
    ensures var r := Gulp(b, c, pool, grant, now);
            if r.Failure? then
              || (r.error == NotPool && pool !in c.config)
              || (r.error == PoolEmissionGulpTooSoon && GulpedRecently(b, pool, now)) || r.error == Overflow
            else
              GulpEffect(b, r.value.0, c, pool, r.value.1, r.value.2, grant, now)
  {
    hide Holdings, BookInv, Sum, FundedOf, ClaimedOf, SetTokenRate, SameBalances, GulpedRecently, NoEmissions, Gulp,
         ValidPoolEmissions, GulpEffect, Gulped, PoolOf, Approved;
    GulpGuards(b, c, pool, grant, now);
    var p := PoolOf(b.pools, pool);
    if pool in c.config && !GulpedRecently(b, pool, now) {
      RatesSet(b, c, pool, now);
      var first := SetTokenRate(b, c, pool, BlntUsdc, p.pendingUsdc, now);
      var second := if first.Success? then SetTokenRate(first.value, c, pool, BlntXlm, p.pendingXlm, now) else first;
      GulpForm(b, c, pool, grant, now, first, second);
      var r := Gulp(b, c, pool, grant, now);
      if r.Success? {
        if r.value.0 == b && p == Gulped(p) {
          NothingGulped(b, c, pool, grant, now);
        } else {
          AllGulped(b, second.value, r.value.0, c, pool, grant, now);
        }
      }
    }
  }

  lemma GulpGuards(b: Book, c: Deployment, pool: Address, grant: Grant, now: nat)
    ensures pool !in c.config ==> Gulp(b, c, pool, grant, now) == Failure(NotPool)
    ensures pool in c.config && GulpedRecently(b, pool, now) ==>
            Gulp(b, c, pool, grant, now) == Failure(PoolEmissionGulpTooSoon)
  {
    hide GulpedRecently, SetTokenRate;
  }

  lemma PendingSigned(p: PoolEmissions)
    requires ValidPoolEmissions(p)
    ensures 0 <= p.pendingUsdc && 0 <= p.pendingXlm && 0 <= p.accruedPool
  {
  }

  lemma HoldingsParts(b: Book, c: Deployment, now: nat)
    requires Holdings(b, c, now)
    ensures PoolsInv(b, c) && CacheInv(b, c)
  {
    hide TiersInv, CacheInv, ZoneInv, Custody, EntryCaps, PoolsInv;
  }

  lemma NothingMoved(b: Book)
    ensures SameBalances(b, b)
  {
  }

  lemma SameTiersBalance(a: Book, b: Book, n: Book)
    requires SameBalances(a, b) && n.tiers == b.tiers
    ensures SameBalances(a, n)
  {
    forall k: TierKey ensures SameTier(TierOf(a, k), TierOf(n, k)) {
      assert SameTier(TierOf(a, k), TierOf(b, k));
    }
  }
}
