/** Exactly when each phase of distribution succeeds, how much it distributes, and what every pool gets. */
module DistributionOutcomes {
  import opened Numbers
  import opened Sums
  import opened Allocation
  import opened AllocationLaws
  import opened AllocationOutcomes
  import Emitters
  import opened EmitterLaws
  import opened Backstops
  import opened BookLaws
  import opened WeightLaws
  import opened WeightOutcomes
  import opened DistributionLaws
  import opened MigrationLaws
  import opened ContractLaws

  /** What distributing `amount` at `checkpoint` does: each zone pool gets its part by its weight in the zone's, other
      pools nothing, the totals and carries follow, and the clock moves. */
  ghost predicate Spread(b: Book, n: Book, composition: Option<Composition>, amount: int, checkpoint: nat) {
    var o, total := b.ongoing, ZoneWeight(b.pools, b.zone, composition);
    && (forall x: Address ::
          var p := PoolOf(b.pools, x);
          PoolOf(n.pools, x)
          == if x in b.zone then
               PoolAfter(p, UsdcWeight(p, composition), XlmWeight(p, composition), ToDepositors(o, amount),
                         ToPools(o, amount), total)
             else p)
    && n.ongoing.totalDistributed == o.totalDistributed + amount && n.ongoing.splitCarry == Unsplit(o, amount)
    && n.ongoing.backstopAllocated + n.ongoing.backstopCarry == o.backstopAllocated + ToDepositors(o, amount)
    && n.ongoing.poolAllocated + n.ongoing.poolCarry == o.poolAllocated + ToPools(o, amount)
    && n.ongoing.backstopClaimed == o.backstopClaimed
    && n.ongoing.lastDistribution == Some(checkpoint) && n.zoneCheckpoint == Some(checkpoint) && n.distributionStarted
    && LedgersOnly(b, n)
  }

  lemma HeldWithinAllocated(b: Book, c: Deployment, now: nat)
    requires BookInv(b, c, now)
    ensures Sum(BackstopHeldOf(b.pools)) <= b.ongoing.backstopAllocated
    ensures Sum(PoolHeldOf(b.pools)) <= b.ongoing.poolAllocated
    ensures PoolsInv(b, c) && OngoingLedger(b.ongoing) && Holdings(b, c, now)
  {
    hide Holdings, Sum, BackstopHeldOf, PoolHeldOf, FundedOf, ClaimedOf, OngoingLedger, PoolsInv;
    BookPools(b, c, now);
    FundedNonNegative(b, c, now);
  }

  lemma FundedNonNegative(b: Book, c: Deployment, now: nat)
    requires Holdings(b, c, now)
    ensures 0 <= Sum(FundedOf(b.tiers))
  {
    hide PoolsInv, CacheInv, ZoneInv, Custody, EntryCaps, Sum, TierLaws.TierInv;
    forall k | k in b.tiers ensures 0 <= b.tiers[k].funded {
      TierLaws.ClaimedAtMostFunded(b.tiers[k], now, Earns(c, k));
    }
    SumNonNegative(FundedOf(b.tiers));
  }

  /** Allocating over freshly collected weights succeeds exactly while the total distributed fits 128 bits. */
  lemma AllocateIntoOutcome(b: Book, c: Deployment, amount: int, checkpoint: nat, composition: Option<Composition>,
                            weights: seq<Weight>, eligible: int, now: nat)
    requires BookInv(b, c, now) && 0 <= amount && Readables(composition)
    requires Covers(composition, HeldOf(b, BlntUsdc), HeldOf(b, BlntXlm))
    requires CollectWeights(b.pools, b.zone, composition) == Success((weights, eligible)) && b.zone != []
    ensures var r := AllocateInto(b, amount, checkpoint, weights, eligible);
            && (r.Failure? ==> r.error == Overflow)
            && (r.Success? <==> b.ongoing.totalDistributed + amount <= I128_MAX)
            && (r.Success? ==> Spread(b, r.value, composition, amount, checkpoint))
  {
    hide Holdings, OngoingLedger, ValidPools, Placed, FreshWeights, WeightsPlaced, AllocateDistribution, Sum,
         GlobalLedger, PoolAfter, PoolOf, CollectWeights, UsdcWeight, XlmWeight, WeightIs, BackstopHeldOf, PoolHeldOf;
    HeldWithinAllocated(b, c, now);
    CollectOutcome(b, c, composition, now);
    CollectWeightsExact(b, c, composition, now);
    AllocationExact(b.ongoing, b.pools, amount, checkpoint, weights, eligible, PoolsWith(c, BlntUsdc),
      PoolsWith(c, BlntXlm));
    var r := AllocateInto(b, amount, checkpoint, weights, eligible);
    if r.Success? {
      forall x: Address
        ensures var p := PoolOf(b.pools, x);
                PoolOf(r.value.pools, x)
                == if x in b.zone then
                     PoolAfter(p, UsdcWeight(p, composition), XlmWeight(p, composition),
                               ToDepositors(b.ongoing, amount), ToPools(b.ongoing, amount), eligible)
                   else p
      {
        if x in b.zone {
          var i :| 0 <= i < |b.zone| && b.zone[i] == x;
          assert weights[i].pool == x;
        }
      }
    }
  }

  // Ongoing distribution.

  /** Distribution by an active contract: the refusals in order; otherwise it distributes one BLNT for each second
      since its own checkpoint, and the emitter mints one for each second since its. */
  lemma DistributeOutcome(b: Book, c: Deployment, e: EmitterState, comet: Composition, now: nat)
    requires Inv(b, c, e, now) && IsActive(b)
    requires Covers(Some(comet), HeldOf(b, BlntUsdc), HeldOf(b, BlntXlm))
    ensures var r, amount := Backstops.Distribute(b, c, e, comet, now), (now - LastOf(b)) * 10_000_000;
            && c.self in e.lastDistro
            && if e.backstop != c.self then r == Failure(EmitterDidNotMigrate)
               else if b.zone == [] then r == Failure(NoEligibleWeight)
               else if !Readables(Some(comet)) then r == Failure(InvalidEmissionValue)
               else if I128_MAX < ZoneWeight(b.pools, b.zone, Some(comet)) then r == Failure(Overflow)
               else if now - LastOf(b) < 5 then r == Failure(DistributionTooSoon)
               else if !b.bindingVerified && e.lastDistro[c.self] == now then r == Failure(InvalidOngoingBalance)
               else if I128_MAX < b.ongoing.totalDistributed + amount then r == Failure(Overflow)
               else
                 && r.Success? && r.value.2 == amount && Spread(b, r.value.0, Some(comet), amount, now)
                 && r.value.0.bindingVerified && r.value.0.migration == b.migration
                 && Emitters.Distribute(e, c.self, now).Success?
                 && r.value.1 == Emitters.Distribute(e, c.self, now).value.0
  {
    hide BookInv, EmitterInv, Lifecycle, Activated, CollectWeights, Emitters.Distribute, AllocateInto,
         DistributeActive, CheckedOngoing, Deployed, ZoneWeight, Spread, Attested, Readables, Covers;
    ActiveFacts(b, c, e, now);
    BookHoldings(b, c, now);
    if e.backstop == c.self {
      if b.zone != [] {
        DistributeKeeps(e, now);
        var minted := Emitters.Distribute(e, c.self, now);
        DistributeActiveForm(b, c, e, comet, now, minted);
        CollectOutcome(b, c, Some(comet), now);
        var weights := CollectWeights(b.pools, b.zone, Some(comet));
        if weights.Success? {
          var amount := (now - LastOf(b)) * SCALAR_7;
          TotalSigned(b.ongoing);
          AllocateIntoOutcome(b, c, amount, now, Some(comet), weights.value.0, weights.value.1, now);
          var next := AllocateInto(b, amount, now, weights.value.0, weights.value.1);
          if next.Success? {
            AllocatedOnly(b, amount, now, weights.value.0, weights.value.1);
            SpreadIgnoresFlag(b, next.value, next.value.(bindingVerified := true), Some(comet), amount, now);
          }
        }
      } else {
        EmptyZoneRefused(b, c, e, comet, now);
      }
    } else {
      NotCurrentRefused(b, c, e, comet, now);
    }
  }

  lemma TotalSigned(o: Ongoing)
    requires OngoingLedger(o)
    ensures 0 <= o.totalDistributed
  {
  }

  lemma AllocatedOnly(b: Book, amount: int, checkpoint: nat, weights: seq<Weight>, eligible: int)
    requires AllocateInto(b, amount, checkpoint, weights, eligible).Success?
    ensures var n := AllocateInto(b, amount, checkpoint, weights, eligible).value;
            n.migration == b.migration && n.bindingVerified == b.bindingVerified
  {
    hide AllocateDistribution;
  }

  lemma SpreadIgnoresFlag(b: Book, n: Book, m: Book, composition: Option<Composition>, amount: int, checkpoint: nat)
    requires Spread(b, n, composition, amount, checkpoint)
    requires m == n.(bindingVerified := m.bindingVerified, migration := m.migration)
    ensures Spread(b, m, composition, amount, checkpoint)
  {
    hide PoolAfter, PoolOf, UsdcWeight, XlmWeight, ZoneWeight;
  }

  // Activation.

  lemma StoreFits(o: Ongoing, last: Option<nat>)
    requires OngoingLedger(o) && o.totalDistributed <= I128_MAX
    ensures StoreOngoing(o.(lastDistribution := last)) == Success(o.(lastDistribution := last))
  {
  }

  lemma InactiveTotal(b: Book, c: Deployment, e: EmitterState, now: nat)
    requires Inv(b, c, e, now) && !IsActive(b)
    ensures OngoingLedger(b.ongoing) && 0 <= b.ongoing.totalDistributed <= MAX_BACKFILLED_EMISSIONS
    ensures b.ongoing.totalDistributed == b.migration.scheduledBackfill && b.migration.fundedBackfill.None?
    ensures b.migration.epochStart.None? ==>
              b.migration.verifiedUnlock.None? && b.ongoing.lastDistribution.None? && b.ongoing.totalDistributed == 0
    ensures b.migration.epochStart.Some? ==> b.ongoing.lastDistribution.Some? && LastOf(b) <= now
  {
    hide Holdings, EmitterInv, Deployed, Attested, Sum;
  }

  /** The switch: refused exactly when the epoch is open and the attested window is not; nothing else, not even a
      width, can refuse it. It takes over the emitter's checkpoint and distributes nothing. */
  lemma ActivateOutcome(b: Book, c: Deployment, e: EmitterState, comet: Composition, now: nat)
    requires Inv(b, c, e, now) && !IsActive(b) && e.backstop == c.self
    ensures var r, m := Backstops.Distribute(b, c, e, comet, now), b.migration;
            && c.self in e.lastDistro
            && if m.epochStart.Some? && m.verifiedUnlock.None? then r == Failure(MigrationNotPrepared)
               else if m.epochStart.Some?
                       && !(m.verifiedUnlock.value <= now <= m.verifiedUnlock.value + 7 * 86_400) then
                 r == Failure(SyncWindowExpired)
               else
                 && r.Success? && r.value.1 == e && r.value.2 == 0
                 && var n, last := r.value.0, e.lastDistro[c.self];
                 && n.migration.activatedAt == Some(now) && n.migration.epochStart == m.epochStart
                 && n.migration.scheduledBackfill == m.scheduledBackfill && n.migration.fundedBackfill.None?
                 && n.migration.backfillEnd == (if b.ongoing.lastDistribution.Some? then b.ongoing.lastDistribution
                                                else Some(last))
                 && n.ongoing == b.ongoing.(lastDistribution := Some(last)) && n.zoneCheckpoint == Some(last)
                 && n.distributionStarted && n.pools == b.pools && LedgersOnly(b, n)
  {
    hide BookInv, EmitterInv, Lifecycle, CheckedOngoing, Deployed, Attested, StoreOngoing, OngoingLedger;
    InactiveParts(b, c, e, now);
    InactiveTotal(b, c, e, now);
    ActivationExact(b, c, e, now);
    EmitterLaws.CurrentInstalled(e, now);
    ActivatingForm(b, c, e, comet, now) by {
      if Activate(b, c, e, now).Success? {
        ActivateForm(b, c, e, now);
        CheckIgnoresClock(b.ongoing, Some(Activate(b, c, e, now).value.1));
      }
    }
    if Activate(b, c, e, now).Success? {
      var (active, checkpoint) := Activate(b, c, e, now).value;
      StoreFits(b.ongoing, Some(checkpoint));
    }
  }

  // Backfill.

  /** What a visit to the queue attests: the unlock of a swap to this contract, from seven days before it to seven
      days after. */
  function AttestedBy(e: EmitterState, now: nat): Option<nat> {
    if e.queued.Some? && e.queued.value.unlockTime <= now + 7 * 86_400 && now <= e.queued.value.unlockTime + 7 * 86_400
    then Some(e.queued.value.unlockTime) else None
  }

  predicate QueuedElsewhere(c: Deployment, e: EmitterState) {
    e.queued.Some? && (e.queued.value.newBackstop != c.self || e.queued.value.newBackstopToken != c.migrationToken)
  }

  /** One BLNT for each second since the last checkpoint, up to what is left of ten million. The first visit opens the
      epoch and counts from now. */
  function BackfillDue(b: Book, now: nat): int {
    var elapsed := if b.migration.epochStart.None? then 0 else now - LastOf(b);
    Min(elapsed * 10_000_000, 10_000_000 * 10_000_000 - b.migration.scheduledBackfill)
  }

  /** Backfill: the refusals in order; otherwise the queue is attested, the epoch opened if it was not, and the amount
      due distributed by active BLNT:USDC LP; with none of that in the zone only the clock moves. */
  lemma BackfillOutcome(b: Book, c: Deployment, e: EmitterState, comet: Composition, now: nat)
    requires Inv(b, c, e, now) && !IsActive(b) && e.backstop != c.self
    ensures var r, m, weight := Backstops.Distribute(b, c, e, comet, now), b.migration,
                ZoneWeight(b.pools, b.zone, None);
            var elapsed := if m.epochStart.None? then 0 else now - LastOf(b);
            if QueuedElsewhere(c, e) then r == Failure(InvalidQueuedSwap)
            else if e.queued.Some? && U64_MAX < e.queued.value.unlockTime + 7 * 86_400 then r == Failure(Overflow)
            else if I128_MAX < weight then r == Failure(Overflow)
            else if 0 < weight && I128_MAX < elapsed * 10_000_000 then r == Failure(Overflow)
            else
              && r.Success? && r.value.1 == e && r.value.2 == (if weight == 0 then 0 else BackfillDue(b, now))
              && var n, amount := r.value.0, r.value.2;
              && n.migration == m.(verifiedUnlock := AttestedBy(e, now),
                                   epochStart := if m.epochStart.None? then Some(now) else m.epochStart,
                                   scheduledBackfill := m.scheduledBackfill + amount)
              && n.bindingVerified == b.bindingVerified
              && (weight > 0 ==> Spread(b, n, None, amount, now))
              && (weight == 0 ==>
                    && n.pools == b.pools && n.ongoing == b.ongoing.(lastDistribution := Some(now))
                    && n.zoneCheckpoint == Some(now) && n.distributionStarted && LedgersOnly(b, n))
  {
    hide Inv, PrepareBackfill, CheckpointBackfill, Backstops.Distribute, AttestedBy, ZoneWeight, Spread, BackfillDue,
         LedgersOnly;
    PreparedExactly(b, c, e, now);
    BackfillForm(b, c, e, comet, now);
    var prepared := PrepareBackfill(b, c, e, now);
    if prepared.Success? {
      PreparedShape(b, prepared.value, c, e, now);
      CheckpointExactly(b, prepared.value, c, now);
    }
  }

  lemma PreparedShape(b: Book, p: Book, c: Deployment, e: EmitterState, now: nat)
    requires Inv(b, c, e, now) && !IsActive(b) && e.backstop != c.self && PrepareBackfill(b, c, e, now) == Success(p)
    ensures BookInv(b, c, now) && BookInv(p, c, now) && !IsActive(p) && CheckedOngoing(p.ongoing) == Success(p.ongoing)
    ensures p == b.(migration := p.migration, ongoing := p.ongoing, zoneCheckpoint := p.zoneCheckpoint,
                    distributionStarted := p.distributionStarted)
    ensures p.ongoing == b.ongoing.(lastDistribution := p.ongoing.lastDistribution)
    ensures p.ongoing.lastDistribution.Some? && LastOf(p) <= now
    ensures LastOf(p) == if b.migration.epochStart.None? then now else LastOf(b)
    ensures p.migration.scheduledBackfill == b.migration.scheduledBackfill == p.ongoing.totalDistributed
    ensures 0 <= p.migration.scheduledBackfill <= MAX_BACKFILLED_EMISSIONS && OngoingLedger(p.ongoing)
  {
    hide BookInv, EmitterInv, Lifecycle, CheckedOngoing, Deployed, Attested, OngoingLedger, AttestedBy, PrepareBackfill,
         NothingSince;
    InactiveParts(b, c, e, now);
    InactiveTotal(b, c, e, now);
    PreparedExactly(b, c, e, now);
    OpenedOngoing(b, c, e, now);
    PrepareKeeps(b, c, e, now);
    PreparedBook(b, p, c, e, now);
    BookHoldings(p, c, now);
  }

  lemma OpenedOngoing(b: Book, c: Deployment, e: EmitterState, now: nat)
    requires Inv(b, c, e, now) && !IsActive(b)
    ensures b.migration.epochStart.None? ==> NothingSince(Some(now)) == b.ongoing.(lastDistribution := Some(now))
  {
    hide Inv;
    InactiveTotal(b, c, e, now);
    if b.migration.epochStart.None? {
      NothingYet(b.ongoing, now);
    }
  }

  lemma PreparedExactly(b: Book, c: Deployment, e: EmitterState, now: nat)
    requires Inv(b, c, e, now) && !IsActive(b)
    ensures var r := PrepareBackfill(b, c, e, now);
            if QueuedElsewhere(c, e) then r == Failure(InvalidQueuedSwap)
            else if e.queued.Some? && U64_MAX < e.queued.value.unlockTime + 7 * 86_400 then r == Failure(Overflow)
            else
              && r.Success?
              && var m := b.migration.(verifiedUnlock := AttestedBy(e, now));
              r.value == if m.epochStart.Some? then b.(migration := m)
                         else b.(migration := m.(epochStart := Some(now)), ongoing := NothingSince(Some(now)),
                                 zoneCheckpoint := Some(now), distributionStarted := true)
  {
    hide BookInv, EmitterInv, Lifecycle, Deployed, Attested;
  }

  lemma CheckpointExactly(b: Book, p: Book, c: Deployment, now: nat)
    requires BookInv(b, c, now) && BookInv(p, c, now) && !IsActive(p) && CheckedOngoing(p.ongoing) == Success(p.ongoing)
    requires p == b.(migration := p.migration, ongoing := p.ongoing, zoneCheckpoint := p.zoneCheckpoint,
                     distributionStarted := p.distributionStarted)
    requires p.ongoing == b.ongoing.(lastDistribution := p.ongoing.lastDistribution)
    requires p.ongoing.lastDistribution.Some? && LastOf(p) <= now
    requires LastOf(p) == if b.migration.epochStart.None? then now else LastOf(b)
    requires p.migration.scheduledBackfill == b.migration.scheduledBackfill == p.ongoing.totalDistributed
    requires 0 <= p.migration.scheduledBackfill <= MAX_BACKFILLED_EMISSIONS && OngoingLedger(p.ongoing)
    ensures var r, weight := CheckpointBackfill(p, now), ZoneWeight(b.pools, b.zone, None);
            if I128_MAX < weight then r == Failure(Overflow)
            else if 0 < weight && I128_MAX < (now - LastOf(p)) * 10_000_000 then r == Failure(Overflow)
            else
              && r.Success? && r.value.1 == (if weight == 0 then 0 else BackfillDue(b, now))
              && var n, amount := r.value.0, r.value.1;
              && n.migration == p.migration.(scheduledBackfill := p.migration.scheduledBackfill + amount)
              && n.bindingVerified == b.bindingVerified
              && (weight > 0 ==> Spread(b, n, None, amount, now))
              && (weight == 0 ==>
                    && n.pools == b.pools && n.ongoing == b.ongoing.(lastDistribution := Some(now))
                    && n.zoneCheckpoint == Some(now) && n.distributionStarted && LedgersOnly(b, n))
  {
    hide BookInv, CheckpointBackfill, CheckedOngoing, ZoneWeight, Spread, CollectWeights, AllocateInto, StoreOngoing,
         OngoingLedger;
    BookHoldings(p, c, now);
    CheckpointBackfillForm(p, now);
    CollectOutcome(p, c, None, now);
    NothingToWeigh(p.pools, p.zone);
    StoreFits(p.ongoing, Some(now));
    BookPoolsValid(p, c, now);
    ZoneWeightNonNegative(p.pools, p.zone, None);
    var weights := CollectWeights(p.pools, p.zone, None);
    if weights.Success? && weights.value.1 != 0 && FitsI128((now - LastOf(p)) * SCALAR_7) {
      var amount := Accrued(p, now);
      AllocateIntoOutcome(p, c, amount, now, None, weights.value.0, weights.value.1, now);
      AllocatedOnly(p, amount, now, weights.value.0, weights.value.1);
      var next := AllocateInto(p, amount, now, weights.value.0, weights.value.1).value;
      var n := next.(migration := p.migration.(scheduledBackfill := p.migration.scheduledBackfill + amount));
      SpreadIgnoresFlag(p, next, n, None, amount, now);
      SpreadFromSame(p, b, n, amount, now);
    }
  }

  lemma NothingToWeigh(pools: map<Address, PoolEmissions>, zone: seq<Address>)
    ensures zone == [] ==> ZoneWeight(pools, zone, None) == 0
  {
  }

  lemma BookPoolsValid(b: Book, c: Deployment, now: nat)
    requires BookInv(b, c, now)
    ensures ValidPools(b.pools)
  {
    hide TiersInv, CacheInv, ZoneInv, Custody, EntryCaps, GlobalLedger, ValidPools, Placed;
  }

  lemma SpreadFromSame(p: Book, b: Book, n: Book, amount: int, checkpoint: nat)
    requires Spread(p, n, None, amount, checkpoint) && LedgersOnly(b, p) && p.pools == b.pools
    requires p.ongoing == b.ongoing.(lastDistribution := p.ongoing.lastDistribution)
    ensures Spread(b, n, None, amount, checkpoint)
  {
    hide PoolAfter, PoolOf, UsdcWeight, XlmWeight, ZoneWeight;
  }
}
