/** Where distributed BLNT goes, pool by pool and LP by LP, over whole runs; and that nothing is claimed before the
    backfill is funded. */
module FundingRuns {
  import opened Numbers
  import Tiers
  import opened Allocation
  import AllocationLaws
  import opened AllocationOutcomes
  import EmitterLaws
  import UserBalances
  import opened Backstops
  import opened BookLaws
  import WeightLaws
  import opened WeightOutcomes
  import opened DistributionLaws
  import opened DistributionOutcomes
  import opened MigrationLaws
  import opened ContractLaws
  import opened ShareLaws
  import opened GulpOutcomes
  import opened ClaimOutcomes
  import opened Systems
  import opened SystemLaws
  import opened EntitlementRuns

  // What a step leaves of the pools' records.

  /** Only cached weights differ. */
  ghost predicate PendingSame(b: Book, n: Book) {
    forall x: Address ::
      var p, q := PoolOf(b.pools, x), PoolOf(n.pools, x);
      q == p.(activeUsdc := q.activeUsdc, activeXlm := q.activeXlm)
  }

  lemma PendingSameTwice(a: Book, b: Book, n: Book)
    requires PendingSame(a, b) && PendingSame(b, n)
    ensures PendingSame(a, n)
  {
    hide PoolOf;
  }

  lemma RefreshPending(b: Book, c: Deployment, pool: Address)
    ensures Refresh(b, c, pool).Success? ==> PendingSame(b, Refresh(b, c, pool).value)
  {
    hide ActiveAssetsOf, NoEmissions;
  }

  lemma SamePools(b: Book, n: Book)
    requires n.pools == b.pools
    ensures PendingSame(b, n)
  {
  }

  lemma CommitPending(b: Book, c: Deployment, key: TierKey, t: Tiers.Tier, received: int)
    ensures Commit(b, c, key, t, received).Success? ==> PendingSame(b, Commit(b, c, key, t, received).value)
  {
    hide Refresh, TierAsset, PendingSame;
    var asset := TierAsset(c, key);
    if asset.Success? {
      var stored := b.(tiers := b.tiers[key := t],
                       held := b.held[asset.value := HeldOf(b, asset.value) + received]);
      SamePools(b, stored);
      RefreshPending(stored, c, key.pool);
      if Refresh(stored, c, key.pool).Success? {
        PendingSameTwice(b, stored, Refresh(stored, c, key.pool).value);
      }
    }
  }

  lemma QueuePending(b: Book, c: Deployment, e: EmitterState, key: TierKey, user: Address, amount: int, now: nat)
    ensures var r := QueueWithdrawal(b, c, e, key, user, amount, now); r.Success? ==> PendingSame(b, r.value)
  {
    hide Commit, PendingSame, Tiers.Queue, PrepareWeight, EntriesFrom;
    var t := Tiers.Queue(TierOf(b, key), PrepareWeight(b, c, e, key), user, amount, now);
    if t.Success? {
      CommitPending(b, c, key, t.value, 0);
    }
  }

  lemma WithdrawPending(b: Book, c: Deployment, e: EmitterState, key: TierKey, user: Address, amount: int,
                        liabilities: bool, now: nat)
    ensures var r := WithdrawMatured(b, c, e, key, user, amount, liabilities, now);
            r.Success? ==> PendingSame(b, r.value.0)
  {
    hide Commit, PendingSame, Tiers.Withdraw, PrepareWeight;
    var t := Tiers.Withdraw(TierOf(b, key), PrepareWeight(b, c, e, key), user, amount, now);
    if t.Success? {
      CommitPending(b, c, key, t.value.0, -t.value.1);
    }
  }

  lemma SharePending(s: System, c: Deployment, call: BackstopCall)
    requires MovesShares(call)
    ensures AfterLocal(s, c, call).Success? ==> PendingSame(s.book, AfterLocal(s, c, call).value)
  {
    hide Commit, PendingSame, Tiers.Deposit, Tiers.Dequeue, Tiers.Draw, Tiers.Donate, PrepareWeight, QueueWithdrawal,
         WithdrawMatured, MaturedSum, UserBalances.Matured;
    var b, e, now := s.book, s.emitter, s.now;
    match call
    case DoDeposit(key, user, amount) =>
      var t := Tiers.Deposit(TierOf(b, key), PrepareWeight(b, c, e, key), user, amount, now);
      if t.Success? {
        CommitPending(b, c, key, t.value.0, amount);
      }
    case DoQueue(key, user, amount) => QueuePending(b, c, e, key, user, amount, now);
    case DoDequeue(key, user, amount) =>
      var t := Tiers.Dequeue(TierOf(b, key), PrepareWeight(b, c, e, key), user, amount, now);
      if t.Success? {
        CommitPending(b, c, key, t.value, 0);
      }
    case DoWithdraw(key, user, amount, liabilities) => WithdrawPending(b, c, e, key, user, amount, liabilities, now);
    case DoForceQueue(key, user) =>
      QueuePending(b, c, e, key, user, Tiers.DepositorOf(TierOf(b, key), user).balance.shares, now);
    case DoForceWithdraw(key, user, liabilities) =>
      var matured := MaturedSum(Tiers.DepositorOf(TierOf(b, key), user).balance.q4w, now, 0);
      if matured.Success? {
        WithdrawPending(b, c, e, key, user, matured.value, liabilities, now);
      }
    case DoDraw(key, amount) =>
      SamePools(b, b);
      var t := Tiers.Draw(TierOf(b, key), amount);
      if t.Success? {
        CommitPending(b, c, key, t.value, -amount);
      }
    case DoDonate(key, from, amount) =>
      var t := Tiers.Donate(TierOf(b, key), amount);
      if t.Success? {
        CommitPending(b, c, key, t.value, amount);
      }
  }

  lemma {:induction false} CreditPending(b: Book, c: Deployment, tier: nat, user: Address, pools: seq<Address>,
                                         claims: seq<int>, i: nat, lp: int, blnt: int)
    requires i <= |pools| == |claims|
    ensures var r := CreditFrom(b, c, tier, user, pools, claims, i, lp, blnt); r.Success? ==> PendingSame(b, r.value)
    decreases |pools| - i
  {
    hide PendingSame, CreditOne;
    SamePools(b, b);
    if i < |pools| {
      var next := CreditOne(b, c, TierKey(pools[i], tier), user, lp, claims[i], blnt);
      if next.Success? {
        CreditOnePending(b, c, TierKey(pools[i], tier), user, lp, claims[i], blnt);
        CreditPending(next.value, c, tier, user, pools, claims, i + 1, lp, blnt);
        var last := CreditFrom(next.value, c, tier, user, pools, claims, i + 1, lp, blnt);
        if last.Success? {
          PendingSameTwice(b, next.value, last.value);
        }
      }
    }
  }

  lemma CreditOnePending(b: Book, c: Deployment, key: TierKey, user: Address, lp: int, claim: int, blnt: int)
    requires CreditOne(b, c, key, user, lp, claim, blnt).Success?
    ensures PendingSame(b, CreditOne(b, c, key, user, lp, claim, blnt).value)
  {
    hide PendingSame, Refresh, Tiers.CreditShares, ProportionalFloor;
    SamePools(b, b);
    var amount := ProportionalFloor(lp, claim, blnt).value;
    var t := Tiers.CreditShares(TierOf(b, key), user, amount);
    if t.Success? {
      var stored := b.(tiers := b.tiers[key := t.value.0]);
      SamePools(b, stored);
      RefreshPending(stored, c, key.pool);
      if Refresh(stored, c, key.pool).Success? {
        PendingSameTwice(b, stored, Refresh(stored, c, key.pool).value);
      }
    }
  }

  lemma ClaimPending(b: Book, c: Deployment, e: EmitterState, tier: nat, user: Address, pools: seq<Address>,
                     minLp: int, trade: Exchange, now: nat)
    requires Claim(b, c, e, tier, user, pools, minLp, trade, now).Success?
    ensures PendingSame(b, Claim(b, c, e, tier, user, pools, minLp, trade, now).value.0)
  {
    hide PendingSame, ClaimFrom, Compound, TierAsset;
    var asset := TierAsset(c, TierKey(pools[0], tier)).value;
    var claimed := ClaimFrom(c, e, tier, asset, user, pools, 0, now, Claimed(b, [], 0)).value;
    ClaimedCounts(c, e, tier, asset, user, pools, 0, now, Claimed(b, [], 0));
    SamePools(b, claimed.book);
    CompoundPending(claimed.book, c, tier, asset, user, pools, claimed.claims, claimed.blnt, minLp, trade);
    PendingSameTwice(b, claimed.book, Claim(b, c, e, tier, user, pools, minLp, trade, now).value.0);
  }

  lemma CompoundPending(b: Book, c: Deployment, tier: nat, asset: Asset, user: Address, pools: seq<Address>,
                        claims: seq<int>, blnt: int, minLp: int, trade: Exchange)
    requires |claims| == |pools| && Compound(b, c, tier, asset, user, pools, claims, blnt, minLp, trade).Success?
    ensures PendingSame(b, Compound(b, c, tier, asset, user, pools, claims, blnt, minLp, trade).value.0)
  {
    hide PendingSame, CreditFrom, BookedClaim, Bought;
    SamePools(b, b);
    if blnt != 0 {
      var lp := Bought(trade, blnt, minLp).value;
      var funded := b.(ongoing := BookedClaim(b.ongoing, blnt).value,
                       held := b.held[asset := HeldOf(b, asset) + lp]);
      SamePools(b, funded);
      CreditPending(funded, c, tier, user, pools, claims, 0, lp, blnt);
      PendingSameTwice(b, funded, CreditFrom(funded, c, tier, user, pools, claims, 0, lp, blnt).value);
    }
  }

  lemma ZonePending(s: System, c: Deployment, call: BackstopCall)
    requires call.DoAddReward? || call.DoRemoveReward?
    ensures AfterLocal(s, c, call).Success? ==> PendingSame(s.book, AfterLocal(s, c, call).value)
  {
    hide PoolWeight, IndexOf, WithoutIndex, Refresh, ReplaceMember, PendingSame;
    if call.DoAddReward? {
      RefreshPending(s.book, c, call.pool);
      if AfterLocal(s, c, call).Success? {
        var refreshed := Refresh(s.book, c, call.pool).value;
        SamePools(refreshed, AfterLocal(s, c, call).value);
        PendingSameTwice(s.book, refreshed, AfterLocal(s, c, call).value);
      }
    } else if AfterLocal(s, c, call).Success? {
      SamePools(s.book, AfterLocal(s, c, call).value);
    }
  }

  // The ledger of one LP of one pool.

  function PendingOf(p: PoolEmissions, asset: Asset): int {
    if asset == BlntUsdc then p.pendingUsdc else p.pendingXlm
  }

  /** What a step distributes, and by which weights: nothing unless it is a distribution that is not an activation. */
  predicate Distributes(s: System, c: Deployment, step: Step) {
    && step.Call? && step.call.DoDistribute? && Next(s, c, step).Success?
    && (IsActive(s.book) || s.emitter.backstop != c.self)
  }

  function WeighedBy(s: System, step: Step): Option<Composition>
    requires step.Call? && step.call.DoDistribute?
  {
    if IsActive(s.book) then Some(step.call.comet) else None
  }

  function AmountBy(s: System): int {
    if IsActive(s.book) then (s.now - LastOf(s.book)) * 10_000_000 else BackfillDue(s.book, s.now)
  }

  /** What distributing `amount` gives one LP of one pool: its part, by weight, of the pool's part of the depositors'
      tranche; nothing outside the zone, or when the zone weighs nothing. */
  function LpPart(b: Book, composition: Option<Composition>, amount: int, pool: Address, asset: Asset): int {
    var p, total := PoolOf(b.pools, pool), ZoneWeight(b.pools, b.zone, composition);
    if pool in b.zone && 0 < total then
      PendingOf(PoolAfter(p, UsdcWeight(p, composition), XlmWeight(p, composition), ToDepositors(b.ongoing, amount),
                          ToPools(b.ongoing, amount), total), asset) - PendingOf(p, asset)
    else 0
  }

  function GivenBy(s: System, c: Deployment, step: Step, pool: Address, asset: Asset): int {
    if Distributes(s, c, step) then LpPart(s.book, WeighedBy(s, step), AmountBy(s), pool, asset) else 0
  }

  lemma UnweighedStays(p: PoolEmissions, usdc: int, xlm: int, backstop: int, pool: int, eligible: int, asset: Asset)
    requires eligible <= 0 && 0 <= usdc && 0 <= xlm && usdc + xlm <= 0
    ensures PendingOf(PoolAfter(p, usdc, xlm, backstop, pool, eligible), asset) == PendingOf(p, asset)
  {
  }

  lemma SpreadGives(b: Book, n: Book, c: Deployment, composition: Option<Composition>, amount: int, checkpoint: nat,
                    pool: Address, asset: Asset, now: nat)
    requires BookInv(b, c, now) && WeightLaws.Readables(composition) && Spread(b, n, composition, amount, checkpoint)
    ensures PendingOf(PoolOf(n.pools, pool), asset)
            == PendingOf(PoolOf(b.pools, pool), asset) + LpPart(b, composition, amount, pool, asset)
  {
    hide BookInv, PoolOf, PoolAfter, ZoneWeight, UsdcWeight, XlmWeight, LedgersOnly;
    ZeroZone(b, c, composition, now, pool);
    var p, total := PoolOf(b.pools, pool), ZoneWeight(b.pools, b.zone, composition);
    if pool in b.zone && total <= 0 {
      UnweighedStays(p, UsdcWeight(p, composition), XlmWeight(p, composition), ToDepositors(b.ongoing, amount),
        ToPools(b.ongoing, amount), total, asset);
    }
  }

  lemma NoWeightNoPart(b: Book, composition: Option<Composition>, amount: int, pool: Address, asset: Asset)
    requires ZoneWeight(b.pools, b.zone, composition) <= 0
    ensures LpPart(b, composition, amount, pool, asset) == 0
  {
    hide PoolAfter, ZoneWeight;
  }

  lemma DistributionGives(s: System, c: Deployment, comet: Composition, pool: Address, asset: Asset)
    requires SystemInv(s, c) && IsLp(asset) && Next(s, c, Call(DoDistribute(comet))).Success?
    ensures var n := Next(s, c, Call(DoDistribute(comet))).value;
            && PendingOf(PoolOf(n.book.pools, pool), asset)
               == PendingOf(PoolOf(s.book.pools, pool), asset) + GivenBy(s, c, Call(DoDistribute(comet)), pool, asset)
  {
    hide Inv, Backstops.Distribute, PoolOf, LpPart, ZoneWeight, Spread, LedgersOnly, BackfillDue, AttestedBy;
    var b, e, now := s.book, s.emitter, s.now;
    var n := Next(s, c, Call(DoDistribute(comet))).value.book;
    BookSound(s, c);
    if IsActive(b) {
      DistributeOutcome(b, c, e, comet, now);
      SpreadGives(b, n, c, Some(comet), AmountBy(s), now, pool, asset, now);
    } else if e.backstop == c.self {
      ActivateOutcome(b, c, e, comet, now);
    } else {
      BackfillOutcome(b, c, e, comet, now);
      ZeroZone(b, c, None, now, pool);
      if 0 < ZoneWeight(b.pools, b.zone, None) {
        SpreadGives(b, n, c, None, AmountBy(s), now, pool, asset, now);
      } else {
        NoWeightNoPart(b, None, AmountBy(s), pool, asset);
      }
    }
  }

  /** A zone that weighs nothing is made of pools that weigh nothing. */
  lemma ZeroZone(b: Book, c: Deployment, composition: Option<Composition>, now: nat, pool: Address)
    requires BookInv(b, c, now)
    ensures WeightLaws.Readables(composition) ==> 0 <= ZoneWeight(b.pools, b.zone, composition)
    ensures WeightLaws.Readables(composition) && pool in b.zone && ZoneWeight(b.pools, b.zone, composition) == 0 ==>
              var p := PoolOf(b.pools, pool);
              UsdcWeight(p, composition) == 0 == XlmWeight(p, composition)
  {
    hide BookInv, ZoneWeight, UsdcWeight, XlmWeight, PoolOf;
    BookPoolsValid(b, c, now);
    if WeightLaws.Readables(composition) {
      ZoneWeightNonNegative(b.pools, b.zone, composition);
      if pool in b.zone && ZoneWeight(b.pools, b.zone, composition) == 0 {
        MemberWithinZone(b.pools, b.zone, composition, pool);
      }
    }
  }

  lemma {:induction false} MemberWithinZone(pools: map<Address, PoolEmissions>, zone: seq<Address>,
                                            composition: Option<Composition>, pool: Address)
    requires AllocationLaws.ValidPools(pools) && WeightLaws.Readables(composition) && pool in zone
    ensures var p := PoolOf(pools, pool);
            && 0 <= UsdcWeight(p, composition) && 0 <= XlmWeight(p, composition)
            && UsdcWeight(p, composition) + XlmWeight(p, composition) <= ZoneWeight(pools, zone, composition)
    decreases |zone|
  {
    hide PoolOf, Part;
    ZoneWeightNonNegative(pools, zone[1..], composition);
    MemberSigned(pools, zone[0], composition);
    if zone[0] != pool {
      MemberWithinZone(pools, zone[1..], composition, pool);
    }
  }

  lemma MemberSigned(pools: map<Address, PoolEmissions>, pool: Address, composition: Option<Composition>)
    requires AllocationLaws.ValidPools(pools) && WeightLaws.Readables(composition)
    ensures var p := PoolOf(pools, pool); 0 <= UsdcWeight(p, composition) && 0 <= XlmWeight(p, composition)
  {
    hide Part;
    PoolRecordValid(pools, pool);
    var p := PoolOf(pools, pool);
    if composition.Some? {
      PartNonNegative(p.activeUsdc, composition.value.usdcReserve, composition.value.usdcSupply);
      PartNonNegative(p.activeXlm, composition.value.xlmReserve, composition.value.xlmSupply);
    }
  }

  /** One step's account of the pool's tier of one LP: what a distribution gives it is pending at the pool, what a gulp
      takes from there is streamed into that tier, and nothing else moves either. */
  lemma StepLedger(s: System, c: Deployment, step: Step, key: TierKey, asset: Asset)
    requires SystemInv(s, c) && TierHolds(c, key, asset) && IsLp(asset)
    ensures var n := Apply(s, c, step);
            TierOf(n.book, key).funded + PendingOf(PoolOf(n.book.pools, key.pool), asset)
            == TierOf(s.book, key).funded + PendingOf(PoolOf(s.book.pools, key.pool), asset)
               + GivenBy(s, c, step, key.pool, asset)
  {
    hide SystemInv, AfterLocal, AfterEmitter, Backstops.Distribute, Backstops.Drop, PoolOf, GivenBy, PaidBy;
    var n := Apply(s, c, step);
    OneStepEntitles(s, c, step, key, c.self);
    OnlyDistributions(s, c, step, key.pool, asset);
    if step.Call? && Next(s, c, step).Success? {
      var call := step.call;
      if MovesShares(call) {
        SharePending(s, c, call);
        PendingAt(s.book, n.book, key.pool, asset);
      } else if call.DoGulp? {
        LocalIsGulp(s, c, call);
        GulpClears(s, c, call.pool, call.grant, key, asset);
      } else if call.DoClaim? {
        LocalIsClaim(s, c, call);
        ClaimPending(s.book, c, s.emitter, call.tier, call.user, call.pools, call.minLp, call.trade, s.now);
        PendingAt(s.book, n.book, key.pool, asset);
      } else if call.DoDistribute? {
        DistributionGives(s, c, call.comet, key.pool, asset);
      } else if call.DoDrop? {
        DropKeepsPools(s, c);
      } else {
        ZonePending(s, c, call);
        PendingAt(s.book, n.book, key.pool, asset);
      }
    }
  }

  lemma OnlyDistributions(s: System, c: Deployment, step: Step, pool: Address, asset: Asset)
    ensures !(step.Call? && step.call.DoDistribute? && Next(s, c, step).Success?) ==>
              GivenBy(s, c, step, pool, asset) == 0
  {
    hide Next;
  }

  lemma PendingAt(b: Book, n: Book, pool: Address, asset: Asset)
    requires PendingSame(b, n)
    ensures PendingOf(PoolOf(n.pools, pool), asset) == PendingOf(PoolOf(b.pools, pool), asset)
  {
    hide PoolOf;
  }

  lemma DropKeepsPools(s: System, c: Deployment)
    requires SystemInv(s, c) && Backstops.Drop(s.book, c, s.emitter).Success?
    ensures Backstops.Drop(s.book, c, s.emitter).value.0.pools == s.book.pools
  {
    hide Inv, Backstops.Drop;
    DropKeepsAll(s.book, c, s.emitter, s.now);
  }

  lemma GulpClears(s: System, c: Deployment, pool: Address, grant: Grant, key: TierKey, asset: Asset)
    requires SystemInv(s, c) && Gulp(s.book, c, pool, grant, s.now).Success?
    requires TierHolds(c, key, asset) && IsLp(asset)
    ensures var n := Gulp(s.book, c, pool, grant, s.now).value.0;
            PendingOf(PoolOf(n.pools, key.pool), asset) + GulpTo(s.book, c, pool, key)
            == PendingOf(PoolOf(s.book.pools, key.pool), asset)
  {
    hide BookInv, EmitterLaws.EmitterInv, Lifecycle, Attested, Deployed, Gulp, RatesFit, Restarted, NoEmissions;
    GulpOutcome(s.book, c, pool, grant, s.now);
  }

  function GivenOver(s: System, c: Deployment, steps: seq<Step>, pool: Address, asset: Asset): int
    decreases |steps|
  {
    if steps == [] then 0
    else GivenBy(s, c, steps[0], pool, asset) + GivenOver(Apply(s, c, steps[0]), c, steps[1..], pool, asset)
  }

  lemma {:induction false} LedgerOverRun(s: System, c: Deployment, steps: seq<Step>, key: TierKey, asset: Asset)
    requires SystemInv(s, c) && TierHolds(c, key, asset) && IsLp(asset)
    ensures var r := Run(s, c, steps);
            TierOf(r.book, key).funded + PendingOf(PoolOf(r.book.pools, key.pool), asset)
            == TierOf(s.book, key).funded + PendingOf(PoolOf(s.book.pools, key.pool), asset)
               + GivenOver(s, c, steps, key.pool, asset)
    decreases |steps|
  {
    hide SystemInv, Apply, GivenBy, PoolOf, TierOf;
    if steps != [] {
      StepKeeps(s, c, steps[0]);
      StepLedger(s, c, steps[0], key, asset);
      LedgerOverRun(Apply(s, c, steps[0]), c, steps[1..], key, asset);
    }
  }

  /** Since the beginning: all that distributions gave one LP of a pool was streamed to the pool's tier of that LP, or
      is pending to be. */
  lemma LpLedger(s: System, c: Deployment, initialBackstop: Address, token: Address, steps: seq<Step>, key: TierKey,
                 asset: Asset)
    requires Starts(s, c, initialBackstop, token) && ValidConfig(c) && TierHolds(c, key, asset) && IsLp(asset)
    ensures var r := Run(s, c, steps);
            TierOf(r.book, key).funded + PendingOf(PoolOf(r.book.pools, key.pool), asset)
            == GivenOver(s, c, steps, key.pool, asset)
  {
    hide Starts, Run, SystemInv, GivenOver;
    StartKeeps(s, c, initialBackstop, token);
    LedgerOverRun(s, c, steps, key, asset);
    NothingGivenYet(s, c, initialBackstop, token, key, asset);
  }

  lemma NothingGivenYet(s: System, c: Deployment, initialBackstop: Address, token: Address, key: TierKey, asset: Asset)
    requires Starts(s, c, initialBackstop, token)
    ensures TierOf(s.book, key).funded == 0 == PendingOf(PoolOf(s.book.pools, key.pool), asset)
  {
  }

  // Claims and the backfill.

  /** Nothing was claimed unless the contract is active and its backfill funded, or none was scheduled. */
  predicate ClaimsFunded(b: Book) {
    0 < b.ongoing.backstopClaimed ==> IsActive(b) && Funded(b)
  }

  lemma StepClaims(s: System, c: Deployment, step: Step)
    requires SystemInv(s, c) && ClaimsFunded(s.book)
    ensures ClaimsFunded(Apply(s, c, step).book)
  {
    hide SystemInv, AfterLocal, AfterEmitter, Backstops.Distribute, Backstops.Drop;
    RecordStep(s, c, step);
    if step.Call? && Next(s, c, step).Success? {
      var call := step.call;
      if call.DoClaim? {
        LocalIsClaim(s, c, call);
        ClaimGate(s.book, c, s.emitter, call.tier, call.user, call.pools, call.minLp, call.trade, s.now);
      } else if call.DoDistribute? {
        DistributionClaimsNothing(s, c, call.comet);
      } else if call.DoDrop? {
        DropClaimsNothing(s, c);
      } else {
        OthersClaimNothing(s, c, call);
      }
    }
  }

  lemma DropClaimsNothing(s: System, c: Deployment)
    requires SystemInv(s, c) && Backstops.Drop(s.book, c, s.emitter).Success?
    ensures Backstops.Drop(s.book, c, s.emitter).value.0.ongoing == s.book.ongoing
  {
    hide Inv, Backstops.Drop;
    DropKeepsAll(s.book, c, s.emitter, s.now);
  }

  lemma DistributionClaimsNothing(s: System, c: Deployment, comet: Composition)
    requires SystemInv(s, c) && Next(s, c, Call(DoDistribute(comet))).Success?
    ensures Next(s, c, Call(DoDistribute(comet))).value.book.ongoing.backstopClaimed == s.book.ongoing.backstopClaimed
  {
    hide Inv, Backstops.Distribute, ZoneWeight, PoolAfter;
    if IsActive(s.book) {
      DistributeOutcome(s.book, c, s.emitter, comet, s.now);
    } else if s.emitter.backstop == c.self {
      ActivateOutcome(s.book, c, s.emitter, comet, s.now);
    } else {
      BackfillOutcome(s.book, c, s.emitter, comet, s.now);
      BookSound(s, c);
      ZeroZone(s.book, c, None, s.now, c.self);
    }
  }

  lemma OthersClaimNothing(s: System, c: Deployment, call: BackstopCall)
    requires SystemInv(s, c) && !call.DoClaim? && !call.DoDistribute? && !call.DoDrop?
    requires AfterLocal(s, c, call).Success?
    ensures AfterLocal(s, c, call).value.ongoing == s.book.ongoing
  {
    hide BookInv, EmitterLaws.EmitterInv, Lifecycle, Attested, Deployed, AddReward, RemoveReward, Gulp, PoolWeight,
         NoCheaper, SameBalances;
    if MovesShares(call) {
      ShareStep(s, c, call);
    } else if call.DoGulp? {
      LocalIsGulp(s, c, call);
      GulpKeeps(s.book, c, call.pool, call.grant, s.now);
    } else if call.DoAddReward? {
      AddRewardKeeps(s.book, c, s.emitter, call.pool, call.replaced, call.comet, s.now);
    } else {
      RemoveRewardKeeps(s.book, c, s.emitter, call.pool, call.comet, s.now);
    }
  }

  lemma {:induction false} ClaimsOverRun(s: System, c: Deployment, steps: seq<Step>)
    requires SystemInv(s, c) && ClaimsFunded(s.book)
    ensures ClaimsFunded(Run(s, c, steps).book)
    decreases |steps|
  {
    hide SystemInv, Apply, ClaimsFunded;
    if steps != [] {
      StepKeeps(s, c, steps[0]);
      StepClaims(s, c, steps[0]);
      ClaimsOverRun(Apply(s, c, steps[0]), c, steps[1..]);
    }
  }

  /** In every run: until the contract is active and its backfill is funded, or none was scheduled, nobody has been paid
      anything, and a claim then is refused. */
  lemma ClaimedOnlyWhenFunded(s: System, c: Deployment, initialBackstop: Address, token: Address, steps: seq<Step>)
    requires Starts(s, c, initialBackstop, token) && ValidConfig(c)
    ensures var r := Run(s, c, steps).book;
            0 < r.ongoing.backstopClaimed ==>
              && r.migration.activatedAt.Some?
              && (r.migration.scheduledBackfill <= 0
                  || r.migration.fundedBackfill == Some(r.migration.scheduledBackfill))
  {
    hide Starts, Run, SystemInv;
    StartKeeps(s, c, initialBackstop, token);
    StartClaims(s, c, initialBackstop, token);
    ClaimsOverRun(s, c, steps);
  }

  lemma StartClaims(s: System, c: Deployment, initialBackstop: Address, token: Address)
    requires Starts(s, c, initialBackstop, token)
    ensures ClaimsFunded(s.book)
  {
  }
}
