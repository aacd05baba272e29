/** From the swap to this contract until it activates, nothing that weighs in a distribution moves. */
module GateRuns {
  import opened Numbers
  import Tiers
  import opened Allocation
  import EmitterLaws
  import opened Backstops
  import opened BookLaws
  import opened ShareLaws
  import opened DistributionLaws
  import opened MigrationLaws
  import opened ContractLaws
  import opened ClaimOutcomes
  import opened DistributionOutcomes
  import opened EntitlementRuns
  import opened Systems
  import opened SystemLaws
  import PoolBalances
  import UserBalances

  /** The emitter pays this contract and it has not activated. */
  predicate Closed(s: System, c: Deployment) {
    s.emitter.backstop == c.self && s.book.migration.activatedAt.None?
  }

  /** The zone, the shares and tokens of every LP tier, and so every pool's cached weight, are as they were. */
  ghost predicate Frozen(b: Book, n: Book, c: Deployment) {
    && n.zone == b.zone
    && (forall k: TierKey :: Earns(c, k) ==> TierOf(n, k).pool == TierOf(b, k).pool)
    && (forall pool | pool in c.config ::
          && PoolOf(n.pools, pool).activeUsdc == PoolOf(b.pools, pool).activeUsdc
          && PoolOf(n.pools, pool).activeXlm == PoolOf(b.pools, pool).activeXlm)
  }

  lemma FrozenTwice(a: Book, b: Book, n: Book, c: Deployment)
    requires Frozen(a, b, c) && Frozen(b, n, c)
    ensures Frozen(a, n, c)
  {
    hide Earns, PoolOf, TierOf;
  }

  lemma FrozenSame(b: Book, n: Book, c: Deployment)
    requires n.tiers == b.tiers && n.zone == b.zone && n.pools == b.pools
    ensures Frozen(b, n, c)
  {
  }

  /** Cached weights follow the LP tiers. */
  lemma CachesFollow(b: Book, n: Book, c: Deployment)
    requires CacheInv(b, c) && CacheInv(n, c) && n.zone == b.zone && ValidConfig(c)
    requires forall k: TierKey :: Earns(c, k) ==> TierOf(n, k).pool == TierOf(b, k).pool
    ensures Frozen(b, n, c)
  {
    hide ActiveAssetsOf, ValidConfig;
    forall pool | pool in c.config
      ensures PoolOf(n.pools, pool).activeUsdc == PoolOf(b.pools, pool).activeUsdc
      ensures PoolOf(n.pools, pool).activeXlm == PoolOf(b.pools, pool).activeXlm
    {
      assert CacheAgrees(b, c, pool) && CacheAgrees(n, c, pool);
      QuoteFollows(b, n, c, pool, BlntUsdc);
      QuoteFollows(b, n, c, pool, BlntXlm);
    }
  }

  lemma QuoteFollows(b: Book, n: Book, c: Deployment, pool: Address, asset: Asset)
    requires ValidConfig(c) && pool in c.config && IsLp(asset)
    requires forall k: TierKey :: Earns(c, k) ==> TierOf(n, k).pool == TierOf(b, k).pool
    ensures ActiveAssetsOf(n, c, pool, asset) == ActiveAssetsOf(b, c, pool, asset)
  {
    EmissionTierExact(c, pool, asset);
  }

  // Which tier a successful share operation touches.

  lemma GateNeeded(s: System, c: Deployment, call: BackstopCall)
    requires MovesShares(call) && Closed(s, c) && AfterLocal(s, c, call).Success?
    ensures Earns(c, call.key) ==> call.DoDraw? && AfterLocal(s, c, call).value == s.book
  {
    hide Commit, Tiers.CheckpointIf, Tiers.CreditShares, EntriesFrom, MaturedSum, UserBalances.QueueShares,
         UserBalances.WithdrawQueue, UserBalances.DequeueQueue, PoolBalances.ConvertToTokens;
    GateExact(s.book, c, s.emitter, call.key);
  }

  lemma ShareCallFrozen(s: System, c: Deployment, call: BackstopCall)
    requires SystemInv(s, c) && MovesShares(call) && Closed(s, c) && AfterLocal(s, c, call).Success?
    ensures Frozen(s.book, AfterLocal(s, c, call).value, c)
  {
    hide BookInv, EmitterLaws.EmitterInv, Lifecycle, Attested, Deployed, AfterLocal, Frozen;
    var n := AfterLocal(s, c, call).value;
    GateNeeded(s, c, call);
    ShareStep(s, c, call);
    if n == s.book {
      FrozenSame(s.book, n, c);
    } else {
      OnlyItsTier(s, c, call);
      CacheOf(s.book, c, s.now);
      CacheOf(n, c, s.now);
      forall k: TierKey | Earns(c, k) ensures TierOf(n, k).pool == TierOf(s.book, k).pool {
        assert k != call.key;
      }
      CachesFollow(s.book, n, c);
    }
  }

  lemma CacheOf(b: Book, c: Deployment, now: nat)
    requires BookInv(b, c, now)
    ensures CacheInv(b, c) && ValidConfig(c)
  {
    hide TiersInv, PoolsInv, CacheInv, ZoneInv, Custody, EntryCaps, GlobalLedger, ValidConfig;
  }

  lemma OnlyItsTier(s: System, c: Deployment, call: BackstopCall)
    requires SystemInv(s, c) && MovesShares(call) && AfterLocal(s, c, call).Success?
    ensures forall k: TierKey :: k != call.key ==> TierOf(AfterLocal(s, c, call).value, k) == TierOf(s.book, k)
  {
    hide BookInv, EmitterLaws.EmitterInv, Lifecycle, Attested, Deployed, Deposit, QueueWithdrawal, DequeueWithdrawal,
         WithdrawMatured, ForceQueue, ForceWithdraw, Draw, Donate, PoolBalances.PriceHolds, SharesOnly, Moved,
         OthersSame;
    var b, e, now := s.book, s.emitter, s.now;
    match call
    case DoDeposit(key, user, amount) => DepositKeepsBook(b, c, e, key, user, amount, now);
    case DoQueue(key, user, amount) => QueueKeepsBook(b, c, e, key, user, amount, now);
    case DoDequeue(key, user, amount) => DequeueKeepsBook(b, c, e, key, user, amount, now);
    case DoWithdraw(key, user, amount, liabilities) => WithdrawKeepsBook(b, c, e, key, user, amount, liabilities, now);
    case DoForceQueue(key, user) => ForceQueueKeepsBook(b, c, e, key, user, now);
    case DoForceWithdraw(key, user, liabilities) => ForceWithdrawKeepsBook(b, c, e, key, user, liabilities, now);
    case DoDraw(key, amount) => DrawKeepsBook(b, c, e, key, amount, now);
    case DoDonate(key, from, amount) => DonateKeepsBook(b, c, e, key, from, amount, now);
  }

  lemma ZoneClosed(s: System, c: Deployment, call: BackstopCall)
    requires Closed(s, c) && (call.DoAddReward? || call.DoRemoveReward?)
    ensures AfterLocal(s, c, call) == Failure(MigrationNotActive)
  {
    hide PoolWeight;
  }

  lemma ClaimClosed(s: System, c: Deployment, call: BackstopCall)
    requires Closed(s, c) && call.DoClaim?
    ensures AfterLocal(s, c, call) == Failure(MigrationNotActive)
  {
    hide Claim;
    ClaimGate(s.book, c, s.emitter, call.tier, call.user, call.pools, call.minLp, call.trade, s.now);
  }

  lemma GulpFrozen(s: System, c: Deployment, pool: Address, grant: Grant)
    requires SystemInv(s, c) && Gulp(s.book, c, pool, grant, s.now).Success?
    ensures Frozen(s.book, Gulp(s.book, c, pool, grant, s.now).value.0, c)
  {
    hide BookInv, EmitterLaws.EmitterInv, Lifecycle, Attested, Deployed, Gulp, Frozen;
    GulpKeeps(s.book, c, pool, grant, s.now);
    var n := Gulp(s.book, c, pool, grant, s.now).value.0;
    CacheOf(s.book, c, s.now);
    CacheOf(n, c, s.now);
    forall k: TierKey ensures TierOf(n, k).pool == TierOf(s.book, k).pool {
      assert SameTier(TierOf(s.book, k), TierOf(n, k));
    }
    CachesFollow(s.book, n, c);
  }

  /** While the gate is closed no step, whoever makes it, moves anything that weighs; the very step that activates the
      contract does not either. */
  lemma ClosedStep(s: System, c: Deployment, step: Step)
    requires SystemInv(s, c) && Closed(s, c)
    ensures Frozen(s.book, Apply(s, c, step).book, c)
  {
    hide SystemInv, AfterLocal, AfterEmitter, Backstops.Distribute, Backstops.Drop, Frozen;
    FrozenSame(s.book, s.book, c);
    var n := Apply(s, c, step);
    if step.Receive? {
      FrozenSame(s.book, n.book, c);
    } else if step.Call? && Next(s, c, step).Success? {
      var call := step.call;
      if MovesShares(call) {
        ShareCallFrozen(s, c, call);
      } else if call.DoGulp? {
        LocalIsGulp(s, c, call);
        GulpFrozen(s, c, call.pool, call.grant);
      } else if call.DoClaim? {
        ClaimClosed(s, c, call);
      } else if call.DoDistribute? {
        ActivationFreezes(s, c, call.comet);
      } else if call.DoDrop? {
        DropWaits(s, c);
      } else {
        ZoneClosed(s, c, call);
      }
    }
  }

  lemma ActivationFreezes(s: System, c: Deployment, comet: Composition)
    requires SystemInv(s, c) && Closed(s, c) && Next(s, c, Call(DoDistribute(comet))).Success?
    ensures Frozen(s.book, Next(s, c, Call(DoDistribute(comet))).value.book, c)
  {
    hide Inv, Backstops.Distribute, Frozen;
    ActivateOutcome(s.book, c, s.emitter, comet, s.now);
    FrozenSame(s.book, Next(s, c, Call(DoDistribute(comet))).value.book, c);
  }

  lemma DropWaits(s: System, c: Deployment)
    requires SystemInv(s, c) && Closed(s, c)
    ensures Backstops.Drop(s.book, c, s.emitter).Failure?
  {
    hide Inv, Backstops.Drop;
    DropKeepsAll(s.book, c, s.emitter, s.now);
  }

  /** The gate is closed before each step of the run. */
  predicate ClosedThroughout(s: System, c: Deployment, steps: seq<Step>)
    decreases |steps|
  {
    steps == [] || (Closed(s, c) && ClosedThroughout(Apply(s, c, steps[0]), c, steps[1..]))
  }

  /** From the swap to activation, over any run: the first distribution of the active contract weighs what the last
      backfill left. */
  lemma {:induction false} WeightsFrozen(s: System, c: Deployment, steps: seq<Step>)
    requires SystemInv(s, c) && ClosedThroughout(s, c, steps)
    ensures Frozen(s.book, Run(s, c, steps).book, c)
    decreases |steps|
  {
    hide SystemInv, Apply, Frozen;
    if steps == [] {
      FrozenSame(s.book, s.book, c);
    } else {
      var n := Apply(s, c, steps[0]);
      ClosedStep(s, c, steps[0]);
      StepKeeps(s, c, steps[0]);
      WeightsFrozen(n, c, steps[1..]);
      FrozenTwice(s.book, n.book, Run(s, c, steps).book, c);
    }
  }
}
