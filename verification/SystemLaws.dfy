/** What holds in every reachable state, and over every run, of the two contracts together. */
module SystemLaws {
  import opened Numbers
  import opened Sums
  import TierLaws
  import opened Allocation
  import opened AllocationLaws
  import Emitters
  import opened EmitterLaws
  import opened Backstops
  import opened BookLaws
  import opened ShareLaws
  import opened WeightLaws
  import opened DistributionLaws
  import opened ClaimLaws
  import opened MigrationLaws
  import opened ContractLaws
  import opened Systems
  import UserBalances
  import PoolBalances

  ghost predicate SystemInv(s: System, c: Deployment) {
    Inv(s.book, c, s.emitter, s.now)
  }

  lemma BookSound(s: System, c: Deployment)
    requires SystemInv(s, c)
    ensures BookInv(s.book, c, s.now)
  {
    hide BookInv, EmitterInv, Lifecycle, Attested, Deployed;
  }

  // Each kind of step keeps the invariant.

  /** The constructor's sum: it accepts a list exactly when no amount is negative and the sum fits. */
  lemma {:induction false} ListTotalExact(list: seq<(Address, int)>, total: int)
    requires 0 <= total <= I128_MAX
    ensures ListTotal(list, total).Success? <==>
              (forall i | 0 <= i < |list| :: 0 <= list[i].1) && total + SeqSum(Amounts(list)) <= I128_MAX
    ensures ListTotal(list, total).Success? ==> ListTotal(list, total).value == total + SeqSum(Amounts(list))
    ensures ListTotal(list, total).Failure? ==> ListTotal(list, total).error in {NegativeAmount, Overflow}
    ensures ListTotal(list, total).Failure? && (forall i | 0 <= i < |list| :: 0 <= list[i].1) ==>
              ListTotal(list, total).error == Overflow
    decreases |list|
  {
    if list != [] {
      var rest := list[1..];
      assert Amounts(list)[1..] == Amounts(rest);
      assert forall i | 0 <= i < |rest| :: rest[i] == list[i + 1];
      assert (forall i | 0 <= i < |list| :: 0 <= list[i].1)
          <==> 0 <= list[0].1 && forall i | 0 <= i < |rest| :: 0 <= rest[i].1
        by {
        assert forall i | 0 < i < |list| :: list[i] == rest[i - 1];
      }
      if forall i | 0 <= i < |rest| :: 0 <= rest[i].1 {
        AmountsNonNegative(rest);
      }
      if 0 <= list[0].1 && total + list[0].1 <= I128_MAX {
        ListTotalExact(rest, total + list[0].1);
      }
    }
  }

  /** The constructor: a list of nonnegative amounts, within 150 million BLNT, and within 40 million unless the emitter
      pays this contract already; which of the two it was decides its cap for good. */
  lemma DeployOutcome(self: Address, token: Address, config: map<Address, seq<Asset>>, list: seq<(Address, int)>,
                      e: EmitterState)
    ensures var r, total := Deploy(self, token, config, list, e), SeqSum(Amounts(list));
            if exists i :: 0 <= i < |list| && list[i].1 < 0 then r.Failure? && r.error in {NegativeAmount, Overflow}
            else if I128_MAX < total then r == Failure(Overflow)
            else if 150_000_000 * 10_000_000 < total then r == Failure(BadRequest)
            else if 40_000_000 * 10_000_000 < total && e.backstop != self then r == Failure(BadRequest)
            else r == Success(Deployment(self, token, config, list, 40_000_000 * 10_000_000 < total))
  {
    hide SeqSum, ListTotal;
    ListTotalExact(list, 0);
  }

  /** The first state is sound. */
  lemma StartKeeps(s: System, c: Deployment, initialBackstop: Address, token: Address)
    requires Starts(s, c, initialBackstop, token) && ValidConfig(c)
    ensures SystemInv(s, c)
  {
    hide BookInv, EmitterInv, SeqSum;
    ListTotalExact(c.dropList, 0);
    NewBookInv(c, s.now);
    InitializedInv(initialBackstop, token, s.now);
  }

  lemma WaitStep(s: System, c: Deployment, seconds: nat)
    requires SystemInv(s, c)
    ensures SystemInv(Apply(s, c, Wait(seconds)), c)
  {
    hide BookInv, EmitterInv, Lifecycle, Attested, Deployed;
    var b, later := s.book, s.now + seconds;
    BookTimePasses(b, c, s.now, later);
    EmitterTimePasses(s.emitter, s.now, later);
    WaitKeeps(b.migration, b.ongoing.lastDistribution, b.ongoing.totalDistributed, s.emitter, c.self,
      c.migrationToken, s.now, later);
  }

  lemma ReceiveStep(s: System, c: Deployment, asset: Asset, amount: nat)
    requires SystemInv(s, c)
    ensures SystemInv(Apply(s, c, Receive(asset, amount)), c)
  {
    hide Holdings, GlobalLedger, EmitterInv, Lifecycle, Attested, Deployed;
    var n := s.book.(held := s.book.held[asset := HeldOf(s.book, asset) + amount]);
    HoldingsWithMore(s.book, n, c, s.now);
    LedgerIgnoresHeld(s.book, n);
  }

  lemma EmitterStep(s: System, c: Deployment, call: EmitterCall)
    requires SystemInv(s, c)
    ensures SystemInv(Apply(s, c, Emit(call)), c)
  {
    hide BookInv, EmitterInv, Lifecycle, Attested, Deployed, Emitters.Distribute, Emitters.QueueSwap,
         Emitters.CancelSwap,
         Emitters.SwapBackstop, Emitters.Drop;
    var e, m, last, total := s.emitter, s.book.migration, s.book.ongoing.lastDistribution,
        s.book.ongoing.totalDistributed;
    var r := AfterEmitter(s, c, call);
    if r.Success? {
      match call
      case Collect =>
        DistributeKeeps(e, s.now);
        OtherDistributes(m, last, total, e, c.self, c.migrationToken, s.now);
      case QueueSwap(candidate, token, contest) =>
        QueueKeeps(e, candidate, token, contest, s.now);
        QueueAttested(m, last, total, e, c.self, c.migrationToken, candidate, token, contest, s.now);
        SameInitial(s, c, call);
      case CancelSwap(contest) =>
        CancelKeeps(e, contest, s.now);
        CancelAttested(m, last, total, e, c.self, c.migrationToken, contest, s.now);
        SameInitial(s, c, call);
      case SwapBackstop(contest) =>
        SwapKeeps(e, contest, s.now);
        SwapAttested(m, last, total, e, c.self, c.migrationToken, contest, s.now);
        SameInitial(s, c, call);
      case SpendDrop(list) =>
        DropKeeps(e, e.backstop, list, s.now);
        OtherDrops(m, last, total, e, c.self, c.migrationToken, list, s.now);
    }
  }

  lemma SameInitial(s: System, c: Deployment, call: EmitterCall)
    requires AfterEmitter(s, c, call).Success?
    ensures var d := AfterEmitter(s, c, call).value;
            && d.initialBackstop == s.emitter.initialBackstop && d.history.start == s.emitter.history.start
  {
    hide Emitters.MintAll, Emitters.DropAmount;
  }

  /** Balances and BLNT bookkeeping may change; the migration record and what it depends on may not. */
  lemma SameCore(s: System, c: Deployment, n: Book)
    requires SystemInv(s, c) && BookInv(n, c, s.now) && n.migration == s.book.migration
    requires n.ongoing.lastDistribution == s.book.ongoing.lastDistribution
    requires n.ongoing.totalDistributed == s.book.ongoing.totalDistributed
    ensures SystemInv(s.(book := n), c)
  {
    hide BookInv, EmitterInv, Lifecycle, Attested, Deployed;
  }

  lemma ShareStep(s: System, c: Deployment, call: BackstopCall)
    requires SystemInv(s, c)
    requires call.DoDeposit? || call.DoQueue? || call.DoDequeue? || call.DoWithdraw? || call.DoForceQueue?
             || call.DoForceWithdraw? || call.DoDraw? || call.DoDonate?
    ensures var r := AfterLocal(s, c, call);
            r.Success? ==>
              && BookInv(r.value, c, s.now) && SharesOnly(s.book, r.value)
              && (!call.DoDraw? ==> exists key :: NoCheaper(s.book, r.value, key))
  {
    hide BookInv, EmitterInv, Lifecycle, Attested, Deployed, NoCheaper, Deposit, QueueWithdrawal, DequeueWithdrawal,
         WithdrawMatured, ForceQueue, ForceWithdraw, Draw, Donate;
    var b, e, now := s.book, s.emitter, s.now;
    match call
    case DoDeposit(key, user, amount) => DepositKeepsBook(b, c, e, key, user, amount, now);
    case DoQueue(key, user, amount) => QueueKeepsBook(b, c, e, key, user, amount, now);
    case DoDequeue(key, user, amount) => DequeueKeepsBook(b, c, e, key, user, amount, now);
    case DoWithdraw(key, user, amount, liabilities) => WithdrawKeepsBook(b, c, e, key, user, amount, liabilities, now);
    case DoForceQueue(key, user) => ForceQueueKeepsBook(b, c, e, key, user, now);
    case DoForceWithdraw(key, user, liabilities) => ForceWithdrawKeepsBook(b, c, e, key, user, liabilities, now);
    case DoDraw(key, amount) => DrawKeepsBook(b, c, e, key, amount, now);
    case DoDonate(key, from, amount) => DonateKeepsBook(b, c, e, key, from, amount, now);
  }

  /** No share of any tier is worth less than before. */
  ghost predicate Dearer(b: Book, n: Book) {
    forall k: TierKey :: 0 < PoolRecordOf(b, k).shares ==>
      PoolBalances.PriceHolds(PoolRecordOf(b, k), PoolRecordOf(n, k))
  }

  lemma NoCheaperIsDearer(b: Book, n: Book, key: TierKey)
    requires NoCheaper(b, n, key)
    ensures Dearer(b, n)
  {
    forall k: TierKey | 0 < PoolRecordOf(b, k).shares
      ensures PoolBalances.PriceHolds(PoolRecordOf(b, k), PoolRecordOf(n, k))
    {
      if k != key {
        assert TierOf(n, k) == TierOf(b, k);
      }
    }
  }

  lemma SamePoolsDearer(b: Book, n: Book)
    requires forall k: TierKey :: PoolRecordOf(n, k) == PoolRecordOf(b, k)
    ensures Dearer(b, n)
  {
  }

  lemma SameBalancesDearer(b: Book, n: Book)
    requires SameBalances(b, n)
    ensures Dearer(b, n)
  {
    forall k: TierKey ensures PoolRecordOf(n, k) == PoolRecordOf(b, k) {
      assert SameTier(TierOf(b, k), TierOf(n, k));
    }
    SamePoolsDearer(b, n);
  }

  lemma CreditsDearer(b: Book, n: Book, user: Address)
    requires CreditsOnly(b, n, user)
    ensures Dearer(b, n)
  {
    hide PoolBalances.PriceHolds;
    forall k: TierKey | 0 < PoolRecordOf(b, k).shares
      ensures PoolBalances.PriceHolds(PoolRecordOf(b, k), PoolRecordOf(n, k))
    {
      assert Grew(TierOf(b, k), TierOf(n, k), user);
    }
  }

  /** Zone changes, gulps and claims: the bookkeeping half of the local calls. */
  lemma RewardStep(s: System, c: Deployment, call: BackstopCall)
    requires SystemInv(s, c)
    requires call.DoAddReward? || call.DoRemoveReward? || call.DoGulp? || call.DoClaim?
    ensures var r := AfterLocal(s, c, call);
            r.Success? ==>
              && BookInv(r.value, c, s.now) && Dearer(s.book, r.value) && r.value.migration == s.book.migration
              && r.value.ongoing == s.book.ongoing.(backstopClaimed := r.value.ongoing.backstopClaimed)
  {
    hide BookInv, EmitterInv, Lifecycle, Attested, Deployed, Dearer, AddReward, RemoveReward, Gulp, Claim, SameBalances,
         CreditsOnly, Sum, PoolWeight, FundedOf, ClaimedOf, TokensOf, GulpedRecently;
    var b, e, now := s.book, s.emitter, s.now;
    match call
    case DoAddReward(pool, replaced, comet) =>
      AddRewardKeeps(b, c, e, pool, replaced, comet, now);
      if AddReward(b, c, e, pool, replaced, comet, now).Success? {
        SamePoolsDearer(b, AddReward(b, c, e, pool, replaced, comet, now).value);
      }
    case DoRemoveReward(pool, comet) =>
      RemoveRewardKeeps(b, c, e, pool, comet, now);
      if RemoveReward(b, c, e, pool, comet, now).Success? {
        SamePoolsDearer(b, RemoveReward(b, c, e, pool, comet, now).value);
      }
    case DoGulp(pool, grant) =>
      GulpKeeps(b, c, pool, grant, now);
      if Gulp(b, c, pool, grant, now).Success? {
        SameBalancesDearer(b, Gulp(b, c, pool, grant, now).value.0);
      }
    case DoClaim(tier, user, pools, minLp, trade) =>
      ClaimKeepsBook(b, c, e, tier, user, pools, minLp, trade, now);
      if Claim(b, c, e, tier, user, pools, minLp, trade, now).Success? {
        CreditsDearer(b, Claim(b, c, e, tier, user, pools, minLp, trade, now).value.0, user);
      }
  }

  lemma DistributeStep(s: System, c: Deployment, comet: Composition)
    requires SystemInv(s, c) && Covers(Some(comet), HeldOf(s.book, BlntUsdc), HeldOf(s.book, BlntXlm))
    ensures var r := Backstops.Distribute(s.book, c, s.emitter, comet, s.now);
            r.Success? ==>
              && Inv(r.value.0, c, r.value.1, s.now) && LedgersOnly(s.book, r.value.0)
              && r.value.1.initialBackstop == s.emitter.initialBackstop
              && r.value.1.history.start == s.emitter.history.start
              && r.value.1.history.skipped == s.emitter.history.skipped
  {
    hide Inv, Backstops.Distribute, LedgersOnly, Distributed, Emitters.Distribute;
    if IsActive(s.book) {
      DistributeActiveKeeps(s.book, c, s.emitter, comet, s.now);
      if Backstops.Distribute(s.book, c, s.emitter, comet, s.now).Success? {
        DistributeForm(s.emitter, c.self, s.now);
      }
    } else if s.emitter.backstop == c.self {
      ActivationKeeps(s.book, c, s.emitter, comet, s.now);
    } else {
      BackfillKeeps(s.book, c, s.emitter, comet, s.now);
    }
  }

  lemma DistributeForm(e: EmitterState, backstop: Address, now: nat)
    requires Emitters.Distribute(e, backstop, now).Success?
    ensures var d := Emitters.Distribute(e, backstop, now).value.0;
            d == e.(lastDistro := d.lastDistro, history := e.history.(minted := d.history.minted))
  {
  }

  /** Every step, whatever it is and whether or not it aborts, keeps every invariant; and unless it is a
      draw, no share loses value. */
  lemma StepKeeps(s: System, c: Deployment, step: Step)
    requires SystemInv(s, c)
    ensures SystemInv(Apply(s, c, step), c)
    ensures !(step.Call? && step.call.DoDraw?) ==> Dearer(s.book, Apply(s, c, step).book)
  {
    hide SystemInv, Dearer, AfterLocal, AfterEmitter, Backstops.Distribute, Backstops.Drop;
    SamePoolsDearer(s.book, s.book);
    match step
    case Wait(seconds) => WaitStep(s, c, seconds);
    case Receive(asset, amount) =>
      ReceiveStep(s, c, asset, amount);
      SamePoolsDearer(s.book, Apply(s, c, step).book);
    case Emit(call) => EmitterStep(s, c, call);
    case Call(call) =>
      if call.DoDistribute? || call.DoDrop? {
        SplitStep(s, c, call);
      } else {
        LocalStep(s, c, call);
      }
  }

  lemma SplitStep(s: System, c: Deployment, call: BackstopCall)
    requires SystemInv(s, c) && (call.DoDistribute? || call.DoDrop?)
    ensures SystemInv(Apply(s, c, Call(call)), c) && Dearer(s.book, Apply(s, c, Call(call)).book)
  {
    hide Inv, Backstops.Distribute, Backstops.Drop, Dearer, SeqSum, AmountTo;
    SamePoolsDearer(s.book, s.book);
    if call.DoDrop? {
      DropKeepsAll(s.book, c, s.emitter, s.now);
      SamePoolsDearer(s.book, Apply(s, c, Call(call)).book);
    } else if Supplied(s.book, call.comet) {
      DistributeStep(s, c, call.comet);
      SamePoolsDearer(s.book, Apply(s, c, Call(call)).book);
    }
  }

  lemma LocalStep(s: System, c: Deployment, call: BackstopCall)
    requires SystemInv(s, c) && !call.DoDistribute? && !call.DoDrop?
    ensures SystemInv(Apply(s, c, Call(call)), c)
    ensures !call.DoDraw? ==> Dearer(s.book, Apply(s, c, Call(call)).book)
  {
    hide SystemInv, Dearer, AfterLocal, BookInv, NoCheaper;
    SamePoolsDearer(s.book, s.book);
    var r := AfterLocal(s, c, call);
    if r.Success? {
      if call.DoAddReward? || call.DoRemoveReward? || call.DoGulp? || call.DoClaim? {
        RewardStep(s, c, call);
      } else {
        ShareStep(s, c, call);
        if !call.DoDraw? {
          var key :| NoCheaper(s.book, r.value, key);
          NoCheaperIsDearer(s.book, r.value, key);
        }
      }
      SameCore(s, c, r.value);
    }
  }

  /** Every reachable state satisfies every invariant. */
  lemma {:induction false} RunKeeps(s: System, c: Deployment, steps: seq<Step>)
    requires SystemInv(s, c)
    ensures SystemInv(Run(s, c, steps), c)
    decreases |steps|
  {
    hide SystemInv, Apply;
    if steps != [] {
      StepKeeps(s, c, steps[0]);
      RunKeeps(Apply(s, c, steps[0]), c, steps[1..]);
    }
  }

  // Theorems over runs.

  /** Starting from the beginning of emission and an accepted deployment, any run stays sound. */
  lemma Reachable(s: System, c: Deployment, initialBackstop: Address, token: Address, steps: seq<Step>)
    requires Starts(s, c, initialBackstop, token) && ValidConfig(c)
    ensures SystemInv(Run(s, c, steps), c)
  {
    hide Starts, SystemInv, Run;
    StartKeeps(s, c, initialBackstop, token);
    RunKeeps(s, c, steps);
  }

  /** In every reachable state, each tier's pool totals are the sums over its depositors, every BLNT streamed
      into it is accounted for, and claims stay within it. */
  lemma ReachableTier(s: System, c: Deployment, initialBackstop: Address, token: Address, steps: seq<Step>,
                      key: TierKey)
    requires Starts(s, c, initialBackstop, token) && ValidConfig(c)
    ensures var r := Run(s, c, steps);
            var t := TierOf(r.book, key);
            && TierLaws.ShareLedger(t) && 0 <= t.claimed <= t.funded
            && (t.stream.Some? ==> TierLaws.Conserved(t, t.stream.value) && Earns(c, key))
            && (forall u: Address :: WellQueued(r, key, u))
  {
    hide Starts, Run, BookInv, EmitterInv, Lifecycle, Attested, Deployed;
    Reachable(s, c, initialBackstop, token, steps);
    var r := Run(s, c, steps);
    BookTier(r.book, c, key, r.now);
    TierLaws.ClaimedAtMostFunded(TierOf(r.book, key), r.now, Earns(c, key));
    forall u: Address ensures WellQueued(r, key, u) {
      UserQueueFacts(r.book, c, key, u, r.now);
    }
  }

  /** A depositor's queue is oldest first, and nothing in it is locked for longer than 17 days from now. */
  predicate WellQueued(s: System, key: TierKey, user: Address) {
    var q := UserOf(s.book, key, user).q4w;
    UserBalances.Amounts(q) && UserBalances.Sorted(q) && UserBalances.ExpiresBy(q, s.now + UserBalances.Q4W_LOCK_TIME)
  }

  /** In every reachable state, all distributed BLNT is accounted for to the unit, cached weights equal the
      canonical ones, custody covers the tiers, and no depositor has more than 20 entries in a pool. */
  lemma ReachableBook(s: System, c: Deployment, initialBackstop: Address, token: Address, steps: seq<Step>)
    requires Starts(s, c, initialBackstop, token) && ValidConfig(c)
    ensures var b := Run(s, c, steps).book;
            && GlobalLedger(b) && CachesExact(b, c) && ZoneInv(b, c) && Custody(b, c) && EntryCaps(b, c)
            && b.ongoing.backstopClaimed <= Sum(FundedOf(b.tiers)) <= b.ongoing.backstopAllocated
  {
    hide Starts, Run, EmitterInv, Lifecycle, Attested, Deployed, TiersInv, PoolsInv, OngoingLedger, CacheInv, ZoneInv,
         Custody,
         EntryCaps, ValidConfig, Sum, FundedOf, ClaimedOf, BackstopHeldOf, PoolHeldOf, CachesExact;
    Reachable(s, c, initialBackstop, token, steps);
    var r := Run(s, c, steps);
    ClaimedWithinAllocated(r.book, c, r.now);
    CachesAreActiveParts(r.book, c, r.now);
  }

  // Activation.

  function PhaseOf(b: Book): nat {
    if IsActive(b) then 2 else if b.migration.epochStart.Some? then 1 else 0
  }

  /** What activation fixes for good. */
  predicate SameRecord(m: Migration, n: Migration) {
    n == m.(fundedBackfill := n.fundedBackfill) && (m.fundedBackfill.Some? ==> n.fundedBackfill == m.fundedBackfill)
  }

  lemma RecordStep(s: System, c: Deployment, step: Step)
    requires SystemInv(s, c)
    ensures var n := Apply(s, c, step);
            && PhaseOf(s.book) <= PhaseOf(n.book)
            && (IsActive(s.book) ==> SameRecord(s.book.migration, n.book.migration))
            && (!IsActive(s.book) && IsActive(n.book) ==>
                  && s.emitter.backstop == c.self && step.Call? && step.call.DoDistribute?
                  && (s.book.migration.epochStart.Some? ==> ExactlyAttested(s, c)))
  {
    hide Inv, AfterLocal, AfterEmitter, Backstops.Distribute, Backstops.Drop, Dearer, SeqSum, AmountTo, SharesOnly,
         Emitters.Distribute, LedgersOnly, JustExecuted;
    if step.Call? {
      if step.call.DoDrop? {
        DropKeepsAll(s.book, c, s.emitter, s.now);
      } else if step.call.DoDistribute? {
        if Supplied(s.book, step.call.comet) {
          if IsActive(s.book) {
            DistributeActiveKeeps(s.book, c, s.emitter, step.call.comet, s.now);
          } else if s.emitter.backstop == c.self {
            ActivationKeeps(s.book, c, s.emitter, step.call.comet, s.now);
            ExecutedInWindow(s, c);
          } else {
            BackfillKeeps(s.book, c, s.emitter, step.call.comet, s.now);
          }
        }
      } else {
        LocalRecord(s, c, step.call);
      }
    }
  }

  lemma ExecutedInWindow(s: System, c: Deployment)
    ensures var unlock := s.book.migration.verifiedUnlock;
            unlock.Some? && JustExecuted(unlock.value, s.emitter, c.self, c.migrationToken) ==>
              unlock.value <= s.emitter.history.lastSwap.value.at
  {
  }

  lemma LocalRecord(s: System, c: Deployment, call: BackstopCall)
    requires SystemInv(s, c) && !call.DoDistribute? && !call.DoDrop?
    ensures AfterLocal(s, c, call).Success? ==> AfterLocal(s, c, call).value.migration == s.book.migration
  {
    hide SystemInv, BookInv, AfterLocal, Dearer, NoCheaper;
    if call.DoAddReward? || call.DoRemoveReward? || call.DoGulp? || call.DoClaim? {
      RewardStep(s, c, call);
    } else {
      ShareStep(s, c, call);
    }
  }

  /** The attested swap was executed inside its window, nothing was swapped since, and it is still the
      window now. */
  predicate ExactlyAttested(s: System, c: Deployment) {
    var unlock := s.book.migration.verifiedUnlock;
    && unlock.Some? && JustExecuted(unlock.value, s.emitter, c.self, c.migrationToken)
    && unlock.value <= s.emitter.history.lastSwap.value.at <= s.now <= unlock.value + ACTIVATION_GRACE_SECONDS
  }

  /** In every run: when a step activates a contract whose backfill epoch was open, the emitter had
      installed it by executing exactly the attested swap, at or after the attested unlock and no later
      than now, itself at most seven days past that unlock; no swap ran in between. An attestation of a
      swap that was cancelled and queued again is of no use. */
  lemma ActivationSafety(s: System, c: Deployment, initialBackstop: Address, token: Address, steps: seq<Step>,
                         step: Step)
    requires Starts(s, c, initialBackstop, token) && ValidConfig(c)
    ensures var r := Run(s, c, steps);
            r.book.migration.epochStart.Some? && !IsActive(r.book) && IsActive(Apply(r, c, step).book) ==>
              ExactlyAttested(r, c)
  {
    hide Starts, Run, Apply, SystemInv, ExactlyAttested, SameRecord;
    Reachable(s, c, initialBackstop, token, steps);
    RecordStep(Run(s, c, steps), c, step);
  }

  /** Pending, open, active: one way only; once active the backfill, its end and the checkpoint are fixed. */
  lemma {:induction false} OneWay(s: System, c: Deployment, steps: seq<Step>)
    requires SystemInv(s, c)
    ensures var r := Run(s, c, steps);
            && PhaseOf(s.book) <= PhaseOf(r.book)
            && (IsActive(s.book) ==> SameRecord(s.book.migration, r.book.migration))
    decreases |steps|
  {
    hide SystemInv, Apply;
    if steps != [] {
      StepKeeps(s, c, steps[0]);
      RecordStep(s, c, steps[0]);
      OneWay(Apply(s, c, steps[0]), c, steps[1..]);
    }
  }

  // Price.

  predicate NoDraws(steps: seq<Step>) {
    forall i | 0 <= i < |steps| :: !(steps[i].Call? && steps[i].call.DoDraw?)
  }

  /** The tier has shares in every state of the run. */
  predicate AlwaysShares(s: System, c: Deployment, key: TierKey, steps: seq<Step>)
    decreases |steps|
  {
    0 < PoolRecordOf(s.book, key).shares && (steps == [] || AlwaysShares(Apply(s, c, steps[0]), c, key, steps[1..]))
  }

  lemma TierValid(s: System, c: Deployment, key: TierKey)
    requires SystemInv(s, c)
    ensures PoolBalances.ValidPool(PoolRecordOf(s.book, key))
  {
    hide BookInv, EmitterInv, Lifecycle, Attested, Deployed, TierLaws.TierInv;
    BookTier(s.book, c, key, s.now);
    PoolIsValid(TierOf(s.book, key), s.now, Earns(c, key));
  }

  /** While a tier has shares, no run without a draw lowers its price: not deposits, donations,
      withdrawals, claims, nor anything else. */
  lemma {:induction false} PriceNeverFalls(s: System, c: Deployment, key: TierKey, steps: seq<Step>)
    requires SystemInv(s, c) && NoDraws(steps) && AlwaysShares(s, c, key, steps)
    ensures PoolBalances.PriceHolds(PoolRecordOf(s.book, key), PoolRecordOf(Run(s, c, steps).book, key))
    decreases |steps|
  {
    hide SystemInv, Apply, PoolRecordOf;
    if steps == [] {
    } else {
      var n := Apply(s, c, steps[0]);
      StepKeeps(s, c, steps[0]);
      RunKeeps(n, c, steps[1..]);
      assert NoDraws(steps[1..]);
      PriceNeverFalls(n, c, key, steps[1..]);
      hide PoolBalances.PriceHolds;
      assert PoolBalances.PriceHolds(PoolRecordOf(s.book, key), PoolRecordOf(n.book, key));
      TierValid(s, c, key);
      TierValid(n, c, key);
      TierValid(Run(s, c, steps), c, key);
      var a, m, z := PoolRecordOf(s.book, key), PoolRecordOf(n.book, key), PoolRecordOf(Run(s, c, steps).book, key);
      AlwaysNow(n, c, key, steps[1..]);
      PoolBalances.PriceTransitive(a, m, z);
    }
  }

  lemma AlwaysNow(s: System, c: Deployment, key: TierKey, steps: seq<Step>)
    requires AlwaysShares(s, c, key, steps)
    ensures 0 < PoolRecordOf(s.book, key).shares
  {
  }
}
