/** The deployed backstop, in the source's own order: storage is read into working copies, checkpointed,
    written back, and the cached weights resampled. Each method is proved against the specification of the
    operation; `Invoke`, the one entry point, is proved to be the state machine's step. */
module Contracts {
  import opened Numbers
  import opened Sums
  import Tiers
  import opened Streams
  import opened UserBalances
  import opened PoolBalances
  import opened Allocation
  import Emitters
  import opened Backstops
  import opened Systems
  import opened SystemLaws

  type Tier = Tiers.Tier

  /** At most one tier was written, and only if it changed. */
  predicate Touched(b: Book, n: Book, key: TierKey) {
    n == Put(b, key, TierOf(n, key))
  }

  lemma TouchedTwice(b: Book, m: Book, n: Book, key: TierKey)
    requires Touched(b, m, key) && Touched(m, n, key) && TierOf(n, key) != Tiers.EMPTY_TIER
    ensures Touched(b, n, key)
  {
    hide TierOf;
    TierStored(b, key);
    TierStored(m, key);
    TierStored(n, key);
    if TierOf(n, key) == TierOf(b, key) {
      assert n.tiers == b.tiers;
    }
  }

  lemma TierStored(b: Book, key: TierKey)
    ensures TierOf(b, key) != Tiers.EMPTY_TIER ==> key in b.tiers && b.tiers[key] == TierOf(b, key)
    ensures key in b.tiers ==> TierOf(b, key) == b.tiers[key]
  {
  }

  lemma SetAfterTouch(b: Book, m: Book, key: TierKey, t: Tier)
    requires Touched(b, m, key)
    ensures m.tiers[key := t] == b.tiers[key := t] && m == b.(tiers := m.tiers)
  {
  }

  class Backstop {
    const c: Deployment
    const emitter: Emitters.Emitter
    var store: Book

    constructor (deployment: Deployment, emitterContract: Emitters.Emitter)
      ensures c == deployment && emitter == emitterContract && store == NewBook()
    {
      c, emitter, store := deployment, emitterContract, NewBook();
    }

    // Storage writes.

    method SetTier(key: TierKey, t: Tier)
      modifies this`store
      ensures store == old(store).(tiers := old(store).tiers[key := t])
      ensures TierOf(store, key) == t
      ensures t != Tiers.EMPTY_TIER ==> Touched(old(store), store, key)
    {
      if TierOf(store, key) == t != Tiers.EMPTY_TIER {
        assert store.tiers[key := t] == store.tiers;
      }
      store := store.(tiers := store.tiers[key := t]);
    }

    /** A token transfer into the contract, or out of it when negative. */
    method Transfer(key: TierKey, amount: int)
      requires TierAsset(c, key).Success?
      modifies this`store
      ensures var asset := TierAsset(c, key).value;
              store == old(store).(held := old(store).held[asset := HeldOf(old(store), asset) + amount])
    {
      var asset := TierAsset(c, key).value;
      store := store.(held := store.held[asset := HeldOf(store, asset) + amount]);
    }

    // distributor.rs

    method UpdateEmissionData(key: TierKey, now: nat) returns (r: Result<()>)
      modifies this`store
      ensures match Tiers.AdvanceTier(TierOf(old(store), key), now)
              case Failure(x) => r == Failure(x)
              case Success(t) => r.Success? && Touched(old(store), store, key) && TierOf(store, key) == t
    {
      var t := TierOf(store, key);
      if t.stream.None? {
        return Success(());
      }
      var data := AdvanceEmissionData(t.stream.value, t.pool, now);
      if data.Failure? {
        return Failure(data.error);
      }
      SetTier(key, t.(stream := Some(data.value), forfeited := t.forfeited + Forfeited(t.stream.value, t.pool, now)));
      return Success(());
    }

    method UpdateEmissions(key: TierKey, user: Address, now: nat) returns (r: Result<UserEmission>)
      modifies this`store
      ensures match Tiers.Checkpoint(TierOf(old(store), key), user, now)
              case Failure(x) => r == Failure(x)
              case Success(t) =>
                && r == Success(Tiers.DepositorOf(t, user).emission)
                && Touched(old(store), store, key) && TierOf(store, key) == t
    {
      hide Advance, Accrue, Forfeited;
      var stored := UpdateEmissionData(key, now);
      if stored.Failure? {
        return Failure(stored.error);
      }
      var t := TierOf(store, key);
      var u := Tiers.DepositorOf(t, user);
      if t.stream.None? {
        return Success(u.emission);
      }
      var data := UpdateUserEmissions(u.emission, u.balance.shares, t.stream.value.index);
      if data.Failure? {
        return Failure(data.error);
      }
      SetTier(key, t.(users := t.users[user := u.(emission := data.value)]));
      return data;
    }

    method ClaimEmissions(key: TierKey, user: Address, now: nat) returns (r: Result<int>)
      modifies this`store
      ensures match Tiers.ClaimAccrued(TierOf(old(store), key), user, now)
              case Failure(x) => r == Failure(x)
              case Success((t, accrued)) =>
                && r == Success(accrued)
                && store == Put(old(store), key, t)
    {
      hide Tiers.Checkpoint, Put;
      var data := UpdateEmissions(key, user, now);
      if data.Failure? {
        return Failure(data.error);
      }
      ghost var checkpointed := store;
      var t, accrued := TierOf(store, key), data.value.accrued;
      if accrued > 0 {
        var u := Tiers.DepositorOf(t, user);
        SetTier(key, t.(users := t.users[user := u.(emission := u.emission.(accrued := 0))],
          claimed := t.claimed + accrued));
        assert user in TierOf(store, key).users;
        TouchedTwice(old(store), checkpointed, store, key);
      }
      return Success(accrued);
    }

    method SetBackstopEmissionEps(key: TierKey, pending: int, now: nat) returns (r: Result<()>)
      modifies this`store
      ensures match Tiers.SetEmissionRate(TierOf(old(store), key), pending, now)
              case Failure(x) => r == Failure(x)
              case Success(t) => r.Success? && store == Put(old(store), key, t)
    {
      hide Tiers.AdvanceTier, Restream, Put;
      if pending < 0 {
        return Failure(InvalidEmissionValue);
      }
      var stored := UpdateEmissionData(key, now);
      if stored.Failure? {
        return Failure(stored.error);
      }
      var t := TierOf(store, key);
      if pending == 0 {
        return Success(());
      }
      var data := RestreamEmission(t.stream, pending, now);
      if data.Failure? {
        return Failure(data.error);
      }
      ghost var advanced := store;
      SetTier(key, t.(stream := Some(data.value), funded := t.funded + pending));
      assert TierOf(store, key).stream.Some?;
      TouchedTwice(old(store), advanced, store, key);
      return Success(());
    }

    // tier_accounting.rs: bookkeeping around a weight change.

    method PreparePoolWeightChange(key: TierKey) returns (r: Result<bool>)
      ensures r == PrepareWeight(store, c, emitter.State(), key)
    {
      var asset := TierAsset(c, key);
      if asset.Failure? {
        return Failure(asset.error);
      }
      if IsLp(asset.value) {
        if store.migration.activatedAt.None? && emitter.backstop == c.self {
          return Failure(MigrationNotActive);
        }
        return Success(true);
      }
      return Success(false);
    }

    method CheckpointUser(key: TierKey, user: Address, eligible: bool, now: nat) returns (r: Result<()>)
      modifies this`store
      ensures match Tiers.CheckpointIf(TierOf(old(store), key), eligible, user, now)
              case Failure(x) => r == Failure(x)
              case Success(t) => r.Success? && Touched(old(store), store, key) && TierOf(store, key) == t
    {
      hide Tiers.Checkpoint;
      if eligible {
        var data := UpdateEmissions(key, user, now);
        if data.Failure? {
          return Failure(data.error);
        }
      }
      return Success(());
    }

    method RefreshPoolOngoingAssets(pool: Address) returns (r: Result<()>)
      modifies this`store
      ensures match Refresh(old(store), c, pool)
              case Failure(x) => r == Failure(x)
              case Success(n) => r.Success? && store == n
    {
      hide ActiveAssetsOf, NoEmissions;
      var state := CheckedPool(PoolOf(store.pools, pool));
      if state.Failure? {
        return Failure(state.error);
      }
      var record := state.value;
      var usdc := ActiveAssetsOf(store, c, pool, BlntUsdc);
      if usdc.Failure? {
        return Failure(usdc.error);
      }
      record := record.(activeUsdc := usdc.value);
      var xlm := ActiveAssetsOf(store, c, pool, BlntXlm);
      if xlm.Failure? {
        return Failure(xlm.error);
      }
      record := record.(activeXlm := xlm.value);
      if !ValidPoolEmissions(record) {
        return Failure(InvalidEmissionValue);
      }
      store := store.(pools := store.pools[pool := record]);
      return Success(());
    }

    method FinishPoolWeightChange(pool: Address, eligible: bool) returns (r: Result<()>)
      modifies this`store
      ensures if !eligible then r.Success? && store == old(store)
              else match Refresh(old(store), c, pool)
                   case Failure(x) => r == Failure(x)
                   case Success(n) => r.Success? && store == n
    {
      if eligible {
        r := RefreshPoolOngoingAssets(pool);
      } else {
        r := Success(());
      }
    }

    // deposit.rs

    /** Mint shares for tokens the contract already holds. */
    method CreditTierShares(key: TierKey, user: Address, amount: int) returns (r: Result<int>)
      modifies this`store
      ensures match Tiers.CreditShares(TierOf(old(store), key), user, amount)
              case Failure(x) => r == Failure(x)
              case Success((t, minted)) =>
                && r == Success(minted)
                && store == old(store).(tiers := old(store).tiers[key := t])
    {
      hide ConvertToShares;
      var t := TierOf(store, key);
      var poolBalance := new PoolBalance(t.pool);
      var userBalance := new UserBalance(Tiers.DepositorOf(t, user).balance);
      var toMint := ConvertToShares(poolBalance.Record(), amount);
      if toMint.Failure? {
        return Failure(toMint.error);
      }
      if toMint.value <= 0 {
        return Failure(InvalidShareMintAmount);
      }
      var deposited := poolBalance.DepositInto(amount, toMint.value);
      if deposited.Failure? {
        return Failure(deposited.error);
      }
      var added := userBalance.AddShares(toMint.value);
      if added.Failure? {
        return Failure(added.error);
      }
      SetTier(key, Tiers.SetBalance(t.(pool := poolBalance.Record()), user, userBalance.Record()));
      return toMint;
    }

    method ExecuteDeposit(key: TierKey, user: Address, amount: int, now: nat) returns (r: Result<int>)
      modifies this`store
      ensures match Backstops.Deposit(old(store), c, emitter.State(), key, user, amount, now)
              case Failure(x) => r == Failure(x)
              case Success((n, minted)) => r == Success(minted) && store == n
    {
      hide Tiers.CheckpointIf, Tiers.CreditShares, Commit, TierAsset, PrepareWeight, NoEmissions, Put,
           Touched;
      GateNeedsTier(store, c, emitter.State(), key);
      if amount < 0 {
        return Failure(NegativeAmount);
      }
      if user == key.pool || user == c.self {
        return Failure(BadRequest);
      }
      if key.pool !in c.config {
        return Failure(NotPool);
      }
      var eligible := PreparePoolWeightChange(key);
      if eligible.Failure? {
        return Failure(eligible.error);
      }
      var checkpointed := CheckpointUser(key, user, eligible.value, now);
      if checkpointed.Failure? {
        return Failure(checkpointed.error);
      }
      ghost var entered := store;
      Transfer(key, amount);
      var minted := CreditTierShares(key, user, amount);
      if minted.Failure? {
        return Failure(minted.error);
      }
      SetAfterTouch(old(store), entered, key, TierOf(store, key));
      var finished := FinishCommit(key, eligible.value, old(store), TierOf(store, key), amount);
      if finished.Failure? {
        return Failure(finished.error);
      }
      return minted;
    }

    // withdrawal.rs

    method RequireEntryCapacity(user: Address, pool: Address) returns (r: Result<()>)
      requires pool in c.config
      ensures r == if EntriesFrom(store, c, user, pool, 0) < MAX_Q4W_SIZE then Success(())
              else Failure(TooManyQ4WEntries)
    {
      var entries: nat := 0;
      var config := c.config[pool];
      for index := 0 to |config|
        invariant entries + EntriesFrom(store, c, user, pool, index) == EntriesFrom(store, c, user, pool, 0)
      {
        entries := entries + |Tiers.DepositorOf(TierOf(store, TierKey(pool, index)), user).balance.q4w|;
      }
      if entries >= MAX_Q4W_SIZE {
        return Failure(TooManyQ4WEntries);
      }
      return Success(());
    }

    /** The balances are read and edited before the checkpoint, which still sees the stored ones. */
    method ExecuteQueueWithdrawal(key: TierKey, user: Address, amount: int, now: nat) returns (r: Result<Q4W>)
      modifies this`store
      ensures match QueueWithdrawal(old(store), c, emitter.State(), key, user, amount, now)
              case Failure(x) => r == Failure(x)
              case Success(n) => r == Success(Q4W(amount, now + Q4W_LOCK_TIME)) && store == n
    {
      hide Tiers.CheckpointIf, Commit, EntriesFrom;
      if amount < 0 {
        return Failure(NegativeAmount);
      }
      var t := TierOf(store, key);
      var poolBalance := new PoolBalance(t.pool);
      var userBalance := new UserBalance(Tiers.DepositorOf(t, user).balance);
      if key.pool !in c.config {
        return Failure(NotPool);
      }
      var capacity := RequireEntryCapacity(user, key.pool);
      if capacity.Failure? {
        return Failure(capacity.error);
      }
      var queued := userBalance.QueueSharesForWithdrawal(amount, now);
      if queued.Failure? {
        return Failure(queued.error);
      }
      var eligible := PreparePoolWeightChange(key);
      if eligible.Failure? {
        return Failure(eligible.error);
      }
      var checkpointed := CheckpointUser(key, user, eligible.value, now);
      if checkpointed.Failure? {
        return Failure(checkpointed.error);
      }
      var pooled := poolBalance.QueueShares(amount);
      if pooled.Failure? {
        return Failure(pooled.error);
      }
      var stored := StoreBalances(key, user, poolBalance.Record(), userBalance.Record(), 0, eligible.value, old(store));
      if stored.Failure? {
        return Failure(stored.error);
      }
      return Success(userBalance.q4w[|userBalance.q4w| - 1]);
    }

    /** Write both balances back, move the tokens, and resample: the common tail of the balance operations. */
    method StoreBalances(key: TierKey, user: Address, pool: PoolRecord, balance: UserRecord, received: int,
                         eligible: bool,
                         ghost before: Book)
      returns (r: Result<()>)
      requires TierAsset(c, key).Success? && eligible == IsLp(TierAsset(c, key).value) && Touched(before, store, key)
      modifies this`store
      ensures match Commit(before, c, key, Tiers.SetBalance(TierOf(old(store), key).(pool := pool), user, balance),
              received)
              case Failure(x) => r == Failure(x)
              case Success(n) => r.Success? && store == n
    {
      hide Touched, TierAsset, Commit;
      var t := TierOf(store, key);
      SetAfterTouch(before, store, key, Tiers.SetBalance(t.(pool := pool), user, balance));
      SetTier(key, Tiers.SetBalance(t, user, balance));
      SetTier(key, TierOf(store, key).(pool := pool));
      Transfer(key, received);
      r := FinishCommit(key, eligible, before, Tiers.SetBalance(t.(pool := pool), user, balance), received);
    }

    method FinishCommit(key: TierKey, eligible: bool, ghost before: Book, ghost t: Tier, ghost received: int)
      returns (r: Result<()>)
      requires TierAsset(c, key).Success? && eligible == IsLp(TierAsset(c, key).value)
      requires var asset := TierAsset(c, key).value;
               store == before.(tiers := before.tiers[key := t],
                 held := before.held[asset := HeldOf(before, asset) + received])
      modifies this`store
      ensures match Commit(before, c, key, t, received)
              case Failure(x) => r == Failure(x)
              case Success(n) => r.Success? && store == n
    {
      hide Refresh, TierAsset;
      r := FinishPoolWeightChange(key.pool, eligible);
    }

    method ExecuteDequeueWithdrawal(key: TierKey, user: Address, amount: int, now: nat) returns (r: Result<()>)
      modifies this`store
      ensures match DequeueWithdrawal(old(store), c, emitter.State(), key, user, amount, now)
              case Failure(x) => r == Failure(x)
              case Success(n) => r.Success? && store == n
    {
      hide Tiers.CheckpointIf, Commit, DequeueQueue, Put, Touched, HeldOf;
      if amount < 0 {
        return Failure(NegativeAmount);
      }
      var t := TierOf(store, key);
      var poolBalance := new PoolBalance(t.pool);
      var userBalance := new UserBalance(Tiers.DepositorOf(t, user).balance);
      var dequeued := userBalance.DequeueSharesFromQueue(amount);
      if dequeued.Failure? {
        return Failure(dequeued.error);
      }
      var eligible := PreparePoolWeightChange(key);
      if eligible.Failure? {
        return Failure(eligible.error);
      }
      var checkpointed := CheckpointUser(key, user, eligible.value, now);
      if checkpointed.Failure? {
        return Failure(checkpointed.error);
      }
      var added := userBalance.AddShares(amount);
      if added.Failure? {
        return Failure(added.error);
      }
      var pooled := poolBalance.DequeueShares(amount);
      if pooled.Failure? {
        return Failure(pooled.error);
      }
      r := StoreBalances(key, user, poolBalance.Record(), userBalance.Record(), 0, eligible.value, old(store));
    }

    method ExecuteWithdraw(key: TierKey, user: Address, amount: int, liabilities: bool, now: nat)
      returns (r: Result<int>)
      modifies this`store
      ensures match WithdrawMatured(old(store), c, emitter.State(), key, user, amount, liabilities, now)
              case Failure(x) => r == Failure(x)
              case Success((n, returned)) => r == Success(returned) && store == n
    {
      hide Tiers.CheckpointIf, Commit, WithdrawQueue, ConvertToTokens, Put, Touched, HeldOf;
      if amount < 0 {
        return Failure(NegativeAmount);
      }
      if liabilities {
        return Failure(BadDebtExists);
      }
      var t := TierOf(store, key);
      var poolBalance := new PoolBalance(t.pool);
      var userBalance := new UserBalance(Tiers.DepositorOf(t, user).balance);
      var withdrawn := userBalance.WithdrawSharesFromQueue(amount, now);
      if withdrawn.Failure? {
        return Failure(withdrawn.error);
      }
      var toReturn := ConvertToTokens(poolBalance.Record(), amount);
      if toReturn.Failure? {
        return Failure(toReturn.error);
      }
      if toReturn.value == 0 && poolBalance.tokens != 0 {
        return Failure(InvalidTokenWithdrawAmount);
      }
      var eligible := PreparePoolWeightChange(key);
      if eligible.Failure? {
        return Failure(eligible.error);
      }
      var checkpointed := CheckpointUser(key, user, eligible.value, now);
      if checkpointed.Failure? {
        return Failure(checkpointed.error);
      }
      var pooled := poolBalance.WithdrawFrom(toReturn.value, amount);
      if pooled.Failure? {
        return Failure(pooled.error);
      }
      var stored := StoreBalances(key, user, poolBalance.Record(), userBalance.Record(), -toReturn.value,
          eligible.value, old(store));
      if stored.Failure? {
        return Failure(stored.error);
      }
      return toReturn;
    }

    method ExecuteForceQueueWithdrawal(key: TierKey, user: Address, now: nat) returns (r: Result<Q4W>)
      modifies this`store
      ensures match ForceQueue(old(store), c, emitter.State(), key, user, now)
              case Failure(x) => r == Failure(x)
              case Success(n) => r.Success? && store == n
    {
      hide QueueWithdrawal;
      var shares := Tiers.DepositorOf(TierOf(store, key), user).balance.shares;
      if shares <= 0 {
        return Failure(BadRequest);
      }
      r := ExecuteQueueWithdrawal(key, user, shares, now);
    }

    method ExecuteForceWithdrawal(key: TierKey, user: Address, liabilities: bool, now: nat)
      returns (r: Result<(int, int)>)
      modifies this`store
      ensures match ForceWithdraw(old(store), c, emitter.State(), key, user, liabilities, now)
              case Failure(x) => r == Failure(x)
              case Success((n, returned)) => r.Success? && r.value.1 == returned && store == n
    {
      hide WithdrawMatured;
      var q4w := Tiers.DepositorOf(TierOf(store, key), user).balance.q4w;
      var maturedShares := 0;
      var index := 0;
      while index < |q4w| && q4w[index].exp <= now
        invariant index <= |q4w|
        invariant store == old(store)
        invariant MaturedSum(q4w, now, 0) == MaturedSum(q4w[index..], now, maturedShares)
      {
        if !FitsI128(maturedShares + q4w[index].amount) {
          return Failure(Overflow);
        }
        maturedShares := maturedShares + q4w[index].amount;
        assert q4w[index..][1..] == q4w[index + 1..];
        index := index + 1;
      }
      if maturedShares == 0 {
        return Failure(NotExpired);
      }
      var tokens := ExecuteWithdraw(key, user, maturedShares, liabilities, now);
      if tokens.Failure? {
        return Failure(tokens.error);
      }
      return Success((maturedShares, tokens.value));
    }

    // fund_management.rs

    method ExecuteDraw(key: TierKey, amount: int) returns (r: Result<()>)
      modifies this`store
      ensures match Draw(old(store), c, emitter.State(), key, amount)
              case Failure(x) => r == Failure(x)
              case Success(n) => r.Success? && store == n
    {
      hide Commit;
      if amount < 0 {
        return Failure(NegativeAmount);
      }
      if amount == 0 {
        return Success(());
      }
      var eligible := PreparePoolWeightChange(key);
      if eligible.Failure? {
        return Failure(eligible.error);
      }
      var poolBalance := new PoolBalance(TierOf(store, key).pool);
      var drawn := poolBalance.WithdrawFrom(amount, 0);
      if drawn.Failure? {
        return Failure(drawn.error);
      }
      SetTier(key, TierOf(store, key).(pool := poolBalance.Record()));
      Transfer(key, -amount);
      r := FinishCommit(key, eligible.value, old(store), TierOf(store, key), -amount);
    }

    method ExecuteDonate(key: TierKey, from: Address, amount: int) returns (r: Result<()>)
      modifies this`store
      ensures match Donate(old(store), c, emitter.State(), key, from, amount)
              case Failure(x) => r == Failure(x)
              case Success(n) => r.Success? && store == n
    {
      hide Commit;
      if amount < 0 {
        return Failure(NegativeAmount);
      }
      if from == key.pool || from == c.self {
        return Failure(BadRequest);
      }
      var eligible := PreparePoolWeightChange(key);
      if eligible.Failure? {
        return Failure(eligible.error);
      }
      var poolBalance := new PoolBalance(TierOf(store, key).pool);
      Transfer(key, amount);
      var deposited := poolBalance.DepositInto(amount, 0);
      if deposited.Failure? {
        return Failure(deposited.error);
      }
      SetTier(key, TierOf(store, key).(pool := poolBalance.Record()));
      r := FinishCommit(key, eligible.value, old(store), TierOf(store, key), amount);
    }

    // manager.rs: the reward zone.

    method AddToRewardZone(toAdd: Address, toRemove: Option<Address>, comet: Composition, now: nat)
      returns (r: Result<Option<Address>>)
      modifies this`store
      ensures match AddReward(old(store), c, emitter.State(), toAdd, toRemove, comet, now)
              case Failure(x) => r == Failure(x)
              case Success(n) => r.Success? && store == n
    {
      hide PoolWeight, Refresh;
      if store.migration.activatedAt.None? && emitter.backstop == c.self {
        return Failure(MigrationNotActive);
      }
      if |store.zone| > MAX_RZ_SIZE {
        return Failure(Overflow);
      }
      var rewardZone := store.zone;
      if toAdd in rewardZone {
        return Failure(InvalidRewardZoneEntry);
      }
      var entrantWeight := PoolWeight(store, c, toAdd, comet);
      if entrantWeight.Failure? {
        return Failure(entrantWeight.error);
      }
      if entrantWeight.value <= 0 {
        return Failure(InvalidRewardZoneEntry);
      }
      if rewardZone != [] || store.migration.activatedAt.None? {
        if !DistributedRecently(store, now) {
          return Failure(DistributionCheckpointRequired);
        }
      }
      var removed: Option<Address> := None;
      if |rewardZone| >= MAX_RZ_SIZE {
        if toRemove.None? {
          return Failure(RewardZoneFull);
        }
        var removeIndex := IndexOf(rewardZone, toRemove.value);
        if removeIndex.None? {
          return Failure(InvalidRewardZoneEntry);
        }
        var removedWeight := PoolWeight(store, c, toRemove.value, comet);
        if removedWeight.Failure? {
          return Failure(removedWeight.error);
        }
        if entrantWeight.value <= removedWeight.value {
          return Failure(InvalidRewardZoneEntry);
        }
        rewardZone := WithoutIndex(rewardZone, removeIndex.value);
        removed := toRemove;
      }
      rewardZone := [toAdd] + rewardZone;
      var refreshed := RefreshPoolOngoingAssets(toAdd);
      if refreshed.Failure? {
        return Failure(refreshed.error);
      }
      store := store.(zone := rewardZone);
      return Success(removed);
    }

    method RemoveFromRewardZone(toRemove: Address, comet: Composition, now: nat) returns (r: Result<()>)
      modifies this`store
      ensures match RemoveReward(old(store), c, emitter.State(), toRemove, comet, now)
              case Failure(x) => r == Failure(x)
              case Success(n) => r.Success? && store == n
    {
      hide PoolWeight;
      if store.migration.activatedAt.None? && emitter.backstop == c.self {
        return Failure(MigrationNotActive);
      }
      if |store.zone| > MAX_RZ_SIZE {
        return Failure(Overflow);
      }
      var removeIndex := IndexOf(store.zone, toRemove);
      if removeIndex.None? {
        return Failure(InvalidRewardZoneEntry);
      }
      var weight := PoolWeight(store, c, toRemove, comet);
      if weight.Failure? {
        return Failure(weight.error);
      }
      if weight.value != 0 {
        return Failure(InvalidRewardZoneEntry);
      }
      if !DistributedRecently(store, now) {
        return Failure(DistributionCheckpointRequired);
      }
      store := store.(zone := WithoutIndex(store.zone, removeIndex.value));
      return Success(());
    }

    // tier_accounting.rs: allocation.

    method CollectZoneWeights(composition: Option<Composition>) returns (r: Result<(seq<Weight>, int)>)
      ensures r == CollectWeights(store.pools, store.zone, composition)
    {
      hide CollectOne;
      var rewardZone := store.zone;
      if rewardZone == [] {
        return Success(([], 0));
      }
      if composition.Some? && !(Readable(composition.value.usdcSupply, composition.value.usdcReserve)
                                && Readable(composition.value.xlmSupply, composition.value.xlmReserve)) {
        return Failure(InvalidEmissionValue);
      }
      var totals := Collected([], 0, 0, 0);
      for i := 0 to |rewardZone|
        invariant CollectFrom(store.pools, rewardZone, composition, Collected([], 0, 0, 0))
               == CollectFrom(store.pools, rewardZone[i..], composition, totals)
      {
        assert rewardZone[i..][1..] == rewardZone[i + 1..];
        var next := CollectPool(rewardZone[i], composition, totals);
        if next.Failure? {
          return Failure(next.error);
        }
        totals := next.value;
      }
      if composition.Some? && (totals.usdc > composition.value.usdcSupply || totals.xlm > composition.value.xlmSupply) {
        return Failure(NoEligibleWeight);
      }
      return Success((totals.weights, totals.eligible));
    }

    /** One turn: read the pool's record, weigh its cached amounts, add to the running totals. */
    method CollectPool(pool: Address, composition: Option<Composition>, totals: Collected)
      returns (r: Result<Collected>)
      ensures r == CollectOne(store.pools, pool, composition, totals)
    {
      hide UnderlyingBlnt, PoolOf;
      var poolState := CheckedPool(PoolOf(store.pools, pool));
      if poolState.Failure? {
        return Failure(poolState.error);
      }
      var totalUsdc, totalXlm := totals.usdc, totals.xlm;
      var poolUsdc, poolXlm := poolState.value.activeUsdc, 0;
      if composition.Some? {
        var comet := composition.value;
        if !FitsI128(totalUsdc + poolState.value.activeUsdc) {
          return Failure(Overflow);
        }
        totalUsdc := totalUsdc + poolState.value.activeUsdc;
        var usdc := UnderlyingBlnt(poolState.value.activeUsdc, comet.usdcSupply, comet.usdcReserve);
        if usdc.Failure? {
          return Failure(usdc.error);
        }
        poolUsdc := usdc.value;
        if !FitsI128(totalXlm + poolState.value.activeXlm) {
          return Failure(Overflow);
        }
        totalXlm := totalXlm + poolState.value.activeXlm;
        var xlm := UnderlyingBlnt(poolState.value.activeXlm, comet.xlmSupply, comet.xlmReserve);
        if xlm.Failure? {
          return Failure(xlm.error);
        }
        poolXlm := xlm.value;
      }
      if !FitsI128(poolUsdc + poolXlm) || !FitsI128(totals.eligible + poolUsdc + poolXlm) {
        return Failure(Overflow);
      }
      return Success(Collected(totals.weights + [Weight(pool, poolState.value, poolUsdc, poolXlm)],
                               totals.eligible + (poolUsdc + poolXlm), totalUsdc, totalXlm));
    }

    method AllocatePoolBackstopEmissions(stored: PoolEmissions, usdcWeight: int, xlmWeight: int, allocation: int)
      returns (r: Result<PoolEmissions>)
      ensures r == AllocatePool(stored, usdcWeight, xlmWeight, allocation)
    {
      hide ProportionalFloor;
      var state := stored;
      if allocation < 0 {
        return Failure(InvalidEmissionValue);
      }
      var totalWeight := usdcWeight + xlmWeight;
      if !FitsI128(totalWeight) || !FitsI128(allocation + state.tierCarry) {
        return Failure(Overflow);
      }
      var distribution := allocation + state.tierCarry;
      if totalWeight == 0 {
        return Success(state);
      }
      var usdc := ProportionalFloor(distribution, usdcWeight, totalWeight);
      if usdc.Failure? {
        return Failure(usdc.error);
      }
      var xlm := ProportionalFloor(distribution, xlmWeight, totalWeight);
      if xlm.Failure? {
        return Failure(xlm.error);
      }
      if !FitsI128(usdc.value + xlm.value) {
        return Failure(Overflow);
      }
      var carry := NonNegativeSub(distribution, usdc.value + xlm.value);
      if carry.Failure? {
        return Failure(carry.error);
      }
      state := state.(tierCarry := carry.value);
      if !FitsI128(state.pendingUsdc + usdc.value) || !FitsI128(state.pendingXlm + xlm.value) {
        return Failure(Overflow);
      }
      state := state.(pendingUsdc := state.pendingUsdc + usdc.value);
      state := state.(pendingXlm := state.pendingXlm + xlm.value);
      return Success(state);
    }

    /** One turn of the allocation loop: both shares of the pool, stored at once. */
    method AllocateToPool(w: Weight, backstopDistribution: int, poolDistribution: int, eligible: int,
                          backstopSoFar: int, poolSoFar: int)
      returns (r: Result<(int, int)>)
      modifies this`store
      ensures match AllocateOne(w, backstopDistribution, poolDistribution, eligible,
              Allocated(old(store).pools, backstopSoFar, poolSoFar))
              case Failure(x) => r == Failure(x)
              case Success(a) => r == Success((a.backstop, a.pool)) && store == old(store).(pools := a.pools)
    {
      hide ProportionalFloor, AllocatePool;
      if !FitsI128(w.usdc + w.xlm) {
        return Failure(Overflow);
      }
      var weight := w.usdc + w.xlm;
      var backstopAllocation, poolAllocation := 0, 0;
      if eligible != 0 {
        var backstopShare := ProportionalFloor(backstopDistribution, weight, eligible);
        if backstopShare.Failure? {
          return Failure(backstopShare.error);
        }
        var poolShare := ProportionalFloor(poolDistribution, weight, eligible);
        if poolShare.Failure? {
          return Failure(poolShare.error);
        }
        backstopAllocation, poolAllocation := backstopShare.value, poolShare.value;
      }
      var state := AllocatePoolBackstopEmissions(w.state, w.usdc, w.xlm, backstopAllocation);
      if state.Failure? {
        return Failure(state.error);
      }
      if !FitsI128(state.value.accruedPool + poolAllocation) {
        return Failure(Overflow);
      }
      var stored := CheckedPool(state.value.(accruedPool := state.value.accruedPool + poolAllocation));
      if stored.Failure? {
        return Failure(stored.error);
      }
      store := store.(pools := store.pools[w.pool := stored.value]);
      if !FitsI128(backstopSoFar + backstopAllocation) || !FitsI128(poolSoFar + poolAllocation) {
        return Failure(Overflow);
      }
      return Success((backstopSoFar + backstopAllocation, poolSoFar + poolAllocation));
    }

    /** Splits `amount`, walks the weights storing each pool as it goes, then stores the totals. */
    method AllocateAmount(state: Ongoing, amount: int, checkpoint: nat, weights: seq<Weight>, eligible: int)
      returns (r: Result<()>)
      requires state == store.ongoing
      modifies this`store
      ensures match AllocateInto(old(store), amount, checkpoint, weights, eligible)
              case Failure(x) => r == Failure(x)
              case Success(n) => r.Success? && store == n
    {
      hide QuoteSplit, AllocateOne, StoreOngoing;
      var split := QuoteSplit(amount, state.splitCarry);
      if split.Failure? {
        return Failure(split.error);
      }
      var (backstopSplit, poolSplit, splitCarry) := split.value;
      if !FitsI128(backstopSplit + state.backstopCarry) || !FitsI128(poolSplit + state.poolCarry) {
        return Failure(Overflow);
      }
      var backstopDistribution, poolDistribution := backstopSplit + state.backstopCarry, poolSplit + state.poolCarry;
      var backstopAllocated, poolAllocated := 0, 0;
      for i := 0 to |weights|
        invariant store == old(store).(pools := store.pools)
        invariant AllocateFrom(weights, backstopDistribution, poolDistribution, eligible,
                  Allocated(old(store).pools, 0, 0))
               == AllocateFrom(weights[i..], backstopDistribution, poolDistribution, eligible,
                               Allocated(store.pools, backstopAllocated, poolAllocated))
      {
        assert weights[i..][1..] == weights[i + 1..];
        var next := AllocateToPool(weights[i], backstopDistribution, poolDistribution, eligible, backstopAllocated,
            poolAllocated);
        if next.Failure? {
          return Failure(next.error);
        }
        backstopAllocated, poolAllocated := next.value.0, next.value.1;
      }
      r := StoreTotals(state, amount, checkpoint, splitCarry, backstopDistribution, poolDistribution,
        backstopAllocated, poolAllocated);
    }

    method StoreTotals(state: Ongoing, amount: int, checkpoint: nat, splitCarry: int, backstopDistribution: int,
                       poolDistribution: int,
                       backstopAllocated: int, poolAllocated: int)
      returns (r: Result<()>)
      modifies this`store
      ensures match TotalsAfter(state, amount, checkpoint, splitCarry, backstopDistribution, poolDistribution,
              backstopAllocated, poolAllocated)
              case Failure(x) => r == Failure(x)
              case Success(o) =>
                r.Success? && store == old(store).(ongoing := o, zoneCheckpoint := Some(checkpoint),
                  distributionStarted := true)
    {
      hide StoreOngoing;
      var next := state;
      if !FitsI128(state.totalDistributed + amount) || !FitsI128(state.backstopAllocated + backstopAllocated)
         || !FitsI128(state.poolAllocated + poolAllocated) {
        return Failure(Overflow);
      }
      next := next.(totalDistributed := state.totalDistributed + amount,
                    backstopAllocated := state.backstopAllocated + backstopAllocated,
                    poolAllocated := state.poolAllocated + poolAllocated,
                    splitCarry := splitCarry);
      var backstopCarry := NonNegativeSub(backstopDistribution, backstopAllocated);
      if backstopCarry.Failure? {
        return Failure(backstopCarry.error);
      }
      var poolCarry := NonNegativeSub(poolDistribution, poolAllocated);
      if poolCarry.Failure? {
        return Failure(poolCarry.error);
      }
      next := next.(backstopCarry := backstopCarry.value, poolCarry := poolCarry.value,
        lastDistribution := Some(checkpoint));
      var stored := StoreOngoing(next);
      if stored.Failure? {
        return Failure(stored.error);
      }
      store := store.(ongoing := stored.value);
      store := store.(zoneCheckpoint := Some(checkpoint));
      store := store.(distributionStarted := true);
      return Success(());
    }

    method AdvanceWithoutDistribution(state: Ongoing, checkpoint: nat) returns (r: Result<()>)
      modifies this`store
      ensures match AdvanceOnly(old(store), state, checkpoint)
              case Failure(x) => r == Failure(x)
              case Success(n) => r.Success? && store == n
    {
      hide StoreOngoing;
      var stored := StoreOngoing(state.(lastDistribution := Some(checkpoint)));
      if stored.Failure? {
        return Failure(stored.error);
      }
      store := store.(ongoing := stored.value);
      store := store.(zoneCheckpoint := Some(checkpoint));
      store := store.(distributionStarted := true);
      return Success(());
    }

    method ExecuteCheckpointBackfill(checkpoint: nat) returns (r: Result<int>)
      modifies this`store
      ensures match CheckpointBackfill(old(store), checkpoint)
              case Failure(x) => r == Failure(x)
              case Success((n, amount)) => r == Success(amount) && store == n
    {
      hide CollectWeights, AllocateInto, AdvanceOnly, CheckedOngoing;
      if store.migration.activatedAt.Some? {
        return Failure(AlreadyFinalized);
      }
      var state := CheckedOngoing(store.ongoing);
      if state.Failure? {
        return Failure(state.error);
      }
      CheckedIsSame(store.ongoing);
      if state.value.lastDistribution.None? {
        return Failure(MigrationEpochNotOpen);
      }
      if checkpoint < state.value.lastDistribution.value {
        return Failure(InvalidOngoingBalance);
      }
      var elapsed := checkpoint - state.value.lastDistribution.value;
      var weights := CollectZoneWeights(None);
      if weights.Failure? {
        return Failure(weights.error);
      }
      if weights.value.1 == 0 {
        var advanced := AdvanceWithoutDistribution(state.value, checkpoint);
        if advanced.Failure? {
          return Failure(advanced.error);
        }
        return Success(0);
      }
      if !FitsI128(elapsed * SCALAR_7) {
        return Failure(Overflow);
      }
      var remaining := NonNegativeSub(MAX_BACKFILLED_EMISSIONS, store.migration.scheduledBackfill);
      if remaining.Failure? {
        return Failure(remaining.error);
      }
      var amount := Min(elapsed * SCALAR_7, remaining.value);
      var booked := AllocateAmount(state.value, amount, checkpoint, weights.value.0, weights.value.1);
      if booked.Failure? {
        return Failure(booked.error);
      }
      AllocationKeepsMigration(old(store), amount, checkpoint, weights.value.0, weights.value.1);
      var recorded := RecordBackfillDistribution(amount);
      if recorded.Failure? {
        return Failure(recorded.error);
      }
      return Success(amount);
    }

    // migration.rs

    method RecordBackfillDistribution(amount: int) returns (r: Result<()>)
      modifies this`store
      ensures match RecordBackfill(old(store).migration, amount)
              case Failure(x) => r == Failure(x)
              case Success(m) => r.Success? && store == old(store).(migration := m)
    {
      if amount < 0 {
        return Failure(InvalidEmissionValue);
      }
      var next := store.migration.scheduledBackfill + amount;
      if !FitsI128(next) {
        return Failure(Overflow);
      }
      if next > MAX_BACKFILLED_EMISSIONS {
        return Failure(MaxBackfillEmissions);
      }
      store := store.(migration := store.migration.(scheduledBackfill := next));
      return Success(());
    }

    method AttestQueued(queued: Emitters.Swap, now: nat) returns (r: Result<()>)
      modifies this`store
      ensures match AttestQueue(old(store).migration, queued, now)
              case Failure(x) => r == Failure(x)
              case Success(m) => r.Success? && store == old(store).(migration := m)
    {
      var attestationStart := Max(0, queued.unlockTime - QUEUE_ATTESTATION_WINDOW_SECONDS);
      if !FitsU64(queued.unlockTime + ACTIVATION_GRACE_SECONDS) {
        return Failure(Overflow);
      }
      var attestationEnd := queued.unlockTime + ACTIVATION_GRACE_SECONDS;
      if now >= attestationStart && now <= attestationEnd {
        store := store.(migration := store.migration.(verifiedUnlock := Some(queued.unlockTime)));
      } else {
        store := store.(migration := store.migration.(verifiedUnlock := None));
      }
      return Success(());
    }

    method OpenBackfillEpoch(epochStart: nat)
      modifies this`store
      ensures store == OpenEpoch(old(store), epochStart)
    {
      store := store.(migration := store.migration.(epochStart := Some(epochStart)));
      store := store.(ongoing := Ongoing(0, 0, 0, Some(epochStart), 0, 0, 0, 0));
      store := store.(zoneCheckpoint := Some(epochStart));
      store := store.(distributionStarted := true);
    }

    method RequireActivationWindow(now: nat) returns (r: Result<()>)
      ensures r == match CheckActivationWindow(store.migration, now)
                   case Abort(x) => Failure(x)
                   case Pass => Success(())
    {
      if store.migration.verifiedUnlock.Some? {
        var unlock := store.migration.verifiedUnlock.value;
        if !FitsU64(unlock + ACTIVATION_GRACE_SECONDS) {
          return Failure(Overflow);
        }
        if now < unlock || now > unlock + ACTIVATION_GRACE_SECONDS {
          return Failure(SyncWindowExpired);
        }
      } else if store.migration.epochStart.Some? {
        return Failure(MigrationNotPrepared);
      }
      return Success(());
    }

    method ExecuteActivate(now: nat) returns (r: Result<nat>)
      modifies this`store
      ensures match Activate(old(store), c, emitter.State(), now)
              case Failure(x) => r == Failure(x)
              case Success((n, last)) => r == Success(last) && store == n
    {
      hide CheckActivationWindow;
      var window := RequireActivationWindow(now);
      if window.Failure? {
        return Failure(window.error);
      }
      if c.self !in emitter.lastDistro {
        return Failure(Trap);
      }
      var lastDistribution := emitter.lastDistro[c.self];
      if lastDistribution > now {
        return Failure(InvalidOngoingBalance);
      }
      var state := store.ongoing;
      var backfillEnd := if state.lastDistribution.Some? then state.lastDistribution.value else lastDistribution;
      if backfillEnd > lastDistribution {
        return Failure(InvalidOngoingBalance);
      }
      StoreActivation(state.(lastDistribution := Some(lastDistribution)), now, backfillEnd, lastDistribution);
      return Success(lastDistribution);
    }

    method StoreActivation(state: Ongoing, now: nat, backfillEnd: nat, checkpoint: nat)
      modifies this`store
      ensures store == old(store).(
                ongoing := state,
                migration := old(store).migration.(
                  activatedAt := Some(now), backfillEnd := Some(backfillEnd), activationCheckpoint := checkpoint,
                  mintedBefore := At(emitter.history.minted, c.self),
                  skippedBefore := At(emitter.history.skipped, c.self)))
    {
      store := store.(ongoing := state);
      store := store.(migration := store.migration.(activatedAt := Some(now)));
      store := store.(migration := store.migration.(backfillEnd := Some(backfillEnd)));
      // History: what the emitter's ledger said at activation.
      store := store.(migration := store.migration.(
        activationCheckpoint := checkpoint,
        mintedBefore := At(emitter.history.minted, c.self),
        skippedBefore := At(emitter.history.skipped, c.self)));
    }

    /** The backfill arm of the transition. */
    method ExecutePrepareBackfill(now: nat) returns (r: Result<()>)
      modifies this`store
      ensures match PrepareBackfill(old(store), c, emitter.State(), now)
              case Failure(x) => r == Failure(x)
              case Success(n) => r.Success? && store == n
    {
      hide AttestQueue;
      if emitter.queued.Some? {
        var queued := emitter.queued.value;
        if queued.newBackstop != c.self || queued.newBackstopToken != c.migrationToken {
          return Failure(InvalidQueuedSwap);
        }
        AttestationKeepsEpoch(store.migration, queued, now);
        var attested := AttestQueued(queued, now);
        if attested.Failure? {
          return Failure(attested.error);
        }
      } else {
        store := store.(migration := store.migration.(verifiedUnlock := None));
      }
      if store.migration.epochStart.None? {
        OpenBackfillEpoch(now);
      }
      return Success(());
    }

    method TotalDrop(recipients: seq<(Address, int)>, scheduled: int) returns (r: Result<(int, int)>)
      ensures r == DropTotals(recipients, c.self, scheduled, scheduled)
    {
      var expectedCandidateDelta, dropTotal := scheduled, scheduled;
      for i := 0 to |recipients|
        invariant DropTotals(recipients, c.self, scheduled, scheduled)
               == DropTotals(recipients[i..], c.self, dropTotal, expectedCandidateDelta)
      {
        var (recipient, amount) := recipients[i];
        assert recipients[i..][1..] == recipients[i + 1..];
        if amount < 0 {
          return Failure(InvalidBackfillFunding);
        }
        if !FitsI128(dropTotal + amount) {
          return Failure(Overflow);
        }
        dropTotal := dropTotal + amount;
        if recipient == c.self {
          if !FitsI128(expectedCandidateDelta + amount) {
            return Failure(Overflow);
          }
          expectedCandidateDelta := expectedCandidateDelta + amount;
        }
      }
      return Success((dropTotal, expectedCandidateDelta));
    }

    method ExecuteDrop() returns (r: Result<()>)
      modifies this`store, emitter`dropped, emitter`history
      ensures match Drop(old(store), c, old(emitter.State()))
              case Failure(x) => r == Failure(x)
              case Success((n, d)) => r.Success? && store == n && emitter.State() == d
    {
      hide Emitters.Drop, DropTotals, DropRecipients;
      if store.migration.fundedBackfill.Some? {
        return Failure(BackfillAlreadyFunded);
      }
      if store.migration.activatedAt.None? {
        return Failure(MigrationNotActive);
      }
      var scheduled := store.migration.scheduledBackfill;
      if !(0 <= scheduled <= MAX_BACKFILLED_EMISSIONS) {
        return Failure(InvalidBackfillFunding);
      }
      var recipients := c.dropList;
      var totals := TotalDrop(recipients, scheduled);
      if totals.Failure? {
        return Failure(totals.error);
      }
      var (dropTotal, expectedCandidateDelta) := totals.value;
      var maxDrop := if c.extendedDrop then Emitters.MAX_INITIAL_DROP else Emitters.MAX_MIGRATION_DROP;
      if dropTotal > maxDrop {
        return Failure(InvalidBackfillFunding);
      }
      r := FundBackfill(scheduled, expectedCandidateDelta);
    }

    /** Mark the drop, spend it, and check what arrived. The marker is stored before the external call. */
    method FundBackfill(scheduled: int, expectedCandidateDelta: int) returns (r: Result<()>)
      modifies this`store, emitter`dropped, emitter`history
      ensures match Emitters.Drop(old(emitter.State()), c.self, DropRecipients(c, scheduled))
              case Failure(x) => r == Failure(x)
              case Success(d) =>
                if Received(old(emitter.State()), d, c.self) != expectedCandidateDelta
                    then r == Failure(InvalidBackfillFunding)
                else
                  && r.Success? && emitter.State() == d
                  && store == old(store).(migration := old(store).migration.(fundedBackfill := Some(scheduled)),
                     bindingVerified := true)
    {
      hide Emitters.Drop;
      var recipients := c.dropList;
      store := store.(migration := store.migration.(fundedBackfill := Some(scheduled)));
      var balanceBefore := At(emitter.history.dropMinted, c.self);
      if scheduled > 0 {
        recipients := recipients + [(c.self, scheduled)];
      }
      var minted := emitter.ExecuteDrop(c.self, recipients);
      if minted.Failure? {
        return Failure(minted.error);
      }
      var received := At(emitter.history.dropMinted, c.self) - balanceBefore;
      if received != expectedCandidateDelta {
        return Failure(InvalidBackfillFunding);
      }
      store := store.(bindingVerified := true);
      return Success(());
    }

    // manager.rs: distribution and gulp.

    method ExecuteDistribute(comet: Composition, now: nat) returns (r: Result<int>)
      modifies this`store, emitter`lastDistro, emitter`history
      ensures match Distribute(old(store), c, old(emitter.State()), comet, now)
              case Failure(x) => r == Failure(x)
              case Success((n, d, amount)) => r == Success(amount) && store == n && emitter.State() == d
    {
      hide PrepareBackfill, CheckpointBackfill, AdvanceOnly, DistributeActive, Activate, CheckedOngoing;
      if store.migration.activatedAt.None? {
        if emitter.backstop == c.self {
          var checkpoint := ExecuteActivate(now);
          if checkpoint.Failure? {
            return Failure(checkpoint.error);
          }
          var state := CheckedOngoing(store.ongoing);
          if state.Failure? {
            return Failure(state.error);
          }
          var advanced := AdvanceWithoutDistribution(state.value, checkpoint.value);
          if advanced.Failure? {
            return Failure(advanced.error);
          }
          return Success(0);
        }
        var prepared := ExecutePrepareBackfill(now);
        if prepared.Failure? {
          return Failure(prepared.error);
        }
        r := ExecuteCheckpointBackfill(now);
      } else {
        r := ExecuteDistributeActive(comet, now);
      }
    }

    method ExecuteDistributeActive(comet: Composition, now: nat) returns (r: Result<int>)
      modifies this`store, emitter`lastDistro, emitter`history
      ensures match DistributeActive(old(store), c, old(emitter.State()), comet, now)
              case Failure(x) => r == Failure(x)
              case Success((n, d, amount)) => r == Success(amount) && store == n && emitter.State() == d
    {
      hide CollectWeights, AllocateInto, Emitters.Distribute, CheckedOngoing;
      if emitter.backstop != c.self {
        return Failure(EmitterDidNotMigrate);
      }
      if store.zone == [] {
        return Failure(NoEligibleWeight);
      }
      var state := CheckedOngoing(store.ongoing);
      if state.Failure? {
        return Failure(state.error);
      }
      CheckedIsSame(store.ongoing);
      var weights := CollectZoneWeights(Some(comet));
      if weights.Failure? {
        return Failure(weights.error);
      }
      if state.value.lastDistribution.None? || c.self !in emitter.lastDistro {
        return Failure(Trap);
      }
      var lastDistribution := state.value.lastDistribution.value;
      var bindingVerified := store.bindingVerified;
      var emitterCheckpointBefore := emitter.lastDistro[c.self];
      var balanceBefore := At(emitter.history.minted, c.self);
      DistributedAt(emitter.State(), c.self, now);
      var emitted := emitter.ExecuteDistribute(c.self, now);
      if emitted.Failure? {
        return Failure(emitted.error);
      }
      if emitted.value < 0 {
        return Failure(InvalidOngoingBalance);
      }
      var checkpoint := emitter.lastDistro[c.self];
      if checkpoint < lastDistribution {
        return Failure(DistributionTooSoon);
      }
      var elapsed := checkpoint - lastDistribution;
      if elapsed < MIN_DISTRIBUTION_INTERVAL_SECONDS {
        return Failure(DistributionTooSoon);
      }
      if checkpoint < emitterCheckpointBefore || emitterCheckpointBefore < lastDistribution || checkpoint > now
         || emitted.value != (checkpoint - emitterCheckpointBefore) * SCALAR_7 {
        return Failure(InvalidOngoingBalance);
      }
      if !bindingVerified {
        var bindingDelta := At(emitter.history.minted, c.self) - balanceBefore;
        if emitted.value <= 0 || bindingDelta != emitted.value {
          return Failure(InvalidOngoingBalance);
        }
      }
      if !FitsI128(elapsed * SCALAR_7) {
        return Failure(Overflow);
      }
      var booked := AllocateAmount(state.value, elapsed * SCALAR_7, checkpoint, weights.value.0, weights.value.1);
      if booked.Failure? {
        return Failure(booked.error);
      }
      AllocationKeepsBinding(old(store), elapsed * SCALAR_7, checkpoint, weights.value.0, weights.value.1);
      if !bindingVerified {
        store := store.(bindingVerified := true);
      }
      return Success(elapsed * SCALAR_7);
    }

    method SetTokenEmissionEps(pool: Address, asset: Asset, pending: int, now: nat) returns (r: Result<()>)
      modifies this`store
      ensures match SetTokenRate(old(store), c, pool, asset, pending, now)
              case Failure(x) => r == Failure(x)
              case Success(n) => r.Success? && store == n
    {
      hide Tiers.SetEmissionRate, EmissionTier;
      if pending == 0 {
        return Success(());
      }
      var key := EmissionTier(c, pool, asset);
      if key.Failure? {
        return Failure(key.error);
      }
      if key.value.None? {
        return Failure(InvalidEmissionValue);
      }
      r := SetBackstopEmissionEps(key.value.value, pending, now);
    }

    method ExecuteGulp(pool: Address, grant: Grant, now: nat) returns (r: Result<(int, int)>)
      modifies this`store
      ensures match Gulp(old(store), c, pool, grant, now)
              case Failure(x) => r == Failure(x)
              case Success((n, backstopAmount, poolAmount)) => r == Success((backstopAmount, poolAmount)) && store == n
    {
      hide SetTokenRate, NoEmissions, PoolOf, ValidPoolEmissions;
      if pool !in c.config {
        return Failure(NotPool);
      }
      if GulpedRecently(store, pool, now) {
        return Failure(PoolEmissionGulpTooSoon);
      }
      var checked := CheckedPool(PoolOf(store.pools, pool));
      if checked.Failure? {
        return Failure(checked.error);
      }
      var poolState := checked.value;
      if !FitsI128(poolState.pendingUsdc + poolState.pendingXlm) {
        return Failure(Overflow);
      }
      var backstopAmount := poolState.pendingUsdc + poolState.pendingXlm;
      var poolAmount := poolState.accruedPool;
      if backstopAmount == 0 && poolAmount == 0 {
        return Success((0, 0));
      }
      var usdc := SetTokenEmissionEps(pool, BlntUsdc, poolState.pendingUsdc, now);
      if usdc.Failure? {
        return Failure(usdc.error);
      }
      var xlm := SetTokenEmissionEps(pool, BlntXlm, poolState.pendingXlm, now);
      if xlm.Failure? {
        return Failure(xlm.error);
      }
      poolState := poolState.(pendingUsdc := 0, pendingXlm := 0, accruedPool := 0);
      if poolAmount > 0 {
        if !FitsI128(grant.allowance + poolAmount) || !FitsU32(grant.sequence + LEDGER_BUMP_USER) {
          return Failure(Overflow);
        }
        store := store.(approvals := store.approvals[
          pool := Approval(grant.allowance + poolAmount, grant.sequence + LEDGER_BUMP_USER)]);
      }
      var stored := CheckedPool(poolState);
      if stored.Failure? {
        return Failure(stored.error);
      }
      store := store.(pools := store.pools[pool := stored.value], gulps := store.gulps[pool := now],
                      granted := store.granted + poolAmount);
      return Success((backstopAmount, poolAmount));
    }

    // claim.rs

    method ClaimPools(tier: nat, asset: Asset, user: Address, pools: seq<Address>, now: nat)
      returns (r: Result<(seq<int>, int)>)
      modifies this`store
      ensures match ClaimFrom(c, emitter.State(), tier, asset, user, pools, 0, now, Claimed(old(store), [], 0))
              case Failure(x) => r == Failure(x)
              case Success(end) => r == Success((end.claims, end.blnt)) && store == end.book && |end.claims| == |pools|
    {
      hide Tiers.ClaimAccrued, PrepareWeight;
      var e := emitter.State();
      var claims: seq<int> := [];
      var blntAmount := 0;
      for i := 0 to |pools|
        invariant |claims| == i
        invariant ClaimFrom(c, e, tier, asset, user, pools, 0, now, Claimed(old(store), [], 0))
               == ClaimFrom(c, e, tier, asset, user, pools, i, now, Claimed(store, claims, blntAmount))
      {
        var key := TierKey(pools[i], tier);
        ghost var before := Claimed(store, claims, blntAmount);
        if pools[i] in pools[..i] {
          return Failure(BadRequest);
        }
        var poolClaim := ClaimPool(key, asset, user, now);
        if poolClaim.Failure? {
          ClaimStops(c, e, key, asset, user, now, before);
          return Failure(poolClaim.error);
        }
        claims := claims + [poolClaim.value];
        if !FitsI128(blntAmount + poolClaim.value) {
          return Failure(Overflow);
        }
        blntAmount := blntAmount + poolClaim.value;
        assert ClaimOne(c, e, key, asset, user, now, before) == Success(Claimed(store, claims, blntAmount));
      }
      return Success((claims, blntAmount));
    }

    /** One pool's turn: its checks, its gate, its claim. */
    method ClaimPool(key: TierKey, asset: Asset, user: Address, now: nat) returns (r: Result<int>)
      modifies this`store
      ensures match ClaimTurn(old(store), c, emitter.State(), key, asset, user, now)
              case Failure(x) => r == Failure(x)
              case Success((t, claim)) =>
                && r == Success(claim)
                && store == Put(old(store), key, t)
    {
      hide Tiers.ClaimAccrued;
      if key.pool !in c.config {
        return Failure(NotPool);
      }
      var own := TierAsset(c, key);
      if own.Failure? {
        return Failure(own.error);
      }
      if !IsLp(own.value) || own.value != asset {
        return Failure(InvalidEmissionValue);
      }
      var eligible := PreparePoolWeightChange(key);
      if eligible.Failure? {
        return Failure(eligible.error);
      }
      r := ClaimEmissions(key, user, now);
    }

    method CreditPools(tier: nat, user: Address, pools: seq<Address>, claims: seq<int>, lpAmount: int, blntAmount: int)
      returns (r: Result<()>)
      requires |pools| == |claims|
      modifies this`store
      ensures match CreditFrom(old(store), c, tier, user, pools, claims, 0, lpAmount, blntAmount)
              case Failure(x) => r == Failure(x)
              case Success(n) => r.Success? && store == n
    {
      hide ProportionalFloor, Tiers.CreditShares, Refresh;
      for i := 0 to |pools|
        invariant CreditFrom(old(store), c, tier, user, pools, claims, 0, lpAmount, blntAmount)
               == CreditFrom(store, c, tier, user, pools, claims, i, lpAmount, blntAmount)
      {
        var poolLpAmount := ProportionalFloor(lpAmount, claims[i], blntAmount);
        if poolLpAmount.Failure? {
          return Failure(poolLpAmount.error);
        }
        if poolLpAmount.value == 0 {
          continue;
        }
        var key := TierKey(pools[i], tier);
        var shares := CreditTierShares(key, user, poolLpAmount.value);
        if shares.Failure? {
          return Failure(shares.error);
        }
        var finished := FinishPoolWeightChange(pools[i], true);
        if finished.Failure? {
          return Failure(finished.error);
        }
      }
      return Success(());
    }

    method ExecuteClaim(tier: nat, user: Address, pools: seq<Address>, minLp: int, trade: Exchange, now: nat)
      returns (r: Result<int>)
      modifies this`store
      ensures match Claim(old(store), c, emitter.State(), tier, user, pools, minLp, trade, now)
              case Failure(x) => r == Failure(x)
              case Success((n, bought)) => r == Success(bought) && store == n
    {
      hide ClaimFrom, CreditFrom, StoreOngoing, CheckedOngoing, TierAsset, Compound;
      var required := RequireBackfillFunded();
      if required.Failure? {
        return Failure(required.error);
      }
      if pools == [] {
        return Failure(BadRequest);
      }
      if minLp < 0 {
        return Failure(NegativeAmount);
      }
      var lpToken := TierAsset(c, TierKey(pools[0], tier));
      if lpToken.Failure? {
        return Failure(lpToken.error);
      }
      if !IsLp(lpToken.value) {
        return Failure(InvalidEmissionValue);
      }
      ClaimForm(store, c, emitter.State(), tier, user, pools, minLp, trade, now);
      var claimed := ClaimPools(tier, lpToken.value, user, pools, now);
      if claimed.Failure? {
        return Failure(claimed.error);
      }
      r := CompoundClaim(tier, lpToken.value, user, pools, claimed.value.0, claimed.value.1, minLp, trade);
    }

    method RequireBackfillFunded() returns (r: Result<()>)
      ensures r == if !IsActive(store) then Failure(MigrationNotActive)
                   else if store.migration.scheduledBackfill > 0
                           && store.migration.fundedBackfill != Some(store.migration.scheduledBackfill)
                              then Failure(BackfillNotFunded)
                   else Success(())
    {
      if store.migration.activatedAt.None? {
        return Failure(MigrationNotActive);
      }
      var scheduled := store.migration.scheduledBackfill;
      if scheduled > 0 && store.migration.fundedBackfill != Some(scheduled) {
        return Failure(BackfillNotFunded);
      }
      return Success(());
    }

    /** Book the batch, take delivery of the LP it buys, and credit it pool by pool. */
    method CompoundClaim(tier: nat, asset: Asset, user: Address, pools: seq<Address>, claims: seq<int>,
                         blntAmount: int, minLp: int, trade: Exchange)
      returns (r: Result<int>)
      requires |claims| == |pools|
      modifies this`store
      ensures match Compound(old(store), c, tier, asset, user, pools, claims, blntAmount, minLp, trade)
              case Failure(x) => r == Failure(x)
              case Success((n, bought)) => r == Success(bought) && store == n
    {
      hide CreditFrom, BookedClaim;
      if blntAmount == 0 {
        return Success(0);
      }
      var booked := BookClaim(blntAmount);
      if booked.Failure? {
        return Failure(booked.error);
      }
      if !FitsU32(ApprovalLedger(trade.sequence)) {
        return Failure(Overflow);
      }
      var lp := trade.minted;
      if lp < minLp {
        return Failure(Trap);
      }
      if trade.spent != blntAmount || trade.received != lp || lp <= 0 {
        return Failure(BalanceError);
      }
      store := store.(held := store.held[asset := HeldOf(store, asset) + lp]);
      var credited := CreditPools(tier, user, pools, claims, lp, blntAmount);
      if credited.Failure? {
        return Failure(credited.error);
      }
      return Success(lp);
    }

    method BookClaim(blntAmount: int) returns (r: Result<()>)
      modifies this`store
      ensures match BookedClaim(old(store).ongoing, blntAmount)
              case Failure(x) => r == Failure(x)
              case Success(o) => r.Success? && store == old(store).(ongoing := o)
    {
      hide StoreOngoing, CheckedOngoing;
      var state := CheckedOngoing(store.ongoing);
      if state.Failure? {
        return Failure(state.error);
      }
      var ongoing := state.value;
      if !FitsI128(ongoing.backstopClaimed + blntAmount) {
        return Failure(Overflow);
      }
      ongoing := ongoing.(backstopClaimed := ongoing.backstopClaimed + blntAmount);
      var stored := StoreOngoing(ongoing);
      if stored.Failure? {
        return Failure(stored.error);
      }
      store := store.(ongoing := stored.value);
      return Success(());
    }

    // The entry points.

    /** Run one call; when it aborts, storage may be left half written. */
    method Execute(call: BackstopCall, now: nat) returns (ok: bool)
      modifies this`store, emitter`lastDistro, emitter`dropped, emitter`history
      requires call.DoDistribute? ==> Supplied(store, call.comet)
      ensures match Next(System(now, old(emitter.State()), old(store)), c, Call(call))
              case Failure(_) => !ok
              case Success(s) => ok && s == System(now, emitter.State(), store)
    {
      hide Backstops.Deposit, QueueWithdrawal, DequeueWithdrawal, WithdrawMatured, ForceQueue, ForceWithdraw, Draw,
           Donate,
           AddReward, RemoveReward, Distribute, Gulp, Claim, Drop;
      match call
      case DoDeposit(key, user, amount) =>
        var r := ExecuteDeposit(key, user, amount, now);
        ok := r.Success?;
      case DoQueue(key, user, amount) =>
        var r := ExecuteQueueWithdrawal(key, user, amount, now);
        ok := r.Success?;
      case DoDequeue(key, user, amount) =>
        var r := ExecuteDequeueWithdrawal(key, user, amount, now);
        ok := r.Success?;
      case DoWithdraw(key, user, amount, liabilities) =>
        var r := ExecuteWithdraw(key, user, amount, liabilities, now);
        ok := r.Success?;
      case DoForceQueue(key, user) =>
        var r := ExecuteForceQueueWithdrawal(key, user, now);
        ok := r.Success?;
      case DoForceWithdraw(key, user, liabilities) =>
        var r := ExecuteForceWithdrawal(key, user, liabilities, now);
        ok := r.Success?;
      case DoDraw(key, amount) =>
        var r := ExecuteDraw(key, amount);
        ok := r.Success?;
      case DoDonate(key, from, amount) =>
        var r := ExecuteDonate(key, from, amount);
        ok := r.Success?;
      case DoAddReward(pool, replaced, comet) =>
        var r := AddToRewardZone(pool, replaced, comet, now);
        ok := r.Success?;
      case DoRemoveReward(pool, comet) =>
        var r := RemoveFromRewardZone(pool, comet, now);
        ok := r.Success?;
      case DoDistribute(comet) =>
        var r := ExecuteDistribute(comet, now);
        ok := r.Success?;
      case DoGulp(pool, grant) =>
        var r := ExecuteGulp(pool, grant, now);
        ok := r.Success?;
      case DoClaim(tier, user, pools, minLp, trade) =>
        var r := ExecuteClaim(tier, user, pools, minLp, trade, now);
        ok := r.Success?;
      case DoDrop =>
        var r := ExecuteDrop();
        ok := r.Success?;
    }

    /** One invocation: the host restores both contracts when it aborts, so that each call is exactly one
        step of the state machine. LP supplies are never below the contract's own balances. */
    method Invoke(call: BackstopCall, now: nat) returns (ok: bool)
      modifies this`store, emitter`lastDistro, emitter`dropped, emitter`history
      requires call.DoDistribute? ==> Supplied(store, call.comet)
      ensures var s := System(now, old(emitter.State()), old(store));
              System(now, emitter.State(), store) == Apply(s, c, Call(call))
                && (ok <==> Next(s, c, Call(call)).Success?)
      ensures SystemInv(System(now, old(emitter.State()), old(store)), c) ==>
              SystemInv(System(now, emitter.State(), store), c)
    {
      hide Next, SystemInv;
      ghost var s := System(now, emitter.State(), store);
      if SystemInv(s, c) {
        StepKeeps(s, c, Call(call));
      }
      var saved := store;
      var lastDistro, dropped, history := emitter.lastDistro, emitter.dropped, emitter.history;
      ok := Execute(call, now);
      if !ok {
        store := saved;
        emitter.Revert(lastDistro, dropped, history);
      }
    }
  }

  function ClaimTurn(b: Book, c: Deployment, e: EmitterState, key: TierKey, asset: Asset, user: Address,
                     now: nat): Result<(Tier, int)> {
    if key.pool !in c.config then Failure(NotPool) else
    var own :- TierAsset(c, key);
    :- Require(IsLp(own) && own == asset, InvalidEmissionValue);
    :- Require(GateOpen(b, c, e), MigrationNotActive);
    Tiers.ClaimAccrued(TierOf(b, key), user, now)
  }

  lemma ClaimStops(c: Deployment, e: EmitterState, key: TierKey, asset: Asset, user: Address, now: nat, acc: Claimed)
    requires ClaimTurn(acc.book, c, e, key, asset, user, now).Failure?
    ensures ClaimOne(c, e, key, asset, user, now, acc)
            == Failure(ClaimTurn(acc.book, c, e, key, asset, user, now).error)
  {
    hide Tiers.ClaimAccrued;
  }

  /** A claim is its checks, the claiming loop, then the compounding. */
  lemma ClaimForm(b: Book, c: Deployment, e: EmitterState, tier: nat, user: Address, pools: seq<Address>, minLp: int,
                  trade: Exchange, now: nat)
    requires IsActive(b) && pools != [] && minLp >= 0 && TierAsset(c, TierKey(pools[0], tier)).Success?
             && (b.migration.scheduledBackfill <= 0
                || b.migration.fundedBackfill == Some(b.migration.scheduledBackfill))
    requires IsLp(TierAsset(c, TierKey(pools[0], tier)).value)
    ensures var asset := TierAsset(c, TierKey(pools[0], tier)).value;
            match ClaimFrom(c, e, tier, asset, user, pools, 0, now, Claimed(b, [], 0))
            case Failure(x) => Claim(b, c, e, tier, user, pools, minLp, trade, now) == Failure(x)
            case Success(end) =>
              && |end.claims| == |pools|
              && Claim(b, c, e, tier, user, pools, minLp, trade, now)
                 == Compound(end.book, c, tier, asset, user, pools, end.claims, end.blnt, minLp, trade)
  {
    hide ClaimFrom, CreditFrom, StoreOngoing, CheckedOngoing, TierAsset;
    ClaimedCounts(c, e, tier, TierAsset(c, TierKey(pools[0], tier)).value, user, pools, 0, now, Claimed(b, [], 0));
  }

  function Received(before: EmitterState, after: EmitterState, a: Address): int {
    At(after.history.dropMinted, a) - At(before.history.dropMinted, a)
  }

  lemma GateNeedsTier(b: Book, c: Deployment, e: EmitterState, key: TierKey)
    ensures PrepareWeight(b, c, e, key).Success? ==>
              TierAsset(c, key).Success? && PrepareWeight(b, c, e, key).value == IsLp(TierAsset(c, key).value)
  {
  }

  lemma CheckedIsSame(o: Ongoing)
    requires CheckedOngoing(o).Success?
    ensures CheckedOngoing(o) == Success(o)
  {
  }

  lemma AttestationKeepsEpoch(m: Migration, queued: Emitters.Swap, now: nat)
    ensures AttestQueue(m, queued, now).Success? ==> AttestQueue(m, queued, now).value.epochStart == m.epochStart
  {
  }

  lemma DistributedAt(e: EmitterState, recipient: Address, now: nat)
    ensures Emitters.Distribute(e, recipient, now).Success? ==>
              var (d, amount) := Emitters.Distribute(e, recipient, now).value;
              recipient in d.lastDistro && d.lastDistro[recipient] == now
  {
  }

  lemma AllocationKeepsBinding(b: Book, amount: int, checkpoint: nat, weights: seq<Weight>, eligible: int)
    requires AllocateInto(b, amount, checkpoint, weights, eligible).Success?
    ensures AllocateInto(b, amount, checkpoint, weights, eligible).value.bindingVerified == b.bindingVerified
  {
    hide AllocateDistribution;
  }

  lemma AllocationKeepsMigration(b: Book, amount: int, checkpoint: nat, weights: seq<Weight>, eligible: int)
    requires AllocateInto(b, amount, checkpoint, weights, eligible).Success?
    ensures AllocateInto(b, amount, checkpoint, weights, eligible).value.migration == b.migration
  {
    hide AllocateDistribution;
  }
}
