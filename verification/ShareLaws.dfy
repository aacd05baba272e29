/** Every share operation of the contract keeps the contract-wide invariant, moves no BLNT, and fails
    only for the listed reasons: the pool-side guards behind them are unreachable. */
module ShareLaws {
  import opened Numbers
  import opened Sums
  import Tiers
  import opened TierLaws
  import opened Backstops
  import opened BookLaws
  import opened UserBalances
  import PoolBalances

  type Tier = Tiers.Tier

  /** Nothing but balances, cached weights and custody differs. */
  predicate SharesOnly(b: Book, n: Book) {
    && n.ongoing == b.ongoing && n.zone == b.zone && n.zoneCheckpoint == b.zoneCheckpoint
    && n.distributionStarted == b.distributionStarted && n.gulps == b.gulps
    && n.bindingVerified == b.bindingVerified && n.migration == b.migration && n.granted == b.granted
    && n.approvals == b.approvals
  }

  function PoolRecordOf(b: Book, key: TierKey): PoolBalances.PoolRecord {
    TierOf(b, key).pool
  }

  function UserOf(b: Book, key: TierKey, user: Address): UserRecord {
    Tiers.DepositorOf(TierOf(b, key), user).balance
  }

  /** Only one tier moved, and it lost no value per share. */
  ghost predicate NoCheaper(b: Book, n: Book, key: TierKey) {
    && (forall k: TierKey :: k != key ==> TierOf(n, k) == TierOf(b, k))
    && (0 < PoolRecordOf(b, key).shares ==> PoolBalances.PriceHolds(PoolRecordOf(b, key), PoolRecordOf(n, key)))
  }

  /** The contract's balance of the tier's token moved by `received`; no other balance moved. */
  ghost predicate Moved(b: Book, n: Book, c: Deployment, key: TierKey, received: int) {
    && Configured(c, key)
    && forall asset: Asset ::
         HeldOf(n, asset) == HeldOf(b, asset) + if asset == TierAsset(c, key).value then received else 0
  }

  /** Nobody else's balance in the tier changed. */
  ghost predicate OthersSame(b: Book, n: Book, key: TierKey, user: Address) {
    forall u: Address :: u != user ==> UserOf(n, key, u) == UserOf(b, key, u)
  }

  /** The gate in front of every balance change: unknown pool, unknown tier, or an earning tier between
      the emitter switching here and activation. */
  lemma GateExact(b: Book, c: Deployment, e: EmitterState, key: TierKey)
    ensures var gate := PrepareWeight(b, c, e, key);
            && (gate.Success? <==> Configured(c, key) && (Earns(c, key) ==> GateOpen(b, c, e)))
            && (gate.Success? ==> gate.value == Earns(c, key))
            && (gate.Failure? ==> gate.error in {NotPool, BadRequest, MigrationNotActive})
  {
  }

  lemma BookTier(b: Book, c: Deployment, key: TierKey, now: nat)
    requires BookInv(b, c, now)
    ensures TierInv(TierOf(b, key), now, Earns(c, key))
  {
    hide TierInv, PoolsInv, GlobalLedger, CacheInv, ZoneInv, Custody, EntryCaps;
    TierOfInv(b, c, key, now);
  }

  lemma KeptIsReplaceable(b: Book, c: Deployment, key: TierKey, s: Tier, received: int, user: Address, now: nat)
    requires Kept(TierOf(b, key), s, user, now, Earns(c, key))
    requires s.pool.tokens == TierOf(b, key).pool.tokens + received
    requires Entries(s, user) <= Entries(TierOf(b, key), user)
             || (Configured(c, key)
                 && EntriesFrom(b, c, user, key.pool, 0) + Entries(s, user) - Entries(TierOf(b, key), user)
                    <= MAX_Q4W_SIZE)
    ensures Replaceable(b, c, key, s, received, user, now)
  {
    hide TierInv, EntriesFrom;
  }

  /** Storing what a tier operation left behind. */
  lemma CommitShares(b: Book, c: Deployment, key: TierKey, s: Tier, received: int, user: Address, now: nat)
    requires BookInv(b, c, now) && Configured(c, key) && Kept(TierOf(b, key), s, user, now, Earns(c, key))
    requires s.pool.tokens == TierOf(b, key).pool.tokens + received
    requires Entries(s, user) <= Entries(TierOf(b, key), user)
             || EntriesFrom(b, c, user, key.pool, 0) + Entries(s, user) - Entries(TierOf(b, key), user) <= MAX_Q4W_SIZE
    ensures var r := Commit(b, c, key, s, received);
            if r.Failure? then r.error == Trap && Earns(c, key) && !Quotable(s.pool)
            else
              && (Earns(c, key) ==> Quotable(s.pool))
              && BookInv(r.value, c, now) && SharesOnly(b, r.value) && r.value.tiers == b.tiers[key := s]
              && Moved(b, r.value, c, key, received) && OthersSame(b, r.value, key, user)
  {
    hide BookInv, Kept, Commit, EntriesFrom, Entries, Replaceable, TierAsset, Quotable;
    KeptIsReplaceable(b, c, key, s, received, user, now);
    CommitKeeps(b, c, key, s, received, user, now);
    OthersKept(TierOf(b, key), s, user, now, Earns(c, key));
  }

  lemma OthersKept(t: Tier, s: Tier, user: Address, now: nat, eligible: bool)
    requires Kept(t, s, user, now, eligible)
    ensures forall u: Address :: u != user ==> Tiers.DepositorOf(s, u).balance == Tiers.DepositorOf(t, u).balance
  {
    hide TierInv;
  }

  lemma DepositKeepsBook(b: Book, c: Deployment, e: EmitterState, key: TierKey, user: Address, amount: int, now: nat)
    requires BookInv(b, c, now)
    ensures var r := Deposit(b, c, e, key, user, amount, now);
            if r.Failure? then
              r.error in {NegativeAmount, BadRequest, NotPool, MigrationNotActive, Overflow, Trap,
                InvalidShareMintAmount}
            else
              var (n, minted) := r.value;
              && BookInv(n, c, now) && SharesOnly(b, n) && NoCheaper(b, n, key) && 0 < minted
              && Moved(b, n, c, key, amount) && OthersSame(b, n, key, user)
              && PoolBalances.ConvertToShares(PoolRecordOf(b, key), amount) == Success(minted)
              && PoolRecordOf(n, key) == PoolBalances.PoolRecord(PoolRecordOf(b, key).shares + minted,
                 PoolRecordOf(b, key).tokens + amount,
                                                                 PoolRecordOf(b, key).q4w)
              && UserOf(n, key, user) == UserOf(b, key, user).(shares := UserOf(b, key, user).shares + minted)
  {
    hide BookInv, TierInv, Kept, Commit, PrepareWeight, PoolBalances.PriceHolds, Tiers.CreditShares,
         Tiers.CheckpointIf, Earns, Configured;
    var gate, t := PrepareWeight(b, c, e, key), TierOf(b, key);
    GateExact(b, c, e, key);
    BookTier(b, c, key, now);
    if 0 <= amount {
      DepositKeeps(t, gate, user, amount, now, Earns(c, key));
      var r := Tiers.Deposit(t, gate, user, amount, now);
      if r.Success? {
        CommitShares(b, c, key, r.value.0, amount, user, now);
      }
    }
  }

  /** Queueing also respects the 20-entry cap over the pool's tiers. */
  lemma QueueKeepsBook(b: Book, c: Deployment, e: EmitterState, key: TierKey, user: Address, amount: int, now: nat)
    requires BookInv(b, c, now)
    ensures var r := QueueWithdrawal(b, c, e, key, user, amount, now);
            if r.Failure? then
              || r.error in {NegativeAmount, BadRequest, NotPool, MigrationNotActive, Overflow, Trap, TooManyQ4WEntries}
              || (r.error == BalanceError && UserOf(b, key, user).shares < amount)
            else
              && BookInv(r.value, c, now) && SharesOnly(b, r.value) && NoCheaper(b, r.value, key)
              && Moved(b, r.value, c, key, 0) && OthersSame(b, r.value, key, user)
              && PoolRecordOf(r.value, key) == PoolRecordOf(b, key).(q4w := PoolRecordOf(b, key).q4w + amount)
              && QueueShares(UserOf(b, key, user), amount, now) == Success(UserOf(r.value, key, user))
  {
    hide BookInv, TierInv, Kept, Commit, PrepareWeight, Tiers.CheckpointIf, Earns, Configured, EntriesFrom;
    var gate, t := PrepareWeight(b, c, e, key), TierOf(b, key);
    GateExact(b, c, e, key);
    BookTier(b, c, key, now);
    if 0 <= amount {
      QueueKeeps(t, gate, user, amount, now, Earns(c, key));
      var r := Tiers.Queue(t, gate, user, amount, now);
      if r.Success? && key.pool in c.config && EntriesFrom(b, c, user, key.pool, 0) < MAX_Q4W_SIZE {
        CommitShares(b, c, key, r.value, 0, user, now);
      }
    }
  }

  /** The pool-side `InsufficientFunds` guard of a dequeue is unreachable. */
  lemma DequeueKeepsBook(b: Book, c: Deployment, e: EmitterState, key: TierKey, user: Address, amount: int, now: nat)
    requires BookInv(b, c, now)
    ensures var r := DequeueWithdrawal(b, c, e, key, user, amount, now);
            if r.Failure? then
              || r.error in {NegativeAmount, BadRequest, NotPool, MigrationNotActive, Overflow, Trap}
              || (r.error == BalanceError && Queued(UserOf(b, key, user).q4w) < amount)
            else
              && BookInv(r.value, c, now) && SharesOnly(b, r.value) && NoCheaper(b, r.value, key)
              && Moved(b, r.value, c, key, 0) && OthersSame(b, r.value, key, user)
              && PoolRecordOf(r.value, key) == PoolRecordOf(b, key).(q4w := PoolRecordOf(b, key).q4w - amount)
              && DequeueQueue(UserOf(b, key, user).q4w, amount) == Success(UserOf(r.value, key, user).q4w)
              && UserOf(r.value, key, user).shares == UserOf(b, key, user).shares + amount
  {
    hide BookInv, TierInv, Kept, Commit, PrepareWeight, Tiers.CheckpointIf, Earns, Configured, EntriesFrom,
         DequeueQueue;
    var gate, t := PrepareWeight(b, c, e, key), TierOf(b, key);
    GateExact(b, c, e, key);
    BookTier(b, c, key, now);
    if 0 <= amount {
      DequeueKeeps(t, gate, user, amount, now, Earns(c, key));
      var r := Tiers.Dequeue(t, gate, user, amount, now);
      if r.Success? {
        CommitShares(b, c, key, r.value, 0, user, now);
      }
    }
  }

  /** Every part of the pool-side `InsufficientFunds` guard of a withdrawal is unreachable. */
  lemma WithdrawKeepsBook(b: Book, c: Deployment, e: EmitterState, key: TierKey, user: Address, amount: int,
                          liabilities: bool, now: nat)
    requires BookInv(b, c, now)
    ensures var r := WithdrawMatured(b, c, e, key, user, amount, liabilities, now);
            if r.Failure? then
              || r.error in {BadRequest, NotPool, MigrationNotActive}
              || (r.error == NegativeAmount && amount < 0) || (r.error == BadDebtExists && liabilities)
              || r.error in {Overflow, Trap}
              || (r.error == InvalidTokenWithdrawAmount && WorthLess(PoolRecordOf(b, key), amount))
              || (r.error in {BalanceError, NotExpired}
                 && WithdrawQueue(UserOf(b, key, user).q4w, amount, now) == Failure(r.error))
            else
              var (n, returned) := r.value;
              && BookInv(n, c, now) && SharesOnly(b, n) && NoCheaper(b, n, key)
              && Moved(b, n, c, key, -returned) && OthersSame(b, n, key, user)
              && PoolBalances.ConvertToTokens(PoolRecordOf(b, key), amount) == Success(returned)
              && 0 <= returned <= PoolRecordOf(b, key).tokens
              && PoolRecordOf(n, key).tokens == PoolRecordOf(b, key).tokens - returned
              && PoolRecordOf(n, key).shares == PoolRecordOf(b, key).shares - amount
              && PoolRecordOf(n, key).q4w == PoolRecordOf(b, key).q4w - amount
              && WithdrawQueue(UserOf(b, key, user).q4w, amount, now) == Success(UserOf(n, key, user).q4w)
              && UserOf(n, key, user).shares == UserOf(b, key, user).shares
  {
    hide BookInv, TierInv, Kept, Commit, PrepareWeight, Tiers.CheckpointIf, Earns, Configured, EntriesFrom,
         WithdrawQueue,
         PoolBalances.PriceHolds, PoolBalances.ConvertToTokens;
    var gate, t := PrepareWeight(b, c, e, key), TierOf(b, key);
    GateExact(b, c, e, key);
    BookTier(b, c, key, now);
    if 0 <= amount {
      WithdrawKeeps(t, gate, user, amount, now, Earns(c, key));
      var r := Tiers.Withdraw(t, gate, user, amount, now);
      if r.Success? {
        CommitShares(b, c, key, r.value.0, -r.value.1, user, now);
      }
    }
  }

  /** Queueing everything active never lacks a balance and leaves none active. */
  lemma ForceQueueKeepsBook(b: Book, c: Deployment, e: EmitterState, key: TierKey, user: Address, now: nat)
    requires BookInv(b, c, now)
    ensures var r := ForceQueue(b, c, e, key, user, now);
            if r.Failure? then
              r.error in {NegativeAmount, BadRequest, NotPool, MigrationNotActive, Overflow, Trap, TooManyQ4WEntries}
            else
              && BookInv(r.value, c, now) && SharesOnly(b, r.value) && NoCheaper(b, r.value, key)
              && Moved(b, r.value, c, key, 0) && OthersSame(b, r.value, key, user)
              && UserOf(r.value, key, user).shares == 0
              && QueueShares(UserOf(b, key, user), UserOf(b, key, user).shares, now)
                 == Success(UserOf(r.value, key, user))
  {
    hide BookInv, TierInv, QueueWithdrawal, NoCheaper;
    QueueKeepsBook(b, c, e, key, user, UserOf(b, key, user).shares, now);
  }

  lemma {:induction false} MaturedSumExact(q: seq<Q4W>, now: nat, sum: int)
    ensures match MaturedSum(q, now, sum)
            case Failure(x) => x == Overflow
            case Success(total) => total == sum + MaturedPrefix(q, now)
    decreases |q|
  {
    if q != [] && q[0].exp <= now {
      MaturedSumExact(q[1..], now, sum + q[0].amount);
    }
  }

  lemma UserQueueFacts(b: Book, c: Deployment, key: TierKey, user: Address, now: nat)
    requires BookInv(b, c, now)
    ensures var q := UserOf(b, key, user).q4w;
            && Amounts(q) && Sorted(q) && ExpiresBy(q, now + Q4W_LOCK_TIME)
               && 0 <= MaturedPrefix(q, now) == Matured(q, now)
            && 0 <= UserOf(b, key, user).shares
  {
    hide BookInv, TierInv, Matured, MaturedPrefix, Amounts, Sorted;
    BookTier(b, c, key, now);
    UserWithinPool(TierOf(b, key), user, now, Earns(c, key));
    PrefixIsMatured(UserOf(b, key, user).q4w, now);
    MaturedBounds(UserOf(b, key, user).q4w, now);
  }

  /** A forced withdrawal takes every matured share, is refused as `NotExpired` exactly when there is
      none, and its queue step never fails. */
  lemma ForceWithdrawKeepsBook(b: Book, c: Deployment, e: EmitterState, key: TierKey, user: Address,
                               liabilities: bool, now: nat)
    requires BookInv(b, c, now)
    ensures var r := ForceWithdraw(b, c, e, key, user, liabilities, now);
            if r.Failure? then
              || (r.error == NotExpired && Matured(UserOf(b, key, user).q4w, now) == 0)
              || (r.error == BadDebtExists && liabilities)
              || r.error in {BadRequest, NotPool, MigrationNotActive, Overflow, Trap}
              || (r.error == InvalidTokenWithdrawAmount
                  && WorthLess(PoolRecordOf(b, key), Matured(UserOf(b, key, user).q4w, now)))
            else
              var (n, returned) := r.value;
              && BookInv(n, c, now) && SharesOnly(b, n) && NoCheaper(b, n, key)
              && Moved(b, n, c, key, -returned) && OthersSame(b, n, key, user)
              && 0 < Matured(UserOf(b, key, user).q4w, now)
              && PoolRecordOf(n, key).shares == PoolRecordOf(b, key).shares - Matured(UserOf(b, key, user).q4w, now)
              && Matured(UserOf(n, key, user).q4w, now) == 0
              && WithdrawQueue(UserOf(b, key, user).q4w, Matured(UserOf(b, key, user).q4w, now), now)
                 == Success(UserOf(n, key, user).q4w)
  {
    hide BookInv, TierInv, WithdrawMatured, NoCheaper, WithdrawQueue, Matured, MaturedPrefix, MaturedSum, SharesOnly;
    var q := UserOf(b, key, user).q4w;
    UserQueueFacts(b, c, key, user, now);
    MaturedSumExact(q, now, 0);
    if MaturedSum(q, now, 0).Success? && 0 < MaturedPrefix(q, now) {
      ForcedWithdrawalComplete(q, now);
      WithdrawKeepsBook(b, c, e, key, user, Matured(q, now), liabilities, now);
    }
  }

  lemma SameDepositorsReplaceable(b: Book, c: Deployment, key: TierKey, s: Tier, received: int, now: nat)
    requires TierInv(s, now, Earns(c, key)) && s.users == TierOf(b, key).users
    requires s.funded == TierOf(b, key).funded && s.claimed == TierOf(b, key).claimed
    requires s.pool.tokens == TierOf(b, key).pool.tokens + received
    ensures Replaceable(b, c, key, s, received, c.self, now)
  {
    hide TierInv;
  }

  /** Storing a tier in which only the tokens changed. */
  lemma CommitTokens(b: Book, c: Deployment, key: TierKey, received: int, now: nat)
    requires BookInv(b, c, now) && Configured(c, key)
    requires var t := TierOf(b, key);
             TierInv(t.(pool := t.pool.(tokens := t.pool.tokens + received)), now, Earns(c, key))
    ensures var t := TierOf(b, key);
            var s := t.(pool := t.pool.(tokens := t.pool.tokens + received));
            var r := Commit(b, c, key, s, received);
            if r.Failure? then r.error == Trap && Earns(c, key) && !Quotable(s.pool)
            else
              && (Earns(c, key) ==> Quotable(s.pool))
              && BookInv(r.value, c, now) && SharesOnly(b, r.value) && r.value.tiers == b.tiers[key := s]
              && Moved(b, r.value, c, key, received)
  {
    hide BookInv, TierInv, Commit, Replaceable, Quotable, TierAsset;
    var t := TierOf(b, key);
    var s := t.(pool := t.pool.(tokens := t.pool.tokens + received));
    SameDepositorsReplaceable(b, c, key, s, received, now);
    CommitKeeps(b, c, key, s, received, c.self, now);
  }

  /** A draw is the one operation that lowers the price; it can take no more than the tier holds. */
  lemma DrawKeepsBook(b: Book, c: Deployment, e: EmitterState, key: TierKey, amount: int, now: nat)
    requires BookInv(b, c, now)
    ensures var r := Draw(b, c, e, key, amount);
            if r.Failure? then
              || r.error in {NegativeAmount, NotPool, BadRequest, MigrationNotActive, Trap}
              || (r.error == InsufficientFunds && amount > PoolRecordOf(b, key).tokens)
            else
              && BookInv(r.value, c, now) && SharesOnly(b, r.value)
              && (amount > 0 ==> Moved(b, r.value, c, key, -amount)) && (amount == 0 ==> r.value == b)
              && (forall k: TierKey :: k != key ==> TierOf(r.value, k) == TierOf(b, k))
              && TierOf(r.value, key) == TierOf(b,
                 key).(pool := PoolRecordOf(b, key).(tokens := PoolRecordOf(b, key).tokens - amount))
  {
    hide BookInv, TierInv, Commit, PrepareWeight, Earns, Configured, Tiers.Draw, Quotable, Moved;
    var t := TierOf(b, key);
    GateExact(b, c, e, key);
    BookTier(b, c, key, now);
    if 0 < amount {
      DrawKeeps(t, amount, now, Earns(c, key));
      if PrepareWeight(b, c, e, key).Success? && Tiers.Draw(t, amount).Success? {
        CommitTokens(b, c, key, -amount, now);
      }
    }
  }

  lemma DonateKeepsBook(b: Book, c: Deployment, e: EmitterState, key: TierKey, from: Address, amount: int, now: nat)
    requires BookInv(b, c, now)
    ensures var r := Donate(b, c, e, key, from, amount);
            if r.Failure? then
              r.error in {NegativeAmount, BadRequest, NotPool, MigrationNotActive, Trap}
            else
              && BookInv(r.value, c, now) && SharesOnly(b, r.value) && NoCheaper(b, r.value, key)
              && Moved(b, r.value, c, key, amount)
              && TierOf(r.value, key) == TierOf(b,
                 key).(pool := PoolRecordOf(b, key).(tokens := PoolRecordOf(b, key).tokens + amount))
  {
    hide BookInv, TierInv, Commit, PrepareWeight, Earns, Configured, PoolBalances.PriceHolds, Tiers.Donate, Quotable,
         Moved, SharesOnly;
    var t := TierOf(b, key);
    GateExact(b, c, e, key);
    BookTier(b, c, key, now);
    if 0 <= amount {
      DonateKeeps(t, amount, now, Earns(c, key));
      if PrepareWeight(b, c, e, key).Success? && Tiers.Donate(t, amount).Success? {
        CommitTokens(b, c, key, amount, now);
      }
    }
  }

  /** Custody covers each tier: no payout asks for more than the contract holds of that token. */
  lemma TierWithinCustody(b: Book, c: Deployment, key: TierKey, now: nat)
    requires BookInv(b, c, now) && Configured(c, key)
    ensures 0 <= PoolRecordOf(b, key).tokens <= HeldOf(b, TierAsset(c, key).value)
  {
    hide TierInv, PoolsInv, GlobalLedger, CacheInv, ZoneInv, EntryCaps, Sum, TierAsset;
    var asset := TierAsset(c, key).value;
    var tokens := TokensOf(c, b.tiers, asset);
    forall k | k in tokens ensures 0 <= tokens[k] {
      TierTokensNonNegative(b.tiers[k], now, Earns(c, k));
    }
    AtMostSum(tokens, key);
  }

  lemma TierTokensNonNegative(t: Tier, now: nat, eligible: bool)
    requires TierInv(t, now, eligible)
    ensures 0 <= t.pool.tokens
  {
  }
}
