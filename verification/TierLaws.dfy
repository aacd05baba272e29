/** What every operation on a tier keeps: the share ledger, queue order, and exact conservation of the
    BLNT streamed into it. */
module TierLaws {
  import opened Numbers
  import opened UserBalances
  import PoolBalances
  import opened Streams
  import opened Tiers
  import opened Sums

  ghost function ActiveSharesOf(users: map<Address, Depositor>): map<Address, int> {
    map u | u in users :: users[u].balance.shares
  }

  ghost function QueuedSharesOf(users: map<Address, Depositor>): map<Address, int> {
    map u | u in users :: Queued(users[u].balance.q4w)
  }

  ghost function OwedOf(users: map<Address, Depositor>, index: int): map<Address, int> {
    map u | u in users :: Owed(users[u].emission, users[u].balance.shares, index)
  }

  predicate ValidDepositor(d: Depositor, now: nat) {
    && 0 <= d.balance.shares && Amounts(d.balance.q4w) && Sorted(d.balance.q4w)
    && ExpiresBy(d.balance.q4w, now + Q4W_LOCK_TIME)
    && ValidUser(d.emission) && d.emission.accrued <= I128_MAX
  }

  /** Pool totals are the sums over depositors of active and of queued shares. */
  ghost predicate ShareLedger(t: Tier) {
    && PoolBalances.ValidPool(t.pool)
    && Active(t.pool) == Sum(ActiveSharesOf(t.users))
    && t.pool.q4w == Sum(QueuedSharesOf(t.users))
  }

  /** 10^14 times every BLNT streamed into the tier is accounted for: still scheduled, in the index
      carry, owed to depositors, claimed, or elapsed over zero active shares. */
  ghost predicate Conserved(t: Tier, d: EmissionData) {
    SCALAR_7 * Scheduled(d) + d.indexCarry + Sum(OwedOf(t.users, d.index))
    + SCALAR_14 * t.claimed + SCALAR_7 * t.forfeited == SCALAR_14 * t.funded
  }

  ghost predicate StreamLedger(t: Tier, now: nat, eligible: bool) {
    && 0 <= t.claimed && 0 <= t.forfeited
    && match t.stream
       case None =>
         && t.funded == t.claimed == t.forfeited == 0
         && forall u | u in t.users :: t.users[u].emission == EMPTY_EMISSION
       case Some(d) =>
         && eligible && ValidData(d) && EndedClean(d) && d.index <= I128_MAX && d.lastTime <= now
         && (forall u | u in t.users :: t.users[u].emission.index <= d.index)
         && Conserved(t, d)
  }

  ghost predicate TierInv(t: Tier, now: nat, eligible: bool) {
    && (forall u | u in t.users :: ValidDepositor(t.users[u], now))
    && ShareLedger(t)
    && StreamLedger(t, now, eligible)
  }

  /** A user whose checkpoint has caught up with the stream, so that changing the user's active shares
      changes nothing already earned. */
  predicate Synced(t: Tier, user: Address) {
    t.stream.Some? ==> DepositorOf(t, user).emission.index == t.stream.value.index
  }

  lemma EmptyTierInv(now: nat, eligible: bool)
    ensures TierInv(EMPTY_TIER, now, eligible)
  {
    assert ActiveSharesOf(map[]) == map[] && QueuedSharesOf(map[]) == map[];
  }

  lemma TimePasses(t: Tier, now: nat, later: nat, eligible: bool)
    requires TierInv(t, now, eligible) && now <= later
    ensures TierInv(t, later, eligible)
  {
  }

  /** Claims never exceed what was streamed in. */
  lemma ClaimedAtMostFunded(t: Tier, now: nat, eligible: bool)
    requires TierInv(t, now, eligible)
    ensures 0 <= t.claimed <= t.funded
  {
    if t.stream.Some? {
      var d := t.stream.value;
      ScheduledNonNegative(d);
      OwedNonNegative(t.users, d.index, now);
      hide Scheduled;
    }
  }

  lemma ScheduledNonNegative(d: EmissionData)
    requires ValidData(d)
    ensures 0 <= Scheduled(d)
  {
    MulNonNegative(Max(0, d.expiration - d.lastTime), d.eps);
  }

  lemma OwedNonNegative(users: map<Address, Depositor>, index: int, now: nat)
    requires forall u | u in users :: ValidDepositor(users[u], now) && users[u].emission.index <= index
    ensures 0 <= Sum(OwedOf(users, index))
  {
    hide Earned;
    forall u | u in users ensures 0 <= OwedOf(users, index)[u] {
      EarnedFacts(users[u].balance.shares, users[u].emission.index, index, index);
    }
    SumNonNegative(OwedOf(users, index));
  }

  /** Replacing one depositor moves each total by that depositor's difference. */
  lemma ReplaceDepositor(users: map<Address, Depositor>, user: Address, before: Depositor, after: Depositor, index: int)
    requires before == if user in users then users[user] else NEW_DEPOSITOR
    ensures var next := users[user := after];
            && Sum(ActiveSharesOf(next)) == Sum(ActiveSharesOf(users)) - before.balance.shares + after.balance.shares
            && Sum(QueuedSharesOf(next))
               == Sum(QueuedSharesOf(users)) - Queued(before.balance.q4w) + Queued(after.balance.q4w)
            && Sum(OwedOf(next, index))
               == Sum(OwedOf(users, index)) - Owed(before.emission, before.balance.shares, index)
                  + Owed(after.emission, after.balance.shares, index)
  {
    hide Owed;
    OwedToNobody(index);
    var next := users[user := after];
    assert ActiveSharesOf(next) == ActiveSharesOf(users)[user := after.balance.shares];
    assert QueuedSharesOf(next) == QueuedSharesOf(users)[user := Queued(after.balance.q4w)];
    assert OwedOf(next, index) == OwedOf(users, index)[user := Owed(after.emission, after.balance.shares, index)];
    SumUpdate(ActiveSharesOf(users), user, after.balance.shares);
    SumUpdate(QueuedSharesOf(users), user, Queued(after.balance.q4w));
    SumUpdate(OwedOf(users, index), user, Owed(after.emission, after.balance.shares, index));
  }

  lemma OwedToNobody(index: int)
    ensures Owed(EMPTY_EMISSION, 0, index) == 0
  {
  }

  /** Raising the index raises what depositors are owed by the index growth times all active shares. */
  lemma RaiseIndex(users: map<Address, Depositor>, from: int, to: int)
    ensures Sum(OwedOf(users, to)) == Sum(OwedOf(users, from)) + Earned(Sum(ActiveSharesOf(users)), from, to)
  {
    var shares, growth := ActiveSharesOf(users), Scale(ActiveSharesOf(users), to - from);
    forall u | u in users ensures OwedOf(users, to)[u] == OwedOf(users, from)[u] + growth[u] {
      EarnedFacts(users[u].balance.shares, users[u].emission.index, from, to);
      EarnedIsTimes(shares[u], from, to);
      hide Earned, Times;
    }
    SumAdd(OwedOf(users, to), OwedOf(users, from), growth);
    SumScale(shares, to - from);
  }

  lemma EarnedIsTimes(shares: int, from: int, to: int)
    ensures Earned(shares, from, to) == Times(shares, to - from)
  {
  }

  /** Advancing the stream keeps the tier's ledgers; nothing but overflow can stop it. */
  lemma AdvanceKeeps(t: Tier, now: nat, eligible: bool)
    requires TierInv(t, now, eligible)
    ensures match AdvanceTier(t, now)
            case Failure(e) => e == Overflow
            case Success(a) =>
              && TierInv(a, now, eligible)
              && a == t.(stream := a.stream, forfeited := a.forfeited)
              && a.stream.Some? == t.stream.Some?
              && (a.stream.Some? ==> a.stream.value.lastTime == now)
  {
    if t.stream.Some? {
      var d := t.stream.value;
      AdvanceConserves(d, t.pool, now);
      if AdvanceTier(t, now).Success? {
        var a := AdvanceTier(t, now).value.stream.value;
        RaiseIndex(t.users, d.index, a.index);
        hide Scheduled, Earned, OwedOf, Forfeited, Advance;
      }
    }
  }

  /** 10^14 times what one depositor is owed at the tier's index. */
  function OwedAt(t: Tier, d: Depositor): int {
    Owed(d.emission, d.balance.shares, if t.stream.Some? then t.stream.value.index else 0)
  }

  predicate Indexed(t: Tier, d: Depositor) {
    match t.stream
    case None => d.emission == EMPTY_EMISSION
    case Some(s) => d.emission.index <= s.index
  }

  /** The one way depositor records change: the pool totals move with the balance, and what the
      depositor is owed falls exactly by what is paid out. */
  lemma ChangeDepositor(t: Tier, user: Address, after: Depositor, pool: PoolRecord, paid: int, now: nat, eligible: bool)
    requires TierInv(t, now, eligible)
    requires ValidDepositor(after, now) && Indexed(t, after) && PoolBalances.ValidPool(pool)
    requires 0 <= paid && (t.stream.None? ==> paid == 0)
    requires OwedAt(t, after) + SCALAR_14 * paid == OwedAt(t, DepositorOf(t, user))
    requires var u := DepositorOf(t, user).balance;
             && Active(pool) == Active(t.pool) - u.shares + after.balance.shares
             && pool.q4w == t.pool.q4w - Queued(u.q4w) + Queued(after.balance.q4w)
    ensures TierInv(t.(pool := pool, users := t.users[user := after], claimed := t.claimed + paid), now, eligible)
  {
    hide Owed, Scheduled, ActiveSharesOf, QueuedSharesOf, OwedOf, Queued, Amounts, Sorted, ExpiresBy;
    var index := if t.stream.Some? then t.stream.value.index else 0;
    ReplaceDepositor(t.users, user, DepositorOf(t, user), after, index);
  }

  /** A checkpoint keeps the ledgers, pays nothing out, and synchronises the user. */
  lemma CheckpointKeeps(t: Tier, user: Address, now: nat, eligible: bool)
    requires TierInv(t, now, eligible)
    ensures match Checkpoint(t, user, now)
            case Failure(e) => e == Overflow
            case Success(c) =>
              && TierInv(c, now, eligible) && Synced(c, user)
              && c.pool == t.pool && c.funded == t.funded && c.claimed == t.claimed
              && (forall u :: DepositorOf(c, u).balance == DepositorOf(t, u).balance)
              && (forall u :: u != user ==> DepositorOf(c, u) == DepositorOf(t, u))
  {
    hide TierInv, AdvanceTier, Accrue, Owed;
    if t.stream.Some? {
      AdvanceKeeps(t, now, eligible);
      if AdvanceTier(t, now).Success? {
        var a := AdvanceTier(t, now).value;
        var u, index := DepositorOf(t, user), a.stream.value.index;
        UserFacts(a, user, now, eligible);
        AccrueConserves(u.emission, u.balance.shares, index);
        var e := Accrue(u.emission, u.balance.shares, index);
        if e.Success? {
          ChangeDepositor(a, user, u.(emission := e.value), a.pool, 0, now, eligible);
        }
      }
    }
  }

  lemma UserFacts(t: Tier, user: Address, now: nat, eligible: bool)
    requires TierInv(t, now, eligible)
    ensures ValidDepositor(DepositorOf(t, user), now) && Indexed(t, DepositorOf(t, user))
    ensures PoolBalances.ValidPool(t.pool)
    ensures t.stream.Some? ==> eligible && ValidData(t.stream.value)
  {
  }

  lemma CheckpointIfKeeps(t: Tier, user: Address, now: nat, eligible: bool)
    requires TierInv(t, now, eligible)
    ensures match CheckpointIf(t, eligible, user, now)
            case Failure(e) => e == Overflow
            case Success(c) =>
              && TierInv(c, now, eligible) && Synced(c, user)
              && c.pool == t.pool && c.funded == t.funded && c.claimed == t.claimed
              && (forall u :: DepositorOf(c, u).balance == DepositorOf(t, u).balance)
  {
    CheckpointKeeps(t, user, now, eligible);
  }

  /** Once synchronised, a user's balance and the pool totals may change together. */
  lemma ChangeBalance(t: Tier, user: Address, balance: UserRecord, pool: PoolRecord, now: nat, eligible: bool)
    requires TierInv(t, now, eligible) && Synced(t, user)
    requires 0 <= balance.shares && Amounts(balance.q4w) && Sorted(balance.q4w)
    requires ExpiresBy(balance.q4w, now + Q4W_LOCK_TIME)
    requires PoolBalances.ValidPool(pool)
    requires var u := DepositorOf(t, user).balance;
             && Active(pool) == Active(t.pool) - u.shares + balance.shares
             && pool.q4w == t.pool.q4w - Queued(u.q4w) + Queued(balance.q4w)
    ensures TierInv(SetBalance(t.(pool := pool), user, balance), now, eligible)
    ensures Synced(SetBalance(t.(pool := pool), user, balance), user)
  {
    hide TierInv, Earned;
    var u := DepositorOf(t, user);
    UserFacts(t, user, now, eligible);
    EarnedByMoreShares(u.balance.shares, balance.shares, u.emission.index);
    EarnedFacts(u.balance.shares, 0, 0, 0);
    EarnedFacts(balance.shares, 0, 0, 0);
    ChangeDepositor(t, user, u.(balance := balance), pool, 0, now, eligible);
  }

  /** A queued total never exceeds the pool's. */
  lemma UserWithinPool(t: Tier, user: Address, now: nat, eligible: bool)
    requires TierInv(t, now, eligible)
    ensures PoolBalances.ValidPool(t.pool)
    ensures var u := DepositorOf(t, user).balance;
            && 0 <= u.shares <= Active(t.pool) && 0 <= Queued(u.q4w) <= t.pool.q4w
            && Amounts(u.q4w) && Sorted(u.q4w) && ExpiresBy(u.q4w, now + Q4W_LOCK_TIME)
  {
    forall u | u in t.users ensures 0 <= Queued(t.users[u].balance.q4w) {
      UnitsCount(t.users[u].balance.q4w);
    }
    AtMostSum(ActiveSharesOf(t.users), user);
    AtMostSum(QueuedSharesOf(t.users), user);
  }

  /** What a balance operation on `user` leaves behind, for the contract-wide ledgers. */
  ghost predicate Kept(t: Tier, s: Tier, user: Address, now: nat, eligible: bool) {
    && TierInv(s, now, eligible) && Synced(s, user)
    && s.funded == t.funded && s.claimed == t.claimed
    && (forall u :: u != user ==> DepositorOf(s, u).balance == DepositorOf(t, u).balance)
  }

  lemma CreditKeeps(t: Tier, user: Address, amount: int, now: nat, eligible: bool)
    requires TierInv(t, now, eligible) && Synced(t, user) && 0 <= amount
    ensures var r := CreditShares(t, user, amount);
            if r.Failure? then r.error == Trap || r.error == InvalidShareMintAmount
            else
              var (s, minted) := r.value;
              && Kept(t, s, user, now, eligible)
              && s.pool == PoolBalances.PoolRecord(t.pool.shares + minted, t.pool.tokens + amount, t.pool.q4w)
                 && 0 < minted
              && PoolBalances.ConvertToShares(t.pool, amount) == Success(minted)
              && DepositorOf(s, user).balance
                 == DepositorOf(t, user).balance.(shares := DepositorOf(t, user).balance.shares + minted)
              && (0 < t.pool.shares ==> PoolBalances.PriceHolds(t.pool, s.pool))
  {
    hide TierInv, PoolBalances.PriceHolds, PoolBalances.ConvertToShares, Queued, Amounts, Sorted, ExpiresBy;
    UserWithinPool(t, user, now, eligible);
    PoolBalances.SharesNonNegative(t.pool, amount);
    if CreditShares(t, user, amount).Success? {
      var (s, minted) := CreditShares(t, user, amount).value;
      PoolBalances.DepositHoldsPrice(t.pool, amount, minted, s.pool);
      var u := DepositorOf(t, user).balance;
      ChangeBalance(t, user, u.(shares := u.shares + minted), s.pool, now, eligible);
    }
  }

  lemma DepositKeeps(t: Tier, gate: Result<bool>, user: Address, amount: int, now: nat, eligible: bool)
    requires TierInv(t, now, eligible) && 0 <= amount && (gate.Success? ==> gate.value == eligible)
    ensures var r := Deposit(t, gate, user, amount, now);
            if r.Failure? then gate == Failure(r.error) || r.error in {Overflow, Trap, InvalidShareMintAmount}
            else
              var (s, minted) := r.value;
              && Kept(t, s, user, now, eligible) && 0 < minted
              && PoolBalances.ConvertToShares(t.pool, amount) == Success(minted)
              && s.pool == PoolBalances.PoolRecord(t.pool.shares + minted, t.pool.tokens + amount, t.pool.q4w)
              && DepositorOf(s, user).balance
                 == DepositorOf(t, user).balance.(shares := DepositorOf(t, user).balance.shares + minted)
              && (0 < t.pool.shares ==> PoolBalances.PriceHolds(t.pool, s.pool))
  {
    hide TierInv, PoolBalances.PriceHolds, CheckpointIf, CreditShares;
    if gate.Success? {
      CheckpointIfKeeps(t, user, now, eligible);
      var c := CheckpointIf(t, eligible, user, now);
      if c.Success? {
        CreditKeeps(c.value, user, amount, now, eligible);
      }
    }
  }

  lemma QueueKeeps(t: Tier, gate: Result<bool>, user: Address, amount: int, now: nat, eligible: bool)
    requires TierInv(t, now, eligible) && 0 <= amount && (gate.Success? ==> gate.value == eligible)
    ensures match Queue(t, gate, user, amount, now)
            case Failure(e) =>
              || gate == Failure(e) || e in {Overflow, Trap, TooManyQ4WEntries}
              || (e == BalanceError && DepositorOf(t, user).balance.shares < amount)
            case Success(s) =>
              && Kept(t, s, user, now, eligible)
              && s.pool == t.pool.(q4w := t.pool.q4w + amount)
              && QueueShares(DepositorOf(t, user).balance, amount, now) == Success(DepositorOf(s, user).balance)
  {
    hide TierInv, CheckpointIf, Queued, Amounts, Sorted, ExpiresBy, Units, Repeat;
    UserWithinPool(t, user, now, eligible);
    CheckpointIfKeeps(t, user, now, eligible);
    if Queue(t, gate, user, amount, now).Success? {
      var s := Queue(t, gate, user, amount, now).value;
      var u := DepositorOf(t, user).balance;
      QueueAppendsUnits(u, amount, now);
      var c := CheckpointIf(t, eligible, user, now).value;
      ChangeBalance(c, user, QueueShares(u, amount, now).value, s.pool, now, eligible);
    }
  }

  /** The pool-side guard of a dequeue cannot fire. */
  lemma DequeueKeeps(t: Tier, gate: Result<bool>, user: Address, amount: int, now: nat, eligible: bool)
    requires TierInv(t, now, eligible) && 0 <= amount && (gate.Success? ==> gate.value == eligible)
    ensures match Dequeue(t, gate, user, amount, now)
            case Failure(e) =>
              || gate == Failure(e) || e in {Overflow, Trap}
              || (e == BalanceError && Queued(DepositorOf(t, user).balance.q4w) < amount)
            case Success(s) =>
              && Kept(t, s, user, now, eligible)
              && s.pool == t.pool.(q4w := t.pool.q4w - amount)
              && |DepositorOf(s, user).balance.q4w| <= |DepositorOf(t, user).balance.q4w|
              && DequeueQueue(DepositorOf(t, user).balance.q4w, amount) == Success(DepositorOf(s, user).balance.q4w)
              && DepositorOf(s, user).balance.shares == DepositorOf(t, user).balance.shares + amount
  {
    hide TierInv, CheckpointIf, Queued, Amounts, Sorted, ExpiresBy, Units, DequeueQueue;
    UserWithinPool(t, user, now, eligible);
    CheckpointIfKeeps(t, user, now, eligible);
    var u := DepositorOf(t, user).balance;
    DequeueTakesLatest(u.q4w, amount);
    if DequeueShares(u, amount).Success? {
      DequeueKeepsOrder(u.q4w, amount);
      if Dequeue(t, gate, user, amount, now).Success? {
        var s := Dequeue(t, gate, user, amount, now).value;
        var balance := DequeueShares(u, amount).value;
        var c := CheckpointIf(t, eligible, user, now).value;
        ChangeBalance(c, user, balance.(shares := balance.shares + amount), s.pool, now, eligible);
      }
    }
  }

  /** Shares worth less than one token, in a tier that holds some. */
  predicate WorthLess(p: PoolRecord, shares: int) {
    p.tokens != 0 && (p.shares == 0 || shares * p.tokens < p.shares)
  }

  lemma WorthLessExact(p: PoolRecord, shares: int)
    requires PoolBalances.ValidPool(p) && 0 <= shares <= p.shares && PoolBalances.ConvertToTokens(p, shares).Success?
    ensures PoolBalances.ConvertToTokens(p, shares).value == 0 && p.tokens != 0 <==> WorthLess(p, shares)
  {
    PoolBalances.TokensExact(p, shares);
    var value := PoolBalances.ConvertToTokens(p, shares).value;
    if 0 < p.shares {
      MulNonNegative(shares, p.tokens);
      if 0 < value {
        MulMonotone(1, value, p.shares);
      }
    }
  }

  /** No part of the pool-side guard of a withdrawal can fire; for its amount it is refused only when that is worth
      less than a token. */
  lemma WithdrawKeeps(t: Tier, gate: Result<bool>, user: Address, amount: int, now: nat, eligible: bool)
    requires TierInv(t, now, eligible) && 0 <= amount && (gate.Success? ==> gate.value == eligible)
    ensures var r := Withdraw(t, gate, user, amount, now);
            if r.Failure? then
              || gate == Failure(r.error) || r.error in {Overflow, Trap}
              || (r.error == InvalidTokenWithdrawAmount && WorthLess(t.pool, amount))
              || (r.error in {BalanceError, NotExpired}
                  && WithdrawQueue(DepositorOf(t, user).balance.q4w, amount, now) == Failure(r.error))
            else
              var (s, returned) := r.value;
              && Kept(t, s, user, now, eligible)
              && PoolBalances.ConvertToTokens(t.pool, amount) == Success(returned)
              && !WorthLess(t.pool, amount)
              && 0 <= returned <= t.pool.tokens && s.pool.tokens == t.pool.tokens - returned
              && s.pool.shares == t.pool.shares - amount && s.pool.q4w == t.pool.q4w - amount
              && |DepositorOf(s, user).balance.q4w| <= |DepositorOf(t, user).balance.q4w|
              && WithdrawQueue(DepositorOf(t, user).balance.q4w, amount, now)
                 == Success(DepositorOf(s, user).balance.q4w)
              && DepositorOf(s, user).balance.shares == DepositorOf(t, user).balance.shares
              && PoolBalances.PriceHolds(t.pool, s.pool)
  {
    hide TierInv, CheckpointIf, Queued, Amounts, Sorted, ExpiresBy, Units, WithdrawQueue, PoolBalances.PriceHolds,
         PoolBalances.ConvertToTokens, WorthLess;
    UserWithinPool(t, user, now, eligible);
    CheckpointIfKeeps(t, user, now, eligible);
    var u := DepositorOf(t, user).balance;
    var r := WithdrawShares(u, amount, now);
    WithdrawSucceedsIff(u.q4w, amount, now);
    if r.Success? {
      WithdrawTakesEarliest(u.q4w, amount, now);
      UnitsCount(u.q4w);
      UnitsCount(r.value.q4w);
      PoolBalances.TokensExact(t.pool, amount);
      if PoolBalances.ConvertToTokens(t.pool, amount).Success? {
        WorthLessExact(t.pool, amount);
      }
      if Withdraw(t, gate, user, amount, now).Success? {
        var (s, returned) := Withdraw(t, gate, user, amount, now).value;
        PoolBalances.WithdrawHoldsPrice(t.pool, amount, returned, s.pool);
        var c := CheckpointIf(t, eligible, user, now).value;
        ChangeBalance(c, user, r.value, s.pool, now, eligible);
      }
    }
  }

  lemma DrawKeeps(t: Tier, amount: int, now: nat, eligible: bool)
    requires TierInv(t, now, eligible) && 0 <= amount
    ensures match Draw(t, amount)
            case Failure(e) => e == InsufficientFunds && amount > t.pool.tokens
            case Success(s) => TierInv(s, now, eligible) && s == t.(pool := t.pool.(tokens := t.pool.tokens - amount))
  {
  }

  lemma DonateKeeps(t: Tier, amount: int, now: nat, eligible: bool)
    requires TierInv(t, now, eligible) && 0 <= amount
    ensures match Donate(t, amount)
            case Failure(e) => e == Trap
            case Success(s) =>
              && TierInv(s, now, eligible) && s == t.(pool := t.pool.(tokens := t.pool.tokens + amount))
              && PoolBalances.PriceHolds(t.pool, s.pool)
  {
    if Donate(t, amount).Success? {
      PoolBalances.DonationHoldsPrice(t.pool, amount, Donate(t, amount).value.pool);
    }
  }

  lemma SetRateKeeps(t: Tier, pending: int, now: nat)
    requires TierInv(t, now, true) && 0 <= pending
    ensures match SetEmissionRate(t, pending, now)
            case Failure(e) => e == Overflow
            case Success(s) =>
              && TierInv(s, now, true)
              && s == t.(stream := s.stream, forfeited := s.forfeited, funded := t.funded + pending)
  {
    hide TierInv, AdvanceTier, Restream;
    AdvanceKeeps(t, now, true);
    if AdvanceTier(t, now).Success? && 0 < pending {
      var a := AdvanceTier(t, now).value;
      StreamFacts(a, now);
      RestreamOnlyOverflowsOrWorks(a.stream, pending, now);
      if Restream(a.stream, pending, now).Success? {
        FundedMore(a, pending, now);
      }
    }
  }

  lemma StreamFacts(t: Tier, now: nat)
    requires TierInv(t, now, true)
    ensures t.stream.Some? ==> ValidData(t.stream.value)
  {
  }

  /** Restarting the stream adds exactly the pending amount to what the tier accounts for. */
  lemma FundedMore(a: Tier, pending: int, now: nat)
    requires TierInv(a, now, true) && 0 < pending && (a.stream.Some? ==> a.stream.value.lastTime == now)
    requires Restream(a.stream, pending, now).Success?
    ensures TierInv(a.(stream := Some(Restream(a.stream, pending, now).value), funded := a.funded + pending), now, true)
  {
    hide Scheduled, Restream, OwedOf, Sum;
    RestreamConserves(a.stream, pending, now);
    if a.stream.None? {
      NothingOwed(a.users, now);
      NothingScheduled(now);
    }
  }

  lemma NothingScheduled(now: nat)
    ensures Scheduled(StreamOrNew(None, now)) == 0
  {
  }

  lemma RestreamOnlyOverflowsOrWorks(existing: Option<EmissionData>, pending: int, now: nat)
    requires existing.Some? ==> ValidData(existing.value) && existing.value.lastTime == now
    requires 0 < pending
    ensures Restream(existing, pending, now).Success? || Restream(existing, pending, now) == Failure(Overflow)
  {
    if Restream(existing, pending, now).Failure? {
      RestreamOnlyOverflows(existing, pending, now);
    }
  }

  lemma NothingOwed(users: map<Address, Depositor>, now: nat)
    requires forall u | u in users :: users[u].emission == EMPTY_EMISSION
    ensures Sum(OwedOf(users, 0)) == 0
  {
    var zero := Scale(ActiveSharesOf(users), 0);
    SumScale(ActiveSharesOf(users), 0);
    assert OwedOf(users, 0) == zero;
  }

  lemma ClaimKeeps(t: Tier, user: Address, now: nat, eligible: bool)
    requires TierInv(t, now, eligible)
    ensures match ClaimAccrued(t, user, now)
            case Failure(e) => e == Overflow
            case Success((s, accrued)) =>
              && TierInv(s, now, eligible) && Synced(s, user) && 0 <= accrued
              && s.pool == t.pool && s.funded == t.funded && s.claimed == t.claimed + accrued
              && (forall u :: DepositorOf(s, u).balance == DepositorOf(t, u).balance)
              && DepositorOf(s, user).emission.accrued == 0
  {
    hide TierInv, Checkpoint, Earned;
    CheckpointKeeps(t, user, now, eligible);
    if Checkpoint(t, user, now).Success? {
      var c := Checkpoint(t, user, now).value;
      var u := DepositorOf(c, user);
      UserFacts(c, user, now, eligible);
      if u.emission.accrued > 0 {
        ChangeDepositor(c, user, u.(emission := u.emission.(accrued := 0)), c.pool, u.emission.accrued, now, eligible);
      }
    }
  }

  /** The tokens behind the shares that are not queued: their floor proportion, nothing when all are queued. */
  predicate ActivePart(p: PoolRecord, amount: int) {
    if p.shares == 0 then amount == 0
    else amount * p.shares <= (p.shares - p.q4w) * p.tokens < amount * p.shares + p.shares
  }

  /** The one product that quoting them forms fits 128 bits; with nothing queued none is formed. */
  predicate Quotable(p: PoolRecord) {
    p.q4w == 0 || FitsI128((p.shares - p.q4w) * p.tokens)
  }

  /** Active assets are exactly the active part of the tokens held; only an over-wide product can stop the
      quote. */
  lemma ActiveAssetsExact(t: Tier)
    requires ShareLedger(t)
    ensures match ActiveAssets(t)
            case Failure(e) => e == Trap && !Quotable(t.pool)
            case Success(a) =>
              && Quotable(t.pool) && ActivePart(t.pool, a) && 0 <= a <= t.pool.tokens
              && (t.pool.q4w == t.pool.shares ==> a == 0)
              && (t.pool.q4w == 0 && 0 < t.pool.shares ==> a == t.pool.tokens)
  {
    var p := t.pool;
    PoolBalances.TokensExact(p, p.shares - p.q4w);
    if 0 < p.shares && ActiveAssets(t).Success? {
      var a := ActiveAssets(t).value;
      if p.q4w == p.shares && 0 < a {
        MulMonotone(1, a, p.shares);
      }
      if p.q4w == 0 && a < p.tokens {
        MulMonotone(a + 1, p.tokens, p.shares);
      }
    }
  }
}
