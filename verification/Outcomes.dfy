/** Exactly when each balance operation of the contract succeeds, which error it gives otherwise, what it pays,
    and that it is fair: it moves nobody's emissions. */
module Outcomes {
  import opened Numbers
  import opened Sums
  import Tiers
  import opened TierLaws
  import opened TierOutcomes
  import opened Backstops
  import opened BookLaws
  import opened ShareLaws
  import UserBalances
  import PoolBalances

  type PoolRecord = PoolBalances.PoolRecord

  /** No tier's present index, loss, schedule, funding, claims or entitlements changed. */
  ghost predicate FairBook(b: Book, n: Book, now: nat) {
    forall k: TierKey, u: Address :: FairAt(b, n, k, u, now)
  }

  ghost predicate FairAt(b: Book, n: Book, k: TierKey, u: Address, now: nat) {
    Fair(TierOf(b, k), TierOf(n, k), u, 0, now) && SameSchedule(TierOf(b, k), TierOf(n, k), now)
  }

  lemma OneTierFair(b: Book, n: Book, key: TierKey, user: Address, now: nat)
    requires forall k: TierKey :: k != key ==> TierOf(n, k) == TierOf(b, k)
    requires Fair(TierOf(b, key), TierOf(n, key), user, 0, now) && SameSchedule(TierOf(b, key), TierOf(n, key), now)
    ensures FairBook(b, n, now)
  {
    hide Fair, SameSchedule, TierOf;
    forall k: TierKey, u: Address ensures FairAt(b, n, k, u, now) {
      if k == key {
        FairToAny(TierOf(b, k), TierOf(n, k), user, u, now);
      } else {
        SameIsFair(TierOf(b, k), u, now);
      }
    }
  }

  lemma SameTiersFair(b: Book, n: Book, now: nat)
    requires n.tiers == b.tiers
    ensures FairBook(b, n, now)
  {
    hide Fair, SameSchedule;
    forall k: TierKey, u: Address ensures FairAt(b, n, k, u, now) {
      assert TierOf(n, k) == TierOf(b, k);
      SameIsFair(TierOf(b, k), u, now);
    }
  }

  // The gate.

  /** An unknown pool; an unknown tier; an LP tier between the emitter switching here and activation. */
  function GateRefusal(b: Book, c: Deployment, e: EmitterState, key: TierKey): Option<Error> {
    if key.pool !in c.config then Some(NotPool)
    else if |c.config[key.pool]| <= key.tier then Some(BadRequest)
    else if IsLp(c.config[key.pool][key.tier]) && b.migration.activatedAt.None? && e.backstop == c.self then
      Some(MigrationNotActive)
    else None
  }

  function Gate(b: Book, c: Deployment, e: EmitterState, key: TierKey): Result<bool> {
    match GateRefusal(b, c, e, key)
    case Some(x) => Failure(x)
    case None => Success(Earns(c, key))
  }

  lemma GateIsExact(b: Book, c: Deployment, e: EmitterState, key: TierKey)
    ensures PrepareWeight(b, c, e, key) == Gate(b, c, e, key)
  {
  }

  /** What storing the changed tier adds: its active part must be quotable if it earns. */
  function StoreRefusal(c: Deployment, key: TierKey, after: PoolRecord): Option<Error> {
    if Earns(c, key) && !Quotable(after) then Some(Trap) else None
  }

  function Then(first: Option<Error>, second: Option<Error>): Option<Error> {
    if first.Some? then first else second
  }

  // Deposit.

  function DepositRefusal(b: Book, c: Deployment, e: EmitterState, key: TierKey, user: Address, amount: int,
                          now: nat): Option<Error> {
    var t := TierOf(b, key);
    var minted := MintFor(t.pool, amount);
    if amount < 0 then Some(NegativeAmount)
    else if user == key.pool || user == c.self then Some(BadRequest)
    else if key.pool !in c.config then Some(NotPool)
    else
      Then(TierOutcomes.DepositRefusal(t, Gate(b, c, e, key), user, amount, now),
           StoreRefusal(c, key, PoolBalances.PoolRecord(t.pool.shares + minted, t.pool.tokens + amount, t.pool.q4w)))
  }

  /** A deposit mints the floor of its proportion of the shares, unless one of the listed refusals applies. */
  lemma DepositOutcome(b: Book, c: Deployment, e: EmitterState, key: TierKey, user: Address, amount: int, now: nat)
    requires BookInv(b, c, now)
    ensures var r, refusal := Deposit(b, c, e, key, user, amount, now), DepositRefusal(b, c, e, key, user, amount, now);
            if r.Failure? then refusal == Some(r.error)
            else refusal.None? && r.value.1 == MintFor(PoolRecordOf(b, key), amount) && FairBook(b, r.value.0, now)
  {
    hide BookInv, TierInv, Kept, Commit, PrepareWeight, PoolBalances.PriceHolds, Tiers.Deposit, Quotable, Earns,
         TierOutcomes.DepositRefusal, MintFor, Fair, SameSchedule, FairBook, GateRefusal, SharesOnly, Moved, OthersSame;
    GateIsExact(b, c, e, key);
    GateExact(b, c, e, key);
    BookTier(b, c, key, now);
    if 0 <= amount {
      var t, gate := TierOf(b, key), PrepareWeight(b, c, e, key);
      DepositKeeps(t, gate, user, amount, now, Earns(c, key));
      DepositExact(t, gate, user, amount, now, Earns(c, key));
      var r := Tiers.Deposit(t, gate, user, amount, now);
      if r.Success? {
        CommitShares(b, c, key, r.value.0, amount, user, now);
        var n := Commit(b, c, key, r.value.0, amount);
        if n.Success? {
          OneTierFair(b, n.value, key, user, now);
        }
      }
    }
  }

  // The withdrawal queue.

  /** The number of a depositor's queued entries in each tier of the pool. */
  function EntryCounts(b: Book, c: Deployment, user: Address, pool: Address): seq<int>
    requires pool in c.config
  {
    seq(|c.config[pool]|,
        i requires 0 <= i < |c.config[pool]| => |Tiers.DepositorOf(TierOf(b, TierKey(pool, i)), user).balance.q4w|)
  }

  lemma {:induction false} EntriesExact(b: Book, c: Deployment, user: Address, pool: Address, from: nat)
    requires pool in c.config && from <= |c.config[pool]|
    ensures EntriesFrom(b, c, user, pool, from) == SeqSum(EntryCounts(b, c, user, pool)[from..])
    decreases |c.config[pool]| - from
  {
    var counts := EntryCounts(b, c, user, pool);
    if from < |counts| {
      assert counts[from..][1..] == counts[from + 1..];
      EntriesExact(b, c, user, pool, from + 1);
    }
  }

  function QueueRefusal(b: Book, c: Deployment, e: EmitterState, key: TierKey, user: Address, amount: int,
                        now: nat): Option<Error> {
    var t := TierOf(b, key);
    if amount < 0 then Some(NegativeAmount)
    else if key.pool !in c.config then Some(NotPool)
    else if 20 <= SeqSum(EntryCounts(b, c, user, key.pool)) then Some(TooManyQ4WEntries)
    else
      Then(TierOutcomes.QueueRefusal(t, Gate(b, c, e, key), user, amount, now),
           StoreRefusal(c, key, t.pool.(q4w := t.pool.q4w + amount)))
  }

  lemma QueueOutcome(b: Book, c: Deployment, e: EmitterState, key: TierKey, user: Address, amount: int, now: nat)
    requires BookInv(b, c, now)
    ensures var r := QueueWithdrawal(b, c, e, key, user, amount, now);
            var refusal := QueueRefusal(b, c, e, key, user, amount, now);
            if r.Failure? then refusal == Some(r.error) else refusal.None? && FairBook(b, r.value, now)
  {
    hide BookInv, TierInv, Kept, Commit, PrepareWeight, Tiers.Queue, Quotable, Earns, TierOutcomes.QueueRefusal, Fair,
         SameSchedule, FairBook, GateRefusal, SharesOnly, Moved, OthersSame, EntriesFrom, EntryCounts,
         UserBalances.QueueShares;
    GateIsExact(b, c, e, key);
    GateExact(b, c, e, key);
    BookTier(b, c, key, now);
    if 0 <= amount && key.pool in c.config {
      EntriesExact(b, c, user, key.pool, 0);
      assert EntryCounts(b, c, user, key.pool)[0..] == EntryCounts(b, c, user, key.pool);
      var t, gate := TierOf(b, key), PrepareWeight(b, c, e, key);
      QueueKeeps(t, gate, user, amount, now, Earns(c, key));
      QueueExact(t, gate, user, amount, now, Earns(c, key));
      var r := Tiers.Queue(t, gate, user, amount, now);
      if r.Success? && EntriesFrom(b, c, user, key.pool, 0) < UserBalances.MAX_Q4W_SIZE {
        OneMoreEntry(t, r.value, user, amount, now);
        CommitShares(b, c, key, r.value, 0, user, now);
        var n := Commit(b, c, key, r.value, 0);
        if n.Success? {
          OneTierFair(b, n.value, key, user, now);
        }
      }
    }
  }

  lemma OneMoreEntry(t: Tiers.Tier, s: Tiers.Tier, user: Address, amount: int, now: nat)
    requires UserBalances.QueueShares(Tiers.DepositorOf(t, user).balance, amount, now)
             == Success(Tiers.DepositorOf(s, user).balance)
    ensures Entries(s, user) == Entries(t, user) + 1
  {
  }

  function DequeueRefusal(b: Book, c: Deployment, e: EmitterState, key: TierKey, user: Address, amount: int,
                          now: nat): Option<Error> {
    var t := TierOf(b, key);
    if amount < 0 then Some(NegativeAmount)
    else
      Then(TierOutcomes.DequeueRefusal(t, Gate(b, c, e, key), user, amount, now),
           StoreRefusal(c, key, t.pool.(q4w := t.pool.q4w - amount)))
  }

  lemma DequeueOutcome(b: Book, c: Deployment, e: EmitterState, key: TierKey, user: Address, amount: int, now: nat)
    requires BookInv(b, c, now)
    ensures var r := DequeueWithdrawal(b, c, e, key, user, amount, now);
            var refusal := DequeueRefusal(b, c, e, key, user, amount, now);
            if r.Failure? then refusal == Some(r.error) else refusal.None? && FairBook(b, r.value, now)
  {
    hide BookInv, TierInv, Kept, Commit, PrepareWeight, Tiers.Dequeue, Quotable, Earns, TierOutcomes.DequeueRefusal,
         Fair, SameSchedule, FairBook, GateRefusal, SharesOnly, Moved, OthersSame, UserBalances.DequeueQueue;
    GateIsExact(b, c, e, key);
    GateExact(b, c, e, key);
    BookTier(b, c, key, now);
    if 0 <= amount {
      var t, gate := TierOf(b, key), PrepareWeight(b, c, e, key);
      DequeueKeeps(t, gate, user, amount, now, Earns(c, key));
      DequeueExact(t, gate, user, amount, now, Earns(c, key));
      var r := Tiers.Dequeue(t, gate, user, amount, now);
      if r.Success? {
        CommitShares(b, c, key, r.value, 0, user, now);
        var n := Commit(b, c, key, r.value, 0);
        if n.Success? {
          OneTierFair(b, n.value, key, user, now);
        }
      }
    }
  }

  function WithdrawRefusal(b: Book, c: Deployment, e: EmitterState, key: TierKey, user: Address, amount: int,
                           liabilities: bool, now: nat): Option<Error> {
    var p := TierOf(b, key).pool;
    if amount < 0 then Some(NegativeAmount)
    else if liabilities then Some(BadDebtExists)
    else
      Then(TierOutcomes.WithdrawRefusal(TierOf(b, key), Gate(b, c, e, key), user, amount, now),
           StoreRefusal(c, key,
             PoolBalances.PoolRecord(p.shares - amount, p.tokens - PaysFor(p, amount), p.q4w - amount)))
  }

  /** A withdrawal pays the floor of its proportion of the tokens, unless one of the listed refusals applies. In
      particular matured shares worth a token are never refused for their amount. */
  lemma WithdrawOutcome(b: Book, c: Deployment, e: EmitterState, key: TierKey, user: Address, amount: int,
                        liabilities: bool, now: nat)
    requires BookInv(b, c, now)
    ensures var r := WithdrawMatured(b, c, e, key, user, amount, liabilities, now);
            var refusal := WithdrawRefusal(b, c, e, key, user, amount, liabilities, now);
            if r.Failure? then refusal == Some(r.error)
            else refusal.None? && r.value.1 == PaysFor(PoolRecordOf(b, key), amount) && FairBook(b, r.value.0, now)
  {
    hide BookInv, TierInv, Kept, Commit, PrepareWeight, Tiers.Withdraw, Quotable, Earns, TierOutcomes.WithdrawRefusal,
         Fair, SameSchedule, FairBook, GateRefusal, SharesOnly, Moved, OthersSame, UserBalances.WithdrawQueue, PaysFor,
         PoolBalances.PriceHolds, PoolBalances.ConvertToTokens;
    GateIsExact(b, c, e, key);
    GateExact(b, c, e, key);
    BookTier(b, c, key, now);
    if 0 <= amount {
      var t, gate := TierOf(b, key), PrepareWeight(b, c, e, key);
      WithdrawKeeps(t, gate, user, amount, now, Earns(c, key));
      WithdrawExact(t, gate, user, amount, now, Earns(c, key));
      var r := Tiers.Withdraw(t, gate, user, amount, now);
      if r.Success? {
        CommitShares(b, c, key, r.value.0, -r.value.1, user, now);
        var n := Commit(b, c, key, r.value.0, -r.value.1);
        if n.Success? {
          OneTierFair(b, n.value, key, user, now);
        }
      }
    }
  }

  lemma ForceQueueOutcome(b: Book, c: Deployment, e: EmitterState, key: TierKey, user: Address, now: nat)
    requires BookInv(b, c, now)
    ensures var r, shares := ForceQueue(b, c, e, key, user, now), UserOf(b, key, user).shares;
            var refusal := if shares <= 0 then Some(BadRequest) else QueueRefusal(b, c, e, key, user, shares, now);
            if r.Failure? then refusal == Some(r.error) else refusal.None? && FairBook(b, r.value, now)
  {
    hide BookInv, QueueWithdrawal, QueueRefusal, FairBook;
    QueueOutcome(b, c, e, key, user, UserOf(b, key, user).shares, now);
  }

  /** A forced withdrawal takes all that has matured: refused when nothing has, and otherwise exactly when
      withdrawing that amount is. */
  lemma ForceWithdrawOutcome(b: Book, c: Deployment, e: EmitterState, key: TierKey, user: Address, liabilities: bool,
                             now: nat)
    requires BookInv(b, c, now)
    ensures var r, matured := ForceWithdraw(b, c, e, key, user, liabilities, now),
                UserBalances.Matured(UserOf(b, key, user).q4w, now);
            var refusal := if matured == 0 then Some(NotExpired)
              else WithdrawRefusal(b, c, e, key, user, matured, liabilities, now);
            if r.Failure? then refusal == Some(r.error)
            else
              refusal.None? && r.value.1 == PaysFor(PoolRecordOf(b, key), matured) && FairBook(b, r.value.0, now)
  {
    hide BookInv, WithdrawMatured, WithdrawRefusal, FairBook, UserBalances.Matured, MaturedSum, PaysFor;
    var q := UserOf(b, key, user).q4w;
    UserQueueFacts(b, c, key, user, now);
    MaturedFits(b, c, key, user, now);
    MaturedSumFits(q, now, 0);
    WithdrawOutcome(b, c, e, key, user, UserBalances.Matured(q, now), liabilities, now);
  }

  lemma MaturedFits(b: Book, c: Deployment, key: TierKey, user: Address, now: nat)
    requires BookInv(b, c, now)
    ensures var q := UserOf(b, key, user).q4w;
            UserBalances.MaturedPrefix(q, now) == UserBalances.Matured(q, now) <= I128_MAX
  {
    hide BookInv, TierInv, UserBalances.Matured, UserBalances.Queued, UserBalances.MaturedPrefix;
    BookTier(b, c, key, now);
    UserWithinPool(TierOf(b, key), user, now, Earns(c, key));
    UserBalances.MaturedBounds(UserOf(b, key, user).q4w, now);
    UserBalances.PrefixIsMatured(UserOf(b, key, user).q4w, now);
  }

  lemma {:induction false} MaturedSumFits(q: seq<UserBalances.Q4W>, now: nat, sum: int)
    requires UserBalances.Amounts(q) && 0 <= sum && sum + UserBalances.MaturedPrefix(q, now) <= I128_MAX
    ensures MaturedSum(q, now, sum) == Success(sum + UserBalances.MaturedPrefix(q, now))
    decreases |q|
  {
    if q != [] && q[0].exp <= now {
      PrefixNonNegative(q[1..], now);
      MaturedSumFits(q[1..], now, sum + q[0].amount);
    }
  }

  lemma PrefixNonNegative(q: seq<UserBalances.Q4W>, now: nat)
    requires UserBalances.Amounts(q)
    ensures 0 <= UserBalances.MaturedPrefix(q, now)
    decreases |q|
  {
    if q != [] {
      PrefixNonNegative(q[1..], now);
    }
  }

  // Draws and donations.

  /** Storing a tier in which only the tokens changed. */
  lemma TokensStored(b: Book, c: Deployment, key: TierKey, received: int, now: nat)
    requires BookInv(b, c, now) && Configured(c, key)
    requires var t := TierOf(b, key);
             TierInv(t.(pool := t.pool.(tokens := t.pool.tokens + received)), now, Earns(c, key))
    ensures var t := TierOf(b, key);
            var s := t.(pool := t.pool.(tokens := t.pool.tokens + received));
            var r := Commit(b, c, key, s, received);
            if r.Failure? then StoreRefusal(c, key, s.pool) == Some(r.error)
            else StoreRefusal(c, key, s.pool).None? && FairBook(b, r.value, now)
  {
    hide BookInv, TierInv, Commit, Earns, Quotable, Fair, SameSchedule, FairBook, Configured, Moved, SharesOnly;
    var t := TierOf(b, key);
    var s := t.(pool := t.pool.(tokens := t.pool.tokens + received));
    CommitTokens(b, c, key, received, now);
    TokensFair(t, t.pool.tokens + received, now);
    var n := Commit(b, c, key, s, received);
    if n.Success? {
      OneTierFair(b, n.value, key, c.self, now);
    }
  }

  function DrawRefusal(b: Book, c: Deployment, e: EmitterState, key: TierKey, amount: int): Option<Error> {
    var p := TierOf(b, key).pool;
    if amount < 0 then Some(NegativeAmount)
    else if amount == 0 then None
    else if GateRefusal(b, c, e, key).Some? then GateRefusal(b, c, e, key)
    else if p.tokens < amount then Some(InsufficientFunds)
    else StoreRefusal(c, key, p.(tokens := p.tokens - amount))
  }

  lemma DrawOutcome(b: Book, c: Deployment, e: EmitterState, key: TierKey, amount: int, now: nat)
    requires BookInv(b, c, now)
    ensures var r, refusal := Draw(b, c, e, key, amount), DrawRefusal(b, c, e, key, amount);
            if r.Failure? then refusal == Some(r.error) else refusal.None? && FairBook(b, r.value, now)
  {
    hide BookInv, TierInv, Commit, PrepareWeight, Earns, StoreRefusal, Fair, SameSchedule, FairBook, Tiers.Draw,
         GateRefusal, Configured;
    var t := TierOf(b, key);
    GateIsExact(b, c, e, key);
    GateExact(b, c, e, key);
    BookTier(b, c, key, now);
    SameTiersFair(b, b, now);
    if 0 < amount {
      DrawKeeps(t, amount, now, Earns(c, key));
      DrawExact(t, amount, now, Earns(c, key));
      if PrepareWeight(b, c, e, key).Success? && Tiers.Draw(t, amount).Success? {
        TokensStored(b, c, key, -amount, now);
      }
    }
  }

  function DonateRefusal(b: Book, c: Deployment, e: EmitterState, key: TierKey, from: Address, amount: int)
    : Option<Error>
  {
    var p := TierOf(b, key).pool;
    if amount < 0 then Some(NegativeAmount)
    else if from == key.pool || from == c.self then Some(BadRequest)
    else if GateRefusal(b, c, e, key).Some? then GateRefusal(b, c, e, key)
    else if I128_MAX < p.tokens + amount then Some(Trap)
    else StoreRefusal(c, key, p.(tokens := p.tokens + amount))
  }

  lemma DonateOutcome(b: Book, c: Deployment, e: EmitterState, key: TierKey, from: Address, amount: int, now: nat)
    requires BookInv(b, c, now)
    ensures var r, refusal := Donate(b, c, e, key, from, amount), DonateRefusal(b, c, e, key, from, amount);
            if r.Failure? then refusal == Some(r.error) else refusal.None? && FairBook(b, r.value, now)
  {
    hide BookInv, TierInv, Commit, PrepareWeight, Earns, StoreRefusal, Fair, SameSchedule, FairBook, Tiers.Donate,
         GateRefusal, Configured, PoolBalances.PriceHolds;
    var t := TierOf(b, key);
    GateIsExact(b, c, e, key);
    GateExact(b, c, e, key);
    BookTier(b, c, key, now);
    if 0 <= amount {
      DonateKeeps(t, amount, now, Earns(c, key));
      DonateExact(t, amount, now, Earns(c, key));
      if PrepareWeight(b, c, e, key).Success? && Tiers.Donate(t, amount).Success? {
        TokensStored(b, c, key, amount, now);
      }
    }
  }
}
