/** One pool tier: its balance, its depositors, its emission stream, and what each operation on it
    does. `funded`, `claimed` and `forfeited` are history: the BLNT streamed in, the BLNT paid out, and
    the stream value (times 10^7) that elapsed while nobody held active shares. */
module Tiers {
  import opened Numbers
  import opened UserBalances
  import PoolBalances
  import opened Streams

  type PoolRecord = PoolBalances.PoolRecord

  datatype Depositor = Depositor(balance: UserRecord, emission: UserEmission)

  datatype Tier = Tier(
    pool: PoolRecord,
    users: map<Address, Depositor>,
    stream: Option<EmissionData>,
    funded: int,
    claimed: int,
    forfeited: int)

  const NEW_DEPOSITOR := Depositor(EMPTY_USER, EMPTY_EMISSION)
  const EMPTY_TIER := Tier(PoolBalances.EMPTY_POOL, map[], None, 0, 0, 0)

  function DepositorOf(t: Tier, user: Address): Depositor {
    if user in t.users then t.users[user] else NEW_DEPOSITOR
  }

  function SetBalance(t: Tier, user: Address, balance: UserRecord): Tier {
    t.(users := t.users[user := DepositorOf(t, user).(balance := balance)])
  }

  /** `update_emission_data`: advance the stream, if there is one. */
  function AdvanceTier(t: Tier, now: nat): Result<Tier> {
    match t.stream
    case None => Success(t)
    case Some(d) =>
      var a :- Advance(d, t.pool, now);
      Success(t.(stream := Some(a), forfeited := t.forfeited + Forfeited(d, t.pool, now)))
  }

  /** `update_emissions`: advance the stream, then accrue one user on the balances still in storage. */
  function Checkpoint(t: Tier, user: Address, now: nat): Result<Tier> {
    if t.stream.None? then Success(t)
    else
      var a :- AdvanceTier(t, now);
      var u := DepositorOf(t, user);
      var e :- Accrue(u.emission, u.balance.shares, a.stream.value.index);
      Success(a.(users := a.users[user := u.(emission := e)]))
  }

  function CheckpointIf(t: Tier, eligible: bool, user: Address, now: nat): Result<Tier> {
    if eligible then Checkpoint(t, user, now) else Success(t)
  }

  /** `claim_emissions`: checkpoint, then take everything accrued. */
  function ClaimAccrued(t: Tier, user: Address, now: nat): Result<(Tier, int)> {
    var c :- Checkpoint(t, user, now);
    var u := DepositorOf(c, user);
    var accrued := u.emission.accrued;
    if accrued > 0 then
      Success((c.(users := c.users[user := u.(emission := u.emission.(accrued := 0))],
                  claimed := c.claimed + accrued), accrued))
    else
      Success((c, accrued))
  }

  /** `set_backstop_emission_eps`. */
  function SetEmissionRate(t: Tier, pending: int, now: nat): Result<Tier> {
    if pending < 0 then Failure(InvalidEmissionValue)
    else
      var a :- AdvanceTier(t, now);
      if pending == 0 then Success(a)
      else
        var d :- Restream(a.stream, pending, now);
        Success(a.(stream := Some(d), funded := a.funded + pending))
  }

  /** `credit_tier_shares`: mint shares for tokens already held. */
  function CreditShares(t: Tier, user: Address, amount: int): Result<(Tier, int)> {
    var minted :- PoolBalances.ConvertToShares(t.pool, amount);
    if minted <= 0 then Failure(InvalidShareMintAmount)
    else
      var pool :- PoolBalances.Deposit(t.pool, amount, minted);
      var balance := DepositorOf(t, user).balance;
      var shares :- I128Trap(balance.shares + minted);
      Success((SetBalance(t.(pool := pool), user, balance.(shares := shares)), minted))
  }

  // The balance operations. `gate` is the outcome of the weight-change preparation: whether the tier
  // earns emissions, or the reason the mutation is refused. Each edits copies read before the
  // checkpoint; the checkpoint itself sees the balances in storage.

  function Deposit(t: Tier, gate: Result<bool>, user: Address, amount: int, now: nat): Result<(Tier, int)> {
    var eligible :- gate;
    var c :- CheckpointIf(t, eligible, user, now);
    CreditShares(c, user, amount)
  }

  function Queue(t: Tier, gate: Result<bool>, user: Address, amount: int, now: nat): Result<Tier> {
    var balance :- QueueShares(DepositorOf(t, user).balance, amount, now);
    var eligible :- gate;
    var c :- CheckpointIf(t, eligible, user, now);
    var pool :- PoolBalances.QueueForWithdraw(t.pool, amount);
    Success(SetBalance(c.(pool := pool), user, balance))
  }

  function Dequeue(t: Tier, gate: Result<bool>, user: Address, amount: int, now: nat): Result<Tier> {
    var balance :- DequeueShares(DepositorOf(t, user).balance, amount);
    var eligible :- gate;
    var c :- CheckpointIf(t, eligible, user, now);
    var shares :- I128Trap(balance.shares + amount);
    var pool :- PoolBalances.DequeueQ4w(t.pool, amount);
    Success(SetBalance(c.(pool := pool), user, balance.(shares := shares)))
  }

  function Withdraw(t: Tier, gate: Result<bool>, user: Address, amount: int, now: nat): Result<(Tier, int)> {
    var balance :- WithdrawShares(DepositorOf(t, user).balance, amount, now);
    var toReturn :- PoolBalances.ConvertToTokens(t.pool, amount);
    if toReturn == 0 && t.pool.tokens != 0 then Failure(InvalidTokenWithdrawAmount)
    else
      var eligible :- gate;
      var c :- CheckpointIf(t, eligible, user, now);
      var pool :- PoolBalances.Withdraw(t.pool, toReturn, amount);
      Success((SetBalance(c.(pool := pool), user, balance), toReturn))
  }

  function Draw(t: Tier, amount: int): Result<Tier> {
    var pool :- PoolBalances.Withdraw(t.pool, amount, 0);
    Success(t.(pool := pool))
  }

  function Donate(t: Tier, amount: int): Result<Tier> {
    var pool :- PoolBalances.Deposit(t.pool, amount, 0);
    Success(t.(pool := pool))
  }

  /** LP tokens backing the shares that earn emissions. */
  function ActiveAssets(t: Tier): Result<int> {
    if t.pool.tokens < 0 || t.pool.shares < 0 || t.pool.q4w < 0 || t.pool.q4w > t.pool.shares then
      Failure(InvalidEmissionValue)
    else
      PoolBalances.ConvertToTokens(t.pool, t.pool.shares - t.pool.q4w)
  }
}
