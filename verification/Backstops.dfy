/** The backstop contract as a value: everything it stores, and what each entry point does to it. An
    operation that aborts returns a `Failure` and the stored value is unchanged. */
module Backstops {
  import opened Numbers
  import opened Sums
  import opened Tiers
  import opened Allocation
  import UserBalances
  import Emitters

  type EmitterState = Emitters.EmitterState

  /** The four backstop assets. BLNT:XLM and BLNT:USDC are the liquidity-pool tokens that earn. */
  datatype Asset = BlntXlm | BlntUsdc | Usdc | Xlm

  /** One pool's loss tier, counted from first loss. */
  datatype TierKey = TierKey(pool: Address, tier: nat)

  /** What never changes after deployment: the contract's own identity, its migration token, the tiers
      of every pool the factory registers, and the discretionary drop list. */
  datatype Deployment = Deployment(
    self: Address,
    migrationToken: Address,
    config: map<Address, seq<Asset>>,
    dropList: seq<(Address, int)>,
    extendedDrop: bool)

  /** Migration flags. The last three fields are history recorded at activation: the emitter checkpoint
      taken over, and what distribution had minted and skipped for this contract until then. */
  datatype Migration = Migration(
    epochStart: Option<nat>,
    verifiedUnlock: Option<nat>,
    activatedAt: Option<nat>,
    backfillEnd: Option<nat>,
    scheduledBackfill: int,
    fundedBackfill: Option<int>,
    activationCheckpoint: nat,
    mintedBefore: int,
    skippedBefore: int)

  /** Contract storage, the token balances the contract holds, and two histories: the total `granted` of
      pool-tranche BLNT handed to pools, and the allowance each pool was last approved. */
  datatype Book = Book(
    tiers: map<TierKey, Tier>,
    pools: map<Address, PoolEmissions>,
    ongoing: Ongoing,
    zone: seq<Address>,
    zoneCheckpoint: Option<nat>,
    distributionStarted: bool,
    gulps: map<Address, nat>,
    bindingVerified: bool,
    migration: Migration,
    held: map<Asset, int>,
    granted: int,
    approvals: map<Address, Approval>)

  /** What a pool may draw of the contract's BLNT, and through which ledger. */
  datatype Approval = Approval(allowance: int, expirationLedger: nat)

  function NoMigration(): Migration {
    Migration(None, None, None, None, 0, None, 0, 0, 0)
  }

  function NewBook(): Book {
    Book(map[], map[], NothingSince(None), [], None, false, map[], false, NoMigration(), map[], 0, map[])
  }

  const MAX_RZ_SIZE: nat := 30
  const LEDGER_BUMP_USER: nat := 17_280 * 180 - 1
  const CHECKPOINT_MAX_AGE_SECONDS: nat := 3_600
  const MIN_DISTRIBUTION_INTERVAL_SECONDS: nat := 5
  const POOL_EMISSION_GULP_INTERVAL_SECONDS: nat := DAY_SECONDS
  const QUEUE_ATTESTATION_WINDOW_SECONDS: nat := 7 * DAY_SECONDS
  const ACTIVATION_GRACE_SECONDS: nat := 7 * DAY_SECONDS
  const MAX_BACKFILLED_EMISSIONS: int := 10_000_000 * SCALAR_7
  const MAX_MIGRATION_DROP_LIST: int := Emitters.MAX_MIGRATION_DROP - MAX_BACKFILLED_EMISSIONS

  // Deployment.

  function ListTotal(list: seq<(Address, int)>, total: int): Result<int>
    decreases |list|
  {
    if list == [] then Success(total)
    else if list[0].1 < 0 then Failure(NegativeAmount)
    else
      var next :- I128(total + list[0].1);
      ListTotal(list[1..], next)
  }

  /** The constructor's checks: only the emitter's current recipient may list more than a migration
      candidate could drop. */
  function Deploy(self: Address, migrationToken: Address, config: map<Address, seq<Asset>>, list: seq<(Address, int)>,
                  e: EmitterState)
    : Result<Deployment>
  {
    var total :- ListTotal(list, 0);
    :- Require(total <= Emitters.MAX_INITIAL_DROP, BadRequest);
    var extended := total > MAX_MIGRATION_DROP_LIST;
    :- Require(!extended || e.backstop == self, BadRequest);
    Success(Deployment(self, migrationToken, config, list, extended))
  }

  // Configuration.

  predicate IsLp(a: Asset) {
    a.BlntXlm? || a.BlntUsdc?
  }

  function TierAsset(c: Deployment, key: TierKey): Result<Asset> {
    if key.pool !in c.config then Failure(NotPool)
    else if key.tier >= |c.config[key.pool]| then Failure(BadRequest)
    else Success(c.config[key.pool][key.tier])
  }

  function FirstIndex(assets: seq<Asset>, asset: Asset): Option<nat> {
    if assets == [] then None
    else if assets[0] == asset then Some(0)
    else
      match FirstIndex(assets[1..], asset)
      case None => None
      case Some(i) => Some(i + 1)
  }

  /** `emission_tier_for_token`: the pool's tier of a canonical LP, if it has one. */
  function EmissionTier(c: Deployment, pool: Address, asset: Asset): Result<Option<TierKey>> {
    if pool !in c.config then Failure(NotPool)
    else
      match FirstIndex(c.config[pool], asset)
      case None => Success(None)
      case Some(i) => Success(Some(TierKey(pool, i)))
  }

  function TierOf(b: Book, key: TierKey): Tier {
    if key in b.tiers then b.tiers[key] else EMPTY_TIER
  }

  /** Write a tier only if it changed: an absent record reads as the default one. */
  function Put(b: Book, key: TierKey, t: Tier): Book {
    if t == TierOf(b, key) then b else b.(tiers := b.tiers[key := t])
  }

  function HeldOf(b: Book, asset: Asset): int {
    if asset in b.held then b.held[asset] else 0
  }

  predicate IsActive(b: Book) {
    b.migration.activatedAt.Some?
  }

  // Weight bookkeeping around a balance change.

  /** `require_weight_mutation_allowed`: closed between the emitter switching here and activation. */
  predicate GateOpen(b: Book, c: Deployment, e: EmitterState) {
    IsActive(b) || e.backstop != c.self
  }

  function PrepareWeight(b: Book, c: Deployment, e: EmitterState, key: TierKey): Result<bool> {
    var asset :- TierAsset(c, key);
    if !IsLp(asset) then Success(false)
    else if !GateOpen(b, c, e) then Failure(MigrationNotActive)
    else Success(true)
  }

  function ActiveAssetsOf(b: Book, c: Deployment, pool: Address, asset: Asset): Result<int> {
    var key :- EmissionTier(c, pool, asset);
    match key
    case None => Success(0)
    case Some(k) => ActiveAssets(TierOf(b, k))
  }

  /** `refresh_pool_ongoing_assets`. */
  function Refresh(b: Book, c: Deployment, pool: Address): Result<Book> {
    var state :- CheckedPool(PoolOf(b.pools, pool));
    var usdc :- ActiveAssetsOf(b, c, pool, BlntUsdc);
    var xlm :- ActiveAssetsOf(b, c, pool, BlntXlm);
    var stored :- CheckedPool(state.(activeUsdc := usdc, activeXlm := xlm));
    Success(b.(pools := b.pools[pool := stored]))
  }

  /** Store a changed tier, move its tokens, and resample the pool's weight if the tier earns. */
  function Commit(b: Book, c: Deployment, key: TierKey, t: Tier, received: int): Result<Book> {
    var asset :- TierAsset(c, key);
    var stored := b.(tiers := b.tiers[key := t], held := b.held[asset := HeldOf(b, asset) + received]);
    if IsLp(asset) then Refresh(stored, c, key.pool) else Success(stored)
  }

  // Share operations.

  function Deposit(b: Book, c: Deployment, e: EmitterState, key: TierKey, user: Address, amount: int, now: nat)
    : Result<(Book, int)>
  {
    if amount < 0 then Failure(NegativeAmount) else
    :- Require(user != key.pool && user != c.self, BadRequest);
    :- Require(key.pool in c.config, NotPool);
    var (t, minted) :- Tiers.Deposit(TierOf(b, key), PrepareWeight(b, c, e, key), user, amount, now);
    var next :- Commit(b, c, key, t, amount);
    Success((next, minted))
  }

  function EntriesFrom(b: Book, c: Deployment, user: Address, pool: Address, from: nat): nat
    requires pool in c.config
    decreases |c.config[pool]| - from
  {
    if from >= |c.config[pool]| then 0
    else |DepositorOf(TierOf(b, TierKey(pool, from)), user).balance.q4w| + EntriesFrom(b, c, user, pool, from + 1)
  }

  function QueueWithdrawal(b: Book, c: Deployment, e: EmitterState, key: TierKey, user: Address, amount: int, now: nat)
    : Result<Book>
  {
    if amount < 0 then Failure(NegativeAmount) else
    :- Require(key.pool in c.config, NotPool);
    :- Require(EntriesFrom(b, c, user, key.pool, 0) < UserBalances.MAX_Q4W_SIZE, TooManyQ4WEntries);
    var t :- Tiers.Queue(TierOf(b, key), PrepareWeight(b, c, e, key), user, amount, now);
    Commit(b, c, key, t, 0)
  }

  function DequeueWithdrawal(b: Book, c: Deployment, e: EmitterState, key: TierKey, user: Address, amount: int,
                             now: nat)
    : Result<Book>
  {
    if amount < 0 then Failure(NegativeAmount) else
    var t :- Tiers.Dequeue(TierOf(b, key), PrepareWeight(b, c, e, key), user, amount, now);
    Commit(b, c, key, t, 0)
  }

  /** `liabilities` says whether the pool reports debt held by the backstop. */
  function WithdrawMatured(b: Book, c: Deployment, e: EmitterState, key: TierKey, user: Address, amount: int,
                           liabilities: bool, now: nat)
    : Result<(Book, int)>
  {
    if amount < 0 then Failure(NegativeAmount) else
    :- Require(!liabilities, BadDebtExists);
    var (t, returned) :- Tiers.Withdraw(TierOf(b, key), PrepareWeight(b, c, e, key), user, amount, now);
    var next :- Commit(b, c, key, t, -returned);
    Success((next, returned))
  }

  function ForceQueue(b: Book, c: Deployment, e: EmitterState, key: TierKey, user: Address, now: nat): Result<Book> {
    var shares := DepositorOf(TierOf(b, key), user).balance.shares;
    if shares <= 0 then Failure(BadRequest) else QueueWithdrawal(b, c, e, key, user, shares, now)
  }

  /** The sum loop of a forced withdrawal. */
  function MaturedSum(q: seq<UserBalances.Q4W>, now: nat, sum: int): Result<int>
    decreases |q|
  {
    if q == [] || q[0].exp > now then Success(sum)
    else
      var next :- I128(sum + q[0].amount);
      MaturedSum(q[1..], now, next)
  }

  function ForceWithdraw(b: Book, c: Deployment, e: EmitterState, key: TierKey, user: Address, liabilities: bool,
                         now: nat)
    : Result<(Book, int)>
  {
    var matured :- MaturedSum(DepositorOf(TierOf(b, key), user).balance.q4w, now, 0);
    if matured == 0 then Failure(NotExpired)
    else WithdrawMatured(b, c, e, key, user, matured, liabilities, now)
  }

  function Draw(b: Book, c: Deployment, e: EmitterState, key: TierKey, amount: int): Result<Book> {
    if amount < 0 then Failure(NegativeAmount) else
    if amount == 0 then Success(b)
    else
      var _ :- PrepareWeight(b, c, e, key);
      var t :- Tiers.Draw(TierOf(b, key), amount);
      Commit(b, c, key, t, -amount)
  }

  function Donate(b: Book, c: Deployment, e: EmitterState, key: TierKey, from: Address, amount: int): Result<Book> {
    if amount < 0 then Failure(NegativeAmount) else
    :- Require(from != key.pool && from != c.self, BadRequest);
    var _ :- PrepareWeight(b, c, e, key);
    var t :- Tiers.Donate(TierOf(b, key), amount);
    Commit(b, c, key, t, amount)
  }

  // Reward zone.

  function SpotUnderlying(b: Book, c: Deployment, pool: Address, asset: Asset, supply: int, reserve: int): Result<int> {
    var key :- EmissionTier(c, pool, asset);
    match key
    case None => Success(0)
    case Some(k) =>
      var lp :- ActiveAssets(TierOf(b, k));
      if lp < 0 || !Readable(supply, reserve) then Failure(InvalidEmissionValue)
      else UnderlyingBlnt(lp, supply, reserve)
  }

  function PoolWeight(b: Book, c: Deployment, pool: Address, comet: Composition): Result<int> {
    if IsActive(b) then
      var usdc :- SpotUnderlying(b, c, pool, BlntUsdc, comet.usdcSupply, comet.usdcReserve);
      var xlm :- SpotUnderlying(b, c, pool, BlntXlm, comet.xlmSupply, comet.xlmReserve);
      I128(usdc + xlm)
    else
      ActiveAssetsOf(b, c, pool, BlntUsdc)
  }

  predicate DistributedRecently(b: Book, now: nat) {
    !b.distributionStarted
    || (b.zoneCheckpoint.Some? && b.zoneCheckpoint.value <= now
        && now - b.zoneCheckpoint.value <= CHECKPOINT_MAX_AGE_SECONDS)
  }

  function IndexOf(zone: seq<Address>, pool: Address): Option<nat> {
    if zone == [] then None
    else if zone[0] == pool then Some(0)
    else
      match IndexOf(zone[1..], pool)
      case None => None
      case Some(i) => Some(i + 1)
  }

  function WithoutIndex(zone: seq<Address>, i: nat): seq<Address> {
    if i < |zone| then zone[..i] + zone[i + 1..] else zone
  }

  function AddReward(b: Book, c: Deployment, e: EmitterState, toAdd: Address, toRemove: Option<Address>,
                     comet: Composition, now: nat)
    : Result<Book>
  {
    if !GateOpen(b, c, e) then Failure(MigrationNotActive) else
    :- Require(|b.zone| <= MAX_RZ_SIZE, Overflow);
    :- Require(toAdd !in b.zone, InvalidRewardZoneEntry);
    var entrant :- PoolWeight(b, c, toAdd, comet);
    :- Require(entrant > 0, InvalidRewardZoneEntry);
    :- Require((b.zone == [] && IsActive(b)) || DistributedRecently(b, now), DistributionCheckpointRequired);
    var kept :- if |b.zone| < MAX_RZ_SIZE then Success(b.zone) else ReplaceMember(b, c, entrant, toRemove, comet);
    var refreshed :- Refresh(b, c, toAdd);
    Success(refreshed.(zone := [toAdd] + kept))
  }

  /** A full zone gives up a named member that the entrant strictly outweighs. */
  function ReplaceMember(b: Book, c: Deployment, entrant: int, toRemove: Option<Address>, comet: Composition)
    : Result<seq<Address>>
  {
    if toRemove.None? then Failure(RewardZoneFull) else
    var index := IndexOf(b.zone, toRemove.value);
    :- Require(index.Some?, InvalidRewardZoneEntry);
    var weight :- PoolWeight(b, c, toRemove.value, comet);
    :- Require(entrant > weight, InvalidRewardZoneEntry);
    Success(WithoutIndex(b.zone, index.value))
  }

  function RemoveReward(b: Book, c: Deployment, e: EmitterState, toRemove: Address, comet: Composition,
                        now: nat): Result<Book> {
    if !GateOpen(b, c, e) then Failure(MigrationNotActive) else
    :- Require(|b.zone| <= MAX_RZ_SIZE, Overflow);
    var index := IndexOf(b.zone, toRemove);
    :- Require(index.Some?, InvalidRewardZoneEntry);
    var weight :- PoolWeight(b, c, toRemove, comet);
    :- Require(weight == 0, InvalidRewardZoneEntry);
    :- Require(DistributedRecently(b, now), DistributionCheckpointRequired);
    Success(b.(zone := WithoutIndex(b.zone, index.value)))
  }

  // Distribution and migration.

  /** `advance_without_distribution`. */
  function AdvanceOnly(b: Book, o: Ongoing, checkpoint: nat): Result<Book> {
    var stored :- StoreOngoing(o.(lastDistribution := Some(checkpoint)));
    Success(b.(ongoing := stored, zoneCheckpoint := Some(checkpoint), distributionStarted := true))
  }

  function AllocateInto(b: Book, amount: int, checkpoint: nat, weights: seq<Weight>, eligible: int): Result<Book> {
    var (o, pools) :- AllocateDistribution(b.ongoing, b.pools, amount, checkpoint, weights, eligible);
    Success(b.(ongoing := o, pools := pools, zoneCheckpoint := Some(checkpoint), distributionStarted := true))
  }

  function CheckpointBackfill(b: Book, checkpoint: nat): Result<(Book, int)> {
    if IsActive(b) then Failure(AlreadyFinalized) else
    var state :- CheckedOngoing(b.ongoing);
    :- Require(state.lastDistribution.Some?, MigrationEpochNotOpen);
    :- Require(state.lastDistribution.value <= checkpoint, InvalidOngoingBalance);
    var (weights, eligible) :- CollectWeights(b.pools, b.zone, None);
    if eligible == 0 then
      var next :- AdvanceOnly(b, state, checkpoint);
      Success((next, 0))
    else
      var accrued :- I128((checkpoint - state.lastDistribution.value) * SCALAR_7);
      var remaining :- NonNegativeSub(MAX_BACKFILLED_EMISSIONS, b.migration.scheduledBackfill);
      var amount := Min(accrued, remaining);
      var next :- AllocateInto(b, amount, checkpoint, weights, eligible);
      var migration :- RecordBackfill(b.migration, amount);
      Success((next.(migration := migration), amount))
  }

  function RecordBackfill(m: Migration, amount: int): Result<Migration> {
    if amount < 0 then Failure(InvalidEmissionValue) else
    var next :- I128(m.scheduledBackfill + amount);
    :- Require(next <= MAX_BACKFILLED_EMISSIONS, MaxBackfillEmissions);
    Success(m.(scheduledBackfill := next))
  }

  /** `attest_queue`: remember the unlock time of a swap seen inside its window, forget it otherwise. */
  function AttestQueue(m: Migration, queued: Emitters.Swap, now: nat): Result<Migration> {
    var start := Max(0, queued.unlockTime - QUEUE_ATTESTATION_WINDOW_SECONDS);
    var end :- U64(queued.unlockTime + ACTIVATION_GRACE_SECONDS);
    Success(m.(verifiedUnlock := if start <= now <= end then Some(queued.unlockTime) else None))
  }

  /** `activate`: refuse unless the attested window is open or nothing was ever prepared, then take
      over the emitter's checkpoint. */
  function Activate(b: Book, c: Deployment, e: EmitterState, now: nat): Result<(Book, nat)> {
    var m := b.migration;
    :- CheckActivationWindow(m, now);
    :- Require(c.self in e.lastDistro, Trap);
    var last := e.lastDistro[c.self];
    :- Require(last <= now, InvalidOngoingBalance);
    var backfillEnd := if b.ongoing.lastDistribution.Some? then b.ongoing.lastDistribution.value else last;
    :- Require(backfillEnd <= last, InvalidOngoingBalance);
    Success((b.(ongoing := b.ongoing.(lastDistribution := Some(last)),
                migration := m.(activatedAt := Some(now), backfillEnd := Some(backfillEnd),
                                activationCheckpoint := last,
                                mintedBefore := At(e.history.minted, c.self),
                                skippedBefore := At(e.history.skipped, c.self))),
             last))
  }

  function CheckActivationWindow(m: Migration, now: nat): Guard {
    match m.verifiedUnlock
    case Some(unlock) =>
      if !FitsU64(unlock + ACTIVATION_GRACE_SECONDS) then Abort(Overflow)
      else Require(unlock <= now <= unlock + ACTIVATION_GRACE_SECONDS, SyncWindowExpired)
    case None =>
      Require(m.epochStart.None?, MigrationNotPrepared)
  }

  function OpenEpoch(b: Book, now: nat): Book {
    b.(migration := b.migration.(epochStart := Some(now)),
       ongoing := NothingSince(Some(now)),
       zoneCheckpoint := Some(now),
       distributionStarted := true)
  }

  /** The backfill arm of `distribution_transition`: re-attest, open the epoch once. */
  function PrepareBackfill(b: Book, c: Deployment, e: EmitterState, now: nat): Result<Book> {
    var m :- match e.queued
             case None => Success(b.migration.(verifiedUnlock := None))
             case Some(q) =>
               if q.newBackstop != c.self || q.newBackstopToken != c.migrationToken then Failure(InvalidQueuedSwap)
               else AttestQueue(b.migration, q, now);
    var attested := b.(migration := m);
    Success(if m.epochStart.None? then OpenEpoch(attested, now) else attested)
  }

  /** The BLNT balance difference that distribution makes for `a`. */
  function MintedTo(before: EmitterState, after: EmitterState, a: Address): int {
    At(after.history.minted, a) - At(before.history.minted, a)
  }

  function DistributeActive(b: Book, c: Deployment, e: EmitterState, comet: Composition, now: nat)
    : Result<(Book, EmitterState, int)>
  {
    if e.backstop != c.self then Failure(EmitterDidNotMigrate) else
    :- Require(b.zone != [], NoEligibleWeight);
    var state :- CheckedOngoing(b.ongoing);
    var (weights, eligible) :- CollectWeights(b.pools, b.zone, Some(comet));
    :- Require(state.lastDistribution.Some? && c.self in e.lastDistro, Trap);
    var last, before := state.lastDistribution.value, e.lastDistro[c.self];
    var (minted, emitted) :- Emitters.Distribute(e, c.self, now);
    :- Require(emitted >= 0, InvalidOngoingBalance);
    var checkpoint := minted.lastDistro[c.self];
    :- Require(last <= checkpoint, DistributionTooSoon);
    :- Require(checkpoint - last >= MIN_DISTRIBUTION_INTERVAL_SECONDS, DistributionTooSoon);
    :- Require(last <= before <= checkpoint <= now
      && emitted == (checkpoint - before) * SCALAR_7, InvalidOngoingBalance);
    :- Require(b.bindingVerified || (emitted > 0 && MintedTo(e, minted, c.self) == emitted), InvalidOngoingBalance);
    var amount :- I128((checkpoint - last) * SCALAR_7);
    var next :- AllocateInto(b, amount, checkpoint, weights, eligible);
    Success((next.(bindingVerified := true), minted, amount))
  }

  function Distribute(b: Book, c: Deployment, e: EmitterState, comet: Composition, now: nat)
    : Result<(Book, EmitterState, int)>
  {
    if IsActive(b) then DistributeActive(b, c, e, comet, now)
    else if e.backstop == c.self then
      var (active, checkpoint) :- Activate(b, c, e, now);
      var state :- CheckedOngoing(active.ongoing);
      var next :- AdvanceOnly(active, state, checkpoint);
      Success((next, e, 0))
    else
      var prepared :- PrepareBackfill(b, c, e, now);
      var (next, amount) :- CheckpointBackfill(prepared, now);
      Success((next, e, amount))
  }

  /** The totals loop of `drop`: everything listed, and what is listed for the contract itself. */
  function DropTotals(list: seq<(Address, int)>, self: Address, total: int, own: int): Result<(int, int)>
    decreases |list|
  {
    if list == [] then Success((total, own))
    else if list[0].1 < 0 then Failure(InvalidBackfillFunding)
    else
      var nextTotal :- I128(total + list[0].1);
      var nextOwn :- if list[0].0 == self then I128(own + list[0].1) else Success(own);
      DropTotals(list[1..], self, nextTotal, nextOwn)
  }

  function DropCap(c: Deployment): int {
    if c.extendedDrop then Emitters.MAX_INITIAL_DROP else Emitters.MAX_MIGRATION_DROP
  }

  function DropRecipients(c: Deployment, scheduled: int): seq<(Address, int)> {
    if scheduled > 0 then c.dropList + [(c.self, scheduled)] else c.dropList
  }

  function Drop(b: Book, c: Deployment, e: EmitterState): Result<(Book, EmitterState)> {
    if b.migration.fundedBackfill.Some? then Failure(BackfillAlreadyFunded) else
    :- Require(IsActive(b), MigrationNotActive);
    var scheduled := b.migration.scheduledBackfill;
    :- Require(0 <= scheduled <= MAX_BACKFILLED_EMISSIONS, InvalidBackfillFunding);
    var (total, expected) :- DropTotals(c.dropList, c.self, scheduled, scheduled);
    :- Require(total <= DropCap(c), InvalidBackfillFunding);
    var dropped :- Emitters.Drop(e, c.self, DropRecipients(c, scheduled));
    var received := At(dropped.history.dropMinted, c.self) - At(e.history.dropMinted,
        c.self);
    :- Require(received == expected, InvalidBackfillFunding);
    Success((b.(migration := b.migration.(fundedBackfill := Some(scheduled)), bindingVerified := true), dropped))
  }

  // Gulp and claim.

  function SetTokenRate(b: Book, c: Deployment, pool: Address, asset: Asset, pending: int, now: nat): Result<Book> {
    if pending == 0 then Success(b)
    else
      var key :- EmissionTier(c, pool, asset);
      :- Require(key.Some?, InvalidEmissionValue);
      var t :- SetEmissionRate(TierOf(b, key.value), pending, now);
      Success(Put(b, key.value, t))
  }

  predicate GulpedRecently(b: Book, pool: Address, now: nat) {
    pool in b.gulps
    && (b.gulps[pool] + POOL_EMISSION_GULP_INTERVAL_SECONDS > now
        || !FitsU64(b.gulps[pool] + POOL_EMISSION_GULP_INTERVAL_SECONDS))
  }

  /** What a gulp reads elsewhere: the pool's allowance so far and the ledger it runs in. */
  datatype Grant = Grant(allowance: Int128, sequence: nat)

  /** Raise the pool's allowance by its tranche. */
  function Approve(approvals: map<Address, Approval>, pool: Address, amount: int, grant: Grant)
    : Result<map<Address, Approval>>
  {
    if amount <= 0 then Success(approvals)
    else
      var allowance :- I128(grant.allowance + amount);
      :- Require(FitsU32(grant.sequence + LEDGER_BUMP_USER), Overflow);
      Success(approvals[pool := Approval(allowance, grant.sequence + LEDGER_BUMP_USER)])
  }

  function Gulp(b: Book, c: Deployment, pool: Address, grant: Grant, now: nat): Result<(Book, int, int)> {
    if pool !in c.config then Failure(NotPool) else
    :- Require(!GulpedRecently(b, pool, now), PoolEmissionGulpTooSoon);
    var state :- CheckedPool(PoolOf(b.pools, pool));
    var backstopAmount :- I128(state.pendingUsdc + state.pendingXlm);
    if backstopAmount == 0 && state.accruedPool == 0 then Success((b, 0, 0))
    else
      var first :- SetTokenRate(b, c, pool, BlntUsdc, state.pendingUsdc, now);
      var second :- SetTokenRate(first, c, pool, BlntXlm, state.pendingXlm, now);
      var approvals :- Approve(second.approvals, pool, state.accruedPool, grant);
      var stored :- CheckedPool(state.(pendingUsdc := 0, pendingXlm := 0, accruedPool := 0));
      Success((second.(pools := second.pools[pool := stored], gulps := second.gulps[pool := now],
                       granted := second.granted + state.accruedPool, approvals := approvals),
               backstopAmount, state.accruedPool))
  }

  /** Running state of the first claim loop: storage, each pool's claim, and their sum. */
  datatype Claimed = Claimed(book: Book, claims: seq<int>, blnt: int)

  function ClaimOne(c: Deployment, e: EmitterState, key: TierKey, asset: Asset, user: Address, now: nat, acc: Claimed)
    : Result<Claimed>
  {
    if key.pool !in c.config then Failure(NotPool) else
    var own :- TierAsset(c, key);
    :- Require(IsLp(own) && own == asset, InvalidEmissionValue);
    :- Require(GateOpen(acc.book, c, e), MigrationNotActive);
    var (t, claim) :- ClaimAccrued(TierOf(acc.book, key), user, now);
    var blnt :- I128(acc.blnt + claim);
    Success(Claimed(Put(acc.book, key, t), acc.claims + [claim], blnt))
  }

  function ClaimFrom(c: Deployment, e: EmitterState, tier: nat, asset: Asset, user: Address, pools: seq<Address>,
                     i: nat, now: nat, acc: Claimed)
    : Result<Claimed>
    requires i <= |pools|
    decreases |pools| - i
  {
    if i == |pools| then Success(acc)
    else
      :- Require(pools[i] !in pools[..i], BadRequest);
      var next :- ClaimOne(c, e, TierKey(pools[i], tier), asset, user, now, acc);
      ClaimFrom(c, e, tier, asset, user, pools, i + 1, now, next)
  }

  /** Compound one pool's proportion of the LP bought with the whole batch. */
  function CreditOne(b: Book, c: Deployment, key: TierKey, user: Address, lp: int, claim: int,
                     blnt: int): Result<Book> {
    var amount :- ProportionalFloor(lp, claim, blnt);
    if amount == 0 then Success(b)
    else
      var (t, _) :- CreditShares(TierOf(b, key), user, amount);
      Refresh(b.(tiers := b.tiers[key := t]), c, key.pool)
  }

  function CreditFrom(b: Book, c: Deployment, tier: nat, user: Address, pools: seq<Address>, claims: seq<int>,
                      i: nat, lp: int, blnt: int)
    : Result<Book>
    requires i <= |pools| == |claims|
    decreases |pools| - i
  {
    if i == |pools| then Success(b)
    else
      var next :- CreditOne(b, c, TierKey(pools[i], tier), user, lp, claims[i], blnt);
      CreditFrom(next, c, tier, user, pools, claims, i + 1, lp, blnt)
  }

  /** The liquidity pool's trade for a batch: the LP it says it minted, the balance differences the contract
      sees for LP and BLNT, and the ledger of the call. */
  datatype Exchange = Exchange(minted: Int128, received: Int128, spent: Int128, sequence: nat)

  /** Approvals expire at the next multiple of 100,000 ledgers. */
  function ApprovalLedger(sequence: nat): nat {
    (sequence / 100_000 + 1) * 100_000
  }

  /** The LP bought with `blnt`, when the trade meets the caller's minimum and moved exactly these amounts. */
  function Bought(trade: Exchange, blnt: int, minLp: int): Result<int> {
    if !FitsU32(ApprovalLedger(trade.sequence)) then Failure(Overflow) else
    :- Require(trade.minted >= minLp, Trap);
    :- Require(trade.spent == blnt && trade.received == trade.minted && trade.minted > 0, BalanceError);
    Success(trade.minted)
  }

  function Claim(b: Book, c: Deployment, e: EmitterState, tier: nat, user: Address, pools: seq<Address>,
                 minLp: int, trade: Exchange, now: nat)
    : Result<(Book, int)>
  {
    if !IsActive(b) then Failure(MigrationNotActive) else
    var scheduled := b.migration.scheduledBackfill;
    :- Require(scheduled <= 0 || b.migration.fundedBackfill == Some(scheduled), BackfillNotFunded);
    :- Require(pools != [], BadRequest);
    :- Require(minLp >= 0, NegativeAmount);
    var asset :- TierAsset(c, TierKey(pools[0], tier));
    :- Require(IsLp(asset), InvalidEmissionValue);
    var claimed :- ClaimFrom(c, e, tier, asset, user, pools, 0, now, Claimed(b, [], 0));
    ClaimedCounts(c, e, tier, asset, user, pools, 0, now, Claimed(b, [], 0));
    Compound(claimed.book, c, tier, asset, user, pools, claimed.claims, claimed.blnt, minLp, trade)
  }

  /** Book a batch of claims, take delivery of the LP it buys, and credit it pool by pool. */
  function Compound(b: Book, c: Deployment, tier: nat, asset: Asset, user: Address, pools: seq<Address>,
                    claims: seq<int>, blnt: int, minLp: int, trade: Exchange)
    : Result<(Book, int)>
    requires |claims| == |pools|
  {
    if blnt == 0 then Success((b, 0))
    else
      var ongoing :- BookedClaim(b.ongoing, blnt);
      var lp :- Bought(trade, blnt, minLp);
      var funded := b.(ongoing := ongoing, held := b.held[asset := HeldOf(b, asset) + lp]);
      var credited :- CreditFrom(funded, c, tier, user, pools, claims, 0, lp, blnt);
      Success((credited, lp))
  }

  function BookedClaim(o: Ongoing, amount: int): Result<Ongoing> {
    var state :- CheckedOngoing(o);
    var total :- I128(state.backstopClaimed + amount);
    StoreOngoing(state.(backstopClaimed := total))
  }

  lemma OneCounts(c: Deployment, e: EmitterState, key: TierKey, asset: Asset, user: Address, now: nat, acc: Claimed)
    ensures ClaimOne(c, e, key, asset, user, now, acc).Success? ==>
              var r := ClaimOne(c, e, key, asset, user, now, acc).value;
              |r.claims| == |acc.claims| + 1 && r.book == acc.book.(tiers := r.book.tiers)
  {
    hide ClaimAccrued, TierAsset, TierOf, GateOpen;
  }

  /** The first loop records one claim per pool and touches nothing but tiers. */
  lemma {:induction false} ClaimedCounts(c: Deployment, e: EmitterState, tier: nat, asset: Asset, user: Address,
                                         pools: seq<Address>, i: nat, now: nat, acc: Claimed)
    requires i <= |pools| && |acc.claims| == i
    ensures ClaimFrom(c, e, tier, asset, user, pools, i, now, acc).Success? ==>
              var r := ClaimFrom(c, e, tier, asset, user, pools, i, now, acc).value;
              |r.claims| == |pools| && r.book == acc.book.(tiers := r.book.tiers)
    decreases |pools| - i
  {
    hide ClaimOne;
    if i < |pools| {
      var next := ClaimOne(c, e, TierKey(pools[i], tier), asset, user, now, acc);
      if next.Success? {
        OneCounts(c, e, TierKey(pools[i], tier), asset, user, now, acc);
        ClaimedCounts(c, e, tier, asset, user, pools, i + 1, now, next.value);
      }
    }
  }
}
