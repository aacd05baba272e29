/** The contract-wide invariant, and the share operations that keep it. */
module BookLaws {
  import opened Numbers
  import opened Sums
  import opened Tiers
  import opened TierLaws
  import opened Allocation
  import opened AllocationLaws
  import opened Backstops
  import UserBalances

  /** At most three tiers a pool, and each canonical LP in at most one of them. */
  predicate ValidTiers(assets: seq<Asset>) {
    |assets| <= 3 && forall i, j | 0 <= i < j < |assets| && assets[i] == assets[j] :: !IsLp(assets[i])
  }

  predicate ValidConfig(c: Deployment) {
    forall pool | pool in c.config :: ValidTiers(c.config[pool])
  }

  predicate Configured(c: Deployment, key: TierKey) {
    TierAsset(c, key).Success?
  }

  predicate Earns(c: Deployment, key: TierKey) {
    Configured(c, key) && IsLp(TierAsset(c, key).value)
  }

  function PoolsWith(c: Deployment, asset: Asset): set<Address> {
    set pool | pool in c.config && asset in c.config[pool]
  }

  ghost function FundedOf(tiers: map<TierKey, Tier>): map<TierKey, int> {
    map k | k in tiers :: tiers[k].funded
  }

  ghost function ClaimedOf(tiers: map<TierKey, Tier>): map<TierKey, int> {
    map k | k in tiers :: tiers[k].claimed
  }

  function TokensIn(c: Deployment, key: TierKey, t: Tier, asset: Asset): int {
    if TierAsset(c, key) == Success(asset) then t.pool.tokens else 0
  }

  ghost function TokensOf(c: Deployment, tiers: map<TierKey, Tier>, asset: Asset): map<TierKey, int> {
    map k | k in tiers :: TokensIn(c, k, tiers[k], asset)
  }

  ghost predicate TiersInv(b: Book, c: Deployment, now: nat) {
    forall k | k in b.tiers :: Configured(c, k) && TierInv(b.tiers[k], now, Earns(c, k))
  }

  /** Pool records are well signed, and pending BLNT of each kind has a tier to stream into. */
  predicate PoolsInv(b: Book, c: Deployment) {
    ValidPools(b.pools) && Placed(b.pools, PoolsWith(c, BlntUsdc), PoolsWith(c, BlntXlm))
  }

  /** All that was distributed is accounted for; the depositor tranche sits in pools or was streamed
      into tiers; the pool tranche sits in pools or was granted; claims add up. */
  ghost predicate GlobalLedger(b: Book) {
    && OngoingLedger(b.ongoing)
    && b.ongoing.backstopAllocated == Sum(BackstopHeldOf(b.pools)) + Sum(FundedOf(b.tiers))
    && b.ongoing.poolAllocated == Sum(PoolHeldOf(b.pools)) + b.granted && 0 <= b.granted
    && b.ongoing.backstopClaimed == Sum(ClaimedOf(b.tiers))
  }

  /** A pool's cached active LP equals what its canonical balance says. */
  predicate CacheAgrees(b: Book, c: Deployment, pool: Address) {
    && ActiveAssetsOf(b, c, pool, BlntUsdc) == Success(PoolOf(b.pools, pool).activeUsdc)
    && ActiveAssetsOf(b, c, pool, BlntXlm) == Success(PoolOf(b.pools, pool).activeXlm)
  }

  predicate CacheInv(b: Book, c: Deployment) {
    forall pool | pool in c.config :: CacheAgrees(b, c, pool)
  }

  predicate Distinct(zone: seq<Address>) {
    forall i, j | 0 <= i < j < |zone| :: zone[i] != zone[j]
  }

  predicate ZoneInv(b: Book, c: Deployment) {
    && |b.zone| <= MAX_RZ_SIZE && Distinct(b.zone)
    && forall i | 0 <= i < |b.zone| :: b.zone[i] in c.config
  }

  /** For each token, the contract holds at least what its tiers account for. */
  ghost predicate Custody(b: Book, c: Deployment) {
    forall asset: Asset :: Sum(TokensOf(c, b.tiers, asset)) <= HeldOf(b, asset)
  }

  /** No depositor has more than 20 queued entries over a pool's tiers. */
  ghost predicate EntryCaps(b: Book, c: Deployment) {
    forall user: Address, pool | pool in c.config ::
      EntriesFrom(b, c, user, pool, 0) <= UserBalances.MAX_Q4W_SIZE
  }

  /** Everything that does not concern where distributed BLNT is. */
  ghost predicate Holdings(b: Book, c: Deployment, now: nat) {
    && ValidConfig(c) && TiersInv(b, c, now) && PoolsInv(b, c)
    && CacheInv(b, c) && ZoneInv(b, c) && Custody(b, c) && EntryCaps(b, c)
  }

  ghost predicate BookInv(b: Book, c: Deployment, now: nat) {
    Holdings(b, c, now) && GlobalLedger(b)
  }

  lemma NewBookInv(c: Deployment, now: nat)
    requires ValidConfig(c)
    ensures BookInv(NewBook(), c, now)
  {
    hide GlobalLedger, Custody;
    EmptyLedger(NewBook());
    EmptyCustody(NewBook(), c);
    forall user: Address, pool | pool in c.config ensures EntriesFrom(NewBook(), c, user, pool, 0) == 0 {
      NoEntries(NewBook(), c, user, pool, 0);
    }
  }

  lemma EmptyLedger(b: Book)
    requires b.tiers == map[] && b.pools == map[] && b.granted == 0
    requires OngoingLedger(b.ongoing)
    requires b.ongoing.backstopAllocated == b.ongoing.poolAllocated == b.ongoing.backstopClaimed == 0
    ensures GlobalLedger(b)
  {
    hide Sum, OngoingLedger;
    SumEmpty<TierKey>();
    SumEmpty<Address>();
    assert FundedOf(b.tiers) == map[];
    assert ClaimedOf(b.tiers) == map[];
    assert BackstopHeldOf(b.pools) == map[];
    assert PoolHeldOf(b.pools) == map[];
  }

  lemma EmptyCustody(b: Book, c: Deployment)
    requires b.tiers == map[] && b.held == map[]
    ensures Custody(b, c)
  {
    hide Sum;
    SumEmpty<TierKey>();
    forall asset: Asset ensures Sum(TokensOf(c, b.tiers, asset)) <= HeldOf(b, asset) {
      assert TokensOf(c, b.tiers, asset) == map[];
    }
  }

  lemma {:induction false} NoEntries(b: Book, c: Deployment, user: Address, pool: Address, from: nat)
    requires b.tiers == map[] && pool in c.config
    ensures EntriesFrom(b, c, user, pool, from) == 0
    decreases |c.config[pool]| - from
  {
    if from < |c.config[pool]| {
      NoEntries(b, c, user, pool, from + 1);
    }
  }

  lemma BookTimePasses(b: Book, c: Deployment, now: nat, later: nat)
    requires BookInv(b, c, now) && now <= later
    ensures BookInv(b, c, later)
  {
    hide PoolsInv, GlobalLedger, CacheInv, ZoneInv, Custody, EntryCaps, TierInv;
    forall k | k in b.tiers ensures TierInv(b.tiers[k], later, Earns(c, k)) {
      TimePasses(b.tiers[k], now, later, Earns(c, k));
    }
  }

  lemma TierOfInv(b: Book, c: Deployment, key: TierKey, now: nat)
    requires TiersInv(b, c, now)
    ensures TierInv(TierOf(b, key), now, Earns(c, key))
  {
    hide TierInv;
    EmptyTierInv(now, Earns(c, key));
  }

  lemma {:induction false} FirstIndexExact(assets: seq<Asset>, asset: Asset)
    ensures match FirstIndex(assets, asset)
            case None => asset !in assets
            case Some(i) => i < |assets| && assets[i] == asset
  {
    if assets != [] && assets[0] != asset {
      FirstIndexExact(assets[1..], asset);
    }
  }

  /** The tier found for a canonical LP is configured with it, and is the pool's only one. */
  lemma EmissionTierExact(c: Deployment, pool: Address, asset: Asset)
    requires ValidConfig(c) && pool in c.config && IsLp(asset)
    ensures match EmissionTier(c, pool, asset).value
            case None => asset !in c.config[pool]
            case Some(k) =>
              && k.pool == pool && TierAsset(c, k) == Success(asset) && pool in PoolsWith(c, asset)
              && (forall j: TierKey | j.pool == pool && TierAsset(c, j) == Success(asset) :: j == k)
  {
    FirstIndexExact(c.config[pool], asset);
  }

  // Storing one changed tier.

  lemma StoreTier(c: Deployment, tiers: map<TierKey, Tier>, key: TierKey, t: Tier)
    ensures var prior := if key in tiers then tiers[key] else EMPTY_TIER;
            && Sum(FundedOf(tiers[key := t])) == Sum(FundedOf(tiers)) - prior.funded + t.funded
            && Sum(ClaimedOf(tiers[key := t])) == Sum(ClaimedOf(tiers)) - prior.claimed + t.claimed
  {
    var next := tiers[key := t];
    assert FundedOf(next) == FundedOf(tiers)[key := t.funded];
    assert ClaimedOf(next) == ClaimedOf(tiers)[key := t.claimed];
    SumUpdate(FundedOf(tiers), key, t.funded);
    SumUpdate(ClaimedOf(tiers), key, t.claimed);
  }

  lemma StoreTokens(c: Deployment, tiers: map<TierKey, Tier>, key: TierKey, t: Tier, asset: Asset)
    ensures var prior := if key in tiers then tiers[key] else EMPTY_TIER;
            Sum(TokensOf(c, tiers[key := t], asset))
            == Sum(TokensOf(c, tiers, asset)) - TokensIn(c, key, prior, asset) + TokensIn(c, key, t, asset)
  {
    hide TierAsset;
    assert TokensOf(c, tiers[key := t], asset) == TokensOf(c, tiers, asset)[key := TokensIn(c, key, t, asset)];
    SumUpdate(TokensOf(c, tiers, asset), key, TokensIn(c, key, t, asset));
  }

  function Entries(t: Tier, user: Address): nat {
    |DepositorOf(t, user).balance.q4w|
  }

  lemma {:induction false} StoreEntries(b: Book, n: Book, c: Deployment, key: TierKey, t: Tier, user: Address,
                                        pool: Address, from: nat)
    requires n.tiers == b.tiers[key := t] && pool in c.config
    ensures EntriesFrom(n, c, user, pool, from) ==
            EntriesFrom(b, c, user, pool, from)
            + if key.pool == pool && from <= key.tier < |c.config[pool]|
              then Entries(t, user) - Entries(TierOf(b, key), user) else 0
    decreases |c.config[pool]| - from
  {
    if from < |c.config[pool]| {
      StoreEntries(b, n, c, key, t, user, pool, from + 1);
    }
  }

  /** What may change in a tier without disturbing the contract-wide ledgers. */
  ghost predicate Replaceable(b: Book, c: Deployment, key: TierKey, t: Tier, received: int, user: Address, now: nat) {
    var s := TierOf(b, key);
    && TierInv(t, now, Earns(c, key))
    && t.funded == s.funded && t.claimed == s.claimed
    && t.pool.tokens == s.pool.tokens + received
    && (forall u :: u != user ==> Entries(t, u) <= Entries(s, u))
    && (Entries(t, user) <= Entries(s, user)
        || (Configured(c, key)
            && EntriesFrom(b, c, user, key.pool, 0) + Entries(t, user) - Entries(s, user) <= UserBalances.MAX_Q4W_SIZE))
  }

  lemma StoreKeepsCaps(b: Book, n: Book, c: Deployment, key: TierKey, t: Tier, received: int, user: Address, now: nat)
    requires EntryCaps(b, c) && Replaceable(b, c, key, t, received, user, now) && n.tiers == b.tiers[key := t]
    ensures EntryCaps(n, c)
  {
    hide TierInv, Entries;
    forall u: Address, pool | pool in c.config
      ensures EntriesFrom(n, c, u, pool, 0) <= UserBalances.MAX_Q4W_SIZE
    {
      StoreEntries(b, n, c, key, t, u, pool, 0);
    }
  }

  lemma StoreKeepsCustody(b: Book, n: Book, c: Deployment, key: TierKey, t: Tier, received: int)
    requires Custody(b, c) && Configured(c, key) && t.pool.tokens == TierOf(b, key).pool.tokens + received
    requires var asset := TierAsset(c, key).value;
             n.tiers == b.tiers[key := t] && n.held == b.held[asset := HeldOf(b, asset) + received]
    ensures Custody(n, c)
  {
    hide TokensOf;
    forall asset: Asset ensures Sum(TokensOf(c, n.tiers, asset)) <= HeldOf(n, asset) {
      StoreTokens(c, b.tiers, key, t, asset);
    }
  }

  /** Pools other than the one touched, and every pool when the tier does not earn, keep their quote. */
  lemma QuoteUnchanged(b: Book, n: Book, c: Deployment, key: TierKey, t: Tier, pool: Address, asset: Asset)
    requires ValidConfig(c) && pool in c.config && IsLp(asset) && n.tiers == b.tiers[key := t]
    requires pool != key.pool || !Earns(c, key)
    ensures ActiveAssetsOf(n, c, pool, asset) == ActiveAssetsOf(b, c, pool, asset)
  {
    hide ActiveAssets;
    EmissionTierExact(c, pool, asset);
  }

  lemma RefreshForm(b: Book, c: Deployment, pool: Address, usdc: Result<int>, xlm: Result<int>)
    requires pool in c.config && ValidPoolEmissions(PoolOf(b.pools, pool))
    requires usdc == ActiveAssetsOf(b, c, pool, BlntUsdc) && xlm == ActiveAssetsOf(b, c, pool, BlntXlm)
    requires usdc.Success? ==> 0 <= usdc.value
    requires xlm.Success? ==> 0 <= xlm.value
    ensures Refresh(b, c, pool) ==
            if usdc.Failure? then Failure(usdc.error)
            else if xlm.Failure? then Failure(xlm.error)
            else Success(b.(pools := b.pools[pool := PoolOf(b.pools, pool).(activeUsdc := usdc.value,
                activeXlm := xlm.value)]))
  {
    hide ActiveAssetsOf, PoolOf;
  }

  lemma PoolRecordValid(pools: map<Address, PoolEmissions>, pool: Address)
    requires ValidPools(pools)
    ensures ValidPoolEmissions(PoolOf(pools, pool))
  {
  }

  lemma RecacheKeepsPools(pools: map<Address, PoolEmissions>, pool: Address, usdc: int, xlm: int,
                          usdcPools: set<Address>, xlmPools: set<Address>)
    requires ValidPools(pools) && Placed(pools, usdcPools, xlmPools) && 0 <= usdc && 0 <= xlm
    ensures var next := pools[pool := PoolOf(pools, pool).(activeUsdc := usdc, activeXlm := xlm)];
            && ValidPools(next) && Placed(next, usdcPools, xlmPools)
            && Sum(BackstopHeldOf(next)) == Sum(BackstopHeldOf(pools))
            && Sum(PoolHeldOf(next)) == Sum(PoolHeldOf(pools))
  {
    hide Sum, BackstopHeldOf, PoolHeldOf;
    ReplacePool(pools, pool, PoolOf(pools, pool).(activeUsdc := usdc, activeXlm := xlm));
  }

  lemma RecacheAgrees(b: Book, n: Book, c: Deployment, pool: Address, usdc: int, xlm: int)
    requires pool in c.config && n.tiers == b.tiers
    requires n.pools == b.pools[pool := PoolOf(b.pools, pool).(activeUsdc := usdc, activeXlm := xlm)]
    requires ActiveAssetsOf(b, c, pool, BlntUsdc) == Success(usdc)
             && ActiveAssetsOf(b, c, pool, BlntXlm) == Success(xlm)
    requires forall p | p in c.config && p != pool :: CacheAgrees(b, c, p)
    ensures CacheInv(n, c)
  {
    hide ActiveAssetsOf;
    forall q | q in c.config ensures CacheAgrees(n, c, q) {
      SameQuote(b, n, c, q, BlntUsdc);
      SameQuote(b, n, c, q, BlntXlm);
    }
  }

  /** Only this pool's cached amounts were written, each with the active part of its tier. */
  predicate Recached(b: Book, n: Book, c: Deployment, pool: Address)
    requires pool in c.config
  {
    var p := PoolOf(n.pools, pool);
    && n.pools == b.pools[pool := PoolOf(b.pools, pool).(activeUsdc := p.activeUsdc, activeXlm := p.activeXlm)]
    && QuoteIs(b, c, pool, BlntUsdc, p.activeUsdc) && QuoteIs(b, c, pool, BlntXlm, p.activeXlm)
  }

  /** Resampling a pool restores agreement between its cache and its balances, and moves no BLNT. */
  lemma RefreshKeeps(b: Book, c: Deployment, pool: Address, now: nat)
    requires ValidConfig(c) && TiersInv(b, c, now) && PoolsInv(b, c) && pool in c.config
    requires forall p | p in c.config && p != pool :: CacheAgrees(b, c, p)
    ensures Refresh(b, c, pool).Success? <==> QuoteFits(b, c, pool, BlntUsdc) && QuoteFits(b, c, pool, BlntXlm)
    ensures match Refresh(b, c, pool)
            case Failure(e) => e == Trap
            case Success(n) =>
              && n == b.(pools := n.pools) && PoolsInv(n, c) && CacheInv(n, c) && Recached(b, n, c, pool)
              && Sum(BackstopHeldOf(n.pools)) == Sum(BackstopHeldOf(b.pools))
              && Sum(PoolHeldOf(n.pools)) == Sum(PoolHeldOf(b.pools))
  {
    hide ActiveAssetsOf, TiersInv, BackstopHeldOf, PoolHeldOf, EmissionTier, ValidConfig, Sum, Refresh, CacheInv,
         ValidPools, Placed, ValidPoolEmissions, CacheAgrees, QuoteIs, QuoteFits;
    QuoteExact(b, c, pool, BlntUsdc, now);
    QuoteExact(b, c, pool, BlntXlm, now);
    var usdc, xlm := ActiveAssetsOf(b, c, pool, BlntUsdc), ActiveAssetsOf(b, c, pool, BlntXlm);
    PoolRecordValid(b.pools, pool);
    RefreshForm(b, c, pool, usdc, xlm);
    if usdc.Success? && xlm.Success? {
      RecacheKeepsPools(b.pools, pool, usdc.value, xlm.value, PoolsWith(c, BlntUsdc), PoolsWith(c, BlntXlm));
      RecacheAgrees(b, Refresh(b, c, pool).value, c, pool, usdc.value, xlm.value);
    }
  }

  lemma SameQuote(b: Book, n: Book, c: Deployment, pool: Address, asset: Asset)
    requires n.tiers == b.tiers
    ensures ActiveAssetsOf(n, c, pool, asset) == ActiveAssetsOf(b, c, pool, asset)
  {
  }

  /** What a pool's weight of one LP is made of: the active part of its tier of that LP, or nothing. */
  predicate QuoteIs(b: Book, c: Deployment, pool: Address, asset: Asset, amount: int)
    requires pool in c.config
  {
    && 0 <= amount && (asset !in c.config[pool] ==> amount == 0)
    && forall i | 0 <= i < |c.config[pool]| && c.config[pool][i] == asset ::
         ActivePart(TierOf(b, TierKey(pool, i)).pool, amount)
  }

  predicate QuoteFits(b: Book, c: Deployment, pool: Address, asset: Asset)
    requires pool in c.config
  {
    forall i | 0 <= i < |c.config[pool]| && c.config[pool][i] == asset :: Quotable(TierOf(b, TierKey(pool, i)).pool)
  }

  /** A quote is exactly the active part, and only an over-wide product stops it. */
  lemma QuoteExact(b: Book, c: Deployment, pool: Address, asset: Asset, now: nat)
    requires ValidConfig(c) && TiersInv(b, c, now) && pool in c.config && IsLp(asset)
    ensures ActiveAssetsOf(b, c, pool, asset).Success? <==> QuoteFits(b, c, pool, asset)
    ensures match ActiveAssetsOf(b, c, pool, asset)
            case Failure(e) => e == Trap
            case Success(a) =>
              && QuoteIs(b, c, pool, asset, a) && 0 <= a
              && match EmissionTier(c, pool, asset).value
                 case None => a == 0
                 case Some(k) => a <= TierOf(b, k).pool.tokens && TierAsset(c, k) == Success(asset) && k.pool == pool
  {
    hide TierInv, ActiveAssets, ActivePart, Quotable;
    EmissionTierExact(c, pool, asset);
    match EmissionTier(c, pool, asset).value
    case None =>
    case Some(k) =>
      TierOfInv(b, c, k, now);
      TierQuote(TierOf(b, k), now, Earns(c, k));
      forall i | 0 <= i < |c.config[pool]| && c.config[pool][i] == asset ensures TierKey(pool, i) == k {
        assert TierAsset(c, TierKey(pool, i)) == Success(asset);
      }
  }

  lemma TierQuote(t: Tier, now: nat, eligible: bool)
    requires TierInv(t, now, eligible)
    ensures match ActiveAssets(t)
            case Failure(e) => e == Trap && !Quotable(t.pool)
            case Success(a) => 0 <= a <= t.pool.tokens && ActivePart(t.pool, a) && Quotable(t.pool)
  {
    ActiveAssetsExact(t);
  }

  lemma LedgerStored(b: Book, n: Book, c: Deployment, key: TierKey, t: Tier)
    requires GlobalLedger(b) && n.tiers == b.tiers[key := t] && n.pools == b.pools
    requires n.ongoing == b.ongoing && n.granted == b.granted
    requires t.funded == TierOf(b, key).funded && t.claimed == TierOf(b, key).claimed
    ensures GlobalLedger(n)
  {
    hide Sum, OngoingLedger, FundedOf, ClaimedOf, BackstopHeldOf, PoolHeldOf;
    StoreTier(c, b.tiers, key, t);
  }

  lemma LedgerRecached(b: Book, n: Book)
    requires GlobalLedger(b) && n == b.(pools := n.pools)
    requires Sum(BackstopHeldOf(n.pools)) == Sum(BackstopHeldOf(b.pools))
    requires Sum(PoolHeldOf(n.pools)) == Sum(PoolHeldOf(b.pools))
    ensures GlobalLedger(n)
  {
    hide Sum, OngoingLedger, FundedOf, ClaimedOf, BackstopHeldOf, PoolHeldOf;
  }

  lemma ZoneStored(b: Book, n: Book, c: Deployment)
    requires ZoneInv(b, c) && n.zone == b.zone
    ensures ZoneInv(n, c)
  {
  }

  lemma CachesWhole(b: Book, c: Deployment, pool: Address, eligible: bool)
    requires forall p | p in c.config && (p != pool || !eligible) :: CacheAgrees(b, c, p)
    ensures forall p | p in c.config && p != pool :: CacheAgrees(b, c, p)
    ensures !eligible ==> CacheInv(b, c)
  {
    hide CacheAgrees;
  }

  /** With the caches in agreement before, only the changed tier can fail to be quoted. */
  lemma StoredFits(b: Book, stored: Book, c: Deployment, key: TierKey, t: Tier, now: nat)
    requires ValidConfig(c) && TiersInv(b, c, now) && CacheInv(b, c) && Earns(c, key)
    requires stored.tiers == b.tiers[key := t]
    ensures QuoteFits(stored, c, key.pool, BlntUsdc) && QuoteFits(stored, c, key.pool, BlntXlm) <==> Quotable(t.pool)
  {
    hide TiersInv, Quotable, QuoteIs, ActiveAssetsOf, EmissionTier;
    QuoteExact(b, c, key.pool, BlntUsdc, now);
    QuoteExact(b, c, key.pool, BlntXlm, now);
    assert CacheAgrees(b, c, key.pool);
    var assets := c.config[key.pool];
    assert TierOf(stored, TierKey(key.pool, key.tier)) == t;
    forall i | 0 <= i < |assets| && i != key.tier
      ensures TierOf(stored, TierKey(key.pool, i)) == TierOf(b, TierKey(key.pool, i))
    {
    }
  }

  /** Storing a replaceable tier and resampling keeps everything; it traps exactly when the changed tier earns and
      its active part cannot be quoted. */
  lemma CommitKeeps(b: Book, c: Deployment, key: TierKey, t: Tier, received: int, user: Address, now: nat)
    requires BookInv(b, c, now) && Configured(c, key) && Replaceable(b, c, key, t, received, user, now)
    ensures match Commit(b, c, key, t, received)
            case Failure(e) => e == Trap && Earns(c, key) && !Quotable(t.pool)
            case Success(n) =>
              && BookInv(n, c, now) && (Earns(c, key) ==> Quotable(t.pool))
              && var asset := TierAsset(c, key).value;
              n == b.(tiers := b.tiers[key := t], pools := n.pools,
                held := b.held[asset := HeldOf(b, asset) + received])
  {
    hide TierInv, Sum, Replaceable, EntryCaps, Custody, Refresh, TiersInv, PoolsInv, CacheAgrees, CacheInv, ZoneInv,
         FundedOf, ClaimedOf, BackstopHeldOf, PoolHeldOf, ValidConfig, OngoingLedger, GlobalLedger, Quotable,
         QuoteFits, Recached;
    var asset := TierAsset(c, key).value;
    var stored := b.(tiers := b.tiers[key := t], held := b.held[asset := HeldOf(b, asset) + received]);
    ReplaceableInv(b, c, key, t, received, user, now);
    StoreKeepsCaps(b, stored, c, key, t, received, user, now);
    StoreKeepsCustody(b, stored, c, key, t, received);
    TiersStored(b, stored, c, key, t, now);
    LedgerStored(b, stored, c, key, t);
    ZoneStored(b, stored, c);
    PoolsStored(b, stored, c);
    CachesStored(b, stored, c, key, t);
    CachesWhole(stored, c, key.pool, Earns(c, key));
    if Earns(c, key) {
      StoredFits(b, stored, c, key, t, now);
      RefreshKeeps(stored, c, key.pool, now);
      if Refresh(stored, c, key.pool).Success? {
        var n := Refresh(stored, c, key.pool).value;
        CapsIgnorePools(stored, n, c);
        TiersIgnorePools(stored, n, c, now);
        ZoneStored(stored, n, c);
        LedgerRecached(stored, n);
      }
    }
  }

  lemma TiersIgnorePools(b: Book, n: Book, c: Deployment, now: nat)
    requires TiersInv(b, c, now) && n.tiers == b.tiers
    ensures TiersInv(n, c, now)
  {
  }

  lemma PoolsStored(b: Book, n: Book, c: Deployment)
    requires PoolsInv(b, c) && n.pools == b.pools
    ensures PoolsInv(n, c)
  {
  }

  lemma ReplaceableInv(b: Book, c: Deployment, key: TierKey, t: Tier, received: int, user: Address, now: nat)
    requires Replaceable(b, c, key, t, received, user, now)
    ensures t.funded == TierOf(b, key).funded && t.claimed == TierOf(b, key).claimed
    ensures t.pool.tokens == TierOf(b, key).pool.tokens + received && TierInv(t, now, Earns(c, key))
  {
  }

  lemma TiersStored(b: Book, n: Book, c: Deployment, key: TierKey, t: Tier, now: nat)
    requires TiersInv(b, c, now) && Configured(c, key) && TierInv(t, now, Earns(c, key)) && n.tiers == b.tiers[key := t]
    ensures TiersInv(n, c, now)
  {
    hide TierInv;
  }

  lemma CachesStored(b: Book, n: Book, c: Deployment, key: TierKey, t: Tier)
    requires ValidConfig(c) && CacheInv(b, c) && n.tiers == b.tiers[key := t] && n.pools == b.pools
    ensures forall p | p in c.config && (p != key.pool || !Earns(c, key)) :: CacheAgrees(n, c, p)
  {
    hide ActiveAssetsOf, Earns;
    forall p | p in c.config && (p != key.pool || !Earns(c, key)) ensures CacheAgrees(n, c, p) {
      QuoteUnchanged(b, n, c, key, t, p, BlntUsdc);
      QuoteUnchanged(b, n, c, key, t, p, BlntXlm);
    }
  }

  lemma CapsIgnorePools(b: Book, n: Book, c: Deployment)
    requires n.tiers == b.tiers && n.held == b.held
    requires EntryCaps(b, c) && Custody(b, c)
    ensures EntryCaps(n, c) && Custody(n, c)
  {
    hide TokensOf;
    forall user: Address, pool | pool in c.config
      ensures EntriesFrom(n, c, user, pool, 0) == EntriesFrom(b, c, user, pool, 0)
    {
      SameEntries(b, n, c, user, pool, 0);
    }
  }

  lemma {:induction false} SameEntries(b: Book, n: Book, c: Deployment, user: Address, pool: Address, from: nat)
    requires n.tiers == b.tiers && pool in c.config
    ensures EntriesFrom(n, c, user, pool, from) == EntriesFrom(b, c, user, pool, from)
    decreases |c.config[pool]| - from
  {
    if from < |c.config[pool]| {
      SameEntries(b, n, c, user, pool, from + 1);
    }
  }

  /** So in every state that keeps the invariant each cached amount is the active part of its tier. */
  ghost predicate CachesExact(b: Book, c: Deployment) {
    forall pool | pool in c.config ::
      && QuoteIs(b, c, pool, BlntUsdc, PoolOf(b.pools, pool).activeUsdc)
      && QuoteIs(b, c, pool, BlntXlm, PoolOf(b.pools, pool).activeXlm)
  }

  lemma CachesAreActiveParts(b: Book, c: Deployment, now: nat)
    requires Holdings(b, c, now)
    ensures CachesExact(b, c)
  {
    hide TiersInv, QuoteIs, ActiveAssetsOf, PoolsInv, ZoneInv, Custody, EntryCaps, EmissionTier;
    forall pool | pool in c.config
      ensures QuoteIs(b, c, pool, BlntUsdc, PoolOf(b.pools, pool).activeUsdc)
      ensures QuoteIs(b, c, pool, BlntXlm, PoolOf(b.pools, pool).activeXlm)
    {
      assert CacheAgrees(b, c, pool);
      QuoteExact(b, c, pool, BlntUsdc, now);
      QuoteExact(b, c, pool, BlntXlm, now);
    }
  }
}
