/** A batched claim pays what the streams owe, never more than was streamed in, and compounds the bought
    LP back into shares without creating or losing tokens. */
module ClaimLaws {
  import opened Numbers
  import opened Sums
  import Tiers
  import opened TierLaws
  import opened Allocation
  import opened AllocationLaws
  import opened Backstops
  import opened BookLaws
  import opened DistributionLaws
  import PoolBalances
  import ShareLaws

  type Tier = Tiers.Tier

  // Claims stay within allocations.

  lemma ClaimsWithinFunding(b: Book, c: Deployment, now: nat)
    requires TiersInv(b, c, now)
    ensures Sum(ClaimedOf(b.tiers)) <= Sum(FundedOf(b.tiers))
  {
    hide Sum, TierInv;
    forall k | k in b.tiers ensures b.tiers[k].claimed <= b.tiers[k].funded {
      ClaimedAtMostFunded(b.tiers[k], now, Earns(c, k));
    }
    SumMonotone(ClaimedOf(b.tiers), FundedOf(b.tiers));
  }

  lemma HeldNonNegative(pools: map<Address, PoolEmissions>)
    requires ValidPools(pools)
    ensures 0 <= Sum(BackstopHeldOf(pools)) && 0 <= Sum(PoolHeldOf(pools))
  {
    hide Sum;
    SumNonNegative(BackstopHeldOf(pools));
    SumNonNegative(PoolHeldOf(pools));
  }

  /** Claims never exceed what was streamed in, which never exceeds what was allocated. */
  lemma ClaimedWithinAllocated(b: Book, c: Deployment, now: nat)
    requires TiersInv(b, c, now) && PoolsInv(b, c)
    requires b.ongoing.backstopAllocated == Sum(BackstopHeldOf(b.pools)) + Sum(FundedOf(b.tiers))
    ensures Sum(ClaimedOf(b.tiers)) <= Sum(FundedOf(b.tiers)) <= b.ongoing.backstopAllocated
  {
    hide Sum, TiersInv, BackstopHeldOf, FundedOf, ClaimedOf;
    ClaimsWithinFunding(b, c, now);
    HeldNonNegative(b.pools);
  }

  // The first loop.

  /** The claim loop's state after `i` pools. */
  ghost predicate Claiming(b: Book, c: Deployment, tier: nat, asset: Asset, user: Address, pools: seq<Address>, i: nat,
                           now: nat, acc: Claimed)
  {
    && i <= |pools| && |acc.claims| == i && acc.blnt == SeqSum(acc.claims)
    && (forall j | 0 <= j < i :: 0 <= acc.claims[j])
    && (forall j, k | 0 <= j < k < i :: pools[j] != pools[k])
    && (forall j | 0 <= j < i :: ClaimedHere(acc.book, c, TierKey(pools[j], tier), asset, user))
    && acc.book == b.(tiers := acc.book.tiers) && Holdings(acc.book, c, now) && SameBalances(b, acc.book)
    && Sum(FundedOf(acc.book.tiers)) == Sum(FundedOf(b.tiers))
    && Sum(ClaimedOf(acc.book.tiers)) == Sum(ClaimedOf(b.tiers)) + acc.blnt
    && Sum(TokensOf(c, acc.book.tiers, asset)) == Sum(TokensOf(c, b.tiers, asset))
  }

  /** The user's accrual in this tier has been taken, up to date with the stream. */
  predicate ClaimedHere(b: Book, c: Deployment, key: TierKey, asset: Asset, user: Address) {
    && TierAsset(c, key) == Success(asset) && Synced(TierOf(b, key), user)
    && Tiers.DepositorOf(TierOf(b, key), user).emission.accrued == 0
  }

  lemma ClaimOneKeeps(b: Book, c: Deployment, e: EmitterState, tier: nat, asset: Asset, user: Address,
                      pools: seq<Address>,
                      i: nat, now: nat, acc: Claimed)
    requires Claiming(b, c, tier, asset, user, pools, i, now, acc) && i < |pools| && IsActive(b)
             && pools[i] !in pools[..i]
    ensures var key := TierKey(pools[i], tier);
            match ClaimOne(c, e, key, asset, user, now, acc)
            case Failure(x) =>
              || x == Overflow || x in {NotPool, BadRequest}
              || (x == InvalidEmissionValue && (TierAsset(c, key) != Success(asset) || !IsLp(asset)))
            case Success(next) => Claiming(b, c, tier, asset, user, pools, i + 1, now, next)
  {
    hide Holdings, TierInv, Sum, FundedOf, ClaimedOf, TokensOf, SameBalances, TierAsset, Tiers.ClaimAccrued, Synced;
    var key := TierKey(pools[i], tier);
    if ClaimOne(c, e, key, asset, user, now, acc).Failure? {
      ClaimOneErrors(b, c, e, key, asset, user, now, acc);
    } else {
      var next := ClaimOne(c, e, key, asset, user, now, acc).value;
      ClaimOneStores(c, e, key, asset, user, now, acc);
      var claim := next.claims[i];
      forall j | 0 <= j < i ensures pools[j] != pools[i] {
        assert pools[..i][j] == pools[j];
      }
      SameBalancesTwice(b, acc.book, next.book);
      SeqSumAppend(acc.claims, [claim]);
      SeqSumOne(claim);
      forall j | 0 <= j < i + 1 ensures ClaimedHere(next.book, c, TierKey(pools[j], tier), asset, user) {
        if j < i {
          assert ClaimedHere(acc.book, c, TierKey(pools[j], tier), asset, user);
          assert TierOf(next.book, TierKey(pools[j], tier)) == TierOf(acc.book, TierKey(pools[j], tier));
        }
      }
    }
  }

  lemma SeqSumOne(x: int)
    ensures SeqSum([x]) == x
  {
    assert [x][1..] == [];
  }

  lemma HoldingsTier(b: Book, c: Deployment, key: TierKey, now: nat)
    requires Holdings(b, c, now)
    ensures TierInv(TierOf(b, key), now, Earns(c, key)) && TiersInv(b, c, now) && ValidConfig(c)
  {
    hide TierInv, PoolsInv, CacheInv, ZoneInv, Custody, EntryCaps;
    TierOfInv(b, c, key, now);
  }

  lemma ClaimOneErrors(b: Book, c: Deployment, e: EmitterState, key: TierKey, asset: Asset, user: Address, now: nat,
                       acc: Claimed)
    requires Holdings(acc.book, c, now) && acc.book == b.(tiers := acc.book.tiers) && IsActive(b)
    requires ClaimOne(c, e, key, asset, user, now, acc).Failure?
    ensures var x := ClaimOne(c, e, key, asset, user, now, acc).error;
            || x == Overflow || x in {NotPool, BadRequest}
            || (x == InvalidEmissionValue && (TierAsset(c, key) != Success(asset) || !IsLp(asset)))
  {
    hide Holdings, TierInv, Tiers.ClaimAccrued;
    HoldingsTier(acc.book, c, key, now);
    ClaimKeeps(TierOf(acc.book, key), user, now, Earns(c, key));
  }

  /** One successful turn: exactly one tier is stored, with the user's accrual moved to the claim. */
  lemma ClaimOneStores(c: Deployment, e: EmitterState, key: TierKey, asset: Asset, user: Address, now: nat,
                       acc: Claimed)
    requires Holdings(acc.book, c, now) && ClaimOne(c, e, key, asset, user, now, acc).Success?
    ensures var next := ClaimOne(c, e, key, asset, user, now, acc).value;
            && |next.claims| == |acc.claims| + 1 && next.claims == acc.claims + [next.claims[|acc.claims|]]
            && var claim := next.claims[|acc.claims|];
            && 0 <= claim && next.blnt == acc.blnt + claim
            && next.book == acc.book.(tiers := next.book.tiers)
            && (forall k: TierKey :: k != key ==> TierOf(next.book, k) == TierOf(acc.book, k))
            && Sum(FundedOf(next.book.tiers)) == Sum(FundedOf(acc.book.tiers))
            && Sum(ClaimedOf(next.book.tiers)) == Sum(ClaimedOf(acc.book.tiers)) + claim
            && Sum(TokensOf(c, next.book.tiers, asset)) == Sum(TokensOf(c, acc.book.tiers, asset))
            && ClaimedHere(next.book, c, key, asset, user)
            && Holdings(next.book, c, now) && SameBalances(acc.book, next.book)
  {
    hide Holdings, TierInv, Tiers.ClaimAccrued, SameBalances, Synced, Sum, FundedOf, ClaimedOf, TokensOf, Put;
    HoldingsTier(acc.book, c, key, now);
    var s := TierOf(acc.book, key);
    ClaimKeeps(s, user, now, Earns(c, key));
    var (t, claim) := Tiers.ClaimAccrued(s, user, now).value;
    var next := ClaimOne(c, e, key, asset, user, now, acc).value;
    PutSame(acc.book, c, key, t, now);
  }

  predicate SameLp(c: Deployment, tier: nat, pools: seq<Address>, asset: Asset) {
    IsLp(asset) && forall i | 0 <= i < |pools| :: TierAsset(c, TierKey(pools[i], tier)) == Success(asset)
  }

  lemma {:induction false} ClaimFromKeeps(b: Book, c: Deployment, e: EmitterState, tier: nat, asset: Asset,
                                          user: Address,
                                          pools: seq<Address>, i: nat, now: nat, acc: Claimed)
    requires Claiming(b, c, tier, asset, user, pools, i, now, acc) && IsActive(b)
    ensures match ClaimFrom(c, e, tier, asset, user, pools, i, now, acc)
            case Failure(x) =>
              x == Overflow || x in {NotPool, BadRequest}
                || (x == InvalidEmissionValue && !SameLp(c, tier, pools, asset))
            case Success(r) => Claiming(b, c, tier, asset, user, pools, |pools|, now, r)
    decreases |pools| - i
  {
    hide Claiming, ClaimOne;
    ClaimingBounds(b, c, tier, asset, user, pools, i, now, acc);
    if i < |pools| && pools[i] !in pools[..i] {
      ClaimOneKeeps(b, c, e, tier, asset, user, pools, i, now, acc);
      var next := ClaimOne(c, e, TierKey(pools[i], tier), asset, user, now, acc);
      if next.Success? {
        ClaimFromKeeps(b, c, e, tier, asset, user, pools, i + 1, now, next.value);
      }
    }
  }

  lemma ClaimingBounds(b: Book, c: Deployment, tier: nat, asset: Asset, user: Address, pools: seq<Address>, i: nat,
                       now: nat, acc: Claimed)
    requires Claiming(b, c, tier, asset, user, pools, i, now, acc)
    ensures i <= |pools| && |acc.claims| == i
  {
  }

  // The second loop.

  /** What compounding may do to a tier: only `user` gains shares, and nobody's shares lose value. */
  ghost predicate Grew(s: Tier, t: Tier, user: Address) {
    && PoolBalances.ValidPool(s.pool) && PoolBalances.ValidPool(t.pool)
    && s.pool.shares <= t.pool.shares && s.pool.tokens <= t.pool.tokens && s.pool.q4w == t.pool.q4w
    && (0 < s.pool.shares ==> PoolBalances.PriceHolds(s.pool, t.pool))
    && Tiers.DepositorOf(s, user).balance.shares <= Tiers.DepositorOf(t, user).balance.shares
    && Tiers.DepositorOf(s, user).balance.q4w == Tiers.DepositorOf(t, user).balance.q4w
    && (forall u: Address :: u != user ==> Tiers.DepositorOf(t, u).balance == Tiers.DepositorOf(s, u).balance)
  }

  ghost predicate CreditsOnly(b: Book, n: Book, user: Address) {
    forall k: TierKey :: Grew(TierOf(b, k), TierOf(n, k), user)
  }

  lemma GrewTwice(s: Tier, t: Tier, r: Tier, user: Address)
    requires Grew(s, t, user) && Grew(t, r, user)
    ensures Grew(s, r, user)
  {
    hide PoolBalances.PriceHolds;
    if 0 < s.pool.shares {
      PoolBalances.PriceTransitive(s.pool, t.pool, r.pool);
    }
  }

  lemma CreditsTwice(a: Book, b: Book, n: Book, user: Address)
    requires CreditsOnly(a, b, user) && CreditsOnly(b, n, user)
    ensures CreditsOnly(a, n, user)
  {
    hide Grew;
    forall k: TierKey ensures Grew(TierOf(a, k), TierOf(n, k), user) {
      assert Grew(TierOf(a, k), TierOf(b, k), user) && Grew(TierOf(b, k), TierOf(n, k), user);
      GrewTwice(TierOf(a, k), TierOf(b, k), TierOf(n, k), user);
    }
  }

  lemma Unmoved(s: Tier, t: Tier, user: Address, now: nat, eligible: bool)
    requires TierInv(s, now, eligible) && SameTier(s, t)
    ensures Grew(s, t, user)
  {
    hide TierInv, Tiers.DepositorOf;
    UserFacts(s, user, now, eligible);
  }

  lemma SameIsCredits(b: Book, n: Book, c: Deployment, user: Address, now: nat)
    requires Holdings(b, c, now) && SameBalances(b, n)
    ensures CreditsOnly(b, n, user)
  {
    hide Holdings, TierInv, Grew, SameTier;
    forall k: TierKey ensures Grew(TierOf(b, k), TierOf(n, k), user) {
      HoldingsTier(b, c, k, now);
      assert SameTier(TierOf(b, k), TierOf(n, k));
      Unmoved(TierOf(b, k), TierOf(n, k), user, now, Earns(c, k));
    }
  }

  /** The book as custody sees it while `due` of the bought LP is not yet credited. */
  function Undue(b: Book, asset: Asset, due: int): Book {
    b.(held := b.held[asset := HeldOf(b, asset) - due])
  }

  lemma RefreshIgnoresHeld(b: Book, c: Deployment, pool: Address, held: map<Asset, int>)
    ensures Refresh(b.(held := held), c, pool) ==
            match Refresh(b, c, pool)
            case Failure(x) => Failure(x)
            case Success(n) => Success(n.(held := held))
  {
    SameQuote(b, b.(held := held), c, pool, BlntUsdc);
    SameQuote(b, b.(held := held), c, pool, BlntXlm);
    hide ActiveAssetsOf;
  }

  /** Crediting a tier out of LP already received is a commit of the same tier out of LP just received. */
  lemma CreditIsCommit(b: Book, c: Deployment, key: TierKey, asset: Asset, t: Tier, amount: int, due: int)
    requires TierAsset(c, key) == Success(asset) && IsLp(asset)
    ensures Commit(Undue(b, asset, due), c, key, t, amount) ==
            match Refresh(b.(tiers := b.tiers[key := t]), c, key.pool)
            case Failure(x) => Failure(x)
            case Success(n) => Success(Undue(n, asset, due - amount))
  {
    hide TierAsset, Refresh;
    var g := Undue(b, asset, due);
    var next := b.(tiers := b.tiers[key := t]);
    var held := g.held[asset := HeldOf(g, asset) + amount];
    assert held == b.held[asset := HeldOf(b, asset) - (due - amount)];
    assert g.(tiers := g.tiers[key := t], held := held) == next.(held := held);
    RefreshIgnoresHeld(next, c, key.pool, held);
    if Refresh(next, c, key.pool).Success? {
      RefreshKeepsHeld(next, c, key.pool);
    }
  }

  lemma RefreshKeepsHeld(b: Book, c: Deployment, pool: Address)
    requires Refresh(b, c, pool).Success?
    ensures var n := Refresh(b, c, pool).value; n == b.(pools := n.pools)
  {
    hide ActiveAssetsOf, PoolOf;
  }

  /** One credit: the tier receives the floor of its proportion. */
  lemma CreditOneKeeps(b: Book, c: Deployment, key: TierKey, asset: Asset, user: Address, lp: int, claim: int,
                       blnt: int,
                       due: int, now: nat)
    requires BookInv(Undue(b, asset, due), c, now) && ClaimedHere(b, c, key, asset, user) && IsLp(asset)
    requires 0 <= lp && 0 <= claim && 0 < blnt
    ensures var r := CreditOne(b, c, key, user, lp, claim, blnt);
            if r.Failure? then r.error in {Overflow, Trap, InvalidShareMintAmount}
            else
              var share := ProportionalFloor(lp, claim, blnt);
              && share.Success? && r.value == b.(tiers := r.value.tiers, pools := r.value.pools)
              && BookInv(Undue(r.value, asset, due - share.value), c, now) && CreditsOnly(b, r.value, user)
              && Sum(TokensOf(c, r.value.tiers, asset)) == Sum(TokensOf(c, b.tiers, asset)) + share.value
              && Sum(ClaimedOf(r.value.tiers)) == Sum(ClaimedOf(b.tiers))
              && (forall k: TierKey :: k != key ==> TierOf(r.value, k) == TierOf(b, k))
  {
    hide BookInv, TierInv, ProportionalFloor, Refresh, Commit, Kept, CreditsOnly, Tiers.CreditShares, Sum, TokensOf,
         ClaimedOf,
         PoolBalances.PriceHolds, Synced;
    var g := Undue(b, asset, due);
    ProportionOnlyOverflows(lp, claim, blnt);
    var share := ProportionalFloor(lp, claim, blnt);
    ShareLaws.BookTier(g, c, key, now);
    if share.Success? {
      ShareNonNegative(lp, claim, blnt, share.value);
      if share.value == 0 {
        NothingMoved(b);
        SameBookCredits(b, g, c, user, now);
      } else {
        var s := TierOf(b, key);
        assert TierOf(g, key) == s;
        CreditKeeps(s, user, share.value, now, Earns(c, key));
        var r := Tiers.CreditShares(s, user, share.value);
        if r.Success? {
          var t := r.value.0;
          CreditIsCommit(b, c, key, asset, t, share.value, due);
          KeptFacts(s, t, user, now, Earns(c, key));
          ShareLaws.CommitShares(g, c, key, t, share.value, user, now);
          var next := Refresh(b.(tiers := b.tiers[key := t]), c, key.pool);
          if next.Success? {
            RefreshKeepsHeld(b.(tiers := b.tiers[key := t]), c, key.pool);
            StoreTokens(c, b.tiers, key, t, asset);
            StoreTier(c, b.tiers, key, t);
            CreditedTier(b, next.value, g, c, key, t, user, now);
          }
        }
      }
    }
  }

  lemma ShareNonNegative(value: int, part: int, whole: int, share: int)
    requires 0 <= value && 0 <= part && 0 < whole && ProportionalFloor(value, part, whole) == Success(share)
    ensures 0 <= share && share * whole <= value * part < share * whole + whole
  {
    MulNonNegative(value, part);
    DivMonotone(0, value * part, whole);
    DivBounds(value * part, whole);
  }

  lemma SameBookCredits(b: Book, g: Book, c: Deployment, user: Address, now: nat)
    requires BookInv(g, c, now) && g.tiers == b.tiers
    ensures CreditsOnly(b, b, user)
  {
    hide Holdings, GlobalLedger, TierInv, Grew;
    forall k: TierKey ensures Grew(TierOf(b, k), TierOf(b, k), user) {
      HoldingsTier(g, c, k, now);
      assert TierOf(g, k) == TierOf(b, k);
      Unmoved(TierOf(b, k), TierOf(b, k), user, now, Earns(c, k));
    }
  }

  lemma KeptFacts(s: Tier, t: Tier, user: Address, now: nat, eligible: bool)
    requires Kept(s, t, user, now, eligible)
    ensures TierInv(t, now, eligible) && t.funded == s.funded && t.claimed == s.claimed
    ensures forall u: Address :: u != user ==> Tiers.DepositorOf(t, u).balance == Tiers.DepositorOf(s, u).balance
  {
    hide TierInv;
  }

  lemma CreditedTier(b: Book, n: Book, g: Book, c: Deployment, key: TierKey, t: Tier, user: Address, now: nat)
    requires BookInv(g, c, now) && g.tiers == b.tiers && n.tiers == b.tiers[key := t]
    requires TierInv(t, now, Earns(c, key))
    requires var s := TierOf(b, key);
             && s.pool.shares <= t.pool.shares && s.pool.tokens <= t.pool.tokens && s.pool.q4w == t.pool.q4w
             && (0 < s.pool.shares ==> PoolBalances.PriceHolds(s.pool, t.pool))
             && Tiers.DepositorOf(s, user).balance.shares <= Tiers.DepositorOf(t, user).balance.shares
             && Tiers.DepositorOf(s, user).balance.q4w == Tiers.DepositorOf(t, user).balance.q4w
             && (forall u: Address :: u != user ==> Tiers.DepositorOf(t, u).balance == Tiers.DepositorOf(s, u).balance)
    ensures CreditsOnly(b, n, user)
  {
    hide BookInv, TierInv, PoolBalances.PriceHolds, Tiers.DepositorOf;
    SameBookCredits(b, g, c, user, now);
    ShareLaws.BookTier(g, c, key, now);
    assert TierOf(g, key) == TierOf(b, key);
    UserFacts(TierOf(b, key), user, now, Earns(c, key));
    UserFacts(t, user, now, Earns(c, key));
    forall k: TierKey ensures Grew(TierOf(b, k), TierOf(n, k), user) {
      assert Grew(TierOf(b, k), TierOf(b, k), user);
    }
  }

  /** `given` units have been handed out for `done` of `whole` by `n` floors: less than one unit each is
      missing. */
  predicate Short(given: int, value: int, done: int, whole: int, n: nat) {
    value * done <= (given + n) * whole && (n > 0 ==> value * done < (given + n) * whole)
  }

  lemma ShortStep(given: int, value: int, done: int, part: int, whole: int, n: nat, share: int)
    requires Short(given, value, done, whole, n) && value * part < share * whole + whole
    ensures Short(given + share, value, done + part, whole, n + 1)
  {
    assert value * (done + part) == value * done + value * part;
    assert (given + share + n + 1) * whole == (given + n) * whole + (share * whole + whole);
  }

  lemma ShortWhole(given: int, value: int, whole: int, n: nat)
    requires Short(given, value, whole, whole, n) && 0 < whole && 0 < n
    ensures value < given + n
  {
    if value >= given + n {
      MulMonotone(given + n, value, whole);
    }
  }

  /** What is left to credit: distinct tiers, synchronised, with the claims that add up. */
  ghost predicate ToCredit(b: Book, c: Deployment, tier: nat, asset: Asset, user: Address, pools: seq<Address>,
                           claims: seq<int>, i: nat, done: int, blnt: int)
  {
    && i <= |pools| == |claims| && done + SeqSum(claims[i..]) == blnt
    && (forall j | 0 <= j < |claims| :: 0 <= claims[j])
    && (forall j, k | 0 <= j < k < |pools| :: pools[j] != pools[k])
    && (forall j | i <= j < |pools| :: ClaimedHere(b, c, TierKey(pools[j], tier), asset, user))
  }

  lemma ToCreditNext(b: Book, n: Book, c: Deployment, tier: nat, asset: Asset, user: Address, pools: seq<Address>,
                     claims: seq<int>, i: nat, done: int, blnt: int)
    requires ToCredit(b, c, tier, asset, user, pools, claims, i, done, blnt) && i < |pools|
    requires forall k: TierKey :: k != TierKey(pools[i], tier) ==> TierOf(n, k) == TierOf(b, k)
    ensures ToCredit(n, c, tier, asset, user, pools, claims, i + 1, done + claims[i], blnt)
    ensures 0 <= claims[i] && ClaimedHere(b, c, TierKey(pools[i], tier), asset, user)
  {
    hide TierAsset, Synced, TierOf;
    assert claims[i..][1..] == claims[i + 1..];
    forall j | i + 1 <= j < |pools| ensures ClaimedHere(n, c, TierKey(pools[j], tier), asset, user) {
      assert ClaimedHere(b, c, TierKey(pools[j], tier), asset, user);
    }
  }

  lemma {:induction false} CreditFromKeeps(b: Book, c: Deployment, tier: nat, asset: Asset, user: Address,
                                           pools: seq<Address>,
                                           claims: seq<int>, i: nat, lp: int, blnt: int, given: int, done: int,
                                             now: nat)
    requires BookInv(Undue(b, asset, lp - given), c, now) && IsLp(asset) && 0 <= lp && 0 < blnt
    requires ToCredit(b, c, tier, asset, user, pools, claims, i, done, blnt)
    requires Within(given, lp, done, blnt) && Short(given, lp, done, blnt, i)
    ensures var r := CreditFrom(b, c, tier, user, pools, claims, i, lp, blnt);
            if r.Failure? then r.error in {Overflow, Trap, InvalidShareMintAmount}
            else
              var total := given + Sum(TokensOf(c, r.value.tiers, asset)) - Sum(TokensOf(c, b.tiers, asset));
              && r.value == b.(tiers := r.value.tiers, pools := r.value.pools)
              && BookInv(Undue(r.value, asset, lp - total), c, now) && CreditsOnly(b, r.value, user)
              && Sum(ClaimedOf(r.value.tiers)) == Sum(ClaimedOf(b.tiers))
              && Within(total, lp, blnt, blnt) && Short(total, lp, blnt, blnt, |pools|)
    decreases |pools| - i
  {
    hide BookInv, CreditOne, CreditsOnly, Sum, TokensOf, ClaimedOf, Within, Short, ToCredit, ProportionalFloor,
         ClaimedHere;
    ToCreditBounds(b, c, tier, asset, user, pools, claims, i, done, blnt);
    if i == |pools| {
      SameBookCredits(b, Undue(b, asset, lp - given), c, user, now);
    } else {
      var key := TierKey(pools[i], tier);
      ToCreditNext(b, b, c, tier, asset, user, pools, claims, i, done, blnt);
      CreditOneKeeps(b, c, key, asset, user, lp, claims[i], blnt, lp - given, now);
      var next := CreditOne(b, c, key, user, lp, claims[i], blnt);
      if next.Success? {
        var share := ProportionalFloor(lp, claims[i], blnt).value;
        ToCreditNext(b, next.value, c, tier, asset, user, pools, claims, i, done, blnt);
        WithinStep(given, lp, done, claims[i], blnt, share);
        ShareNonNegative(lp, claims[i], blnt, share);
        ShortStep(given, lp, done, claims[i], blnt, i, share);
        assert lp - given - share == lp - (given + share);
        CreditFromKeeps(next.value, c, tier, asset, user, pools, claims, i + 1, lp, blnt, given + share,
          done + claims[i], now);
        var last := CreditFrom(next.value, c, tier, user, pools, claims, i + 1, lp, blnt);
        if last.Success? {
          CreditsTwice(b, next.value, last.value, user);
        }
      }
    }
  }

  lemma ToCreditBounds(b: Book, c: Deployment, tier: nat, asset: Asset, user: Address, pools: seq<Address>,
                       claims: seq<int>, i: nat, done: int, blnt: int)
    requires ToCredit(b, c, tier, asset, user, pools, claims, i, done, blnt)
    ensures i <= |pools| == |claims| && (i == |pools| ==> done == blnt)
  {
  }

  // The whole claim.

  lemma HoldingsWithMore(b: Book, n: Book, c: Deployment, now: nat)
    requires Holdings(b, c, now) && n.tiers == b.tiers && n.pools == b.pools && n.zone == b.zone
    requires forall asset: Asset :: HeldOf(b, asset) <= HeldOf(n, asset)
    ensures Holdings(n, c, now)
  {
    hide TokensOf, TierInv, CacheAgrees, ValidConfig, Sum, CacheInv, SameCaches;
    forall u: Address, pool | pool in c.config ensures EntriesFrom(n, c, u, pool, 0) == EntriesFrom(b, c, u, pool, 0) {
      SameEntries(b, n, c, u, pool, 0);
    }
    SameRecords(b.pools);
    SameCachesAgree(b, n, c);
  }

  /** The ledgers after the first loop: `paid` was taken from the streams, and booking it is possible
      unless the total overflows. In particular it never exceeds what was allocated. */
  lemma BookingClaims(b: Book, n: Book, c: Deployment, paid: int, now: nat)
    requires BookInv(b, c, now) && Holdings(n, c, now) && n == b.(tiers := n.tiers) && 0 <= paid
    requires Sum(FundedOf(n.tiers)) == Sum(FundedOf(b.tiers))
             && Sum(ClaimedOf(n.tiers)) == Sum(ClaimedOf(b.tiers)) + paid
    ensures var o := b.ongoing.(backstopClaimed := b.ongoing.backstopClaimed + paid);
            && o.backstopClaimed <= o.backstopAllocated
            && (StoreOngoing(o) == Success(o) || StoreOngoing(o) == Failure(Overflow))
            && forall m: Book ::
                 m.tiers == n.tiers && m.pools == n.pools && m.granted == n.granted && m.ongoing == o ==>
                   GlobalLedger(m)
  {
    hide TierInv, Sum, FundedOf, ClaimedOf, BackstopHeldOf, PoolHeldOf, CacheInv, ZoneInv, Custody, EntryCaps,
         ValidConfig;
    ClaimedWithinAllocated(n, c, now);
  }

  /** The LP has arrived and is not yet credited: the book without it is sound, and every claimed tier is ready. */
  lemma CreditStarts(b: Book, c: Deployment, tier: nat, asset: Asset, user: Address, pools: seq<Address>,
                     claimed: Claimed, ongoing: Ongoing, lp: int, now: nat)
    requires BookInv(b, c, now) && Claiming(b, c, tier, asset, user, pools, |pools|, now, claimed)
    requires 0 < claimed.blnt && 0 < lp
    requires ongoing == b.ongoing.(backstopClaimed := b.ongoing.backstopClaimed + claimed.blnt)
    ensures var funded := claimed.book.(ongoing := ongoing, held := b.held[asset := HeldOf(b, asset) + lp]);
            && BookInv(Undue(funded, asset, lp - 0), c, now)
            && ToCredit(funded, c, tier, asset, user, pools, claimed.claims, 0, 0, claimed.blnt)
  {
    hide Holdings, GlobalLedger, Sum, TokensOf, FundedOf, ClaimedOf, SameBalances, ClaimedHere;
    var funded := claimed.book.(ongoing := ongoing, held := b.held[asset := HeldOf(b, asset) + lp]);
    var shadow := Undue(funded, asset, lp - 0);
    BookingClaims(b, claimed.book, c, claimed.blnt, now) by {
      SeqSumNonNegative(claimed.claims);
    }
    HoldingsWithMore(claimed.book, shadow, c, now);
    assert claimed.claims[0..] == claimed.claims;
    forall j | 0 <= j < |pools| ensures ClaimedHere(funded, c, TierKey(pools[j], tier), asset, user) {
      SameClaimed(claimed.book, funded, c, TierKey(pools[j], tier), asset, user);
    }
  }

  lemma ClaimTail(b: Book, c: Deployment, tier: nat, asset: Asset, user: Address, pools: seq<Address>, claimed: Claimed,
                  ongoing: Ongoing, lp: int, now: nat)
    requires BookInv(b, c, now) && Claiming(b, c, tier, asset, user, pools, |pools|, now, claimed)
    requires IsLp(asset) && 0 < claimed.blnt && 0 < lp && pools != []
    requires ongoing == b.ongoing.(backstopClaimed := b.ongoing.backstopClaimed + claimed.blnt)
    ensures var funded := claimed.book.(ongoing := ongoing, held := b.held[asset := HeldOf(b, asset) + lp]);
            var r := CreditFrom(funded, c, tier, user, pools, claimed.claims, 0, lp, claimed.blnt);
            if r.Failure? then r.error in {Overflow, Trap, InvalidShareMintAmount}
            else
              && BookInv(r.value, c, now) && CreditsOnly(b, r.value, user)
              && r.value == funded.(tiers := r.value.tiers, pools := r.value.pools)
              && Sum(ClaimedOf(r.value.tiers)) == Sum(ClaimedOf(b.tiers)) + claimed.blnt
              && lp - |pools| < Sum(TokensOf(c, r.value.tiers, asset)) - Sum(TokensOf(c, b.tiers, asset)) <= lp
  {
    hide Holdings, GlobalLedger, CreditFrom, Sum, TokensOf, FundedOf, ClaimedOf, CreditsOnly, SameBalances, Within,
         Short, ClaimedHere;
    var funded := claimed.book.(ongoing := ongoing, held := b.held[asset := HeldOf(b, asset) + lp]);
    StartCredit(lp, claimed.blnt);
    CreditStarts(b, c, tier, asset, user, pools, claimed, ongoing, lp, now);
    CreditFromKeeps(funded, c, tier, asset, user, pools, claimed.claims, 0, lp, claimed.blnt, 0, 0, now);
    var r := CreditFrom(funded, c, tier, user, pools, claimed.claims, 0, lp, claimed.blnt);
    if r.Success? {
      var total := Sum(TokensOf(c, r.value.tiers, asset)) - Sum(TokensOf(c, b.tiers, asset));
      WithinWhole(total, lp, claimed.blnt);
      ShortWhole(total, lp, claimed.blnt, |pools|);
      HoldingsWithMore(Undue(r.value, asset, lp - total), r.value, c, now);
      LedgerIgnoresHeld(Undue(r.value, asset, lp - total), r.value);
      SameTiersBalance(b, claimed.book, funded);
      HoldingsOf(b, c, now);
      SameIsCredits(b, funded, c, user, now);
      CreditsTwice(b, funded, r.value, user);
    }
  }

  lemma HoldingsOf(b: Book, c: Deployment, now: nat)
    requires BookInv(b, c, now)
    ensures Holdings(b, c, now) && GlobalLedger(b)
  {
    hide Holdings, GlobalLedger;
  }

  lemma LedgerIgnoresHeld(b: Book, n: Book)
    requires GlobalLedger(b) && n == b.(held := n.held)
    ensures GlobalLedger(n)
  {
    hide Sum, FundedOf, ClaimedOf, BackstopHeldOf, PoolHeldOf, OngoingLedger;
  }

  lemma StartCredit(lp: int, blnt: int)
    ensures Within(0, lp, 0, blnt) && Short(0, lp, 0, blnt, 0)
  {
  }

  lemma SameClaimed(b: Book, n: Book, c: Deployment, key: TierKey, asset: Asset, user: Address)
    requires ClaimedHere(b, c, key, asset, user) && n.tiers == b.tiers
    ensures ClaimedHere(n, c, key, asset, user)
  {
    hide TierAsset, Synced;
  }

  lemma ClaimStarts(b: Book, c: Deployment, tier: nat, asset: Asset, user: Address, pools: seq<Address>, now: nat)
    requires Holdings(b, c, now)
    ensures Claiming(b, c, tier, asset, user, pools, 0, now, Claimed(b, [], 0))
  {
    hide Holdings, SameBalances, Sum, FundedOf, ClaimedOf, TokensOf;
    NothingMoved(b);
  }

  /** Exactly these amounts changed hands. */
  predicate Traded(trade: Exchange, blnt: int, lp: int) {
    trade.spent == blnt && 0 < lp == trade.minted == trade.received
  }

  lemma BoughtExactly(trade: Exchange, blnt: int, minLp: int)
    ensures var r := Bought(trade, blnt, minLp);
            if r.Failure? then r.error in {Overflow, Trap, BalanceError}
            else Traded(trade, blnt, r.value) && 0 < r.value == trade.minted && minLp <= r.value
  {
  }

  /** What a claim does: it pays what the growth of the claim ledger says, and exactly that was spent; the LP
      bought is in custody and credited to the claimed tiers but for less than one unit a pool. */
  ghost predicate ClaimEffect(b: Book, n: Book, c: Deployment, asset: Asset, user: Address, pools: seq<Address>,
                              minLp: int, trade: Exchange, bought: int, now: nat) {
    var paid := Sum(ClaimedOf(n.tiers)) - Sum(ClaimedOf(b.tiers));
    && BookInv(n, c, now) && CreditsOnly(b, n, user)
    && n.ongoing == b.ongoing.(backstopClaimed := b.ongoing.backstopClaimed + paid)
    && n.migration == b.migration && n.zone == b.zone && n.granted == b.granted && n.approvals == b.approvals
    && 0 <= paid && (paid == 0 ==> bought == 0) && (0 < paid ==> Traded(trade, paid, bought) && minLp <= bought)
    && HeldOf(n, asset) == HeldOf(b, asset) + bought
    && (forall a: Asset :: a != asset ==> HeldOf(n, a) == HeldOf(b, a))
    && bought - |pools| < Sum(TokensOf(c, n.tiers, asset)) - Sum(TokensOf(c, b.tiers, asset)) <= bought
  }

  /** Compounding once the totals are known to be sound. */
  lemma CompoundForm(b: Book, c: Deployment, tier: nat, asset: Asset, user: Address, pools: seq<Address>,
                     claims: seq<int>, blnt: int, minLp: int, trade: Exchange)
    requires |claims| == |pools| && blnt != 0 && CheckedOngoing(b.ongoing) == Success(b.ongoing)
    requires var o := b.ongoing.(backstopClaimed := b.ongoing.backstopClaimed + blnt);
             StoreOngoing(o) == Success(o) || StoreOngoing(o) == Failure(Overflow)
    ensures var o := b.ongoing.(backstopClaimed := b.ongoing.backstopClaimed + blnt);
            var r := Compound(b, c, tier, asset, user, pools, claims, blnt, minLp, trade);
            var bought := Bought(trade, blnt, minLp);
            if StoreOngoing(o).Failure? then r == Failure(Overflow)
            else if bought.Failure? then r.Failure? && (r.error == Overflow || r.error == bought.error)
            else
              var funded := b.(ongoing := o, held := b.held[asset := HeldOf(b, asset) + bought.value]);
              var credited := CreditFrom(funded, c, tier, user, pools, claims, 0, bought.value, blnt);
              if credited.Failure? then r.Failure? && (r.error == Overflow || r.error == credited.error)
              else r == Failure(Overflow) || r == Success((credited.value, bought.value))
  {
    hide CreditFrom, StoreOngoing, Bought, CheckedOngoing, HeldOf;
  }

  lemma CompoundKeeps(b: Book, c: Deployment, tier: nat, asset: Asset, user: Address, pools: seq<Address>,
                      claimed: Claimed, minLp: int, trade: Exchange, now: nat)
    requires BookInv(b, c, now) && Claiming(b, c, tier, asset, user, pools, |pools|, now, claimed)
    requires IsLp(asset) && pools != [] && |claimed.claims| == |pools|
    ensures var r := Compound(claimed.book, c, tier, asset, user, pools, claimed.claims, claimed.blnt, minLp, trade);
            if r.Failure? then r.error in {Overflow, Trap, BalanceError, InvalidShareMintAmount}
            else ClaimEffect(b, r.value.0, c, asset, user, pools, minLp, trade, r.value.1, now)
  {
    hide Holdings, GlobalLedger, Claiming, CreditFrom, Sum, TokensOf, ClaimedOf, FundedOf, CreditsOnly, SameBalances,
         StoreOngoing, OngoingLedger, Bought, Traded, BookInv, Compound, CheckedOngoing;
    HoldingsOf(b, c, now);
    OngoingValid(b, c, now);
    ClaimingFacts(b, c, tier, asset, user, pools, now, claimed);
    BookingClaims(b, claimed.book, c, claimed.blnt, now);
    if 0 < claimed.blnt {
      CompoundForm(claimed.book, c, tier, asset, user, pools, claimed.claims, claimed.blnt, minLp, trade);
      BoughtExactly(trade, claimed.blnt, minLp);
      if Bought(trade, claimed.blnt, minLp).Success? {
        var ongoing := b.ongoing.(backstopClaimed := b.ongoing.backstopClaimed + claimed.blnt);
        ClaimTail(b, c, tier, asset, user, pools, claimed, ongoing, trade.minted, now);
      }
    } else {
      NoneToCompound(claimed.book, c, tier, asset, user, pools, claimed.claims, minLp, trade);
      NothingClaimed(b, c, tier, asset, user, pools, claimed, minLp, trade, now);
    }
  }

  lemma NoneToCompound(b: Book, c: Deployment, tier: nat, asset: Asset, user: Address, pools: seq<Address>,
                       claims: seq<int>, minLp: int, trade: Exchange)
    requires |claims| == |pools|
    ensures Compound(b, c, tier, asset, user, pools, claims, 0, minLp, trade) == Success((b, 0))
  {
  }

  lemma NothingClaimed(b: Book, c: Deployment, tier: nat, asset: Asset, user: Address, pools: seq<Address>,
                       claimed: Claimed, minLp: int, trade: Exchange, now: nat)
    requires BookInv(b, c, now) && Claiming(b, c, tier, asset, user, pools, |pools|, now, claimed)
    requires claimed.blnt == 0 && pools != []
    ensures ClaimEffect(b, claimed.book, c, asset, user, pools, minLp, trade, 0, now)
  {
    hide Holdings, GlobalLedger, Claiming, Sum, TokensOf, ClaimedOf, FundedOf, CreditsOnly, SameBalances;
    HoldingsOf(b, c, now);
    ClaimingFacts(b, c, tier, asset, user, pools, now, claimed);
    SameIsCredits(b, claimed.book, c, user, now);
    LedgerUnclaimed(b, claimed.book);
  }

  /** A claim is never refused because claims would exceed allocations. Nobody else's balance moves and no
      share loses value. */
  lemma ClaimKeepsBook(b: Book, c: Deployment, e: EmitterState, tier: nat, user: Address, pools: seq<Address>,
                       minLp: int, trade: Exchange, now: nat)
    requires BookInv(b, c, now)
    ensures var r := Claim(b, c, e, tier, user, pools, minLp, trade, now);
            if r.Failure? then
              || r.error in {MigrationNotActive, BackfillNotFunded, BadRequest, NegativeAmount, NotPool}
              || r.error in {Overflow, Trap, BalanceError, InvalidShareMintAmount}
              || (r.error == InvalidEmissionValue && forall asset: Asset :: !SameLp(c, tier, pools, asset))
            else
              && pools != [] && TierAsset(c, TierKey(pools[0], tier)).Success?
              && var asset := TierAsset(c, TierKey(pools[0], tier)).value;
              ClaimEffect(b, r.value.0, c, asset, user, pools, minLp, trade, r.value.1, now)
  {
    hide BookInv, Holdings, Claiming, ClaimFrom, ClaimEffect, SameLp, TierAsset, Compound;
    HoldingsOf(b, c, now);
    if IsActive(b) && pools != [] && TierAsset(c, TierKey(pools[0], tier)).Success? {
      var asset := TierAsset(c, TierKey(pools[0], tier)).value;
      LpNeeded(c, tier, pools, asset);
      if IsLp(asset) {
        ClaimStarts(b, c, tier, asset, user, pools, now);
        ClaimFromKeeps(b, c, e, tier, asset, user, pools, 0, now, Claimed(b, [], 0));
        var first := ClaimFrom(c, e, tier, asset, user, pools, 0, now, Claimed(b, [], 0));
        if first.Success? {
          ClaimedCounts(c, e, tier, asset, user, pools, 0, now, Claimed(b, [], 0));
          CompoundKeeps(b, c, tier, asset, user, pools, first.value, minLp, trade, now);
        }
      }
    } else if pools != [] {
      TierAssetErrors(c, TierKey(pools[0], tier));
    }
  }

  lemma TierAssetErrors(c: Deployment, key: TierKey)
    ensures TierAsset(c, key).Failure? ==> TierAsset(c, key).error in {NotPool, BadRequest}
  {
  }

  lemma LpNeeded(c: Deployment, tier: nat, pools: seq<Address>, asset: Asset)
    requires pools != [] && TierAsset(c, TierKey(pools[0], tier)) == Success(asset)
    ensures !SameLp(c, tier, pools, asset) ==> forall a: Asset :: !SameLp(c, tier, pools, a)
    ensures !IsLp(asset) ==> !SameLp(c, tier, pools, asset)
  {
    hide TierAsset, IsLp;
  }

  lemma OngoingValid(b: Book, c: Deployment, now: nat)
    requires BookInv(b, c, now)
    ensures CheckedOngoing(b.ongoing) == Success(b.ongoing)
  {
    hide Holdings, Sum;
  }

  lemma ClaimingFacts(b: Book, c: Deployment, tier: nat, asset: Asset, user: Address, pools: seq<Address>, now: nat,
                      r: Claimed)
    requires Claiming(b, c, tier, asset, user, pools, |pools|, now, r)
    ensures |r.claims| == |pools| && 0 <= r.blnt
    ensures r.book == b.(tiers := r.book.tiers) && Holdings(r.book, c, now) && SameBalances(b, r.book)
    ensures Sum(FundedOf(r.book.tiers)) == Sum(FundedOf(b.tiers))
    ensures Sum(ClaimedOf(r.book.tiers)) == Sum(ClaimedOf(b.tiers)) + r.blnt
    ensures Sum(TokensOf(c, r.book.tiers, asset)) == Sum(TokensOf(c, b.tiers, asset))
  {
    hide Holdings, SameBalances, Sum, ClaimedHere;
    SeqSumNonNegative(r.claims);
  }

  lemma LedgerUnclaimed(b: Book, n: Book)
    requires GlobalLedger(b) && n == b.(tiers := n.tiers)
    requires Sum(FundedOf(n.tiers)) == Sum(FundedOf(b.tiers)) && Sum(ClaimedOf(n.tiers)) == Sum(ClaimedOf(b.tiers))
    ensures GlobalLedger(n)
  {
    hide Sum, FundedOf, ClaimedOf, BackstopHeldOf, PoolHeldOf, OngoingLedger;
  }
}
