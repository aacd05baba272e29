/** Exactly when a batched claim succeeds, what it pays for each pool, and what each pool's tier is credited. */
module ClaimOutcomes {
  import opened Numbers
  import opened Sums
  import Tiers
  import opened TierLaws
  import opened TierOutcomes
  import opened Allocation
  import opened AllocationLaws
  import opened AllocationOutcomes
  import opened Backstops
  import opened BookLaws
  import opened DistributionLaws
  import opened ClaimLaws
  import opened Outcomes
  import ShareLaws
  import PoolBalances

  /** Claims wait until the backfill that was scheduled is funded. */
  predicate Funded(b: Book) {
    b.migration.scheduledBackfill <= 0 || b.migration.fundedBackfill == Some(b.migration.scheduledBackfill)
  }

  /** The gate of every claim: it is refused while the contract is not active, and then while its backfill is not
      funded; so whatever succeeds or is refused for another reason had both. */
  lemma ClaimGate(b: Book, c: Deployment, e: EmitterState, tier: nat, user: Address, pools: seq<Address>, minLp: int,
                  trade: Exchange, now: nat)
    ensures var r := Claim(b, c, e, tier, user, pools, minLp, trade, now);
            && (r == Failure(MigrationNotActive) <== !IsActive(b))
            && (IsActive(b) && !Funded(b) ==> r == Failure(BackfillNotFunded))
            && (r.Success? ==> IsActive(b) && Funded(b))
  {
    hide ClaimFrom, Compound, TierAsset;
  }

  // The claiming loop.

  /** What a depositor can claim of one tier: the whole BLNT it is entitled to. */
  function ClaimDue(b: Book, key: TierKey, user: Address, now: nat): int {
    Entitled(TierOf(b, key), user, now) / SCALAR_14
  }

  function ClaimsDue(b: Book, tier: nat, user: Address, pools: seq<Address>, now: nat): seq<int> {
    seq(|pools|, i requires 0 <= i < |pools| => ClaimDue(b, TierKey(pools[i], tier), user, now))
  }

  /** One tier before and after the claiming loop: the user was paid what was due, balances are as they were. */
  ghost predicate Paid(t: Tiers.Tier, s: Tiers.Tier, user: Address, due: int, now: nat) {
    Fair(t, s, user, due, now) && SameSchedule(t, s, now) && Caught(s, now) && SameTier(t, s)
  }

  /** The loop's refusals, pool by pool: named twice, unknown, without that tier, of another asset, too wide. */
  function LoopRefusal(b: Book, c: Deployment, tier: nat, asset: Asset, user: Address, pools: seq<Address>, i: nat,
                       now: nat): Option<Error>
    requires i <= |pools|
    decreases |pools| - i
  {
    if i == |pools| then None
    else if pools[i] in pools[..i] then Some(BadRequest)
    else if pools[i] !in c.config then Some(NotPool)
    else if |c.config[pools[i]]| <= tier then Some(BadRequest)
    else if c.config[pools[i]][tier] != asset then Some(InvalidEmissionValue)
    else if !CheckpointFits(TierOf(b, TierKey(pools[i], tier)), user, now) then Some(Overflow)
    else LoopRefusal(b, c, tier, asset, user, pools, i + 1, now)
  }

  /** The first `i` tiers were claimed, every other tier is untouched. */
  ghost predicate ClaimedSoFar(b: Book, m: Book, tier: nat, user: Address, pools: seq<Address>, i: nat, now: nat)
    requires i <= |pools|
  {
    && (forall j | 0 <= j < i ::
          Paid(TierOf(b, TierKey(pools[j], tier)), TierOf(m, TierKey(pools[j], tier)), user,
               ClaimDue(b, TierKey(pools[j], tier), user, now), now))
    && forall k: TierKey | (forall j | 0 <= j < i :: TierKey(pools[j], tier) != k) :: TierOf(m, k) == TierOf(b, k)
  }

  lemma ClaimTurn(t: Tiers.Tier, user: Address, now: nat, eligible: bool)
    requires TierInv(t, now, eligible)
    ensures var r := Tiers.ClaimAccrued(t, user, now);
            && (r.Failure? ==> r.error == Overflow) && (r.Success? <==> CheckpointFits(t, user, now))
            && (r.Success? ==>
                  r.value.1 == Entitled(t, user, now) / SCALAR_14 && Paid(t, r.value.0, user, r.value.1, now))
  {
    hide TierInv, Fair, SameSchedule, Tiers.ClaimAccrued, CheckpointFits, Entitled;
    ClaimExact(t, user, now, eligible);
    ClaimKeeps(t, user, now, eligible);
  }

  /** The claims of a batch together never leave 128 bits: they are within what was ever distributed. */
  lemma ClaimFits(b: Book, c: Deployment, tier: nat, asset: Asset, user: Address, pools: seq<Address>, i: nat, now: nat,
                  acc: Claimed)
    requires BookInv(b, c, now) && Claiming(b, c, tier, asset, user, pools, i, now, acc) && i < |pools|
    requires Configured(c, TierKey(pools[i], tier))
    requires Tiers.ClaimAccrued(TierOf(acc.book, TierKey(pools[i], tier)), user, now).Success?
    ensures var claim := Tiers.ClaimAccrued(TierOf(acc.book, TierKey(pools[i], tier)), user, now).value.1;
            0 <= claim && 0 <= acc.blnt && acc.blnt + claim <= I128_MAX
  {
    hide BookInv, Holdings, TierInv, Sum, FundedOf, ClaimedOf, TokensOf, SameBalances, Tiers.ClaimAccrued, Put,
         PoolsInv, TiersInv, ClaimedHere;
    var key := TierKey(pools[i], tier);
    HoldingsTier(acc.book, c, key, now);
    ClaimKeeps(TierOf(acc.book, key), user, now, Earns(c, key));
    var (t, claim) := Tiers.ClaimAccrued(TierOf(acc.book, key), user, now).value;
    PutSame(acc.book, c, key, t, now);
    var n := Put(acc.book, key, t);
    LedgerBounds(b, n, c, now);
    SeqSumNonNegative(acc.claims);
  }

  lemma LedgerBounds(b: Book, n: Book, c: Deployment, now: nat)
    requires BookInv(b, c, now) && Holdings(n, c, now) && n.ongoing == b.ongoing && n.pools == b.pools
    requires Sum(FundedOf(n.tiers)) == Sum(FundedOf(b.tiers))
    ensures Sum(ClaimedOf(n.tiers)) <= b.ongoing.backstopAllocated <= I128_MAX && 0 <= Sum(ClaimedOf(b.tiers))
  {
    hide TierInv, Sum, FundedOf, ClaimedOf, BackstopHeldOf, PoolHeldOf, CacheInv, ZoneInv, Custody, EntryCaps,
         ValidConfig;
    ClaimedWithinAllocated(n, c, now);
  }

  lemma {:induction false} ClaimFromOutcome(b: Book, c: Deployment, e: EmitterState, tier: nat, asset: Asset,
                                            user: Address, pools: seq<Address>, i: nat, now: nat, acc: Claimed)
    requires BookInv(b, c, now) && Claiming(b, c, tier, asset, user, pools, i, now, acc) && IsActive(b) && IsLp(asset)
    requires ClaimedSoFar(b, acc.book, tier, user, pools, i, now)
    requires acc.claims == ClaimsDue(b, tier, user, pools, now)[..i]
    ensures var r := ClaimFrom(c, e, tier, asset, user, pools, i, now, acc);
            var refusal := LoopRefusal(b, c, tier, asset, user, pools, i, now);
            if r.Failure? then refusal == Some(r.error)
            else
              && refusal.None? && r.value.claims == ClaimsDue(b, tier, user, pools, now)
              && r.value.blnt == SeqSum(r.value.claims) && 0 <= r.value.blnt <= I128_MAX
              && ClaimedSoFar(b, r.value.book, tier, user, pools, |pools|, now)
              && Claiming(b, c, tier, asset, user, pools, |pools|, now, r.value)
    decreases |pools| - i
  {
    hide BookInv, ClaimOne, Paid, Claiming, ClaimedSoFar, CheckpointFits;
    ClaimingBounds(b, c, tier, asset, user, pools, i, now, acc);
    if i == |pools| {
      ClaimingTotal(b, c, tier, asset, user, pools, now, acc);
      var due := ClaimsDue(b, tier, user, pools, now);
      assert due[..|pools|] == due;
    } else {
      ClaimOneOutcome(b, c, e, tier, asset, user, pools, i, now, acc);
      if pools[i] !in pools[..i] {
        ClaimOneKeeps(b, c, e, tier, asset, user, pools, i, now, acc);
        var next := ClaimOne(c, e, TierKey(pools[i], tier), asset, user, now, acc);
        if next.Success? {
          ClaimFromOutcome(b, c, e, tier, asset, user, pools, i + 1, now, next.value);
        }
      }
    }
  }

  lemma ClaimingTotal(b: Book, c: Deployment, tier: nat, asset: Asset, user: Address, pools: seq<Address>, now: nat,
                      acc: Claimed)
    requires BookInv(b, c, now) && Claiming(b, c, tier, asset, user, pools, |pools|, now, acc)
    ensures acc.blnt == SeqSum(acc.claims) && 0 <= acc.blnt <= I128_MAX && |acc.claims| == |pools|
  {
    hide BookInv, Holdings, Sum, FundedOf, ClaimedOf, TokensOf, SameBalances, ClaimedHere;
    SeqSumNonNegative(acc.claims);
    LedgerBounds(b, acc.book, c, now);
  }

  lemma ClaimOneOutcome(b: Book, c: Deployment, e: EmitterState, tier: nat, asset: Asset, user: Address,
                        pools: seq<Address>, i: nat, now: nat, acc: Claimed)
    requires BookInv(b, c, now) && Claiming(b, c, tier, asset, user, pools, i, now, acc) && IsActive(b) && IsLp(asset)
    requires i < |pools| && ClaimedSoFar(b, acc.book, tier, user, pools, i, now)
    requires acc.claims == ClaimsDue(b, tier, user, pools, now)[..i]
    ensures var r := ClaimOne(c, e, TierKey(pools[i], tier), asset, user, now, acc);
            var pool := pools[i];
            pool !in pools[..i] ==>
              if pool !in c.config then r == Failure(NotPool)
              else if |c.config[pool]| <= tier then r == Failure(BadRequest)
              else if c.config[pool][tier] != asset then r == Failure(InvalidEmissionValue)
              else if !CheckpointFits(TierOf(b, TierKey(pool, tier)), user, now) then r == Failure(Overflow)
              else
                && r.Success? && ClaimedSoFar(b, r.value.book, tier, user, pools, i + 1, now)
                && r.value.claims == ClaimsDue(b, tier, user, pools, now)[..i + 1]
  {
    hide BookInv, Holdings, TierInv, Paid, CheckpointFits, Tiers.ClaimAccrued, SameBalances, Sum, FundedOf, ClaimedOf,
         TokensOf, ClaimedHere, ClaimDue;
    var pool := pools[i];
    var key := TierKey(pool, tier);
    if pool !in pools[..i] {
      NotYetClaimed(b, acc.book, tier, user, pools, i, now);
      HoldingsTier(acc.book, c, key, now);
      var s := TierOf(acc.book, key);
      ClaimTurn(s, user, now, Earns(c, key));
      if pool in c.config && tier < |c.config[pool]| && c.config[pool][tier] == asset {
        if Tiers.ClaimAccrued(s, user, now).Success? {
          ClaimFits(b, c, tier, asset, user, pools, i, now, acc);
          ClaimOneForm(c, e, key, asset, user, now, acc);
          var (t, claim) := Tiers.ClaimAccrued(s, user, now).value;
          PutReads(acc.book, key, t);
          DueIsEntitled(b, key, user, now);
          OneMoreClaimed(b, acc.book, Put(acc.book, key, t), tier, user, pools, i, now);
          var due := ClaimsDue(b, tier, user, pools, now);
          assert due[..i + 1] == due[..i] + [due[i]];
        }
      }
    }
  }

  lemma DueIsEntitled(b: Book, key: TierKey, user: Address, now: nat)
    ensures ClaimDue(b, key, user, now) == Entitled(TierOf(b, key), user, now) / SCALAR_14
  {
  }

  lemma ClaimOneForm(c: Deployment, e: EmitterState, key: TierKey, asset: Asset, user: Address, now: nat, acc: Claimed)
    requires TierAsset(c, key) == Success(asset) && IsLp(asset) && IsActive(acc.book)
    requires Tiers.ClaimAccrued(TierOf(acc.book, key), user, now).Success?
    requires FitsI128(acc.blnt + Tiers.ClaimAccrued(TierOf(acc.book, key), user, now).value.1)
    ensures var (t, claim) := Tiers.ClaimAccrued(TierOf(acc.book, key), user, now).value;
            ClaimOne(c, e, key, asset, user, now, acc)
            == Success(Claimed(Put(acc.book, key, t), acc.claims + [claim], acc.blnt + claim))
  {
    hide Tiers.ClaimAccrued, Put;
  }

  lemma PutReads(b: Book, key: TierKey, t: Tiers.Tier)
    ensures TierOf(Put(b, key, t), key) == t
    ensures forall k: TierKey :: k != key ==> TierOf(Put(b, key, t), k) == TierOf(b, k)
  {
  }

  lemma NotYetClaimed(b: Book, m: Book, tier: nat, user: Address, pools: seq<Address>, i: nat, now: nat)
    requires i < |pools| && ClaimedSoFar(b, m, tier, user, pools, i, now) && pools[i] !in pools[..i]
    ensures TierOf(m, TierKey(pools[i], tier)) == TierOf(b, TierKey(pools[i], tier))
  {
    hide Paid, TierOf;
    forall j | 0 <= j < i ensures TierKey(pools[j], tier) != TierKey(pools[i], tier) {
      assert pools[..i][j] == pools[j];
    }
  }

  lemma OneMoreClaimed(b: Book, m: Book, n: Book, tier: nat, user: Address, pools: seq<Address>, i: nat, now: nat)
    requires i < |pools| && ClaimedSoFar(b, m, tier, user, pools, i, now) && pools[i] !in pools[..i]
    requires var key := TierKey(pools[i], tier);
             && Paid(TierOf(b, key), TierOf(n, key), user, ClaimDue(b, key, user, now), now)
             && forall k: TierKey :: k != key ==> TierOf(n, k) == TierOf(m, k)
    ensures ClaimedSoFar(b, n, tier, user, pools, i + 1, now)
  {
    hide Paid, TierOf, ClaimDue;
    forall j | 0 <= j < i ensures TierKey(pools[j], tier) != TierKey(pools[i], tier) {
      assert pools[..i][j] == pools[j];
    }
    forall k: TierKey | forall j | 0 <= j < i + 1 :: TierKey(pools[j], tier) != k ensures TierOf(n, k) == TierOf(b, k) {
      assert TierKey(pools[i], tier) != k;
    }
  }

  // The crediting loop.

  /** Each pool's part of the LP bought with the whole batch, rounded down. */
  function Credits(claims: seq<int>, lp: int, blnt: int): seq<int> {
    seq(|claims|, i requires 0 <= i < |claims| => Part(lp, claims[i], blnt))
  }

  function Grown(p: PoolBalances.PoolRecord, amount: int): PoolBalances.PoolRecord {
    PoolBalances.PoolRecord(p.shares + MintFor(p, amount), p.tokens + amount, p.q4w)
  }

  /** Nothing for a part of zero; otherwise minting shares for it and quoting the tier after it. */
  function PartRefusal(b: Book, c: Deployment, key: TierKey, user: Address, amount: int): Option<Error> {
    if amount == 0 then None
    else Then(CreditRefusal(TierOf(b, key), user, amount), StoreRefusal(c, key, Grown(TierOf(b, key).pool, amount)))
  }

  function CreditsRefusal(b: Book, c: Deployment, tier: nat, user: Address, pools: seq<Address>, amounts: seq<int>,
                          i: nat): Option<Error>
    requires i <= |pools| == |amounts|
    decreases |pools| - i
  {
    if i == |pools| then None
    else
      Then(PartRefusal(b, c, TierKey(pools[i], tier), user, amounts[i]),
           CreditsRefusal(b, c, tier, user, pools, amounts, i + 1))
  }

  /** A tier before and after its credit: `amount` tokens and the shares minted for them, to `user` alone. */
  ghost predicate Credited(t: Tiers.Tier, s: Tiers.Tier, user: Address, amount: int) {
    if amount == 0 then s == t
    else
      var u := Tiers.DepositorOf(t, user).balance;
      s == Tiers.SetBalance(t.(pool := Grown(t.pool, amount)), user, u.(shares := u.shares + MintFor(t.pool, amount)))
  }

  lemma CreditOneOutcome(b: Book, c: Deployment, key: TierKey, asset: Asset, user: Address, lp: int, claim: int,
                         blnt: int, due: int, now: nat)
    requires BookInv(Undue(b, asset, due), c, now) && ClaimedHere(b, c, key, asset, user) && IsLp(asset)
    requires 0 <= lp <= I128_MAX && 0 <= claim <= blnt && 0 < blnt
    ensures var r, amount := CreditOne(b, c, key, user, lp, claim, blnt), Part(lp, claim, blnt);
            if r.Failure? then PartRefusal(b, c, key, user, amount) == Some(r.error)
            else
              && PartRefusal(b, c, key, user, amount).None?
              && Credited(TierOf(b, key), TierOf(r.value, key), user, amount)
              && forall k: TierKey :: k != key ==> TierOf(r.value, k) == TierOf(b, k)
  {
    hide BookInv, TierInv, ProportionalFloor, Refresh, Commit, Kept, CreditsOnly, Tiers.CreditShares, Synced, Part,
         PoolBalances.PriceHolds, CreditRefusal, Quotable, MintFor, Tiers.SetBalance;
    var g := Undue(b, asset, due);
    PartExact(lp, claim, blnt);
    var amount := Part(lp, claim, blnt);
    ShareLaws.BookTier(g, c, key, now);
    if amount != 0 {
      var s := TierOf(b, key);
      assert TierOf(g, key) == s;
      CreditExact(s, user, amount, now, Earns(c, key));
      CreditKeeps(s, user, amount, now, Earns(c, key));
      var r := Tiers.CreditShares(s, user, amount);
      if r.Success? {
        var t := r.value.0;
        CreditIsCommit(b, c, key, asset, t, amount, due);
        KeptFacts(s, t, user, now, Earns(c, key));
        ShareLaws.CommitShares(g, c, key, t, amount, user, now);
        var next := Refresh(b.(tiers := b.tiers[key := t]), c, key.pool);
        if next.Success? {
          RefreshKeepsHeld(b.(tiers := b.tiers[key := t]), c, key.pool);
        }
      }
    }
  }

  /** Tiers from `i` on are as in `m`; earlier ones were credited; no other tier changed. */
  ghost predicate CreditedSoFar(m: Book, b: Book, tier: nat, user: Address, pools: seq<Address>, amounts: seq<int>,
                                i: nat)
    requires i <= |pools| == |amounts|
  {
    && (forall j | 0 <= j < i ::
          Credited(TierOf(m, TierKey(pools[j], tier)), TierOf(b, TierKey(pools[j], tier)), user, amounts[j]))
    && forall k: TierKey | (forall j | 0 <= j < i :: TierKey(pools[j], tier) != k) :: TierOf(b, k) == TierOf(m, k)
  }

  lemma {:induction false} CreditFromOutcome(m: Book, b: Book, c: Deployment, tier: nat, asset: Asset, user: Address,
                                             pools: seq<Address>, claims: seq<int>, i: nat, lp: int, blnt: int,
                                             given: int, done: int, now: nat)
    requires BookInv(Undue(b, asset, lp - given), c, now) && IsLp(asset) && 0 <= lp <= I128_MAX && 0 < blnt
    requires ToCredit(b, c, tier, asset, user, pools, claims, i, done, blnt)
    requires Within(given, lp, done, blnt) && i <= |pools| == |claims|
    requires forall j | 0 <= j < |claims| :: 0 <= claims[j] <= blnt
    requires CreditedSoFar(m, b, tier, user, pools, Credits(claims, lp, blnt), i)
    ensures var r, amounts := CreditFrom(b, c, tier, user, pools, claims, i, lp, blnt), Credits(claims, lp, blnt);
            if r.Failure? then CreditsRefusal(m, c, tier, user, pools, amounts, i) == Some(r.error)
            else
              && CreditsRefusal(m, c, tier, user, pools, amounts, i).None?
              && CreditedSoFar(m, r.value, tier, user, pools, amounts, |pools|)
    decreases |pools| - i
  {
    hide BookInv, CreditOne, CreditsOnly, Sum, TokensOf, ClaimedOf, Within, ToCredit, ProportionalFloor, ClaimedHere,
         PartRefusal, CreditedSoFar, Part;
    if i < |pools| {
      var key, amounts := TierKey(pools[i], tier), Credits(claims, lp, blnt);
      ToCreditNext(b, b, c, tier, asset, user, pools, claims, i, done, blnt);
      ToCreditDistinct(b, c, tier, asset, user, pools, claims, i, done, blnt);
      NotYetCredited(m, b, c, tier, user, pools, amounts, i);
      CreditOneOutcome(b, c, key, asset, user, lp, claims[i], blnt, lp - given, now);
      CreditOneKeeps(b, c, key, asset, user, lp, claims[i], blnt, lp - given, now);
      var next := CreditOne(b, c, key, user, lp, claims[i], blnt);
      if next.Success? {
        PartExact(lp, claims[i], blnt);
        var share := Part(lp, claims[i], blnt);
        ToCreditNext(b, next.value, c, tier, asset, user, pools, claims, i, done, blnt);
        WithinStep(given, lp, done, claims[i], blnt, share);
        assert lp - given - share == lp - (given + share);
        OneMoreCredited(m, b, next.value, tier, user, pools, amounts, i);
        CreditFromOutcome(m, next.value, c, tier, asset, user, pools, claims, i + 1, lp, blnt, given + share,
          done + claims[i], now);
      }
    }
  }

  lemma ToCreditDistinct(b: Book, c: Deployment, tier: nat, asset: Asset, user: Address, pools: seq<Address>,
                         claims: seq<int>, i: nat, done: int, blnt: int)
    requires ToCredit(b, c, tier, asset, user, pools, claims, i, done, blnt)
    ensures forall j, k | 0 <= j < k < |pools| :: pools[j] != pools[k]
  {
  }

  lemma NotYetCredited(m: Book, b: Book, c: Deployment, tier: nat, user: Address, pools: seq<Address>,
                       amounts: seq<int>, i: nat)
    requires i < |pools| == |amounts| && CreditedSoFar(m, b, tier, user, pools, amounts, i)
    requires forall j, k | 0 <= j < k < |pools| :: pools[j] != pools[k]
    ensures var key := TierKey(pools[i], tier);
            && TierOf(b, key) == TierOf(m, key)
            && PartRefusal(b, c, key, user, amounts[i]) == PartRefusal(m, c, key, user, amounts[i])
  {
    hide Credited, TierOf, CreditRefusal, StoreRefusal;
    forall j | 0 <= j < i ensures TierKey(pools[j], tier) != TierKey(pools[i], tier) {
    }
  }

  lemma OneMoreCredited(m: Book, b: Book, n: Book, tier: nat, user: Address, pools: seq<Address>, amounts: seq<int>,
                        i: nat)
    requires i < |pools| == |amounts| && CreditedSoFar(m, b, tier, user, pools, amounts, i)
    requires forall j, k | 0 <= j < k < |pools| :: pools[j] != pools[k]
    requires var key := TierKey(pools[i], tier);
             && TierOf(b, key) == TierOf(m, key) && Credited(TierOf(b, key), TierOf(n, key), user, amounts[i])
             && forall k: TierKey :: k != key ==> TierOf(n, k) == TierOf(b, k)
    ensures CreditedSoFar(m, n, tier, user, pools, amounts, i + 1)
  {
    hide Credited, TierOf;
    forall j | 0 <= j < i ensures TierKey(pools[j], tier) != TierKey(pools[i], tier) {
    }
    forall k: TierKey | forall j | 0 <= j < i + 1 :: TierKey(pools[j], tier) != k ensures TierOf(n, k) == TierOf(m, k) {
      assert TierKey(pools[i], tier) != k;
    }
  }

  // The whole claim.

  lemma BookedFits(o: Ongoing, paid: int)
    requires OngoingLedger(o) && 0 <= paid && o.backstopClaimed + paid <= o.backstopAllocated
    ensures var n := o.(backstopClaimed := o.backstopClaimed + paid);
            && o.backstopClaimed + paid <= I128_MAX && CheckedOngoing(o) == Success(o) && StoreOngoing(n) == Success(n)
  {
  }

  lemma CompoundExact(b: Book, c: Deployment, tier: nat, asset: Asset, user: Address, pools: seq<Address>,
                      claims: seq<int>, blnt: int, minLp: int, trade: Exchange)
    requires |claims| == |pools| && OngoingLedger(b.ongoing) && 0 < blnt
    requires b.ongoing.backstopClaimed + blnt <= b.ongoing.backstopAllocated
    ensures var lp := trade.minted;
            var funded := b.(ongoing := b.ongoing.(backstopClaimed := b.ongoing.backstopClaimed + blnt),
                             held := b.held[asset := HeldOf(b, asset) + lp]);
            var r := Compound(b, c, tier, asset, user, pools, claims, blnt, minLp, trade);
            if U32_MAX < (trade.sequence / 100_000 + 1) * 100_000 then r == Failure(Overflow)
            else if lp < minLp then r == Failure(Trap)
            else if trade.spent != blnt || trade.received != lp || lp <= 0 then r == Failure(BalanceError)
            else
              match CreditFrom(funded, c, tier, user, pools, claims, 0, lp, blnt)
              case Failure(x) => r == Failure(x)
              case Success(n) => r == Success((n, lp))
  {
    hide CreditFrom, HeldOf;
    BookedFits(b.ongoing, blnt);
  }

  lemma PartRefusalSame(b: Book, m: Book, c: Deployment, tier: nat, user: Address, pools: seq<Address>,
                        amounts: seq<int>, i: nat)
    requires i <= |pools| == |amounts|
    requires forall j | 0 <= j < |pools| ::
               TierOf(m, TierKey(pools[j], tier)).pool == TierOf(b, TierKey(pools[j], tier)).pool
    ensures CreditsRefusal(m, c, tier, user, pools, amounts, i) == CreditsRefusal(b, c, tier, user, pools, amounts, i)
    decreases |pools| - i
  {
    hide MintFor, WideMint, StoreRefusal;
    if i < |pools| {
      PartRefusalSame(b, m, c, tier, user, pools, amounts, i + 1);
    }
  }

  /** A claimed tier at the end: the user was paid exactly what was due, and credited shares for `amount` tokens; nobody
      else's balance or entitlement moved, and the schedule is as it was. */
  ghost predicate Compounded(t: Tiers.Tier, s: Tiers.Tier, user: Address, due: int, amount: int, now: nat) {
    var u, minted := Tiers.DepositorOf(t, user).balance, if amount == 0 then 0 else MintFor(t.pool, amount);
    && Fair(t, s, user, due, now) && SameSchedule(t, s, now)
    && s.pool == PoolBalances.PoolRecord(t.pool.shares + minted, t.pool.tokens + amount, t.pool.q4w)
    && Tiers.DepositorOf(s, user).balance == u.(shares := u.shares + minted)
    && forall x: Address :: x != user ==> Tiers.DepositorOf(s, x).balance == Tiers.DepositorOf(t, x).balance
  }

  lemma PaidThenCredited(t: Tiers.Tier, m: Tiers.Tier, s: Tiers.Tier, user: Address, due: int, amount: int, now: nat,
                         eligible: bool)
    requires Paid(t, m, user, due, now) && Credited(m, s, user, amount) && TierInv(m, now, eligible) && Synced(m, user)
    ensures Compounded(t, s, user, due, amount, now)
  {
    hide TierInv, Fair, SameSchedule, MintFor;
    if amount != 0 {
      NoStreamNoEmission(m, now, eligible);
      BalanceFair(m, s, user, now);
      FairTwice(t, m, s, user, due, 0, now);
      SameScheduleTwice(t, m, s, now);
    }
  }

  /** Every claimed tier, and nothing else. */
  ghost predicate Settled(b: Book, n: Book, tier: nat, user: Address, pools: seq<Address>, due: seq<int>,
                          amounts: seq<int>, now: nat)
    requires |pools| == |due| == |amounts|
  {
    && (forall j | 0 <= j < |pools| ::
          Compounded(TierOf(b, TierKey(pools[j], tier)), TierOf(n, TierKey(pools[j], tier)), user, due[j], amounts[j],
                     now))
    && forall k: TierKey | (forall j | 0 <= j < |pools| :: TierKey(pools[j], tier) != k) :: TierOf(n, k) == TierOf(b, k)
  }

  lemma SettledByBoth(b: Book, m: Book, n: Book, c: Deployment, tier: nat, asset: Asset, user: Address,
                      pools: seq<Address>, amounts: seq<int>, now: nat)
    requires |amounts| == |pools| && ClaimedSoFar(b, m, tier, user, pools, |pools|, now) && TiersInv(m, c, now)
    requires CreditedSoFar(m, n, tier, user, pools, amounts, |pools|)
    requires forall j | 0 <= j < |pools| :: ClaimedHere(m, c, TierKey(pools[j], tier), asset, user)
    ensures Settled(b, n, tier, user, pools, ClaimsDue(b, tier, user, pools, now), amounts, now)
  {
    hide TiersInv, TierInv, Paid, Credited, Compounded, TierOf, TierAsset, Synced, ClaimDue;
    var due := ClaimsDue(b, tier, user, pools, now);
    forall j | 0 <= j < |pools|
      ensures Compounded(TierOf(b, TierKey(pools[j], tier)), TierOf(n, TierKey(pools[j], tier)), user, due[j],
        amounts[j], now)
    {
      var key := TierKey(pools[j], tier);
      assert ClaimedHere(m, c, key, asset, user);
      TierOfInv(m, c, key, now);
      PaidThenCredited(TierOf(b, key), TierOf(m, key), TierOf(n, key), user, due[j], amounts[j], now, Earns(c, key));
    }
  }

  /** The claims alone, when they add up to nothing. */
  lemma SettledByClaims(b: Book, m: Book, tier: nat, user: Address, pools: seq<Address>, now: nat)
    requires ClaimedSoFar(b, m, tier, user, pools, |pools|, now)
    ensures Settled(b, m, tier, user, pools, ClaimsDue(b, tier, user, pools, now), seq(|pools|, _ => 0), now)
  {
    hide TierOf, ClaimDue, Fair, SameSchedule;
    var due := ClaimsDue(b, tier, user, pools, now);
    forall j | 0 <= j < |pools|
      ensures Compounded(TierOf(b, TierKey(pools[j], tier)), TierOf(m, TierKey(pools[j], tier)), user, due[j], 0, now)
    {
      assert Paid(TierOf(b, TierKey(pools[j], tier)), TierOf(m, TierKey(pools[j], tier)), user, due[j], now);
    }
  }

  /** The first refusals of a claim, before any pool is looked at. */
  function EntryRefusal(b: Book, c: Deployment, tier: nat, pools: seq<Address>, minLp: int): Option<Error> {
    if b.migration.activatedAt.None? then Some(MigrationNotActive)
    else if !Funded(b) then Some(BackfillNotFunded)
    else if pools == [] then Some(BadRequest)
    else if minLp < 0 then Some(NegativeAmount)
    else if pools[0] !in c.config then Some(NotPool)
    else if |c.config[pools[0]]| <= tier then Some(BadRequest)
    else if !IsLp(c.config[pools[0]][tier]) then Some(InvalidEmissionValue)
    else None
  }

  /** A batched claim, whole: every refusal in order; otherwise the user is paid, for each pool, exactly the whole BLNT
      it was entitled to, all of it is spent on LP, and each pool's tier is credited its floor part of that LP. */
  lemma ClaimOutcome(b: Book, c: Deployment, e: EmitterState, tier: nat, user: Address, pools: seq<Address>,
                     minLp: int, trade: Exchange, now: nat)
    requires BookInv(b, c, now)
    ensures var r, due := Claim(b, c, e, tier, user, pools, minLp, trade, now), ClaimsDue(b, tier, user, pools, now);
            var total, lp := SeqSum(due), trade.minted;
            if EntryRefusal(b, c, tier, pools, minLp).Some? then
              r == Failure(EntryRefusal(b, c, tier, pools, minLp).value)
            else
              var loop := LoopRefusal(b, c, tier, c.config[pools[0]][tier], user, pools, 0, now);
              if loop.Some? then r == Failure(loop.value)
              else if total == 0 then
                r.Success? && r.value.1 == 0 && Settled(b, r.value.0, tier, user, pools, due, seq(|pools|, _ => 0), now)
              else if U32_MAX < (trade.sequence / 100_000 + 1) * 100_000 then r == Failure(Overflow)
              else if lp < minLp then r == Failure(Trap)
              else if trade.spent != total || trade.received != lp || lp <= 0 then r == Failure(BalanceError)
              else
                var credits := CreditsRefusal(b, c, tier, user, pools, Credits(due, lp, total), 0);
                if credits.Some? then r == Failure(credits.value)
                else
                  && r.Success? && r.value.1 == lp
                  && Settled(b, r.value.0, tier, user, pools, due, Credits(due, lp, total), now)
  {
    hide BookInv, ClaimFrom, Compound, Claiming, ClaimedSoFar, LoopRefusal, CreditsRefusal, Settled, Credits, ClaimsDue,
         SeqSum;
    if EntryRefusal(b, c, tier, pools, minLp).None? {
      var asset := c.config[pools[0]][tier];
      HoldingsOf(b, c, now);
      ClaimStarts(b, c, tier, asset, user, pools, now);
      NothingClaimedYet(b, tier, user, pools, now);
      ClaimFromOutcome(b, c, e, tier, asset, user, pools, 0, now, Claimed(b, [], 0));
      var first := ClaimFrom(c, e, tier, asset, user, pools, 0, now, Claimed(b, [], 0));
      if first.Success? {
        ClaimedCounts(c, e, tier, asset, user, pools, 0, now, Claimed(b, [], 0));
        CompoundOutcome(b, c, tier, asset, user, pools, first.value, minLp, trade, now);
      }
    }
  }

  lemma NothingClaimedYet(b: Book, tier: nat, user: Address, pools: seq<Address>, now: nat)
    ensures ClaimedSoFar(b, b, tier, user, pools, 0, now) && ClaimsDue(b, tier, user, pools, now)[..0] == []
    ensures pools[..0] == []
  {
  }

  lemma CompoundOutcome(b: Book, c: Deployment, tier: nat, asset: Asset, user: Address, pools: seq<Address>,
                        claimed: Claimed, minLp: int, trade: Exchange, now: nat)
    requires BookInv(b, c, now) && IsLp(asset) && pools != []
    requires Claiming(b, c, tier, asset, user, pools, |pools|, now, claimed) && |claimed.claims| == |pools|
    requires ClaimedSoFar(b, claimed.book, tier, user, pools, |pools|, now)
    requires claimed.claims == ClaimsDue(b, tier, user, pools, now) && claimed.blnt == SeqSum(claimed.claims)
    ensures var due, total, lp := claimed.claims, claimed.blnt, trade.minted;
            var r := Compound(claimed.book, c, tier, asset, user, pools, due, total, minLp, trade);
            if total == 0 then
              r.Success? && r.value.1 == 0 && Settled(b, r.value.0, tier, user, pools, due, seq(|pools|, _ => 0), now)
            else if U32_MAX < (trade.sequence / 100_000 + 1) * 100_000 then r == Failure(Overflow)
            else if lp < minLp then r == Failure(Trap)
            else if trade.spent != total || trade.received != lp || lp <= 0 then r == Failure(BalanceError)
            else
              var credits := CreditsRefusal(b, c, tier, user, pools, Credits(due, lp, total), 0);
              if credits.Some? then r == Failure(credits.value)
              else
                && r.Success? && r.value.1 == lp
                && Settled(b, r.value.0, tier, user, pools, due, Credits(due, lp, total), now)
  {
    hide BookInv, Claiming, ClaimedSoFar, CreditsRefusal, Settled, Credits, ClaimsDue, SeqSum, Compound, CreditFrom,
         CreditedSoFar, ToCredit, Within, Short, Holdings, SameBalances, Sum, TokensOf, FundedOf, ClaimedOf,
         OngoingLedger;
    ClaimingFacts(b, c, tier, asset, user, pools, now, claimed);
    var due, total, lp := claimed.claims, claimed.blnt, trade.minted;
    if total == 0 {
      NoneToCompound(claimed.book, c, tier, asset, user, pools, due, minLp, trade);
      SettledByClaims(b, claimed.book, tier, user, pools, now);
    } else {
      ClaimsBooked(b, c, claimed, now);
      CompoundExact(claimed.book, c, tier, asset, user, pools, due, total, minLp, trade);
      if 0 < lp && trade.spent == total {
        CreditsOutcome(b, c, tier, asset, user, pools, claimed, lp, now);
      }
    }
  }

  lemma ClaimsBooked(b: Book, c: Deployment, claimed: Claimed, now: nat)
    requires BookInv(b, c, now) && claimed.book == b.(tiers := claimed.book.tiers) && Holdings(claimed.book, c, now)
    requires Sum(FundedOf(claimed.book.tiers)) == Sum(FundedOf(b.tiers)) && 0 <= claimed.blnt
    requires Sum(ClaimedOf(claimed.book.tiers)) == Sum(ClaimedOf(b.tiers)) + claimed.blnt
    ensures OngoingLedger(b.ongoing)
    ensures b.ongoing.backstopClaimed + claimed.blnt <= b.ongoing.backstopAllocated
  {
    hide Holdings, Sum, FundedOf, ClaimedOf, BackstopHeldOf, PoolHeldOf, OngoingLedger;
    LedgerBounds(b, claimed.book, c, now);
    HoldingsOngoing(b, claimed.book, c, now);
  }

  lemma HoldingsOngoing(b: Book, n: Book, c: Deployment, now: nat)
    requires BookInv(b, c, now)
    ensures OngoingLedger(b.ongoing) && b.ongoing.backstopClaimed == Sum(ClaimedOf(b.tiers))
  {
    hide Holdings, Sum, FundedOf, ClaimedOf, BackstopHeldOf, PoolHeldOf, OngoingLedger;
  }

  lemma CreditsOutcome(b: Book, c: Deployment, tier: nat, asset: Asset, user: Address, pools: seq<Address>,
                       claimed: Claimed, lp: int, now: nat)
    requires BookInv(b, c, now) && 0 < lp <= I128_MAX && IsLp(asset) && 0 < claimed.blnt
    requires Claiming(b, c, tier, asset, user, pools, |pools|, now, claimed) && |claimed.claims| == |pools|
    requires ClaimedSoFar(b, claimed.book, tier, user, pools, |pools|, now)
    requires claimed.claims == ClaimsDue(b, tier, user, pools, now) && claimed.blnt == SeqSum(claimed.claims)
    ensures var due, total := claimed.claims, claimed.blnt;
            var m := claimed.book;
            var funded := m.(ongoing := m.ongoing.(backstopClaimed := m.ongoing.backstopClaimed + total),
                             held := m.held[asset := HeldOf(m, asset) + lp]);
            var r := CreditFrom(funded, c, tier, user, pools, due, 0, lp, total);
            var refusal := CreditsRefusal(b, c, tier, user, pools, Credits(due, lp, total), 0);
            if r.Failure? then refusal == Some(r.error)
            else refusal.None? && Settled(b, r.value, tier, user, pools, due, Credits(due, lp, total), now)
  {
    hide BookInv, ClaimedSoFar, CreditsRefusal, Settled, ClaimsDue, CreditFrom, CreditedSoFar, ToCredit, Within, Short,
         Holdings, SameBalances, Sum, FundedOf, ClaimedOf, TokensOf, ClaimedHere, SeqSum, Part, Claiming;
    var due, total, m := claimed.claims, claimed.blnt, claimed.book;
    ClaimingFacts(b, c, tier, asset, user, pools, now, claimed);
    ClaimingPools(b, c, tier, asset, user, pools, now, claimed);
    var ongoing := b.ongoing.(backstopClaimed := b.ongoing.backstopClaimed + total);
    var funded := m.(ongoing := ongoing, held := b.held[asset := HeldOf(b, asset) + lp]);
    CreditStarts(b, c, tier, asset, user, pools, claimed, ongoing, lp, now);
    StartCredit(lp, total);
    EachWithinTotal(due);
    SameTiersSoFar(b, m, funded, tier, user, pools, due, lp, total, now);
    CreditFromOutcome(funded, funded, c, tier, asset, user, pools, due, 0, lp, total, 0, 0, now);
    PoolsAsBefore(b, funded, tier, user, pools, now);
    PartRefusalSame(b, funded, c, tier, user, pools, Credits(due, lp, total), 0);
    var r := CreditFrom(funded, c, tier, user, pools, due, 0, lp, total);
    if r.Success? {
      FundedTiers(m, funded, c, tier, asset, user, pools, now);
      SettledByBoth(b, funded, r.value, c, tier, asset, user, pools, Credits(due, lp, total), now);
    }
  }

  lemma ClaimingPools(b: Book, c: Deployment, tier: nat, asset: Asset, user: Address, pools: seq<Address>, now: nat,
                      claimed: Claimed)
    requires Claiming(b, c, tier, asset, user, pools, |pools|, now, claimed)
    ensures forall j | 0 <= j < |pools| :: ClaimedHere(claimed.book, c, TierKey(pools[j], tier), asset, user)
    ensures NonNegative(claimed.claims)
  {
    hide Holdings, SameBalances, Sum, FundedOf, ClaimedOf, TokensOf, ClaimedHere;
  }

  lemma {:induction false} EachWithinTotal(s: seq<int>)
    requires NonNegative(s)
    ensures forall j | 0 <= j < |s| :: 0 <= s[j] <= SeqSum(s)
    decreases |s|
  {
    if s != [] {
      var rest := s[1..];
      SeqSumNonNegative(rest);
      assert forall j | 0 <= j < |rest| :: rest[j] == s[j + 1];
      EachWithinTotal(rest);
      forall j | 0 <= j < |s| ensures 0 <= s[j] <= SeqSum(s) {
        if 0 < j {
          assert s[j] == rest[j - 1];
        }
      }
    }
  }

  lemma SameTiersSoFar(b: Book, m: Book, funded: Book, tier: nat, user: Address, pools: seq<Address>, due: seq<int>,
                       lp: int, total: int, now: nat)
    requires funded.tiers == m.tiers && ClaimedSoFar(b, m, tier, user, pools, |pools|, now) && |due| == |pools|
    ensures ClaimedSoFar(b, funded, tier, user, pools, |pools|, now)
    ensures CreditedSoFar(funded, funded, tier, user, pools, Credits(due, lp, total), 0)
  {
    hide Paid, ClaimDue, Part;
    assert forall k: TierKey :: TierOf(funded, k) == TierOf(m, k);
  }

  lemma PoolsAsBefore(b: Book, m: Book, tier: nat, user: Address, pools: seq<Address>, now: nat)
    requires ClaimedSoFar(b, m, tier, user, pools, |pools|, now)
    ensures forall j | 0 <= j < |pools| ::
              TierOf(m, TierKey(pools[j], tier)).pool == TierOf(b, TierKey(pools[j], tier)).pool
  {
    hide Fair, SameSchedule, TierOf, ClaimDue;
    forall j | 0 <= j < |pools|
      ensures TierOf(m, TierKey(pools[j], tier)).pool == TierOf(b, TierKey(pools[j], tier)).pool
    {
      var key := TierKey(pools[j], tier);
      assert Paid(TierOf(b, key), TierOf(m, key), user, ClaimDue(b, key, user, now), now);
    }
  }

  lemma FundedTiers(m: Book, funded: Book, c: Deployment, tier: nat, asset: Asset, user: Address, pools: seq<Address>,
                    now: nat)
    requires Holdings(m, c, now) && funded.tiers == m.tiers
    requires forall j | 0 <= j < |pools| :: ClaimedHere(m, c, TierKey(pools[j], tier), asset, user)
    ensures TiersInv(funded, c, now)
    ensures forall j | 0 <= j < |pools| :: ClaimedHere(funded, c, TierKey(pools[j], tier), asset, user)
  {
    hide TierInv, PoolsInv, CacheInv, ZoneInv, Custody, EntryCaps, ClaimedHere;
    TiersIgnorePools(m, funded, c, now);
    forall j | 0 <= j < |pools| ensures ClaimedHere(funded, c, TierKey(pools[j], tier), asset, user) {
      SameClaimed(m, funded, c, TierKey(pools[j], tier), asset, user);
    }
  }
}
