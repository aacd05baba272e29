/** What each kind of tier is worth in USDC, to the unit, and exactly when it cannot be valued. */
module ValuationOutcomes {
  import opened Numbers
  import PoolBalances
  import TierLaws
  import opened Backstops
  import opened Valuations

  /** v is x * n / d, rounded down. */
  predicate IsValue(v: int, x: int, n: int, d: int) {
    v * d <= x * n < v * d + d
  }

  predicate Positive(r: Reserves) {
    0 < r.supply && 0 < r.blnt && 0 < r.pair
  }

  /** USDC for one unit of the asset, as a fraction. The USDC side is a fifth of the BLNT:USDC pool; BLNT is the same
      part of both pools, so the BLNT:XLM pool is worth as much for each BLNT it holds. */
  function RateOver(asset: Asset, anchor: Reserves, target: Reserves): (int, int)
    requires Positive(anchor) && Positive(target)
  {
    match asset
    case Usdc => (1, 1)
    case BlntUsdc => (5 * anchor.pair, anchor.supply)
    case BlntXlm => (target.blnt * (5 * anchor.pair) / anchor.blnt, target.supply)
    case Xlm => (anchor.pair * target.blnt, anchor.blnt * target.pair)
  }

  /** Why a positive amount of an asset cannot be valued: an empty liquidity pool it needs, more LP than its supply, a
      price of nothing, or a value over 128 bits. */
  function ValueRefusal(asset: Asset, total: int, anchor: Reserves, target: Reserves): Option<Error> {
    if asset == Usdc then None
    else if !Positive(anchor) then Some(InvalidValuation)
    else if asset != Xlm && I128_MAX < 5 * anchor.pair then Some(Overflow)
    else if asset != BlntUsdc && !Positive(target) then Some(InvalidValuation)
    else if asset == BlntUsdc then (if anchor.supply < total then Some(InvalidValuation) else None)
    else if asset == BlntXlm then
      var price := target.blnt * (5 * anchor.pair) / anchor.blnt;
      if I128_MAX < price then Some(Overflow)
      else if price <= 0 || target.supply < total then Some(InvalidValuation)
      else None
    else if I128_MAX < total * (anchor.pair * target.blnt) / Denominator(anchor, target) then Some(Overflow)
    else None
  }

  function Denominator(anchor: Reserves, target: Reserves): int
    requires Positive(anchor) && Positive(target)
    ensures Denominator(anchor, target) > 0
  {
    MulMonotone(1, target.pair, anchor.blnt);
    anchor.blnt * target.pair
  }

  lemma MulDivExact(value: int, numerator: int, denominator: int)
    requires 0 <= value && 0 <= numerator && 0 < denominator
    ensures var r := Valuations.MulDivFloor(value, numerator, denominator);
            if I128_MAX < value * numerator / denominator then r == Failure(Overflow)
            else
              && r == Success(value * numerator / denominator) && 0 <= r.value
              && IsValue(r.value, value, numerator, denominator)
  {
    MulNonNegative(value, numerator);
    DivBounds(value * numerator, denominator);
    DivMonotone(0, value * numerator, denominator);
  }

  lemma LargerPart(x: int, y: int, n: int, d: int)
    requires 0 <= x <= y && 0 <= n && 0 < d
    ensures 0 <= x * n / d <= y * n / d
  {
    MulNonNegative(x, n);
    MulMonotone(x, y, n);
    DivMonotone(x * n, y * n, d);
    DivMonotone(0, x * n, d);
  }

  /** Each part is worth its proportion of the LP pool; being at most the whole, it always fits. */
  lemma LpExact(a: Split, totalValue: int, supply: int)
    requires 0 <= a.active <= a.total && 0 <= a.queued <= a.total && 0 < totalValue <= I128_MAX && 0 < a.total <= supply
    ensures var r := QuoteLp(a, totalValue, supply);
            && r.Success? && IsValue(r.value.active, a.active, totalValue, supply)
            && IsValue(r.value.queued, a.queued, totalValue, supply)
            && IsValue(r.value.total, a.total, totalValue, supply)
  {
    hide Valuations.MulDivFloor, IsValue;
    MulDivExact(a.active, totalValue, supply);
    MulDivExact(a.queued, totalValue, supply);
    MulDivExact(a.total, totalValue, supply);
    LargerPart(a.active, supply, totalValue, supply);
    LargerPart(a.queued, supply, totalValue, supply);
    LargerPart(a.total, supply, totalValue, supply);
    DivUnique(supply * totalValue, supply, totalValue);
  }

  lemma XlmExact(amount: int, anchor: Reserves, target: Reserves)
    requires 0 <= amount && Positive(anchor) && Positive(target)
    ensures var r, n, d := XlmValue(amount, anchor, target), anchor.pair * target.blnt, Denominator(anchor, target);
            && 0 <= n
            && if I128_MAX < amount * n / d then r == Failure(Overflow)
               else r == Success(amount * n / d) && IsValue(r.value, amount, n, d)
  {
    var n, d := anchor.pair * target.blnt, Denominator(anchor, target);
    Associate(amount, anchor.pair, target.blnt);
    MulNonNegative(anchor.pair, target.blnt);
    MulNonNegative(amount, n);
    DivBounds(amount * n, d);
    DivMonotone(0, amount * n, d);
  }

  lemma XlmSplitExact(a: Split, anchor: Reserves, target: Reserves)
    requires 0 <= a.active <= a.total && 0 <= a.queued <= a.total && Positive(anchor) && Positive(target)
    ensures var r, n, d := QuoteXlm(a, anchor, target), anchor.pair * target.blnt, Denominator(anchor, target);
            if I128_MAX < a.total * n / d then r == Failure(Overflow)
            else
              && r.Success? && IsValue(r.value.active, a.active, n, d) && IsValue(r.value.queued, a.queued, n, d)
              && IsValue(r.value.total, a.total, n, d)
  {
    hide XlmValue, IsValue, Denominator;
    XlmExact(a.active, anchor, target);
    XlmExact(a.queued, anchor, target);
    XlmExact(a.total, anchor, target);
    LargerPart(a.active, a.total, anchor.pair * target.blnt, Denominator(anchor, target));
    LargerPart(a.queued, a.total, anchor.pair * target.blnt, Denominator(anchor, target));
  }

  /** The value of a tier's active, queued and total tokens. */
  lemma QuoteOutcome(asset: Asset, a: Split, anchor: Reserves, target: Reserves)
    requires 0 <= a.active <= a.total && 0 <= a.queued <= a.total
    ensures var r, refusal := QuoteTier(asset, a, anchor, target), ValueRefusal(asset, a.total, anchor, target);
            if a.total == 0 then r == Success(a)
            else if refusal.Some? then r == Failure(refusal.value)
            else
              && r.Success?
              && (asset == Usdc ==> r.value == a)
              && (asset == BlntUsdc ==>
                    && IsValue(r.value.active, a.active, 5 * anchor.pair, anchor.supply)
                    && IsValue(r.value.queued, a.queued, 5 * anchor.pair, anchor.supply)
                    && IsValue(r.value.total, a.total, 5 * anchor.pair, anchor.supply))
              && (asset == BlntXlm || asset == Xlm ==>
                    var (n, d) := RateOver(asset, anchor, target);
                    && IsValue(r.value.active, a.active, n, d) && IsValue(r.value.queued, a.queued, n, d)
                    && IsValue(r.value.total, a.total, n, d))
  {
    hide QuoteLp, QuoteXlm, Valuations.MulDivFloor, IsValue;
    if 0 < a.total && asset != Usdc && Positive(anchor) {
      match asset
      case Usdc =>
      case BlntUsdc =>
        if 5 * anchor.pair <= I128_MAX {
          if a.total <= anchor.supply {
            LpExact(a, 5 * anchor.pair, anchor.supply);
          } else {
            TooMuchLp(a, 5 * anchor.pair, anchor.supply);
          }
        }
      case BlntXlm =>
        if 5 * anchor.pair <= I128_MAX && Positive(target) {
          MulDivExact(target.blnt, 5 * anchor.pair, anchor.blnt);
          var price := target.blnt * (5 * anchor.pair) / anchor.blnt;
          if 0 < price <= I128_MAX && a.total <= target.supply {
            LpExact(a, price, target.supply);
          } else {
            TooMuchLp(a, price, target.supply);
          }
        }
      case Xlm =>
        if Positive(target) {
          XlmSplitExact(a, anchor, target);
        }
    }
  }

  lemma TooMuchLp(a: Split, totalValue: int, supply: int)
    ensures totalValue <= 0 || supply < a.total ==> QuoteLp(a, totalValue, supply) == Failure(InvalidValuation)
  {
  }

  /** A tier's tokens, split: the active part and the queued part, each rounded down, and all of them. */
  lemma PartitionOutcome(t: TierState)
    requires PoolBalances.ValidPool(t.balance)
    ensures var r, p := AmountsOf(t), t.balance;
            if !FitsPart(p, p.shares - p.q4w) || !FitsPart(p, p.q4w) then r == Failure(Trap)
            else
              && r.Success? && r.value.total == p.tokens
              && TierLaws.ActivePart(p, r.value.active)
              && (p.shares == 0 ==> r.value.queued == 0)
              && (0 < p.shares ==> IsValue(r.value.queued, p.q4w, p.tokens, p.shares))
              && 0 <= r.value.active <= p.tokens && 0 <= r.value.queued <= p.tokens
  {
    hide PoolBalances.ConvertToTokens;
    PoolBalances.TokensExact(t.balance, t.balance.shares - t.balance.q4w);
    PoolBalances.TokensExact(t.balance, t.balance.q4w);
  }

  predicate FitsPart(p: PoolBalances.PoolRecord, shares: int) {
    shares == p.shares || FitsI128(shares * p.tokens)
  }

  /** The value of one tier as a pool is told it: plain USDC counts for nothing while the contract may not move it. */
  lemma TierOutcome(t: TierState, anchor: Reserves, target: Reserves, authorized: bool)
    requires PoolBalances.ValidPool(t.balance) && AmountsOf(t).Success?
    ensures var r := ValueTier(t, anchor, target, authorized);
            var q := QuoteTier(t.asset, AmountsOf(t).value, anchor, target);
            if q.Failure? then r == Failure(q.error)
            else if t.asset == Usdc && !authorized && t.balance.tokens != 0 then r == Success(Split(0, 0, 0))
            else r == Success(q.value)
  {
    hide QuoteTier, PoolBalances.ConvertToTokens;
  }

  lemma {:induction false} PartitionsOutcome(tiers: seq<TierState>)
    ensures Partitions(tiers).Success? <==> forall i | 0 <= i < |tiers| :: AmountsOf(tiers[i]).Success?
    decreases |tiers|
  {
    hide AmountsOf;
    if tiers != [] {
      PartitionsOutcome(tiers[1..]);
      if Partitions(tiers).Success? {
        forall i | 0 <= i < |tiers| ensures AmountsOf(tiers[i]).Success? {
          assert 0 < i ==> tiers[i] == tiers[1..][i - 1];
        }
      } else if AmountsOf(tiers[0]).Success? {
        var j :| 0 <= j < |tiers[1..]| && AmountsOf(tiers[1..][j]).Failure?;
        assert tiers[j + 1] == tiers[1..][j];
      }
    }
  }

  lemma {:induction false} ValuesOutcome(tiers: seq<TierState>, anchor: Reserves, target: Reserves, authorized: bool,
                                         v: Valuation)
    requires |v.active| == |v.queued| == |v.total|
    ensures var r, n := ValueFrom(tiers, anchor, target, authorized, v), |v.active|;
            && (r.Success? <==> forall i | 0 <= i < |tiers| :: ValueTier(tiers[i], anchor, target, authorized).Success?)
            && (r.Success? ==>
                  && |r.value.active| == |r.value.queued| == |r.value.total| == n + |tiers|
                  && r.value.active[..n] == v.active && r.value.queued[..n] == v.queued && r.value.total[..n] == v.total
                  && forall i | 0 <= i < |tiers| ::
                       Split(r.value.active[n + i], r.value.queued[n + i], r.value.total[n + i])
                       == ValueTier(tiers[i], anchor, target, authorized).value)
    decreases |tiers|
  {
    hide ValueTier;
    if tiers != [] {
      var first, rest, n := ValueTier(tiers[0], anchor, target, authorized), tiers[1..], |v.active|;
      assert forall i | 0 <= i < |rest| :: rest[i] == tiers[i + 1];
      if first.Success? {
        var q := first.value;
        var next := Valuation(v.active + [q.active], v.queued + [q.queued], v.total + [q.total]);
        ValuesOutcome(rest, anchor, target, authorized, next);
        var r := ValueFrom(rest, anchor, target, authorized, next);
        if r.Success? {
          Prefix(r.value.active, v.active, q.active);
          Prefix(r.value.queued, v.queued, q.queued);
          Prefix(r.value.total, v.total, q.total);
          forall i | 0 <= i < |tiers|
            ensures Split(r.value.active[n + i], r.value.queued[n + i], r.value.total[n + i])
                 == ValueTier(tiers[i], anchor, target, authorized).value
          {
            if 0 < i {
              assert n + i == |next.active| + (i - 1);
            }
          }
        } else {
          var j :| 0 <= j < |rest| && ValueTier(rest[j], anchor, target, authorized).Failure?;
          assert ValueTier(tiers[j + 1], anchor, target, authorized).Failure?;
        }
      }
    }
  }

  lemma Prefix(s: seq<int>, t: seq<int>, x: int)
    requires |t| < |s| && s[..|t| + 1] == t + [x]
    ensures s[..|t|] == t && s[|t|] == x
  {
    assert s[..|t|] == s[..|t| + 1][..|t|];
  }

  /** A pool is valued tier by tier, in configured order: exactly when each tier can be split and valued and the
      liquidity pools that some tier with tokens needs can be read. */
  lemma PoolOutcome(tiers: seq<TierState>, anchor: Reserves, target: Reserves, authorized: bool)
    ensures var r := PoolValuation(tiers, anchor, target, authorized);
            && (r.Success? <==>
                  && (forall i | 0 <= i < |tiers| ::
                       AmountsOf(tiers[i]).Success? && ValueTier(tiers[i], anchor, target, authorized).Success?)
                  && ((exists i :: 0 <= i < |tiers| && tiers[i].balance.tokens > 0 && tiers[i].asset != Usdc) ==>
                        Positive(anchor) && 5 * anchor.pair <= I128_MAX)
                  && ((exists i :: 0 <= i < |tiers| && tiers[i].balance.tokens > 0 && tiers[i].asset in {BlntXlm, Xlm})
                      ==> Positive(target)))
            && (r.Success? ==>
                  && |r.value.active| == |r.value.queued| == |r.value.total| == |tiers|
                  && forall i | 0 <= i < |tiers| ::
                       Split(r.value.active[i], r.value.queued[i], r.value.total[i])
                       == ValueTier(tiers[i], anchor, target, authorized).value)
  {
    hide AmountsOf, ValueTier, ValueFrom, Partitions;
    PartitionsOutcome(tiers);
    ValuesOutcome(tiers, anchor, target, authorized, Valuation([], [], []));
    var r := ValueFrom(tiers, anchor, target, authorized, Valuation([], [], []));
    if r.Success? {
      forall i | 0 <= i < |tiers|
        ensures Split(r.value.active[i], r.value.queued[i], r.value.total[i])
             == ValueTier(tiers[i], anchor, target, authorized).value
      {
        assert 0 + i == i;
      }
    }
  }
}
