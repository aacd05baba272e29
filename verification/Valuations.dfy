/** What a pool's tiers are worth in USDC, split into active and queued value, and the queued share of
    the whole that the pool is told. */
module Valuations {
  import opened Numbers
  import opened Sums
  import PoolBalances
  import opened Backstops
  import BookLaws
  import ShareLaws
  import TierLaws
  import WeightLaws

  type PoolRecord = PoolBalances.PoolRecord

  /** Supply and reserves of one liquidity pool, as read in one invocation. */
  datatype Reserves = Reserves(supply: int, blnt: int, pair: int)

  /** One amount, or value, for the active part, the queued part and the whole tier. */
  datatype Split = Split(active: int, queued: int, total: int)

  /** A configured tier: its asset and its stored balance. */
  datatype TierState = TierState(asset: Asset, balance: PoolRecord)

  const PAIR_VALUE_MULTIPLIER: int := 5
  const UNVALUED := Split(0, 0, 0)

  function ReadComet(r: Reserves): Result<Reserves> {
    if r.supply <= 0 || r.blnt <= 0 || r.pair <= 0 then Failure(InvalidValuation) else Success(r)
  }

  function MulDivFloor(value: int, numerator: int, denominator: int): Result<int> {
    if value < 0 || numerator < 0 || denominator <= 0 then Failure(InvalidValuation)
    else I128(value * numerator / denominator)
  }

  function AmountsOf(t: TierState): Result<Split> {
    var (active, queued, total) :- PoolBalances.Partition(t.balance);
    Success(Split(active, queued, total))
  }

  /** An LP tier is worth its part of the supply. */
  function QuoteLp(a: Split, totalValue: int, supply: int): Result<Split> {
    if totalValue <= 0 || a.total > supply then Failure(InvalidValuation)
    else
      var active :- MulDivFloor(a.active, totalValue, supply);
      var queued :- MulDivFloor(a.queued, totalValue, supply);
      var total :- MulDivFloor(a.total, totalValue, supply);
      Success(Split(active, queued, total))
  }

  function XlmValue(amount: int, anchor: Reserves, target: Reserves): Result<int>
    requires 0 < anchor.blnt && 0 < target.pair
  {
    if amount < 0 then Failure(InvalidValuation)
    else
      assert 0 < anchor.blnt * target.pair by { MulMonotone(1, target.pair, anchor.blnt); }
      I128(amount * anchor.pair * target.blnt / (anchor.blnt * target.pair))
  }

  function QuoteXlm(a: Split, anchor: Reserves, target: Reserves): Result<Split>
    requires 0 < anchor.blnt && 0 < target.pair
  {
    var active :- XlmValue(a.active, anchor, target);
    var queued :- XlmValue(a.queued, anchor, target);
    var total :- XlmValue(a.total, anchor, target);
    Success(Split(active, queued, total))
  }

  /** `anchor` is BLNT:USDC, `target` BLNT:XLM. */
  function QuoteTier(asset: Asset, a: Split, anchor: Reserves, target: Reserves): Result<Split> {
    if a.active < 0 || a.queued < 0 || a.total < 0 then Failure(InvalidValuation)
    else if a.total == 0 then Success(a)
    else
      match asset
      case Usdc => Success(a)
      case BlntUsdc =>
        var _ :- ReadComet(anchor);
        var anchorValue :- I128(anchor.pair * PAIR_VALUE_MULTIPLIER);
        QuoteLp(a, anchorValue, anchor.supply)
      case BlntXlm =>
        var _ :- ReadComet(anchor);
        var anchorValue :- I128(anchor.pair * PAIR_VALUE_MULTIPLIER);
        var _ :- ReadComet(target);
        var targetValue :- MulDivFloor(target.blnt, anchorValue, anchor.blnt);
        QuoteLp(a, targetValue, target.supply)
      case Xlm =>
        var _ :- ReadComet(anchor);
        var _ :- ReadComet(target);
        QuoteXlm(a, anchor, target)
  }

  /** Plain USDC counts for nothing while the contract may not move it. */
  function ValueTier(t: TierState, anchor: Reserves, target: Reserves, authorized: bool): Result<Split> {
    var amounts :- AmountsOf(t);
    var quote :- QuoteTier(t.asset, amounts, anchor, target);
    Success(if amounts.total == 0 || t.asset != Usdc || authorized then quote else UNVALUED)
  }

  /** The three value lists of a pool, in tier order. */
  datatype Valuation = Valuation(active: seq<int>, queued: seq<int>, total: seq<int>)

  predicate NeedsAnchor(tiers: seq<TierState>) {
    exists i | 0 <= i < |tiers| :: tiers[i].balance.tokens > 0 && tiers[i].asset != Usdc
  }

  predicate NeedsTarget(tiers: seq<TierState>) {
    exists i | 0 <= i < |tiers| :: tiers[i].balance.tokens > 0 && (tiers[i].asset == BlntXlm || tiers[i].asset == Xlm)
  }

  function Partitions(tiers: seq<TierState>): Result<()>
    decreases |tiers|
  {
    if tiers == [] then Success(())
    else
      var _ :- AmountsOf(tiers[0]);
      Partitions(tiers[1..])
  }

  /** Every part is computed first; then the reserves some tier needs are read; then tiers are quoted. */
  function ReadNeeded(tiers: seq<TierState>, anchor: Reserves, target: Reserves): Result<()> {
    var _ :- if NeedsAnchor(tiers) then ReadAnchor(anchor) else Success(0);
    var _ :- if NeedsTarget(tiers) then ReadComet(target) else Success(target);
    Success(())
  }

  function ReadAnchor(anchor: Reserves): Result<int> {
    var _ :- ReadComet(anchor);
    I128(anchor.pair * PAIR_VALUE_MULTIPLIER)
  }

  function ValueFrom(tiers: seq<TierState>, anchor: Reserves, target: Reserves, authorized: bool,
                     v: Valuation): Result<Valuation>
    decreases |tiers|
  {
    if tiers == [] then Success(v)
    else
      var q :- ValueTier(tiers[0], anchor, target, authorized);
      ValueFrom(tiers[1..], anchor, target, authorized,
        Valuation(v.active + [q.active], v.queued + [q.queued], v.total + [q.total]))
  }

  function PoolValuation(tiers: seq<TierState>, anchor: Reserves, target: Reserves,
                         authorized: bool): Result<Valuation> {
    var _ :- Partitions(tiers);
    var _ :- ReadNeeded(tiers, anchor, target);
    ValueFrom(tiers, anchor, target, authorized, Valuation([], [], []))
  }

  /** The source's two passes over the configured tiers. */
  method BuildPoolValuation(tiers: seq<TierState>, anchor: Reserves, target: Reserves, authorized: bool)
    returns (r: Result<Valuation>)
    ensures r == PoolValuation(tiers, anchor, target, authorized)
  {
    hide AmountsOf, QuoteTier, ReadComet, ReadAnchor;
    var needsAnchor, needsTarget := false, false;
    for i := 0 to |tiers|
      invariant Partitions(tiers) == Partitions(tiers[i..])
      invariant needsAnchor == NeedsAnchor(tiers[..i]) && needsTarget == NeedsTarget(tiers[..i])
    {
      assert tiers[i..][1..] == tiers[i + 1..];
      assert tiers[..i + 1] == tiers[..i] + [tiers[i]];
      var amounts := AmountsOf(tiers[i]);
      if amounts.Failure? {
        return Failure(amounts.error);
      }
      ghost var anchorBefore, targetBefore := needsAnchor, needsTarget;
      if tiers[i].balance.tokens > 0 {
        match tiers[i].asset
        case BlntUsdc =>
          needsAnchor := true;
        case BlntXlm =>
          needsAnchor, needsTarget := true, true;
        case Xlm =>
          needsAnchor, needsTarget := true, true;
        case Usdc =>
      }
      OneMore(tiers, i);
    }
    assert tiers[..|tiers|] == tiers;
    if needsAnchor {
      var value := ReadAnchor(anchor);
      if value.Failure? {
        return Failure(value.error);
      }
    }
    if needsTarget {
      var read := ReadComet(target);
      if read.Failure? {
        return Failure(read.error);
      }
    }
    var v := Valuation([], [], []);
    for i := 0 to |tiers|
      invariant ValueFrom(tiers, anchor, target, authorized, Valuation([], [], []))
             == ValueFrom(tiers[i..], anchor, target, authorized, v)
    {
      assert tiers[i..][1..] == tiers[i + 1..];
      var q := ValueTier(tiers[i], anchor, target, authorized);
      if q.Failure? {
        return Failure(q.error);
      }
      v := Valuation(v.active + [q.value.active], v.queued + [q.value.queued], v.total + [q.value.total]);
    }
    return Success(v);
  }

  lemma OneMore(tiers: seq<TierState>, i: nat)
    requires i < |tiers|
    ensures NeedsAnchor(tiers[..i + 1])
            == (NeedsAnchor(tiers[..i]) || (tiers[i].balance.tokens > 0 && tiers[i].asset != Usdc))
    ensures NeedsTarget(tiers[..i + 1])
         == (NeedsTarget(tiers[..i]) || (tiers[i].balance.tokens > 0
           && (tiers[i].asset == BlntXlm || tiers[i].asset == Xlm)))
  {
    var shorter, longer := tiers[..i], tiers[..i + 1];
    assert forall j | 0 <= j < i :: longer[j] == shorter[j];
    assert longer[i] == tiers[i];
  }

  function SumValues(values: seq<int>, total: int): Result<int>
    decreases |values|
  {
    if values == [] then Success(total)
    else if values[0] < 0 then Failure(InvalidActivationValue)
    else
      var next :- I128(total + values[0]);
      SumValues(values[1..], next)
  }

  /** The sum, unless a value is negative or the sum leaves 128 bits. */
  method SumTierValues(values: seq<int>) returns (r: Result<int>)
    ensures r == SumValues(values, 0)
    ensures r.Success? <==> NonNegative(values) && FitsI128(SeqSum(values))
    ensures r.Success? ==> r.value == SeqSum(values)
  {
    SumValuesExact(values, 0);
    var total := 0;
    for i := 0 to |values|
      invariant SumValues(values, 0) == SumValues(values[i..], total)
    {
      assert values[i..][1..] == values[i + 1..];
      if values[i] < 0 {
        return Failure(InvalidActivationValue);
      }
      if !FitsI128(total + values[i]) {
        return Failure(Overflow);
      }
      total := total + values[i];
    }
    return Success(total);
  }

  /** Queued value over all value, seven decimals, rounded up. */
  function Q4wPercentage(active: seq<int>, queued: seq<int>): Result<int> {
    var activeValue :- SumValues(active, 0);
    var queuedValue :- SumValues(queued, 0);
    var total :- I128(activeValue + queuedValue);
    if total <= 0 then Success(0) else I128(CeilingShare(queuedValue, total))
  }

  // What the numbers mean.

  lemma FloorsAdd(a: int, b: int, c: int, n: int, d: int)
    requires 0 <= a && 0 <= b && a + b <= c && 0 <= n && 0 < d
    ensures 0 <= a * n / d && 0 <= b * n / d && a * n / d + b * n / d <= c * n / d
    ensures a == 0 ==> a * n / d == 0
    ensures b == 0 ==> b * n / d == 0
  {
    MulNonNegative(a, n);
    MulNonNegative(b, n);
    MulMonotone(a + b, c, n);
    assert a * n + b * n == (a + b) * n;
    DivBounds(a * n, d);
    DivBounds(b * n, d);
    DivBounds(c * n, d);
    DivMonotone(0, a * n, d);
    DivMonotone(0, b * n, d);
    SumBelow(a * n / d + b * n / d, c * n / d, d, a * n + b * n, c * n);
    if a == 0 {
      DivUnique(0, d, 0);
    }
    if b == 0 {
      DivUnique(0, d, 0);
    }
  }

  lemma SumBelow(x: int, y: int, d: int, m: int, n: int)
    requires 0 < d && d * x <= m <= n < d * y + d
    ensures x <= y
  {
    if y + 1 <= x {
      MulMonotone(y + 1, x, d);
    }
  }

  /** The parts of one tier never add up to more than the whole, and a part without shares is worth
      nothing. */
  predicate Sound(t: TierState, v: Split) {
    && 0 <= v.active && 0 <= v.queued && v.active + v.queued <= v.total
    && (t.balance.q4w == 0 ==> v.queued == 0)
    && (t.balance.q4w == t.balance.shares ==> v.active == 0)
  }

  lemma PartsSound(t: TierState)
    requires PoolBalances.ValidPool(t.balance) && AmountsOf(t).Success?
    ensures Sound(t, AmountsOf(t).value) && AmountsOf(t).value.total == t.balance.tokens
  {
    PoolBalances.TokensExact(t.balance, t.balance.shares - t.balance.q4w);
    PoolBalances.TokensExact(t.balance, t.balance.q4w);
    if 0 < t.balance.shares {
      PoolBalances.PartitionLosesAtMostOne(t.balance);
      DivUnique(0, t.balance.shares, 0);
    }
  }

  lemma ValueSound(t: TierState, anchor: Reserves, target: Reserves, authorized: bool)
    requires PoolBalances.ValidPool(t.balance) && ValueTier(t, anchor, target, authorized).Success?
    ensures Sound(t, ValueTier(t, anchor, target, authorized).value)
  {
    hide AmountsOf, PoolBalances.Partition;
    PartsSound(t);
    var a := AmountsOf(t).value;
    if a.total != 0 {
      match t.asset
      case Usdc =>
      case BlntUsdc =>
        FloorsAdd(a.active, a.queued, a.total, anchor.pair * PAIR_VALUE_MULTIPLIER, anchor.supply);
      case BlntXlm =>
        FloorsAdd(a.active, a.queued, a.total,
          MulDivFloor(target.blnt, anchor.pair * PAIR_VALUE_MULTIPLIER, anchor.blnt).value, target.supply);
      case Xlm =>
        XlmFloors(a, anchor, target);
    }
  }

  lemma XlmFloors(a: Split, anchor: Reserves, target: Reserves)
    requires 0 <= a.active && 0 <= a.queued && a.active + a.queued <= a.total
    requires ReadComet(anchor).Success? && ReadComet(target).Success? && QuoteXlm(a, anchor, target).Success?
    ensures var q := QuoteXlm(a, anchor, target).value;
            && 0 <= q.active && 0 <= q.queued && q.active + q.queued <= q.total
            && (a.active == 0 ==> q.active == 0) && (a.queued == 0 ==> q.queued == 0)
  {
    var d := anchor.blnt * target.pair;
    MulMonotone(1, target.pair, anchor.blnt);
    MulNonNegative(anchor.pair, target.blnt);
    Associate(a.active, anchor.pair, target.blnt);
    Associate(a.queued, anchor.pair, target.blnt);
    Associate(a.total, anchor.pair, target.blnt);
    FloorsAdd(a.active, a.queued, a.total, anchor.pair * target.blnt, d);
  }

  lemma Associate(a: int, b: int, c: int)
    ensures a * b * c == a * (b * c)
  {
  }

  lemma {:induction false} ValuesSound(tiers: seq<TierState>, anchor: Reserves, target: Reserves, authorized: bool,
                                       v: Valuation)
    requires forall i | 0 <= i < |tiers| :: PoolBalances.ValidPool(tiers[i].balance)
    requires ValueFrom(tiers, anchor, target, authorized, v).Success? && |v.active| == |v.queued| == |v.total|
    ensures var w := ValueFrom(tiers, anchor, target, authorized, v).value;
            && |w.active| == |w.queued| == |w.total| == |v.active| + |tiers|
            && w.active[..|v.active|] == v.active && w.queued[..|v.active|] == v.queued
               && w.total[..|v.active|] == v.total
            && forall i | 0 <= i < |tiers| ::
                 Sound(tiers[i], Split(w.active[|v.active| + i], w.queued[|v.active| + i], w.total[|v.active| + i]))
    decreases |tiers|
  {
    hide ValueTier, Sound;
    if tiers != [] {
      ValueSound(tiers[0], anchor, target, authorized);
      var q := ValueTier(tiers[0], anchor, target, authorized).value;
      var next := Valuation(v.active + [q.active], v.queued + [q.queued], v.total + [q.total]);
      ValuesSound(tiers[1..], anchor, target, authorized, next);
      var w := ValueFrom(tiers, anchor, target, authorized, v).value;
      assert w.active[..|v.active|] == w.active[..|v.active| + 1][..|v.active|];
      assert w.queued[..|v.active|] == w.queued[..|v.active| + 1][..|v.active|];
      assert w.total[..|v.active|] == w.total[..|v.active| + 1][..|v.active|];
      assert w.active[|v.active|] == w.active[..|v.active| + 1][|v.active|];
      assert w.queued[|v.active|] == w.queued[..|v.active| + 1][|v.active|];
      assert w.total[|v.active|] == w.total[..|v.active| + 1][|v.active|];
      forall i | 0 <= i < |tiers|
        ensures Sound(tiers[i], Split(w.active[|v.active| + i], w.queued[|v.active| + i], w.total[|v.active| + i]))
      {
        if i > 0 {
          assert tiers[i] == tiers[1..][i - 1];
          assert |v.active| + i == |next.active| + (i - 1);
        }
      }
    }
  }

  /** The loop's total is the sum of the values. It is refused exactly when a value is negative or the sum
      leaves 128 bits, as an overflow if none is negative. */
  lemma {:induction false} SumValuesExact(values: seq<int>, total: int)
    requires 0 <= total && FitsI128(total)
    ensures SumValues(values, total).Success? <==> NonNegative(values) && FitsI128(total + SeqSum(values))
    ensures SumValues(values, total).Success? ==> SumValues(values, total).value == total + SeqSum(values)
    ensures SumValues(values, total).Failure? && NonNegative(values) ==> SumValues(values, total).error == Overflow
    decreases |values|
  {
    if values != [] {
      var rest := values[1..];
      assert forall i | 0 <= i < |rest| :: values[i + 1] == rest[i];
      assert NonNegative(values) <==> 0 <= values[0] && NonNegative(rest) by {
        assert forall i | 0 < i < |values| :: values[i] == rest[i - 1];
      }
      if NonNegative(values) {
        SeqSumNonNegative(rest);
      }
      if 0 <= values[0] && FitsI128(total + values[0]) {
        SumValuesExact(rest, total + values[0]);
      }
    }
  }

  /** When a share is reported at all. */
  predicate Reportable(active: seq<int>, queued: seq<int>) {
    NonNegative(active) && NonNegative(queued) && FitsI128(SeqSum(active) + SeqSum(queued))
  }

  lemma PercentageForm(active: seq<int>, queued: seq<int>)
    ensures Q4wPercentage(active, queued).Success? <==> Reportable(active, queued)
    ensures Reportable(active, queued) ==>
              var a, q := SeqSum(active), SeqSum(queued);
              && 0 <= a && 0 <= q
              && Q4wPercentage(active, queued) == Success(if a + q == 0 then 0 else CeilingShare(q, a + q))
  {
    hide SumValues, CeilingShare, NonNegative;
    SumValuesExact(active, 0);
    SumValuesExact(queued, 0);
    if NonNegative(active) {
      SeqSumNonNegative(active);
    }
    if NonNegative(queued) {
      SeqSumNonNegative(queued);
    }
    if Reportable(active, queued) && 0 < SeqSum(active) + SeqSum(queued) {
      ShareExact(SeqSum(active), SeqSum(queued));
    } else if NonNegative(active) && NonNegative(queued) && 0 < SeqSum(active) + SeqSum(queued) {
      assert SeqSum(active) + SeqSum(queued) > I128_MAX;
    }
  }

  /** The reported share is the exact ceiling of queued over all value: it never understates the queued
      value, overstates it by less than one unit, is zero exactly when nothing of value is queued, and whole
      when nothing else is. It is refused exactly for a negative value or a sum over 128 bits. */
  lemma PercentageExact(active: seq<int>, queued: seq<int>)
    ensures Q4wPercentage(active, queued).Success? <==> Reportable(active, queued)
    ensures Reportable(active, queued) ==>
              var p, a, q := Q4wPercentage(active, queued).value, SeqSum(active), SeqSum(queued);
              && 0 <= p <= SCALAR_7
              && (0 < a + q ==> (p - 1) * (a + q) < q * SCALAR_7 <= p * (a + q))
              && (p == 0 <==> forall i | 0 <= i < |queued| :: queued[i] == 0)
              && (0 < q && (forall i | 0 <= i < |active| :: active[i] == 0) ==> p == SCALAR_7)
  {
    hide Q4wPercentage, CeilingShare, SeqSum;
    PercentageForm(active, queued);
    if Reportable(active, queued) {
      SeqSumNonNegative(active);
      SeqSumNonNegative(queued);
      if 0 < SeqSum(active) + SeqSum(queued) {
        ShareExact(SeqSum(active), SeqSum(queued));
      }
    }
  }

  function CeilingShare(q: int, total: int): int
    requires 0 < total
  {
    (q * SCALAR_7 + total - 1) / total
  }

  lemma ShareExact(a: int, q: int)
    requires 0 <= a && 0 <= q && 0 < a + q
    ensures var p := CeilingShare(q, a + q);
            && 0 <= p <= SCALAR_7 && (p - 1) * (a + q) < q * SCALAR_7 <= p * (a + q)
            && (p == 0 <==> q == 0) && (a == 0 ==> p == SCALAR_7)
  {
    var n, d, p := q * SCALAR_7, a + q, CeilingShare(q, a + q);
    CeilingBounds(n, d);
    hide CeilingShare;
    if SCALAR_7 < p {
      MulMonotone(SCALAR_7, p - 1, d);
    }
    if p < 0 {
      MulMonotone(p, -1, d);
    }
    if p == 0 {
      assert p * d == 0;
    }
    if q == 0 && 0 < p {
      MulMonotone(0, p - 1, d);
    }
    if a == 0 && p < SCALAR_7 {
      MulMonotone(p, SCALAR_7 - 1, d);
    }
  }

  lemma CeilingBounds(n: int, d: int)
    requires 0 < d
    ensures ((n + d - 1) / d - 1) * d < n <= (n + d - 1) / d * d
  {
    DivBounds(n + d - 1, d);
  }

  /** Moving value from active to queued never lowers the reported share, however it is spread over the
      tiers. */
  lemma PercentageMonotone(active: seq<int>, queued: seq<int>, laterActive: seq<int>, laterQueued: seq<int>)
    requires Reportable(active, queued) && Reportable(laterActive, laterQueued)
    requires SeqSum(laterActive) + SeqSum(laterQueued) == SeqSum(active) + SeqSum(queued)
    requires SeqSum(queued) <= SeqSum(laterQueued)
    ensures Q4wPercentage(active, queued).Success? && Q4wPercentage(laterActive, laterQueued).Success?
    ensures Q4wPercentage(active, queued).value <= Q4wPercentage(laterActive, laterQueued).value
  {
    hide Q4wPercentage, SeqSum, Reportable;
    PercentageForm(active, queued);
    PercentageForm(laterActive, laterQueued);
    var q, later, total := SeqSum(queued), SeqSum(laterQueued), SeqSum(active) + SeqSum(queued);
    if total != 0 {
      DivMonotone(q * SCALAR_7 + total - 1, later * SCALAR_7 + total - 1, total);
    }
  }

  /** On valid balances, what a pool is told agrees with its queues: the parts of every tier stay within
      the whole; nothing queued reads as zero, everything queued reads as one whole. */
  lemma PoolShareSound(tiers: seq<TierState>, anchor: Reserves, target: Reserves, authorized: bool)
    requires forall i | 0 <= i < |tiers| :: PoolBalances.ValidPool(tiers[i].balance)
    requires PoolValuation(tiers, anchor, target, authorized).Success?
    ensures var v := PoolValuation(tiers, anchor, target, authorized).value;
            && |v.active| == |v.queued| == |v.total| == |tiers|
            && (forall i | 0 <= i < |tiers| :: Sound(tiers[i], Split(v.active[i], v.queued[i], v.total[i])))
            && (Q4wPercentage(v.active, v.queued).Success? ==>
                  var p := Q4wPercentage(v.active, v.queued).value;
                  && 0 <= p <= SCALAR_7
                  && ((forall i | 0 <= i < |tiers| :: tiers[i].balance.q4w == 0) ==> p == 0)
                  && ((forall i | 0 <= i < |tiers| :: tiers[i].balance.q4w == tiers[i].balance.shares) ==>
                     p == 0 || p == SCALAR_7))
  {
    hide ValueFrom, Partitions, ReadNeeded, Q4wPercentage;
    ValuesSound(tiers, anchor, target, authorized, Valuation([], [], []));
    var v := PoolValuation(tiers, anchor, target, authorized).value;
    forall i | 0 <= i < |tiers| ensures Sound(tiers[i], Split(v.active[i], v.queued[i], v.total[i])) {
      assert Sound(tiers[i], Split(v.active[0 + i], v.queued[0 + i], v.total[0 + i]));
    }
    if Q4wPercentage(v.active, v.queued).Success? {
      PercentageExact(v.active, v.queued);
      if forall i | 0 <= i < |tiers| :: tiers[i].balance.q4w == tiers[i].balance.shares {
        SeqSumNonNegative(v.queued);
      }
    }
  }

  /** A registered pool's tiers in configured order. */
  function TiersOf(b: Book, c: Deployment, pool: Address): seq<TierState>
    requires pool in c.config
  {
    seq(|c.config[pool]|,
        i requires 0 <= i < |c.config[pool]| => TierState(c.config[pool][i], TierOf(b, TierKey(pool, i)).pool))
  }

  /** So in every state that keeps the contract-wide invariant, every registered pool is told a sound share. */
  lemma ReportedShareSound(b: Book, c: Deployment, pool: Address, anchor: Reserves, target: Reserves,
                           authorized: bool, now: nat)
    requires BookLaws.BookInv(b, c, now) && pool in c.config
    requires PoolValuation(TiersOf(b, c, pool), anchor, target, authorized).Success?
    ensures var tiers := TiersOf(b, c, pool);
            var v := PoolValuation(tiers, anchor, target, authorized).value;
            && |v.active| == |v.queued| == |v.total| == |tiers|
            && (forall i | 0 <= i < |tiers| :: Sound(tiers[i], Split(v.active[i], v.queued[i], v.total[i])))
            && (Q4wPercentage(v.active, v.queued).Success? ==>
                  var p := Q4wPercentage(v.active, v.queued).value;
                  0 <= p <= SCALAR_7 && ((forall i | 0 <= i < |tiers| :: tiers[i].balance.q4w == 0) ==> p == 0))
  {
    hide BookLaws.BookInv, PoolValuation, Q4wPercentage, Sound;
    var tiers := TiersOf(b, c, pool);
    forall i | 0 <= i < |tiers| ensures PoolBalances.ValidPool(tiers[i].balance) {
      BalanceValid(b, c, TierKey(pool, i), now);
    }
    PoolShareSound(tiers, anchor, target, authorized);
  }

  lemma BalanceValid(b: Book, c: Deployment, key: TierKey, now: nat)
    requires BookLaws.BookInv(b, c, now)
    ensures PoolBalances.ValidPool(TierOf(b, key).pool)
  {
    hide BookLaws.BookInv, TierLaws.TierInv;
    ShareLaws.BookTier(b, c, key, now);
    WeightLaws.PoolIsValid(TierOf(b, key), now, BookLaws.Earns(c, key));
  }
}
