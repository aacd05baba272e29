/** Shares, tokens and queued shares of one pool tier, and the exchange rate between them. */
module PoolBalances {
  import opened Numbers
  import FixedPoint

  datatype PoolRecord = PoolRecord(shares: int, tokens: int, q4w: int)

  const EMPTY_POOL := PoolRecord(0, 0, 0)

  function ConvertToShares(b: PoolRecord, tokens: int): Result<int> {
    if b.shares == 0 then Success(tokens)
    else if b.tokens == 0 then Success(0)
    else Unwrap(FixedPoint.MulDivFloor(tokens, b.shares, b.tokens))
  }

  function ConvertToTokens(b: PoolRecord, shares: int): Result<int> {
    if b.shares == 0 then Success(0)
    else if b.shares == shares then Success(b.tokens)
    else Unwrap(FixedPoint.MulDivFloor(shares, b.tokens, b.shares))
  }

  function Deposit(b: PoolRecord, tokens: int, shares: int): Result<PoolRecord> {
    var newTokens :- I128Trap(b.tokens + tokens);
    var newShares :- I128Trap(b.shares + shares);
    Success(PoolRecord(newShares, newTokens, b.q4w))
  }

  function Withdraw(b: PoolRecord, tokens: int, shares: int): Result<PoolRecord> {
    if tokens > b.tokens || shares > b.shares || shares > b.q4w then Failure(InsufficientFunds)
    else Success(PoolRecord(b.shares - shares, b.tokens - tokens, b.q4w - shares))
  }

  function QueueForWithdraw(b: PoolRecord, shares: int): Result<PoolRecord> {
    var q :- I128Trap(b.q4w + shares);
    Success(b.(q4w := q))
  }

  function DequeueQ4w(b: PoolRecord, shares: int): Result<PoolRecord> {
    if shares > b.q4w then Failure(InsufficientFunds) else Success(b.(q4w := b.q4w - shares))
  }

  /** The working copy an operation edits before it stores it back. */
  class PoolBalance {
    var shares: int
    var tokens: int
    var q4w: int

    constructor (stored: PoolRecord)
      ensures Record() == stored
    {
      shares, tokens, q4w := stored.shares, stored.tokens, stored.q4w;
    }

    function Record(): PoolRecord
      reads this
    {
      PoolRecord(shares, tokens, q4w)
    }

    method DepositInto(tokensIn: int, sharesIn: int) returns (r: Result<()>)
      modifies this
      ensures match Deposit(old(Record()), tokensIn, sharesIn)
              case Failure(e) => r == Failure(e)
              case Success(b) => r.Success? && Record() == b
    {
      if !FitsI128(tokens + tokensIn) {
        return Failure(Trap);
      }
      tokens := tokens + tokensIn;
      if !FitsI128(shares + sharesIn) {
        return Failure(Trap);
      }
      shares := shares + sharesIn;
      return Success(());
    }

    method WithdrawFrom(tokensOut: int, sharesOut: int) returns (r: Result<()>)
      modifies this
      ensures match Withdraw(old(Record()), tokensOut, sharesOut)
              case Failure(e) => r == Failure(e)
              case Success(b) => r.Success? && Record() == b
    {
      if tokensOut > tokens || sharesOut > shares || sharesOut > q4w {
        return Failure(InsufficientFunds);
      }
      tokens := tokens - tokensOut;
      shares := shares - sharesOut;
      q4w := q4w - sharesOut;
      return Success(());
    }

    method QueueShares(sharesIn: int) returns (r: Result<()>)
      modifies this
      ensures match QueueForWithdraw(old(Record()), sharesIn)
              case Failure(e) => r == Failure(e)
              case Success(b) => r.Success? && Record() == b
    {
      if !FitsI128(q4w + sharesIn) {
        return Failure(Trap);
      }
      q4w := q4w + sharesIn;
      return Success(());
    }

    method DequeueShares(sharesOut: int) returns (r: Result<()>)
      modifies this
      ensures match DequeueQ4w(old(Record()), sharesOut)
              case Failure(e) => r == Failure(e)
              case Success(b) => r.Success? && Record() == b
    {
      if sharesOut > q4w {
        return Failure(InsufficientFunds);
      }
      q4w := q4w - sharesOut;
      return Success(());
    }
  }

  /** Signs and the stored width. */
  predicate ValidPool(b: PoolRecord) {
    0 <= b.q4w <= b.shares <= I128_MAX && 0 <= b.tokens <= I128_MAX
  }

  /** Converting part of the shares gives the floor of their proportion, never more than the pool
      holds; the only failure is a product wider than 128 bits. */
  lemma TokensExact(b: PoolRecord, shares: int)
    requires ValidPool(b) && 0 <= shares <= b.shares
    ensures match ConvertToTokens(b, shares)
            case Failure(e) => e == Trap && shares < b.shares && !FitsI128(shares * b.tokens)
            case Success(t) =>
              && 0 <= t <= b.tokens && (b.shares == 0 ==> t == 0)
              && (b.shares > 0 ==> t * b.shares <= shares * b.tokens < t * b.shares + b.shares)
              && (b.shares > 0 ==> t == shares * b.tokens / b.shares)
    ensures shares < b.shares && !FitsI128(shares * b.tokens) ==> ConvertToTokens(b, shares).Failure?
  {
    if b.shares > 0 {
      FixedPoint.PlainExact(shares, b.tokens, b.shares);
      assert b.tokens * shares == shares * b.tokens;
      ProportionAtMost(b.tokens, shares, b.shares);
      DivBounds(shares * b.tokens, b.shares);
      if shares == b.shares {
        DivUnique(shares * b.tokens, b.shares, b.tokens);
      }
    }
  }

  lemma SharesExact(b: PoolRecord, tokens: int)
    requires ValidPool(b) && 0 <= tokens
    ensures match ConvertToShares(b, tokens)
            case Failure(e) => e == Trap && 0 < b.shares && 0 < b.tokens && !FitsI128(tokens * b.shares)
            case Success(s) =>
              && 0 <= s
              && (b.shares == 0 ==> s == tokens)
              && (b.shares > 0 && b.tokens == 0 ==> s == 0)
              && (b.shares > 0 && b.tokens > 0 ==> s * b.tokens <= tokens * b.shares < s * b.tokens + b.tokens)
    ensures 0 < b.shares && 0 < b.tokens && !FitsI128(tokens * b.shares) ==> ConvertToShares(b, tokens).Failure?
  {
    if b.shares > 0 && b.tokens > 0 {
      FixedPoint.PlainExact(tokens, b.shares, b.tokens);
      MulNonNegative(tokens, b.shares);
      DivMonotone(0, tokens * b.shares, b.tokens);
      DivBounds(tokens * b.shares, b.tokens);
    }
  }

  lemma SharesNonNegative(b: PoolRecord, tokens: int)
    requires ValidPool(b) && 0 <= tokens
    ensures match ConvertToShares(b, tokens)
            case Failure(e) => e == Trap
            case Success(s) => 0 <= s
  {
    SharesExact(b, tokens);
  }

  /** tokens/shares did not fall from `b` to `c`, by cross-multiplication. */
  predicate PriceHolds(b: PoolRecord, c: PoolRecord) {
    b.tokens * c.shares <= c.tokens * b.shares
  }

  lemma DepositHoldsPrice(b: PoolRecord, amount: int, minted: int, c: PoolRecord)
    requires ValidPool(b) && 0 <= amount && ConvertToShares(b, amount) == Success(minted) && 0 < minted
    requires Deposit(b, amount, minted) == Success(c)
    ensures ValidPool(c) && (0 < b.shares ==> PriceHolds(b, c))
  {
    SharesExact(b, amount);
    if 0 < b.shares {
      PriceByDelta(b.tokens, b.shares, amount, minted);
    }
  }

  lemma PriceByDelta(t: int, s: int, dt: int, ds: int)
    requires ds * t <= dt * s
    ensures t * (s + ds) <= (t + dt) * s
  {
  }

  lemma DonationHoldsPrice(b: PoolRecord, amount: int, c: PoolRecord)
    requires ValidPool(b) && 0 <= amount && Deposit(b, amount, 0) == Success(c)
    ensures ValidPool(c) && PriceHolds(b, c)
  {
    MulMonotone(b.tokens, b.tokens + amount, b.shares);
  }

  lemma WithdrawHoldsPrice(b: PoolRecord, amount: int, returned: int, c: PoolRecord)
    requires ValidPool(b) && 0 <= amount <= b.q4w && ConvertToTokens(b, amount) == Success(returned)
    requires Withdraw(b, returned, amount) == Success(c)
    ensures ValidPool(c) && PriceHolds(b, c)
  {
    TokensExact(b, amount);
    if 0 < b.shares {
      DivBounds(amount * b.tokens, b.shares);
      PriceByDelta(b.tokens, b.shares, -returned, -amount);
    }
  }

  /** Price comparisons compose as long as shares remain in between. */
  lemma PriceTransitive(a: PoolRecord, b: PoolRecord, c: PoolRecord)
    requires ValidPool(a) && ValidPool(b) && ValidPool(c) && 0 < b.shares
    requires PriceHolds(a, b) && PriceHolds(b, c)
    ensures PriceHolds(a, c)
  {
    CrossTransitive(a.tokens, a.shares, b.tokens, b.shares, c.tokens, c.shares);
  }

  lemma CrossTransitive(ta: int, sa: int, tb: int, sb: int, tc: int, sc: int)
    requires 0 <= sa && 0 < sb && 0 <= sc && ta * sb <= tb * sa && tb * sc <= tc * sb
    ensures ta * sc <= tc * sa
  {
    MulMonotone(ta * sb, tb * sa, sc);
    MulMonotone(tb * sc, tc * sb, sa);
    Reorder(ta, sb, sc);
    Reorder(tb, sa, sc);
    Reorder(tc, sb, sa);
    if ta * sc > tc * sa {
      MulMonotone(tc * sa + 1, ta * sc, sb);
    }
  }

  lemma Reorder(x: int, y: int, z: int)
    ensures x * y * z == x * z * y
  {
  }

  /** Into a tier with shares, depositing and withdrawing at once never returns more than was put in. */
  lemma RoundTripLosesNothingToPool(b: PoolRecord, amount: int, minted: int, c: PoolRecord, returned: int)
    requires ValidPool(b) && 0 < b.shares && 0 <= amount
    requires ConvertToShares(b, amount) == Success(minted) && 0 < minted
    requires Deposit(b, amount, minted) == Success(c)
    requires ConvertToTokens(c, minted) == Success(returned)
    ensures returned <= amount
  {
    SharesExact(b, amount);
    TokensExact(c, minted);
    RoundTripArithmetic(b.tokens, b.shares, amount, minted);
  }

  lemma RoundTripArithmetic(t: int, s: int, a: int, m: int)
    requires 0 < s && 0 < m && m * t <= a * s
    ensures m * (t + a) / (s + m) <= a
  {
    assert m * (t + a) <= a * (s + m);
    DivMonotone(m * (t + a), a * (s + m), s + m);
    DivUnique(a * (s + m), s + m, a);
  }

  /** Valuation splits a tier into its active and queued tokens. */
  function Partition(b: PoolRecord): Result<(int, int, int)> {
    if b.shares < b.q4w || b.tokens < 0 || b.shares < 0 then Failure(InvalidValuation) else
    var active :- ConvertToTokens(b, b.shares - b.q4w);
    :- Require(0 <= b.q4w, InvalidValuation);
    var queued :- ConvertToTokens(b, b.q4w);
    Success((active, queued, b.tokens))
  }

  /** With shares outstanding the two parts lose at most one token to rounding, and none when either
      part is empty. */
  lemma PartitionLosesAtMostOne(b: PoolRecord)
    requires ValidPool(b) && 0 < b.shares && Partition(b).Success?
    ensures var (active, queued, total) := Partition(b).value;
            && total - 1 <= active + queued <= total == b.tokens
            && (b.q4w == 0 || b.q4w == b.shares ==> active + queued == total)
  {
    TokensExact(b, b.shares - b.q4w);
    TokensExact(b, b.q4w);
    PartitionArithmetic(b.shares, b.q4w, b.tokens);
  }

  lemma PartitionArithmetic(s: int, q: int, t: int)
    requires 0 < s && 0 <= q <= s
    ensures t - 1 <= (s - q) * t / s + q * t / s <= t
    ensures q == 0 || q == s ==> (s - q) * t / s + q * t / s == t
  {
    var n, m := (s - q) * t, q * t;
    assert n + m == s * t;
    DivBounds(n, s);
    DivBounds(m, s);
    SumOfFloors(s, t, n / s + m / s);
    if q == 0 || q == s {
      DivUnique(s * t, s, t);
      DivUnique(0, s, 0);
    }
  }

  lemma SumOfFloors(s: int, t: int, sum: int)
    requires 0 < s && s * sum <= s * t < s * sum + 2 * s
    ensures t - 1 <= sum <= t
  {
    if sum > t {
      MulMonotone(t + 1, sum, s);
    }
    if sum < t - 1 {
      MulMonotone(sum + 2, t, s);
    }
  }
}
