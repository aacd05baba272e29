/** Integer widths, abort codes and the few floor-division facts the rest of the project uses.

    The contracts compute in checked 128-bit integers and unsigned 64-bit times; a result outside
    its width aborts the invocation. Here every number is an `int` and the width check is written
    out with `I128` and `U64`. */
module Numbers {
  const I128_MAX: int := 0x7fff_ffff_ffff_ffff_ffff_ffff_ffff_ffff
  const I128_MIN: int := -I128_MAX - 1
  const U64_MAX: int := 0xffff_ffff_ffff_ffff
  const U32_MAX: int := 0xffff_ffff

  const SCALAR_7: int := 10_000_000
  const SCALAR_14: int := 100_000_000_000_000

  const DAY_SECONDS: nat := 86_400

  /** Contract and account identities; only equality is ever used. */
  datatype Address = Address(id: nat)

  datatype Option<+T> = None | Some(value: T)

  /** Why an invocation aborts. `Trap` is a host trap: arithmetic overflow of an unchecked operator,
      a failed unwrap, or a failed cross-contract call. */
  datatype Error =
    | Trap
    | Overflow
    | BadRequest
    | NegativeAmount
    | BalanceError
    | NotExpired
    | TooManyQ4WEntries
    | InsufficientFunds
    | InvalidShareMintAmount
    | InvalidTokenWithdrawAmount
    | BadDebtExists
    | NotPool
    | InvalidEmissionValue
    | InvalidOngoingBalance
    | NoEligibleWeight
    | InvalidRewardZoneEntry
    | RewardZoneFull
    | DistributionCheckpointRequired
    | DistributionTooSoon
    | PoolEmissionGulpTooSoon
    | EmitterDidNotMigrate
    | MigrationNotActive
    | MigrationEpochNotOpen
    | MigrationNotPrepared
    | AlreadyFinalized
    | InvalidQueuedSwap
    | SyncWindowExpired
    | MaxBackfillEmissions
    | BackfillNotFunded
    | BackfillAlreadyFunded
    | InvalidBackfillFunding
    | Unauthorized
    | BadDrop
    | SwapAlreadyExists
    | SwapNotQueued
    | SwapNotUnlocked
    | SwapExpired
    | SwapCannotBeCanceled
    | InsufficientBackstopSize
    | InvalidBackstopToken
    | InvalidValuation
    | InvalidActivationValue
    | InvalidLiquidation
    | AuctionInProgress
    | InvalidHealth

  /** Outcome of an operation: a value, or an abort that leaves every stored value unchanged. */
  datatype Result<+T> = Success(value: T) | Failure(error: Error) {
    predicate IsFailure() {
      Failure?
    }

    function PropagateFailure<U>(): Result<U>
      requires Failure?
    {
      Failure(error)
    }

    function Extract(): T
      requires Success?
    {
      value
    }
  }

  /** The failure-compatible result of a guard. */
  datatype Guard = Pass | Abort(error: Error) {
    predicate IsFailure() {
      Abort?
    }

    function PropagateFailure<U>(): Result<U>
      requires Abort?
    {
      Failure(error)
    }
  }

  function Require(condition: bool, error: Error): Guard {
    if condition then Pass else Abort(error)
  }

  predicate FitsI128(x: int) {
    I128_MIN <= x <= I128_MAX
  }

  predicate FitsU64(x: int) {
    0 <= x <= U64_MAX
  }

  predicate FitsU32(x: int) {
    0 <= x <= U32_MAX
  }

  /** What a token or a liquidity pool can answer. */
  type Int128 = x: int | FitsI128(x)

  /** A checked 128-bit addition, subtraction or conversion reporting `Overflow`. */
  function I128(x: int): Result<int> {
    if FitsI128(x) then Success(x) else Failure(Overflow)
  }

  /** An unchecked 128-bit operator, which the release profile compiles to a trap on overflow. */
  function I128Trap(x: int): Result<int> {
    if FitsI128(x) then Success(x) else Failure(Trap)
  }

  function U64(x: int): Result<nat> {
    if FitsU64(x) then Success(x) else Failure(Overflow)
  }

  /** A failed unwrap is a trap. */
  function Unwrap(x: Option<int>): Result<int> {
    match x
    case None => Failure(Trap)
    case Some(v) => Success(v)
  }

  function Min(a: int, b: int): int {
    if a <= b then a else b
  }

  function Max(a: int, b: int): int {
    if a >= b then a else b
  }

  lemma DivBounds(n: int, d: int)
    requires d > 0
    ensures d * (n / d) <= n < d * (n / d) + d
    ensures n % d == n - d * (n / d)
  {
  }

  lemma DivUnique(n: int, d: int, q: int)
    requires d > 0
    requires d * q <= n < d * q + d
    ensures n / d == q
  {
    DivBounds(n, d);
    QuotientUnique(n, d, n / d, q);
  }

  lemma QuotientUnique(n: int, d: int, p: int, q: int)
    requires d > 0
    requires d * p <= n < d * p + d
    requires d * q <= n < d * q + d
    ensures p == q
  {
    if p < q {
      MulMonotone(p + 1, q, d);
    } else if p > q {
      MulMonotone(q + 1, p, d);
    }
  }

  lemma MulMonotone(a: int, b: int, c: int)
    requires a <= b && 0 <= c
    ensures a * c <= b * c
    ensures c * a <= c * b
  {
  }

  lemma MulNonNegative(a: int, b: int)
    requires 0 <= a && 0 <= b
    ensures 0 <= a * b
  {
  }

  lemma DivMonotone(m: int, n: int, d: int)
    requires m <= n && d > 0
    ensures m / d <= n / d
  {
    DivBounds(m, d);
    DivBounds(n, d);
    if m / d > n / d {
      MulMonotone(n / d + 1, m / d, d);
    }
  }

  /** A proportional floor never exceeds the value it divides. */
  lemma ProportionAtMost(value: int, part: int, whole: int)
    requires 0 <= value && 0 <= part <= whole && 0 < whole
    ensures 0 <= value * part / whole <= value
  {
    MulNonNegative(value, part);
    MulMonotone(part, whole, value);
    DivMonotone(value * part, value * whole, whole);
    DivUnique(value * whole, whole, value);
    DivMonotone(0, value * part, whole);
  }
}
