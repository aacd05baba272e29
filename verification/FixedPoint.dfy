/** Model of the fixed-point library: truncating 128-bit division corrected to floor and ceiling,
    with a 256-bit path for products that overflow 128 bits. `None` is a failed checked operation. */
module FixedPoint {
  import opened Numbers

  /** Rust's `/`: truncation toward zero. */
  function TruncDiv(a: int, b: int): int
    requires b != 0
  {
    if a >= 0 then
      if b > 0 then a / b else -(a / -b)
    else
      if b > 0 then -(-a / b) else -a / -b
  }

  /** `checked_div` and `checked_rem_euclid` fail on a zero divisor and on MIN / -1. */
  predicate Divisible(value: int, denominator: int) {
    denominator != 0 && !(value == I128_MIN && denominator == -1)
  }

  function Narrow(x: int): Option<int> {
    if FitsI128(x) then Some(x) else None
  }

  function DivFloor(value: int, denominator: int): Option<int> {
    if value < 0 || (value > 0 && denominator < 0) then
      if Divisible(value, denominator) then
        Narrow(TruncDiv(value, denominator) - (if value % denominator > 0 then 1 else 0))
      else
        None
    else if Divisible(value, denominator) then
      Some(TruncDiv(value, denominator))
    else
      None
  }

  function DivCeil(value: int, denominator: int): Option<int> {
    if value <= 0 || (value > 0 && denominator < 0) then
      if Divisible(value, denominator) then Some(TruncDiv(value, denominator)) else None
    else if Divisible(value, denominator) then
      Narrow(TruncDiv(value, denominator) + (if value % denominator > 0 then 1 else 0))
    else
      None
  }

  /** The plain 128-bit operators: the product itself must fit. */
  function MulDivFloor(x: int, y: int, z: int): Option<int> {
    if FitsI128(x * y) then DivFloor(x * y, z) else None
  }

  function MulDivCeil(x: int, y: int, z: int): Option<int> {
    if FitsI128(x * y) then DivCeil(x * y, z) else None
  }

  /** The 256-bit path. Products of two 128-bit values always fit in 256 bits, so only a zero
      divisor can fail before the result is narrowed. */
  function WideFloor(x: int, y: int, z: int): int
    requires z != 0
  {
    var value := x * y;
    if value < 0 || (value > 0 && z < 0) then
      TruncDiv(value, z) - (if value % z > 0 then 1 else 0)
    else
      TruncDiv(value, z)
  }

  function WideCeil(x: int, y: int, z: int): int
    requires z != 0
  {
    var value := x * y;
    if value <= 0 || (value > 0 && z < 0) then
      TruncDiv(value, z)
    else
      TruncDiv(value, z) + (if value % z > 0 then 1 else 0)
  }

  function ScaledMulDivFloor(x: int, y: int, z: int): Option<int> {
    if FitsI128(x * y) then DivFloor(x * y, z)
    else if z == 0 then None
    else Narrow(WideFloor(x, y, z))
  }

  function ScaledMulDivCeil(x: int, y: int, z: int): Option<int> {
    if FitsI128(x * y) then DivCeil(x * y, z)
    else if z == 0 then None
    else Narrow(WideCeil(x, y, z))
  }

  /** q is the floor of the rational value / d, for either sign of d. */
  predicate IsFloor(q: int, value: int, d: int)
    requires d != 0
  {
    if d > 0 then q * d <= value < (q + 1) * d else (q + 1) * d < value <= q * d
  }

  /** q is the ceiling of the rational value / d, for either sign of d. */
  predicate IsCeil(q: int, value: int, d: int)
    requires d != 0
  {
    if d > 0 then (q - 1) * d < value <= q * d else q * d <= value < (q - 1) * d
  }

  /** The one family on which both operators are wrong: a negative value over a negative
      denominator that does not divide it. */
  predicate WrongSigns(value: int, d: int)
    requires d != 0
  {
    value < 0 && d < 0 && value % d != 0
  }

  /** The remainder left by truncation: it has the sign of the dividend. */
  function TruncRem(a: int, b: int): int
    requires b != 0
  {
    a - TruncDiv(a, b) * b
  }

  lemma TruncRemSign(a: int, b: int)
    requires b != 0
    ensures a >= 0 ==> 0 <= TruncRem(a, b) < (if b > 0 then b else -b)
    ensures a <= 0 ==> 0 <= -TruncRem(a, b) < (if b > 0 then b else -b)
  {
    var m, d := if a >= 0 then a else -a, if b > 0 then b else -b;
    DivBounds(m, d);
    var p := m / d;
    assert TruncDiv(a, b) == if (a >= 0) == (b > 0) then p else -p;
    assert TruncDiv(a, b) * b == if a >= 0 then d * p else -(d * p);
  }

  lemma EuclidUnique(a: int, b: int, q: int, r: int)
    requires b != 0 && a == q * b + r && 0 <= r < (if b > 0 then b else -b)
    ensures a % b == r
  {
    var p, s := a / b, a % b;
    assert a == p * b + s && 0 <= s < (if b > 0 then b else -b);
    if b > 0 {
      QuotientUnique(a, b, p, q);
    } else {
      QuotientUnique(a, -b, -p, -q);
    }
  }

  /** The Euclidean remainder the code tests is zero exactly when truncation leaves nothing. */
  lemma RemaindersAgree(a: int, b: int)
    requires b != 0
    ensures a % b > 0 <==> TruncRem(a, b) != 0
    ensures a % b != 0 <==> TruncRem(a, b) != 0
  {
    TruncRemSign(a, b);
    var q, t := TruncDiv(a, b), TruncRem(a, b);
    if t >= 0 {
      EuclidUnique(a, b, q, t);
    } else if b > 0 {
      EuclidUnique(a, b, q - 1, t + b);
    } else {
      EuclidUnique(a, b, q + 1, t - b);
    }
  }

  /** Truncation has a smaller magnitude than its dividend, and moving one step toward minus or plus
      infinity to correct it stays inside 128 bits. */
  lemma TruncDivFits(a: int, b: int)
    requires FitsI128(a) && Divisible(a, b)
    ensures FitsI128(TruncDiv(a, b))
    ensures TruncRem(a, b) != 0 ==> FitsI128(TruncDiv(a, b) - 1) && FitsI128(TruncDiv(a, b) + 1)
  {
    var m, d := if a >= 0 then a else -a, if b > 0 then b else -b;
    DivBounds(m, d);
    TruncRemSign(a, b);
    var p := m / d;
    DivMonotone(0, m, d);
    if d == 1 {
      assert p == m;
      assert TruncDiv(a, b) * b == a;
    } else {
      MulMonotone(2, d, p);
    }
  }

  /** DivFloor never fails on a representable quotient, and it is the floor exactly off the
      wrong-sign family. */
  lemma DivFloorExact(value: int, d: int)
    requires FitsI128(value) && Divisible(value, d)
    ensures DivFloor(value, d).Some?
    ensures IsFloor(DivFloor(value, d).value, value, d) <==> !WrongSigns(value, d)
  {
    TruncRemSign(value, d);
    RemaindersAgree(value, d);
    TruncDivFits(value, d);
    CorrectedFloor(value, d, TruncDiv(value, d), TruncRem(value, d));
  }

  lemma CorrectedFloor(value: int, d: int, q: int, t: int)
    requires d != 0 && value == q * d + t
    requires value >= 0 ==> 0 <= t < (if d > 0 then d else -d)
    requires value <= 0 ==> 0 <= -t < (if d > 0 then d else -d)
    ensures value >= 0 && d > 0 ==> IsFloor(q, value, d)
    ensures t == 0 ==> IsFloor(q, value, d)
    ensures (value < 0 && d > 0) || (value > 0 && d < 0) ==> t == 0 || IsFloor(q - 1, value, d)
    ensures value < 0 && d < 0 && t != 0 ==> !IsFloor(q - 1, value, d)
  {
    assert (q + 1) * d == q * d + d;
    assert (q - 1) * d == q * d - d;
  }

  lemma DivCeilExact(value: int, d: int)
    requires FitsI128(value) && Divisible(value, d)
    ensures DivCeil(value, d).Some?
    ensures IsCeil(DivCeil(value, d).value, value, d) <==> !WrongSigns(value, d)
  {
    TruncRemSign(value, d);
    RemaindersAgree(value, d);
    TruncDivFits(value, d);
    CorrectedCeil(value, d, TruncDiv(value, d), TruncRem(value, d));
  }

  lemma CorrectedCeil(value: int, d: int, q: int, t: int)
    requires d != 0 && value == q * d + t
    requires value >= 0 ==> 0 <= t < (if d > 0 then d else -d)
    requires value <= 0 ==> 0 <= -t < (if d > 0 then d else -d)
    ensures (value <= 0 && d > 0) || (value >= 0 && d < 0) ==> IsCeil(q, value, d)
    ensures t == 0 ==> IsCeil(q, value, d)
    ensures value > 0 && d > 0 && t != 0 ==> IsCeil(q + 1, value, d)
    ensures value < 0 && d < 0 && t != 0 ==> !IsCeil(q, value, d)
  {
    assert (q + 1) * d == q * d + d;
    assert (q - 1) * d == q * d - d;
  }

  lemma FloorIsDiv(q: int, value: int, d: int)
    requires d > 0 && IsFloor(q, value, d)
    ensures q == value / d
  {
    DivUnique(value, d, q);
  }

  lemma CeilIsDiv(q: int, value: int, d: int)
    requires d > 0 && IsCeil(q, value, d)
    ensures q == (value + d - 1) / d
  {
    DivUnique(value + d - 1, d, q);
  }

  /** Whenever the product fits, the 128-bit path returns what the 256-bit path would. */
  lemma FastPathAgrees(x: int, y: int, z: int)
    requires FitsI128(x * y) && Divisible(x * y, z)
    ensures DivFloor(x * y, z) == Narrow(WideFloor(x, y, z)) && DivFloor(x * y, z).Some?
    ensures DivCeil(x * y, z) == Narrow(WideCeil(x, y, z)) && DivCeil(x * y, z).Some?
  {
    DivFloorExact(x * y, z);
    DivCeilExact(x * y, z);
    TruncDivFits(x * y, z);
  }

  /** For a positive denominator the scaled operators are mathematical floor and ceiling for all
      signs of the product, and fail exactly when that result does not fit 128 bits. */
  lemma ScaledExact(x: int, y: int, d: int)
    requires d > 0
    ensures ScaledMulDivFloor(x, y, d) == Narrow(x * y / d)
    ensures ScaledMulDivCeil(x, y, d) == Narrow((x * y + d - 1) / d)
  {
    var v := x * y;
    TruncRemSign(v, d);
    RemaindersAgree(v, d);
    CorrectedFloor(v, d, TruncDiv(v, d), TruncRem(v, d));
    CorrectedCeil(v, d, TruncDiv(v, d), TruncRem(v, d));
    FloorIsDiv(WideFloor(x, y, d), v, d);
    CeilIsDiv(WideCeil(x, y, d), v, d);
    if FitsI128(v) {
      FastPathAgrees(x, y, d);
    }
  }

  /** The unpromoted operators add only the requirement that the product itself fits. */
  lemma PlainExact(x: int, y: int, d: int)
    requires d > 0
    ensures MulDivFloor(x, y, d) == (if FitsI128(x * y) then Some(x * y / d) else None)
    ensures MulDivCeil(x, y, d) == (if FitsI128(x * y) then Some((x * y + d - 1) / d) else None)
  {
    if FitsI128(x * y) {
      FastPathAgrees(x, y, d);
      ScaledExact(x, y, d);
    }
  }
}
