/** Auction price curve and the two rounding rules applied to a partial fill. */
module AuctionMath {
  import opened Numbers
  import FixedPoint

  const PER_LEDGER: int := 50_000

  /** The (bid, lot) modifiers, seven decimals, `elapsed` ledgers after the auction began. */
  function AuctionModifiers(elapsed: nat): (int, int) {
    if elapsed > 200 then
      (if elapsed < 400 then SCALAR_7 - (elapsed - 200) * PER_LEDGER else 0, SCALAR_7)
    else
      (SCALAR_7, elapsed * PER_LEDGER)
  }

  /** (selected base, its time-scaled amount, unselected remainder), all rounded against the filler. */
  function ScaleBidAmount(amount: int, percentScaled: int, modifier: int): Result<(int, int, int)> {
    var base :- Unwrap(FixedPoint.ScaledMulDivCeil(amount, percentScaled, SCALAR_7));
    var remaining :- I128(amount - base);
    var actual :- Unwrap(FixedPoint.ScaledMulDivCeil(base, modifier, SCALAR_7));
    Success((base, actual, remaining))
  }

  function ScaleLotAmount(amount: int, percentScaled: int, modifier: int): Result<(int, int, int)> {
    var base :- Unwrap(FixedPoint.ScaledMulDivFloor(amount, percentScaled, SCALAR_7));
    var remaining :- I128(amount - base);
    var actual :- Unwrap(FixedPoint.ScaledMulDivFloor(base, modifier, SCALAR_7));
    Success((base, actual, remaining))
  }

  /** The ceiling and floor of amount * scale / 10^7. */
  function CeilPart(amount: int, scale: int): int {
    (amount * scale + SCALAR_7 - 1) / SCALAR_7
  }

  function FloorPart(amount: int, scale: int): int {
    amount * scale / SCALAR_7
  }

  /** Later fills are never worse priced: the bid modifier only falls, the lot modifier only rises,
      and both stay between zero and one. */
  lemma ModifiersMonotone(early: nat, late: nat)
    requires early <= late
    ensures 0 <= AuctionModifiers(late).0 <= AuctionModifiers(early).0 <= SCALAR_7
    ensures 0 <= AuctionModifiers(early).1 <= AuctionModifiers(late).1 <= SCALAR_7
    ensures AuctionModifiers(late).0 == SCALAR_7 || AuctionModifiers(late).1 == SCALAR_7
  {
  }

  /** The curve: over the first 200 ledgers the lot grows in equal steps from nothing to all of it while the bid is
      whole; over the next 200 the bid shrinks in equal steps to nothing while the lot is whole. */
  lemma ModifiersExact(elapsed: nat)
    ensures var (bid, lot) := AuctionModifiers(elapsed);
            && (elapsed <= 200 ==> bid == 10_000_000 && lot * 200 == elapsed * 10_000_000)
            && (200 <= elapsed <= 400 ==> lot == 10_000_000 && bid * 200 == (400 - elapsed) * 10_000_000)
            && (400 <= elapsed ==> bid == 0 && lot == 10_000_000)
  {
  }

  /** A part rounded up, or down, to the unit. */
  lemma PartsExact(amount: int, scale: int)
    ensures (CeilPart(amount, scale) - 1) * 10_000_000 < amount * scale <= CeilPart(amount, scale) * 10_000_000
    ensures FloorPart(amount, scale) * 10_000_000 <= amount * scale < (FloorPart(amount, scale) + 1) * 10_000_000
  {
    DivBounds(amount * scale + SCALAR_7 - 1, SCALAR_7);
    DivBounds(amount * scale, SCALAR_7);
  }

  /** Rounding keeps a part between zero and its whole, on either side of zero. */
  lemma PartBounds(amount: int, scale: int)
    requires 0 <= scale <= SCALAR_7
    ensures 0 <= amount ==> 0 <= FloorPart(amount, scale) <= CeilPart(amount, scale) <= amount
    ensures amount <= 0 ==> amount <= FloorPart(amount, scale) <= CeilPart(amount, scale) <= 0
    ensures scale == SCALAR_7 ==> FloorPart(amount, scale) == amount == CeilPart(amount, scale)
    ensures amount > 0 && scale > 0 ==> CeilPart(amount, scale) > 0
  {
    DivBounds(amount * scale, SCALAR_7);
    DivBounds(amount * scale + SCALAR_7 - 1, SCALAR_7);
    if amount >= 0 {
      MulNonNegative(amount, scale);
      MulMonotone(scale, SCALAR_7, amount);
      if amount > 0 && scale > 0 {
        MulMonotone(1, amount, scale);
      }
    } else {
      MulNonNegative(-amount, scale);
      MulMonotone(scale, SCALAR_7, -amount);
    }
  }

  /** The code never aborts on a 128-bit amount of either sign, and computes ceiling of ceiling. */
  lemma ScaleBidExact(amount: int, percentScaled: int, modifier: int)
    requires FitsI128(amount) && 0 <= percentScaled <= SCALAR_7 && 0 <= modifier <= SCALAR_7
    ensures ScaleBidAmount(amount, percentScaled, modifier) ==
            var base := CeilPart(amount, percentScaled);
            Success((base, CeilPart(base, modifier), amount - base))
  {
    var base := CeilPart(amount, percentScaled);
    FixedPoint.ScaledExact(amount, percentScaled, SCALAR_7);
    PartBounds(amount, percentScaled);
    FixedPoint.ScaledExact(base, modifier, SCALAR_7);
    PartBounds(base, modifier);
  }

  lemma ScaleLotExact(amount: int, percentScaled: int, modifier: int)
    requires FitsI128(amount) && 0 <= percentScaled <= SCALAR_7 && 0 <= modifier <= SCALAR_7
    ensures ScaleLotAmount(amount, percentScaled, modifier) ==
            var base := FloorPart(amount, percentScaled);
            Success((base, FloorPart(base, modifier), amount - base))
  {
    var base := FloorPart(amount, percentScaled);
    FixedPoint.ScaledExact(amount, percentScaled, SCALAR_7);
    PartBounds(amount, percentScaled);
    FixedPoint.ScaledExact(base, modifier, SCALAR_7);
    PartBounds(base, modifier);
  }

  /** Selecting `base` now at modifier `m` and leaving the rest for a later, cheaper modifier pays at
      least what taking everything later would, and at most one unit more when the price is equal. */
  lemma SplitBid(amount: int, base: int, m: int, later: int)
    requires 0 <= base <= amount && 0 <= later <= m
    ensures CeilPart(base, m) + CeilPart(amount - base, later) >= CeilPart(amount, later)
    ensures m == later ==> CeilPart(base, m) + CeilPart(amount - base, later) <= CeilPart(amount, later) + 1
  {
    MulMonotone(later, m, base);
    assert base * later + (amount - base) * later == amount * later;
    DivBounds(base * m + SCALAR_7 - 1, SCALAR_7);
    DivBounds((amount - base) * later + SCALAR_7 - 1, SCALAR_7);
    DivBounds(amount * later + SCALAR_7 - 1, SCALAR_7);
  }

  lemma SplitLot(amount: int, base: int, m: int, later: int)
    requires 0 <= base <= amount && 0 <= m <= later
    ensures FloorPart(base, m) + FloorPart(amount - base, later) <= FloorPart(amount, later)
    ensures m == later ==> FloorPart(base, m) + FloorPart(amount - base, later) + 1 >= FloorPart(amount, later)
  {
    MulMonotone(m, later, base);
    assert base * later + (amount - base) * later == amount * later;
    DivBounds(base * m, SCALAR_7);
    DivBounds((amount - base) * later, SCALAR_7);
    DivBounds(amount * later, SCALAR_7);
  }
}
