/** Partial filling of an auction: `scale_auction`, and whole runs of fills. */
module Auctions {
  import opened Numbers
  import opened AuctionMath

  datatype AuctionData = AuctionData(bid: map<Address, int>, lot: map<Address, int>, block: nat)

  /** Map amounts are 128-bit values. */
  predicate WellTyped(side: map<Address, int>) {
    forall asset | asset in side :: FitsI128(side[asset])
  }

  predicate TokenAmounts(side: map<Address, int>) {
    forall asset | asset in side :: 0 <= side[asset] <= I128_MAX
  }

  function Amount(side: map<Address, int>, asset: Address): int {
    if asset in side then side[asset] else 0
  }

  /** What a fill takes from, and leaves of, one side. Zero amounts are not recorded. */
  function TakenBid(bid: map<Address, int>, percentScaled: int, modifier: int): map<Address, int> {
    map asset | asset in bid && CeilPart(CeilPart(bid[asset], percentScaled), modifier) > 0 ::
      CeilPart(CeilPart(bid[asset], percentScaled), modifier)
  }

  function LeftBid(bid: map<Address, int>, percentScaled: int): map<Address, int> {
    map asset | asset in bid && bid[asset] - CeilPart(bid[asset], percentScaled) > 0 ::
      bid[asset] - CeilPart(bid[asset], percentScaled)
  }

  function TakenLot(lot: map<Address, int>, percentScaled: int, modifier: int): map<Address, int> {
    map asset | asset in lot && FloorPart(FloorPart(lot[asset], percentScaled), modifier) > 0 ::
      FloorPart(FloorPart(lot[asset], percentScaled), modifier)
  }

  function LeftLot(lot: map<Address, int>, percentScaled: int): map<Address, int> {
    map asset | asset in lot && lot[asset] - FloorPart(lot[asset], percentScaled) > 0 ::
      lot[asset] - FloorPart(lot[asset], percentScaled)
  }

  function PercentScaled(percent: int): int {
    percent * 100_000
  }

  /** The fill and the remaining auction, or no remainder when both sides are exhausted. */
  function Scaled(auction: AuctionData, percent: int, sequence: int)
    : Result<(AuctionData, Option<AuctionData>)>
  {
    if percent > 100 || percent <= 0 then Failure(BadRequest)
    else if sequence < auction.block then Failure(Trap)
    else
      var (bidModifier, lotModifier) := AuctionModifiers(sequence - auction.block);
      var p := PercentScaled(percent);
      var taken := AuctionData(TakenBid(auction.bid, p, bidModifier),
                               TakenLot(auction.lot, p, lotModifier), auction.block);
      var left := AuctionData(LeftBid(auction.bid, p), LeftLot(auction.lot, p), auction.block);
      if left.bid == map[] && left.lot == map[] then Success((taken, None))
      else Success((taken, Some(left)))
  }

  method ScaleAuction(auction: AuctionData, percentFilled: int, sequence: int)
    returns (r: Result<(AuctionData, Option<AuctionData>)>)
    requires WellTyped(auction.bid) && WellTyped(auction.lot)
    ensures r == Scaled(auction, percentFilled, sequence)
  {
    if percentFilled > 100 || percentFilled <= 0 {
      return Failure(BadRequest);
    }
    if sequence < auction.block {
      return Failure(Trap);
    }
    var elapsed := sequence - auction.block;
    ModifiersMonotone(elapsed, elapsed);
    var (bidModifier, lotModifier) := AuctionModifiers(elapsed);
    var percentScaled := percentFilled * 100_000;
    var fillBid, restBid := ScaleBidSide(auction.bid, percentScaled, bidModifier);
    var fillLot, restLot := ScaleLotSide(auction.lot, percentScaled, lotModifier);
    var toFill := AuctionData(fillBid, fillLot, auction.block);
    if restLot == map[] && restBid == map[] {
      return Success((toFill, None));
    }
    return Success((toFill, Some(AuctionData(restBid, restLot, auction.block))));
  }

  lemma NothingBid(bid: map<Address, int>, percentScaled: int, modifier: int)
    ensures TakenBid(bid - bid.Keys, percentScaled, modifier) == map[]
            && LeftBid(bid - bid.Keys, percentScaled) == map[]
  {
  }

  lemma MoreBid(bid: map<Address, int>, todo: set<Address>, asset: Address, percentScaled: int, modifier: int)
    requires asset in todo && asset in bid
    ensures var base := CeilPart(bid[asset], percentScaled);
            var taken, left := CeilPart(base, modifier), bid[asset] - base;
            var before, after := bid - todo, bid - (todo - {asset});
            && TakenBid(after, percentScaled, modifier)
               == (if taken > 0 then TakenBid(before, percentScaled, modifier)[asset := taken]
                 else TakenBid(before, percentScaled, modifier))
            && LeftBid(after, percentScaled)
               == (if left > 0 then LeftBid(before, percentScaled)[asset := left] else LeftBid(before, percentScaled))
  {
    hide CeilPart;
  }

  /** The loop over the bid side. */
  method ScaleBidSide(bid: map<Address, int>, percentScaled: int, modifier: int)
    returns (fill: map<Address, int>, rest: map<Address, int>)
    requires WellTyped(bid) && 0 <= percentScaled <= SCALAR_7 && 0 <= modifier <= SCALAR_7
    ensures fill == TakenBid(bid, percentScaled, modifier)
    ensures rest == LeftBid(bid, percentScaled)
  {
    hide CeilPart, FixedPoint.ScaledMulDivCeil, ScaleBidAmount, TakenBid, LeftBid;
    fill, rest := map[], map[];
    var todo := bid.Keys;
    NothingBid(bid, percentScaled, modifier);
    while todo != {}
      invariant todo <= bid.Keys
      invariant fill == TakenBid(bid - todo, percentScaled, modifier)
      invariant rest == LeftBid(bid - todo, percentScaled)
      decreases |todo|
    {
      var asset :| asset in todo;
      ScaleBidExact(bid[asset], percentScaled, modifier);
      var scaled := ScaleBidAmount(bid[asset], percentScaled, modifier);
      var (_, toFillScaled, remainingBase) := scaled.value;
      if remainingBase > 0 {
        rest := rest[asset := remainingBase];
      }
      if toFillScaled > 0 {
        fill := fill[asset := toFillScaled];
      }
      MoreBid(bid, todo, asset, percentScaled, modifier);
      todo := todo - {asset};
    }
    assert bid - todo == bid;
  }

  lemma NothingLot(lot: map<Address, int>, percentScaled: int, modifier: int)
    ensures TakenLot(lot - lot.Keys, percentScaled, modifier) == map[]
            && LeftLot(lot - lot.Keys, percentScaled) == map[]
  {
  }

  lemma MoreLot(lot: map<Address, int>, todo: set<Address>, asset: Address, percentScaled: int, modifier: int)
    requires asset in todo && asset in lot
    ensures var base := FloorPart(lot[asset], percentScaled);
            var taken, left := FloorPart(base, modifier), lot[asset] - base;
            var before, after := lot - todo, lot - (todo - {asset});
            && TakenLot(after, percentScaled, modifier)
               == (if taken > 0 then TakenLot(before, percentScaled, modifier)[asset := taken]
                 else TakenLot(before, percentScaled, modifier))
            && LeftLot(after, percentScaled)
               == (if left > 0 then LeftLot(before, percentScaled)[asset := left] else LeftLot(before, percentScaled))
  {
    hide FloorPart;
  }

  /** The loop over the lot side. */
  method ScaleLotSide(lot: map<Address, int>, percentScaled: int, modifier: int)
    returns (fill: map<Address, int>, rest: map<Address, int>)
    requires WellTyped(lot) && 0 <= percentScaled <= SCALAR_7 && 0 <= modifier <= SCALAR_7
    ensures fill == TakenLot(lot, percentScaled, modifier)
    ensures rest == LeftLot(lot, percentScaled)
  {
    hide FloorPart, FixedPoint.ScaledMulDivFloor, ScaleLotAmount, TakenLot, LeftLot;
    fill, rest := map[], map[];
    var todo := lot.Keys;
    NothingLot(lot, percentScaled, modifier);
    while todo != {}
      invariant todo <= lot.Keys
      invariant fill == TakenLot(lot - todo, percentScaled, modifier)
      invariant rest == LeftLot(lot - todo, percentScaled)
      decreases |todo|
    {
      var asset :| asset in todo;
      ScaleLotExact(lot[asset], percentScaled, modifier);
      var scaled := ScaleLotAmount(lot[asset], percentScaled, modifier);
      var (_, toFillScaled, remainingBase) := scaled.value;
      if remainingBase > 0 {
        rest := rest[asset := remainingBase];
      }
      if toFillScaled > 0 {
        fill := fill[asset := toFillScaled];
      }
      MoreLot(lot, todo, asset, percentScaled, modifier);
      todo := todo - {asset};
    }
    assert lot - todo == lot;
  }

  /** One attempt to fill: a percentage and the ledger it happens on. */
  datatype FillAttempt = Attempt(percent: int, sequence: int)

  function FillStored(auction: Option<AuctionData>, f: FillAttempt): Result<(AuctionData, Option<AuctionData>)> {
    match auction
    case None => Failure(Trap)
    case Some(a) => Scaled(a, f.percent, f.sequence)
  }

  /** The auction left in storage after a run of fills; an aborted fill changes nothing. */
  function AfterFills(auction: Option<AuctionData>, fills: seq<FillAttempt>): Option<AuctionData>
    decreases |fills|
  {
    if fills == [] then auction
    else
      match FillStored(auction, fills[0])
      case Failure(_) => AfterFills(auction, fills[1..])
      case Success((_, left)) => AfterFills(left, fills[1..])
  }

  /** Total of one bid asset paid, and of one lot asset received, over a run of fills. */
  function BidPaid(auction: Option<AuctionData>, fills: seq<FillAttempt>, asset: Address): int
    decreases |fills|
  {
    if fills == [] then 0
    else
      match FillStored(auction, fills[0])
      case Failure(_) => BidPaid(auction, fills[1..], asset)
      case Success((taken, left)) => Amount(taken.bid, asset) + BidPaid(left, fills[1..], asset)
  }

  function LotReceived(auction: Option<AuctionData>, fills: seq<FillAttempt>, asset: Address): int
    decreases |fills|
  {
    if fills == [] then 0
    else
      match FillStored(auction, fills[0])
      case Failure(_) => LotReceived(auction, fills[1..], asset)
      case Success((taken, left)) => Amount(taken.lot, asset) + LotReceived(left, fills[1..], asset)
  }

  function BidOf(auction: Option<AuctionData>, asset: Address): int {
    if auction.Some? then Amount(auction.value.bid, asset) else 0
  }

  function LotOf(auction: Option<AuctionData>, asset: Address): int {
    if auction.Some? then Amount(auction.value.lot, asset) else 0
  }

  predicate Fillable(auction: Option<AuctionData>) {
    auction.Some? ==> TokenAmounts(auction.value.bid) && TokenAmounts(auction.value.lot)
  }

  /** One successful fill seen from a single asset: it selects a base between zero and the stored
      amount, leaves exactly the rest, and takes the time-scaled base. */
  lemma FillEffect(a: AuctionData, f: FillAttempt, asset: Address)
    requires Fillable(Some(a)) && Scaled(a, f.percent, f.sequence).Success?
    ensures var (taken, left) := Scaled(a, f.percent, f.sequence).value;
            var (bidModifier, lotModifier) := AuctionModifiers(f.sequence - a.block);
            var bidBase := BidOf(Some(a), asset) - BidOf(left, asset);
            var lotBase := LotOf(Some(a), asset) - LotOf(left, asset);
            && Fillable(left) && (left.Some? ==> left.value.block == a.block)
            && 0 <= bidBase <= BidOf(Some(a), asset) && 0 <= lotBase <= LotOf(Some(a), asset)
            && Amount(taken.bid, asset) == CeilPart(bidBase, bidModifier) <= bidBase
            && Amount(taken.lot, asset) == FloorPart(lotBase, lotModifier) <= lotBase
            && 0 <= Amount(taken.lot, asset) && 0 <= Amount(taken.bid, asset)
            && (f.percent == 100 ==> left.None?)
  {
    hide CeilPart, FloorPart, TakenBid, LeftBid, TakenLot, LeftLot, AuctionModifiers, Amount;
    var p := PercentScaled(f.percent);
    ModifiersMonotone(f.sequence - a.block, f.sequence - a.block);
    var (bidModifier, lotModifier) := AuctionModifiers(f.sequence - a.block);
    BidEffect(a.bid, p, bidModifier, asset);
    LotEffect(a.lot, p, lotModifier, asset);
    NothingIn(asset);
  }

  /** When a fill is refused, and what one fill does to the unit: of each bid asset the percentage rounded up, of each
      lot asset the percentage rounded down, each scaled by the price of the ledger with the same rounding; what was
      not selected is left, and nothing is left when nothing remains of any asset. */
  lemma FillExact(a: AuctionData, f: FillAttempt, asset: Address)
    requires Fillable(Some(a))
    ensures var r := Scaled(a, f.percent, f.sequence);
            if f.percent <= 0 || 100 < f.percent then r == Failure(BadRequest)
            else if f.sequence < a.block then r == Failure(Trap)
            else
              && r.Success?
              && var (taken, left) := r.value;
              var (bidModifier, lotModifier) := AuctionModifiers(f.sequence - a.block);
              var bid, lot := BidOf(Some(a), asset), LotOf(Some(a), asset);
              var bidBase, lotBase := bid - BidOf(left, asset), lot - LotOf(left, asset);
              var paid, received := Amount(taken.bid, asset), Amount(taken.lot, asset);
              && (bidBase - 1) * 100 < bid * f.percent <= bidBase * 100
              && lotBase * 100 <= lot * f.percent < (lotBase + 1) * 100
              && (paid - 1) * 10_000_000 < bidBase * bidModifier <= paid * 10_000_000
              && received * 10_000_000 <= lotBase * lotModifier < (received + 1) * 10_000_000
              && (left.None? <==> NothingLeft(a, f.percent))
  {
    hide CeilPart, FloorPart, TakenBid, LeftBid, TakenLot, LeftLot, AuctionModifiers, Amount, NothingLeft,
         PercentScaled;
    PercentFits(f.percent);
    if 0 < f.percent <= 100 && a.block <= f.sequence {
      var p := PercentScaled(f.percent);
      ModifiersMonotone(f.sequence - a.block, f.sequence - a.block);
      var (bidModifier, lotModifier) := AuctionModifiers(f.sequence - a.block);
      var bid, lot := BidOf(Some(a), asset), LotOf(Some(a), asset);
      BidLeaves(a.bid, p, asset);
      LotLeaves(a.lot, p, asset);
      BidEffect(a.bid, p, bidModifier, asset);
      LotEffect(a.lot, p, lotModifier, asset);
      NothingIn(asset);
      LeavesNothing(a, f.percent);
      BasesExact(bid, f.percent);
      BasesExact(lot, f.percent);
      PartsExact(CeilPart(bid, p), bidModifier);
      PartsExact(FloorPart(lot, p), lotModifier);
    }
  }

  /** The percentage, rounded, selects all of every asset. */
  predicate NothingLeft(a: AuctionData, percent: int) {
    && (forall x | x in a.bid :: (a.bid[x] - 1) * 100 < a.bid[x] * percent)
    && (forall x | x in a.lot :: a.lot[x] * 100 <= a.lot[x] * percent)
  }

  lemma PercentFits(percent: int)
    ensures 0 < percent <= 100 ==> 0 <= PercentScaled(percent) <= SCALAR_7
  {
  }

  lemma BidLeaves(bid: map<Address, int>, p: int, asset: Address)
    requires TokenAmounts(bid) && 0 <= p <= SCALAR_7
    ensures Amount(LeftBid(bid, p), asset) == Amount(bid, asset) - CeilPart(Amount(bid, asset), p)
  {
    PartBounds(Amount(bid, asset), p);
    hide CeilPart;
  }

  lemma LotLeaves(lot: map<Address, int>, p: int, asset: Address)
    requires TokenAmounts(lot) && 0 <= p <= SCALAR_7
    ensures Amount(LeftLot(lot, p), asset) == Amount(lot, asset) - FloorPart(Amount(lot, asset), p)
  {
    PartBounds(Amount(lot, asset), p);
    hide FloorPart;
  }

  lemma LeavesNothing(a: AuctionData, percent: int)
    requires Fillable(Some(a)) && 0 < percent <= 100
    ensures LeftBid(a.bid, PercentScaled(percent)) == map[] && LeftLot(a.lot, PercentScaled(percent)) == map[]
            <==> NothingLeft(a, percent)
  {
    hide CeilPart, FloorPart;
    var p := PercentScaled(percent);
    forall x | x in a.bid ensures a.bid[x] - CeilPart(a.bid[x], p) > 0 <==> a.bid[x] * percent <= (a.bid[x] - 1) * 100 {
      BasesExact(a.bid[x], percent);
    }
    forall x | x in a.lot ensures a.lot[x] - FloorPart(a.lot[x], p) > 0 <==> a.lot[x] * percent < a.lot[x] * 100 {
      BasesExact(a.lot[x], percent);
    }
    KeysOfLeft(a.bid, a.lot, p);
  }

  lemma BasesExact(amount: int, percent: int)
    ensures var base := CeilPart(amount, PercentScaled(percent)); (base - 1) * 100 < amount * percent <= base * 100
    ensures var base := FloorPart(amount, PercentScaled(percent)); base * 100 <= amount * percent < (base + 1) * 100
  {
    PartsExact(amount, PercentScaled(percent));
    assert amount * PercentScaled(percent) == amount * percent * 100_000;
    hide CeilPart, FloorPart;
  }

  lemma KeysOfLeft(bid: map<Address, int>, lot: map<Address, int>, p: int)
    ensures LeftBid(bid, p) == map[] <==> forall x | x in bid :: bid[x] - CeilPart(bid[x], p) <= 0
    ensures LeftLot(lot, p) == map[] <==> forall x | x in lot :: lot[x] - FloorPart(lot[x], p) <= 0
  {
    hide CeilPart, FloorPart;
    if LeftBid(bid, p) == map[] {
      forall x | x in bid ensures bid[x] - CeilPart(bid[x], p) <= 0 {
        assert x !in LeftBid(bid, p);
      }
    }
    if LeftLot(lot, p) == map[] {
      forall x | x in lot ensures lot[x] - FloorPart(lot[x], p) <= 0 {
        assert x !in LeftLot(lot, p);
      }
    }
  }

  lemma NothingIn(asset: Address)
    ensures Amount(map[], asset) == 0
  {
  }

  lemma BidEffect(bid: map<Address, int>, p: int, modifier: int, asset: Address)
    requires TokenAmounts(bid) && 0 <= p <= SCALAR_7 && 0 <= modifier <= SCALAR_7
    ensures var base := Amount(bid, asset) - Amount(LeftBid(bid, p), asset);
            && TokenAmounts(LeftBid(bid, p)) && 0 <= base <= Amount(bid, asset)
            && Amount(TakenBid(bid, p, modifier), asset) == CeilPart(base, modifier)
            && 0 <= CeilPart(base, modifier) <= base
    ensures p == SCALAR_7 ==> LeftBid(bid, p) == map[]
  {
    hide CeilPart;
    forall x | x in bid
      ensures 0 <= CeilPart(bid[x], p) <= bid[x]
      ensures p == SCALAR_7 ==> CeilPart(bid[x], p) == bid[x]
    {
      PartBounds(bid[x], p);
    }
    PartBounds(if asset in bid then CeilPart(bid[asset], p) else 0, modifier);
  }

  lemma LotEffect(lot: map<Address, int>, p: int, modifier: int, asset: Address)
    requires TokenAmounts(lot) && 0 <= p <= SCALAR_7 && 0 <= modifier <= SCALAR_7
    ensures var base := Amount(lot, asset) - Amount(LeftLot(lot, p), asset);
            && TokenAmounts(LeftLot(lot, p)) && 0 <= base <= Amount(lot, asset)
            && Amount(TakenLot(lot, p, modifier), asset) == FloorPart(base, modifier)
            && 0 <= FloorPart(base, modifier) <= base
    ensures p == SCALAR_7 ==> LeftLot(lot, p) == map[]
  {
    hide FloorPart;
    forall x | x in lot
      ensures 0 <= FloorPart(lot[x], p) <= lot[x]
      ensures p == SCALAR_7 ==> FloorPart(lot[x], p) == lot[x]
    {
      PartBounds(lot[x], p);
    }
    PartBounds(if asset in lot then FloorPart(lot[asset], p) else 0, modifier);
  }

  /** Whatever the ledgers, a run never takes more than was auctioned: totals plus what is left are
      bounded by the original amounts, on both sides. */
  lemma {:induction false} TotalsBounded(auction: Option<AuctionData>, fills: seq<FillAttempt>, asset: Address)
    requires Fillable(auction)
    ensures 0 <= BidPaid(auction, fills, asset)
    ensures BidPaid(auction, fills, asset) + BidOf(AfterFills(auction, fills), asset) <= BidOf(auction, asset)
    ensures 0 <= LotReceived(auction, fills, asset)
    ensures LotReceived(auction, fills, asset) + LotOf(AfterFills(auction, fills), asset) <= LotOf(auction, asset)
    ensures Fillable(AfterFills(auction, fills))
    decreases |fills|
  {
    if fills != [] {
      match FillStored(auction, fills[0])
      case Failure(_) =>
        TotalsBounded(auction, fills[1..], asset);
      case Success((taken, left)) =>
        FillEffect(auction.value, fills[0], asset);
        TotalsBounded(left, fills[1..], asset);
    }
  }

  predicate ValidFill(auction: AuctionData, f: FillAttempt) {
    0 < f.percent <= 100 && auction.block <= f.sequence
  }

  /** Valid fills on ledgers that never go back, the last one taking everything. */
  predicate CompletingRun(auction: AuctionData, fills: seq<FillAttempt>) {
    && fills != []
    && (forall i | 0 <= i < |fills| :: ValidFill(auction, fills[i]))
    && (forall i, j | 0 <= i < j < |fills| :: fills[i].sequence <= fills[j].sequence)
    && fills[|fills| - 1].percent == 100
  }

  predicate SameLedger(fills: seq<FillAttempt>) {
    forall i, j | 0 <= i < j < |fills| :: fills[i].sequence == fills[j].sequence
  }

  lemma {:induction false} NothingAfterNone(fills: seq<FillAttempt>, asset: Address)
    ensures AfterFills(None, fills).None?
    ensures BidPaid(None, fills, asset) == 0 == LotReceived(None, fills, asset)
  {
    if fills != [] {
      NothingAfterNone(fills[1..], asset);
    }
  }

  /** Splitting never helps the filler. A run of partial fills that completes the auction pays at
      least the bid, and receives at most the lot, of waiting for the last ledger and filling once;
      on a single ledger each extra fill changes either side by at most one unit. Every unit that was
      auctioned has then been selected: nothing is left. */
  lemma {:induction false} SplittingNeverHelps(auction: AuctionData, fills: seq<FillAttempt>, asset: Address)
    requires Fillable(Some(auction)) && CompletingRun(auction, fills)
    ensures var once := [Attempt(100, fills[|fills| - 1].sequence)];
            && AfterFills(Some(auction), fills).None?
            && BidPaid(Some(auction), fills, asset) >= BidPaid(Some(auction), once, asset)
            && LotReceived(Some(auction), fills, asset) <= LotReceived(Some(auction), once, asset)
            && (SameLedger(fills) ==>
                  && BidPaid(Some(auction), fills, asset) <= BidPaid(Some(auction), once, asset) + |fills| - 1
                  && LotReceived(Some(auction), fills, asset) + |fills| - 1 >= LotReceived(Some(auction), once, asset))
    decreases |fills|
  {
    hide CeilPart, FloorPart, AuctionModifiers, TakenBid, TakenLot, LeftBid, LeftLot, Amount;
    var n := |fills|;
    var last := Attempt(100, fills[n - 1].sequence);
    OnceTakesAll(auction, last, asset);
    if n == 1 {
      assert fills == [last];
    } else {
      FillEffect(auction, fills[0], asset);
      var (taken, left) := Scaled(auction, fills[0].percent, fills[0].sequence).value;
      ModifiersMonotone(fills[0].sequence - auction.block, last.sequence - auction.block);
      var (m, k) := AuctionModifiers(fills[0].sequence - auction.block);
      var (m', k') := AuctionModifiers(last.sequence - auction.block);
      SplitBid(BidOf(Some(auction), asset), BidOf(Some(auction), asset) - BidOf(left, asset), m, m');
      SplitLot(LotOf(Some(auction), asset), LotOf(Some(auction), asset) - LotOf(left, asset), k, k');
      var rest := fills[1..];
      if left.None? {
        NothingAfterNone(rest, asset);
        PartBounds(0, m');
        PartBounds(0, k');
      } else {
        assert rest[|rest| - 1] == fills[n - 1];
        SplittingNeverHelps(left.value, rest, asset);
        OnceTakesAll(left.value, last, asset);
      }
    }
  }

  /** A single full fill takes the time-scaled whole of each side. */
  lemma OnceTakesAll(auction: AuctionData, last: FillAttempt, asset: Address)
    requires Fillable(Some(auction)) && ValidFill(auction, last) && last.percent == 100
    ensures var (bidModifier, lotModifier) := AuctionModifiers(last.sequence - auction.block);
            && BidPaid(Some(auction), [last], asset) == CeilPart(BidOf(Some(auction), asset), bidModifier)
            && LotReceived(Some(auction), [last], asset) == FloorPart(LotOf(Some(auction), asset), lotModifier)
            && AfterFills(Some(auction), [last]).None?
  {
    FillEffect(auction, last, asset);
    NothingAfterNone([], asset);
    assert [last][1..] == [];
  }
}
