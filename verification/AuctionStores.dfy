/** The pool's stored user liquidations. A user's auction and the marker that makes it a forced exit are two
    temporary entries, each kept alive by its own writes. */
module AuctionStores {
  import opened Numbers
  import opened Auctions

  const AUCTION_STALE_LEDGERS: nat := 500
  const ONE_DAY_LEDGERS: nat := 17_280
  const LEDGER_THRESHOLD_SHARED: nat := ONE_DAY_LEDGERS * 45
  const LEDGER_BUMP_SHARED: nat := LEDGER_THRESHOLD_SHARED + ONE_DAY_LEDGERS

  /** An auction that lives through ledger `until`; `forced` is history, how it was created. */
  datatype Stored = Stored(auction: AuctionData, until: nat, forced: bool)

  /** Both kinds of entry, by user. */
  datatype Shelf = Shelf(auctions: map<Address, Stored>, exits: map<Address, nat>)

  /** The amounts an auction is created with. */
  type Side = side: map<Address, int> | TokenAmounts(side) witness map[]

  datatype Quote = Quote(bid: Side, lot: Side)

  predicate HasAuction(s: Shelf, user: Address, sequence: nat) {
    user in s.auctions && sequence <= s.auctions[user].until
  }

  predicate HasExit(s: Shelf, user: Address, sequence: nat) {
    user in s.exits && sequence <= s.exits[user]
  }

  /** A write renews a lifetime that has come down to 45 days. */
  function Renewed(until: Option<nat>, sequence: nat): nat {
    if until.Some? && sequence + LEDGER_THRESHOLD_SHARED < until.value then until.value
    else sequence + LEDGER_BUMP_SHARED
  }

  function AuctionUntil(s: Shelf, user: Address): Option<nat> {
    if user in s.auctions then Some(s.auctions[user].until) else None
  }

  function ExitUntil(s: Shelf, user: Address): Option<nat> {
    if user in s.exits then Some(s.exits[user]) else None
  }

  // The calls. `quote`, `settles` and `healthy` are the answers of the pool's position accounting.

  function Create(s: Shelf, user: Address, quote: Result<Quote>, forced: bool, sequence: nat): Result<Shelf> {
    if HasAuction(s, user, sequence) then Failure(AuctionInProgress) else
    :- Require(FitsU32(sequence + 1), Trap);
    var q :- quote;
    var a := AuctionData(q.bid, q.lot, sequence + 1);
    var created := s.auctions[user := Stored(a, Renewed(AuctionUntil(s, user), sequence), forced)];
    Success(Shelf(created, if forced then s.exits[user := Renewed(ExitUntil(s, user), sequence)] else s.exits))
  }

  function Deleted(s: Shelf, user: Address): Shelf {
    Shelf(s.auctions - {user}, s.exits - {user})
  }

  function Fill(s: Shelf, user: Address, filler: Address, percent: int, settles: bool, sequence: nat)
    : Result<(Shelf, AuctionData)>
  {
    if user == filler then Failure(InvalidLiquidation) else
    var stored := if HasAuction(s, user, sequence) then Some(s.auctions[user].auction) else None;
    var (taken, left) :- FillStored(stored, Attempt(percent, sequence));
    :- Require(settles, Trap);
    match left
    case None => Success((Deleted(s, user), taken))
    case Some(rest) =>
      var kept := s.auctions[user].(auction := rest, until := Renewed(AuctionUntil(s, user), sequence));
      var exits :=
        if HasExit(s, user, sequence) then s.exits[user := Renewed(ExitUntil(s, user), sequence)] else s.exits;
      Success((Shelf(s.auctions[user := kept], exits), taken))
  }

  function DeleteStale(s: Shelf, user: Address, sequence: nat): Result<Shelf> {
    if !HasAuction(s, user, sequence) then Failure(BadRequest) else
    var stale := s.auctions[user].auction.block + AUCTION_STALE_LEDGERS;
    :- Require(FitsU32(stale), Trap);
    :- Require(stale <= sequence, BadRequest);
    Success(Deleted(s, user))
  }

  /** The user's own request. The pool checks the user's health once it is done. */
  function DeleteLiquidation(s: Shelf, user: Address, healthy: bool, sequence: nat): Result<Shelf> {
    if !HasAuction(s, user, sequence) then Failure(BadRequest) else
    :- Require(!HasExit(s, user, sequence), Unauthorized);
    :- Require(healthy, InvalidHealth);
    Success(Deleted(s, user))
  }

  /** A clawback that burns collateral invalidates the auction on it. */
  function Invalidate(s: Shelf, user: Address, sequence: nat): Shelf {
    if HasAuction(s, user, sequence) then Deleted(s, user) else s
  }

  // The contract's storage, changed in place.

  class AuctionStore {
    var auctions: map<Address, Stored>
    var exits: map<Address, nat>

    function State(): Shelf
      reads this
    {
      Shelf(auctions, exits)
    }

    constructor ()
      ensures State() == Shelf(map[], map[])
    {
      auctions, exits := map[], map[];
    }

    method SetAuction(user: Address, a: AuctionData, forced: bool, sequence: nat)
      modifies this`auctions
      ensures auctions == old(auctions)[user := Stored(a, Renewed(AuctionUntil(old(State()), user), sequence), forced)]
    {
      var until := Renewed(AuctionUntil(State(), user), sequence);
      auctions := auctions[user := Stored(a, until, forced)];
    }

    method SetBorrowerExitAuction(user: Address, sequence: nat)
      modifies this`exits
      ensures exits == old(exits)[user := Renewed(ExitUntil(old(State()), user), sequence)]
    {
      exits := exits[user := Renewed(ExitUntil(State(), user), sequence)];
    }

    method DelAuction(user: Address)
      modifies this
      ensures State() == Deleted(old(State()), user)
    {
      auctions := auctions - {user};
      exits := exits - {user};
    }

    /** Store a new liquidation, or a forced exit, which its target must not be able to delete. */
    method CreateAuction(user: Address, quote: Result<Quote>, forced: bool, sequence: nat)
      returns (r: Result<AuctionData>)
      modifies this
      ensures match Create(old(State()), user, quote, forced, sequence)
              case Failure(x) => r == Failure(x) && State() == old(State())
              case Success(n) =>
                State() == n && r == Success(AuctionData(quote.value.bid, quote.value.lot, sequence + 1))
    {
      if HasAuction(State(), user, sequence) {
        return Failure(AuctionInProgress);
      }
      if !FitsU32(sequence + 1) {
        return Failure(Trap);
      }
      if quote.Failure? {
        return Failure(quote.error);
      }
      var a := AuctionData(quote.value.bid, quote.value.lot, sequence + 1);
      SetAuction(user, a, forced, sequence);
      if forced {
        SetBorrowerExitAuction(user, sequence);
      }
      return Success(a);
    }

    /** Fill a user liquidation. When the position transfer does not settle, nothing is stored. */
    method FillAuction(user: Address, filler: Address, percentFilled: int, settles: bool, sequence: nat)
      returns (r: Result<AuctionData>)
      requires Sound(State(), sequence)
      modifies this
      ensures match Fill(old(State()), user, filler, percentFilled, settles, sequence)
              case Failure(x) => r == Failure(x) && State() == old(State())
              case Success((n, taken)) => r == Success(taken) && State() == n
    {
      hide Scaled;
      if user == filler {
        return Failure(InvalidLiquidation);
      }
      var isBorrowerExit := HasExit(State(), user, sequence);
      if !HasAuction(State(), user, sequence) {
        return Failure(Trap);
      }
      var stored := auctions[user];
      var scaled := ScaleAuction(stored.auction, percentFilled, sequence);
      if scaled.Failure? {
        return Failure(scaled.error);
      }
      var (toFill, remaining) := scaled.value;
      if !settles {
        return Failure(Trap);
      }
      if remaining.Some? {
        SetAuction(user, remaining.value, stored.forced, sequence);
        if isBorrowerExit {
          SetBorrowerExitAuction(user, sequence);
        }
      } else {
        DelAuction(user);
      }
      return Success(toFill);
    }

    /** Anyone may delete an auction once it is stale. */
    method DeleteStaleAuction(user: Address, sequence: nat) returns (r: Result<()>)
      modifies this
      ensures match DeleteStale(old(State()), user, sequence)
              case Failure(x) => r == Failure(x) && State() == old(State())
              case Success(n) => r.Success? && State() == n
    {
      if !HasAuction(State(), user, sequence) {
        return Failure(BadRequest);
      }
      var block := auctions[user].auction.block;
      if !FitsU32(block + AUCTION_STALE_LEDGERS) {
        return Failure(Trap);
      }
      if block + AUCTION_STALE_LEDGERS > sequence {
        return Failure(BadRequest);
      }
      DelAuction(user);
      return Success(());
    }

    /** The user deletes the auction on itself; `healthy` is the check the pool makes afterwards. */
    method DeleteLiquidationAuction(user: Address, healthy: bool, sequence: nat) returns (r: Result<()>)
      modifies this
      ensures match DeleteLiquidation(old(State()), user, healthy, sequence)
              case Failure(x) => r == Failure(x) && State() == old(State())
              case Success(n) => r.Success? && State() == n
    {
      if !HasAuction(State(), user, sequence) {
        return Failure(BadRequest);
      }
      if HasExit(State(), user, sequence) {
        return Failure(Unauthorized);
      }
      if !healthy {
        return Failure(InvalidHealth);
      }
      DelAuction(user);
      return Success(());
    }
  }

  // What holds of the two entries together.

  /** A live marker belongs to a live forced exit and lives exactly as long; every live forced exit has one. */
  predicate Marked(s: Shelf, user: Address, sequence: nat) {
    && (HasExit(s, user, sequence) <==> HasAuction(s, user, sequence) && s.auctions[user].forced)
    && (HasExit(s, user, sequence) ==> s.exits[user] == s.auctions[user].until)
  }

  ghost predicate Sound(s: Shelf, sequence: nat) {
    && (forall user: Address :: Marked(s, user, sequence))
    && (forall user | user in s.auctions :: Fillable(Some(s.auctions[user].auction)))
  }

  /** What any account may do to a user's auction, and the passing of ledgers. */
  datatype StoreStep =
    | Ledgers(count: nat)
    | Liquidate(user: Address, quote: Result<Quote>)
    | ForceExit(user: Address, quote: Result<Quote>)
    | FillPart(user: Address, filler: Address, percent: int, settles: bool)
    | ClearStale(user: Address)
    | Withdraw(user: Address, healthy: bool)
    | Clawback(user: Address)

  datatype Shop = Shop(shelf: Shelf, sequence: nat)

  function ShelfAfter(s: Shop, step: StoreStep): Result<Shelf> {
    match step
    case Ledgers(_) => Success(s.shelf)
    case Liquidate(user, quote) => Create(s.shelf, user, quote, false, s.sequence)
    case ForceExit(user, quote) => Create(s.shelf, user, quote, true, s.sequence)
    case FillPart(user, filler, percent, settles) =>
      var (n, _) :- Fill(s.shelf, user, filler, percent, settles, s.sequence);
      Success(n)
    case ClearStale(user) => DeleteStale(s.shelf, user, s.sequence)
    case Withdraw(user, healthy) => DeleteLiquidation(s.shelf, user, healthy, s.sequence)
    case Clawback(user) => Success(Invalidate(s.shelf, user, s.sequence))
  }

  function StoreNext(s: Shop, step: StoreStep): Shop {
    var r := ShelfAfter(s, step);
    Shop(if r.Success? then r.value else s.shelf, if step.Ledgers? then s.sequence + step.count else s.sequence)
  }

  function StoreRun(s: Shop, steps: seq<StoreStep>): Shop
    decreases |steps|
  {
    if steps == [] then s else StoreRun(StoreNext(s, steps[0]), steps[1..])
  }

  lemma FillLeavesFillable(s: Shop, user: Address, percent: int)
    requires Sound(s.shelf, s.sequence)
    ensures user in s.shelf.auctions ==>
              var r := Scaled(s.shelf.auctions[user].auction, percent, s.sequence);
              r.Success? ==> Fillable(r.value.1)
  {
    if user in s.shelf.auctions && Scaled(s.shelf.auctions[user].auction, percent, s.sequence).Success? {
      FillEffect(s.shelf.auctions[user].auction, Attempt(percent, s.sequence), user);
    }
  }

  /** One step keeps marker and auction together for every user, whoever makes it. */
  lemma StoreStepKeeps(s: Shop, step: StoreStep)
    requires Sound(s.shelf, s.sequence)
    ensures Sound(StoreNext(s, step).shelf, StoreNext(s, step).sequence)
  {
    hide Scaled, Fillable;
    var n := StoreNext(s, step);
    if step.FillPart? {
      FillLeavesFillable(s, step.user, step.percent);
    }
    QuotesFillable(step, s.sequence);
    forall user: Address ensures Marked(n.shelf, user, n.sequence) {
      assert Marked(s.shelf, user, s.sequence);
    }
  }

  lemma QuotesFillable(step: StoreStep, sequence: nat)
    ensures (step.Liquidate? || step.ForceExit?) && step.quote.Success? ==>
              Fillable(Some(AuctionData(step.quote.value.bid, step.quote.value.lot, sequence + 1)))
  {
  }

  /** From any sound storage, whatever any accounts do at whatever ledgers: the user can delete the auction on
      itself exactly when there is one, it was not created as a forced exit, and the user ends healthy. */
  lemma {:induction false} StoreRunKeeps(s: Shop, steps: seq<StoreStep>, user: Address, healthy: bool)
    requires Sound(s.shelf, s.sequence)
    ensures var r := StoreRun(s, steps);
            && Sound(r.shelf, r.sequence)
            && (DeleteLiquidation(r.shelf, user, healthy, r.sequence).Success? <==>
                  HasAuction(r.shelf, user, r.sequence) && !r.shelf.auctions[user].forced && healthy)
    decreases |steps|
  {
    hide StoreNext;
    if steps == [] {
      assert Marked(s.shelf, user, s.sequence);
    } else {
      StoreStepKeeps(s, steps[0]);
      StoreRunKeeps(StoreNext(s, steps[0]), steps[1..], user, healthy);
    }
  }

  lemma EmptySound(sequence: nat)
    ensures Sound(Shelf(map[], map[]), sequence)
  {
  }

  predicate LiveExit(s: Shop, user: Address) {
    HasAuction(s.shelf, user, s.sequence) && s.shelf.auctions[user].forced
  }

  /** How a live auction can end: its lifetime runs out, another account fills all that is left, someone deletes it
      when it is 500 ledgers old, a clawback invalidates it, or, unless it is a forced exit, its target deletes it and
      is healthy afterwards. */
  predicate Ends(s: Shop, user: Address, step: StoreStep)
    requires HasAuction(s.shelf, user, s.sequence)
  {
    var stored := s.shelf.auctions[user];
    match step
    case Ledgers(count) => stored.until < s.sequence + count
    case FillPart(u, filler, percent, settles) =>
      && u == user && filler != user && settles
      && var r := Scaled(stored.auction, percent, s.sequence);
      r.Success? && r.value.1.None?
    case ClearStale(u) =>
      u == user && FitsU32(stored.auction.block + 500) && stored.auction.block + 500 <= s.sequence
    case Withdraw(u, healthy) => u == user && healthy && !stored.forced
    case Clawback(u) => u == user
    case _ => false
  }

  /** What a step that does not end an auction leaves of it: the rest of a fill that settled, or all of it; how it was
      created never changes. */
  function LeftBy(s: Shop, user: Address, step: StoreStep): AuctionData
    requires HasAuction(s.shelf, user, s.sequence)
  {
    var a := s.shelf.auctions[user].auction;
    match step
    case FillPart(u, filler, percent, settles) =>
      var r := Scaled(a, percent, s.sequence);
      if u == user && filler != user && settles && r.Success? && r.value.1.Some? then r.value.1.value else a
    case _ => a
  }

  /** A live auction ends in exactly these ways; otherwise it stays, with exactly what a fill left of it. */
  lemma AuctionEnds(s: Shop, user: Address, step: StoreStep)
    requires Sound(s.shelf, s.sequence) && HasAuction(s.shelf, user, s.sequence)
    ensures var n := StoreNext(s, step);
            && (HasAuction(n.shelf, user, n.sequence) <==> !Ends(s, user, step))
            && (!Ends(s, user, step) ==>
                  && n.shelf.auctions[user].auction == LeftBy(s, user, step)
                  && n.shelf.auctions[user].forced == s.shelf.auctions[user].forced
                  && s.shelf.auctions[user].until <= n.shelf.auctions[user].until)
  {
    hide Scaled, Fillable;
    assert Marked(s.shelf, user, s.sequence);
  }

  /** An auction begins only by being created, on the ledger after, when there is none and the pool quotes it. */
  lemma AuctionBegins(s: Shop, user: Address, step: StoreStep)
    requires !HasAuction(s.shelf, user, s.sequence)
    ensures var n := StoreNext(s, step);
            HasAuction(n.shelf, user, n.sequence) <==>
              && (step.Liquidate? || step.ForceExit?) && step.user == user && step.quote.Success?
              && s.sequence + 1 <= 0xffff_ffff
    ensures var n := StoreNext(s, step);
            HasAuction(n.shelf, user, n.sequence) ==>
              var q := step.quote.value;
              && n.shelf.auctions[user].auction == AuctionData(q.bid, q.lot, s.sequence + 1)
              && n.shelf.auctions[user].forced == step.ForceExit?
  {
    hide Scaled;
  }

  /** Once created, or filled in part, an auction lives for 46 days of ledgers, or as long as it already had if that is
      more than 45, and its marker with it. */
  lemma WrittenAuctionLasts(s: Shop, user: Address, step: StoreStep)
    requires Sound(s.shelf, s.sequence)
    requires StoreNext(s, step).shelf.auctions != s.shelf.auctions
    requires HasAuction(StoreNext(s, step).shelf, user, s.sequence)
    requires (step.Liquidate? || step.ForceExit? || step.FillPart?) && step.user == user
    ensures var n := StoreNext(s, step);
            && s.sequence + 45 * 17_280 <= n.shelf.auctions[user].until
            && (n.shelf.auctions[user].until == s.sequence + 46 * 17_280
                || (user in s.shelf.auctions && n.shelf.auctions[user].until == s.shelf.auctions[user].until))
            && (n.shelf.auctions[user].forced ==> HasExit(n.shelf, user, n.shelf.auctions[user].until))
  {
    hide Scaled, Fillable;
    StoreStepKeeps(s, step);
    assert Marked(StoreNext(s, step).shelf, user, s.sequence);
  }

  /** A forced exit ends in exactly these ways, and never by its target's own request. */
  lemma ForcedExitEnds(s: Shop, user: Address, step: StoreStep)
    requires Sound(s.shelf, s.sequence) && LiveExit(s, user)
    ensures LiveExit(StoreNext(s, step), user) <==> !Ends(s, user, step)
    ensures step.Withdraw? ==> !Ends(s, user, step)
  {
    hide StoreNext, Scaled;
    AuctionEnds(s, user, step);
  }

  predicate NeverEnds(s: Shop, user: Address, steps: seq<StoreStep>)
    decreases |steps|
  {
    steps == []
    || (LiveExit(s, user) && !Ends(s, user, steps[0]) && NeverEnds(StoreNext(s, steps[0]), user, steps[1..]))
  }

  /** Through any run that contains none of those endings, however it renews the auction by partial fills, the
      exit stays live and every request of its target to delete it is refused as unauthorized. */
  lemma {:induction false} ForcedExitStays(s: Shop, user: Address, healthy: bool, steps: seq<StoreStep>)
    requires Sound(s.shelf, s.sequence) && LiveExit(s, user) && NeverEnds(s, user, steps)
    ensures var r := StoreRun(s, steps);
            LiveExit(r, user) && DeleteLiquidation(r.shelf, user, healthy, r.sequence) == Failure(Unauthorized)
    decreases |steps|
  {
    hide StoreNext, Ends;
    if steps == [] {
      assert Marked(s.shelf, user, s.sequence);
    } else {
      StoreStepKeeps(s, steps[0]);
      ForcedExitEnds(s, user, steps[0]);
      ForcedExitStays(StoreNext(s, steps[0]), user, healthy, steps[1..]);
    }
  }
}
