/** What a tier owes each of its depositors at any moment, and exactly when and how an operation on the tier
    succeeds. A checkpoint by anyone, for anyone, changes nobody's entitlement. */
module TierOutcomes {
  import opened Numbers
  import opened UserBalances
  import opened PoolBalances
  import opened Streams
  import opened Tiers
  import opened TierLaws

  // The tier as of now.

  /** The index the stream has reached by `now`, whenever it was last checkpointed. */
  function PresentIndex(t: Tier, now: nat): int {
    match t.stream
    case None => 0
    case Some(d) => IndexBy(d, t.pool, now)
  }

  function IndexBy(d: EmissionData, b: PoolRecord, now: nat): int {
    if 0 < Active(b) && d.lastTime < StreamEnd(d, now) then
      d.index + (SCALAR_7 * Emitted(d, now) + d.indexCarry) / Active(b)
    else d.index
  }

  /** What the index has left undivided by `now`. */
  function PresentCarry(t: Tier, now: nat): int {
    match t.stream
    case None => 0
    case Some(d) => CarryBy(d, t.pool, now)
  }

  function CarryBy(d: EmissionData, b: PoolRecord, now: nat): int {
    if 0 < Active(b) && d.lastTime < StreamEnd(d, now) then
      SCALAR_7 * Emitted(d, now) + d.indexCarry - (IndexBy(d, b, now) - d.index) * Active(b)
    else d.indexCarry
  }

  /** 10^14 times what the depositor could claim by now: accrued, carried, and active shares times index growth. */
  function Entitled(t: Tier, user: Address, now: nat): int {
    Owed(DepositorOf(t, user).emission, DepositorOf(t, user).balance.shares, PresentIndex(t, now))
  }

  /** 10^7 times what has been streamed to nobody by now. */
  function Lost(t: Tier, now: nat): int {
    t.forfeited + if t.stream.Some? then Forfeited(t.stream.value, t.pool, now) else 0
  }

  /** 10^7 times what is still to be streamed after now. */
  function Remaining(t: Tier, now: nat): int {
    if t.stream.Some? then Scheduled(t.stream.value) - Emitted(t.stream.value, now) else 0
  }

  predicate Caught(t: Tier, now: nat) {
    t.stream.Some? ==> t.stream.value.lastTime == now
  }

  /** What every operation leaves as it was, but for a claim: the index, what was lost, and each depositor's
      entitlement, of which `user` is paid `paid` BLNT. */
  ghost predicate Fair(t: Tier, s: Tier, user: Address, paid: int, now: nat) {
    && PresentIndex(s, now) == PresentIndex(t, now) && PresentCarry(s, now) == PresentCarry(t, now)
    && Lost(s, now) == Lost(t, now) && s.claimed == t.claimed + paid
    && Entitled(s, user, now) + SCALAR_14 * paid == Entitled(t, user, now)
    && (forall u: Address :: u != user ==> Entitled(s, u, now) == Entitled(t, u, now))
  }

  /** And, but for a restart, what was streamed in and the schedule. */
  predicate SameSchedule(t: Tier, s: Tier, now: nat) {
    && s.funded == t.funded && Remaining(s, now) == Remaining(t, now) && s.stream.Some? == t.stream.Some?
    && (t.stream.Some? ==>
          s.stream.value.expiration == t.stream.value.expiration && s.stream.value.eps == t.stream.value.eps)
  }

  lemma FairTwice(t: Tier, s: Tier, r: Tier, user: Address, paid: int, more: int, now: nat)
    requires Fair(t, s, user, paid, now) && Fair(s, r, user, more, now)
    ensures Fair(t, r, user, paid + more, now)
  {
    hide PresentIndex, PresentCarry, Entitled, Lost;
  }

  lemma FairToAny(t: Tier, s: Tier, user: Address, other: Address, now: nat)
    requires Fair(t, s, user, 0, now)
    ensures Fair(t, s, other, 0, now)
  {
    hide PresentIndex, PresentCarry, Entitled, Lost;
  }

  lemma SameIsFair(t: Tier, user: Address, now: nat)
    ensures Fair(t, t, user, 0, now) && SameSchedule(t, t, now)
  {
    hide PresentIndex, PresentCarry, Entitled, Lost;
  }

  /** Once caught up, nothing more is released now, whatever the shares become. */
  lemma CaughtUp(t: Tier, now: nat)
    requires Caught(t, now) && t.stream.Some?
    ensures PresentIndex(t, now) == t.stream.value.index && PresentCarry(t, now) == t.stream.value.indexCarry
    ensures Lost(t, now) == t.forfeited
    ensures Remaining(t, now) == Scheduled(t.stream.value)
  {
    hide Scheduled;
  }

  // Checkpoints.

  /** The widths a checkpoint needs: the index as of now, and what the depositor has accrued by it. */
  predicate CheckpointFits(t: Tier, user: Address, now: nat) {
    var u := DepositorOf(t, user);
    t.stream.Some? ==>
      && PresentIndex(t, now) <= I128_MAX
      && u.emission.accrued
         + (u.balance.shares * (PresentIndex(t, now) - u.emission.index) + u.emission.carry) / SCALAR_14 <= I128_MAX
  }

  lemma StreamInv(t: Tier, now: nat, eligible: bool)
    requires TierInv(t, now, eligible)
    ensures ValidPool(t.pool)
    ensures t.stream.Some? ==>
              && eligible && ValidData(t.stream.value) && t.stream.value.lastTime <= now
              && t.stream.value.index <= I128_MAX
  {
  }

  /** Advancing a tier brings it to the present index, loses what nobody held shares for, and changes nothing
      else. It is refused exactly when the index leaves 128 bits. */
  lemma AdvanceTierExact(t: Tier, now: nat, eligible: bool)
    requires TierInv(t, now, eligible)
    ensures AdvanceTier(t, now).Failure? ==> AdvanceTier(t, now).error == Overflow
    ensures AdvanceTier(t, now).Success? <==> t.stream.None? || PresentIndex(t, now) <= I128_MAX
    ensures AdvanceTier(t, now).Success? ==>
              var a := AdvanceTier(t, now).value;
              && a == t.(stream := a.stream, forfeited := a.forfeited) && Caught(a, now) && a.forfeited == Lost(t, now)
              && SameSchedule(t, a, now)
              && (t.stream.Some? ==> a.stream.value.index == PresentIndex(t, now))
              && (forall u: Address :: Fair(t, a, u, 0, now))
  {
    hide Scheduled, Emitted, Advance, Owed, IndexBy, CarryBy;
    StreamInv(t, now, eligible);
    if t.stream.Some? {
      AdvanceBy(t.stream.value, t.pool, now);
      if AdvanceTier(t, now).Success? {
        CaughtUp(AdvanceTier(t, now).value, now);
      }
    }
  }

  lemma AdvanceBy(d: EmissionData, b: PoolRecord, now: nat)
    requires ValidData(d) && d.lastTime <= now && d.index <= I128_MAX && ValidPool(b)
    ensures var r := Advance(d, b, now);
            && (r.Failure? ==> r.error == Overflow) && (r.Success? <==> IndexBy(d, b, now) <= I128_MAX)
            && (r.Success? ==>
                  && r.value.lastTime == now && r.value.index == IndexBy(d, b, now)
                  && r.value.indexCarry == CarryBy(d, b, now)
                  && r.value.expiration == d.expiration && r.value.eps == d.eps
                  && Scheduled(r.value) == Scheduled(d) - Emitted(d, now))
  {
    hide Emitted, Scheduled, Advance, IndexBy, CarryBy;
    AdvanceExact(d, b, now);
    EmittedSpelledOut(d, now);
    EmittedLeavesSchedule(d, now);
    Growth(d, b, now);
    var r := Advance(d, b, now);
    if r.Success? {
      var a := r.value;
      IndexUnique(d, b, now, a.index, a.indexCarry);
      ScheduleIgnoresIndex(d.(scheduleCarry := a.scheduleCarry, lastTime := now), a.index, a.indexCarry);
    }
  }

  lemma Growth(d: EmissionData, b: PoolRecord, now: nat)
    ensures var runs := 0 < Active(b) && d.lastTime < StreamEnd(d, now);
            IndexBy(d, b, now)
            == d.index + if runs then (SCALAR_7 * Emitted(d, now) + d.indexCarry) / Active(b) else 0
  {
  }

  lemma IndexUnique(d: EmissionData, b: PoolRecord, now: nat, index: int, carry: int)
    requires if 0 < Active(b) && d.lastTime < StreamEnd(d, now) then
               && 0 <= carry < Active(b)
               && (index - d.index) * Active(b) + carry == SCALAR_7 * Emitted(d, now) + d.indexCarry
             else index == d.index && carry == d.indexCarry
    ensures index == IndexBy(d, b, now) && carry == CarryBy(d, b, now)
  {
    hide Emitted;
    if 0 < Active(b) && d.lastTime < StreamEnd(d, now) {
      DivUnique(SCALAR_7 * Emitted(d, now) + d.indexCarry, Active(b), index - d.index);
    }
  }

  /** A checkpoint catches the tier and the depositor up and is fair to everyone: it only moves the depositor's
      entitlement into whole BLNT and a carry below one. It is refused exactly for width. */
  lemma CheckpointExact(t: Tier, user: Address, now: nat, eligible: bool)
    requires TierInv(t, now, eligible)
    ensures Checkpoint(t, user, now).Failure? ==> Checkpoint(t, user, now).error == Overflow
    ensures Checkpoint(t, user, now).Success? <==> CheckpointFits(t, user, now)
    ensures Checkpoint(t, user, now).Success? ==>
              var c := Checkpoint(t, user, now).value;
              var m := DepositorOf(c, user).emission;
              && Caught(c, now) && SameSchedule(t, c, now) && Fair(t, c, user, 0, now)
              && c.stream.Some? == t.stream.Some?
              && c == t.(stream := c.stream, forfeited := c.forfeited, users := c.users) && c.forfeited == Lost(t, now)
              && (forall u: Address :: DepositorOf(c, u).balance == DepositorOf(t, u).balance)
              && (forall u: Address :: u != user ==> DepositorOf(c, u) == DepositorOf(t, u))
              && (t.stream.Some? ==>
                    && m.index == PresentIndex(t, now) == c.stream.value.index
                    && 0 <= m.carry < SCALAR_14 && SCALAR_14 * m.accrued + m.carry == Entitled(t, user, now))
  {
    hide TierInv, AdvanceTier, Accrue, PresentIndex, PresentCarry, Owed, Fair, Lost;
    AdvanceTierExact(t, now, eligible);
    SameIsFair(t, user, now);
    WithoutStream(t, now);
    if t.stream.Some? && AdvanceTier(t, now).Success? {
      var a := AdvanceTier(t, now).value;
      AdvanceKeeps(t, now, eligible);
      UserFacts(a, user, now, eligible);
      var u := DepositorOf(t, user);
      var index := a.stream.value.index;
      AccrueExact(u.emission, u.balance.shares, index);
      OwedSpelledOut(u.emission, u.balance.shares, index);
      var m := Accrue(u.emission, u.balance.shares, index);
      if m.Success? {
        var c := a.(users := a.users[user := u.(emission := m.value)]);
        OwedSpelledOut(m.value, u.balance.shares, index);
        CaughtUp(a, now);
        CaughtUp(c, now);
        AccruedFair(a, c, user, now);
        assert Fair(t, a, user, 0, now);
        FairTwice(t, a, c, user, 0, 0, now);
      }
    }
  }

  lemma WithoutStream(t: Tier, now: nat)
    ensures t.stream.None? ==> Lost(t, now) == t.forfeited
  {
  }

  lemma OwedSpelledOut(u: UserEmission, shares: int, index: int)
    ensures Owed(u, shares, index) == SCALAR_14 * u.accrued + u.carry + shares * (index - u.index)
  {
  }

  /** Only one depositor's record changed on a tier that is caught up. */
  lemma AccruedFair(a: Tier, c: Tier, user: Address, now: nat)
    requires Caught(a, now) && a.stream.Some? && c.stream == a.stream && c.forfeited == a.forfeited
    requires c.claimed == a.claimed
    requires forall u: Address :: u != user ==> DepositorOf(c, u) == DepositorOf(a, u)
    requires var x, y, index := DepositorOf(a, user), DepositorOf(c, user), a.stream.value.index;
             Owed(y.emission, y.balance.shares, index) == Owed(x.emission, x.balance.shares, index)
    ensures Fair(a, c, user, 0, now)
  {
    hide Owed, PresentIndex, PresentCarry, Lost;
    CaughtUp(a, now);
    CaughtUp(c, now);
  }

  lemma CheckpointIfExact(t: Tier, user: Address, now: nat, eligible: bool)
    requires TierInv(t, now, eligible)
    ensures CheckpointIf(t, eligible, user, now).Failure? ==> CheckpointIf(t, eligible, user, now).error == Overflow
    ensures CheckpointIf(t, eligible, user, now).Success? <==> CheckpointFits(t, user, now)
    ensures CheckpointIf(t, eligible, user, now).Success? ==>
              var c := CheckpointIf(t, eligible, user, now).value;
              && Caught(c, now) && SameSchedule(t, c, now) && Fair(t, c, user, 0, now) && Synced(c, user)
              && c == t.(stream := c.stream, forfeited := c.forfeited, users := c.users)
              && (forall u: Address :: DepositorOf(c, u).balance == DepositorOf(t, u).balance)
  {
    hide TierInv, Checkpoint, Fair, SameSchedule, PresentIndex, Entitled;
    CheckpointExact(t, user, now, eligible);
    SameIsFair(t, user, now);
    StreamInv(t, now, eligible);
  }

  /** Changing a caught-up, synchronised depositor's balance and the pool totals is fair. */
  lemma BalanceFair(c: Tier, s: Tier, user: Address, now: nat)
    requires Caught(c, now) && Synced(c, user) && s == c.(pool := s.pool, users := s.users)
    requires forall u: Address :: u != user ==> DepositorOf(s, u) == DepositorOf(c, u)
    requires DepositorOf(s, user).emission == DepositorOf(c, user).emission
    requires c.stream.None? ==> forall u: Address :: DepositorOf(c, u).emission == EMPTY_EMISSION
    ensures Fair(c, s, user, 0, now) && SameSchedule(c, s, now)
  {
    hide Scheduled, Emitted;
    if c.stream.Some? {
      CaughtUp(c, now);
      CaughtUp(s, now);
    }
    forall u: Address ensures Entitled(s, u, now) == Entitled(c, u, now) {
      EarnedFacts(DepositorOf(c, u).balance.shares, 0, 0, 0);
      EarnedFacts(DepositorOf(s, u).balance.shares, 0, 0, 0);
      EarnedByMoreShares(DepositorOf(c, u).balance.shares, DepositorOf(s, u).balance.shares,
        DepositorOf(c, u).emission.index);
    }
  }

  lemma NoStreamNoEmission(t: Tier, now: nat, eligible: bool)
    requires TierInv(t, now, eligible)
    ensures t.stream.None? ==> forall u: Address :: DepositorOf(t, u).emission == EMPTY_EMISSION
  {
  }

  /** The common tail of the balance operations: a checkpoint, then new balances. */
  lemma CheckpointedFair(t: Tier, s: Tier, user: Address, now: nat, eligible: bool)
    requires TierInv(t, now, eligible) && CheckpointIf(t, eligible, user, now).Success?
    requires var c := CheckpointIf(t, eligible, user, now).value;
             s == SetBalance(c.(pool := s.pool), user, DepositorOf(s, user).balance)
    ensures Fair(t, s, user, 0, now) && SameSchedule(t, s, now)
  {
    hide TierInv, CheckpointIf, Fair, SameSchedule;
    CheckpointIfExact(t, user, now, eligible);
    CheckpointIfKeeps(t, user, now, eligible);
    var c := CheckpointIf(t, eligible, user, now).value;
    NoStreamNoEmission(c, now, eligible);
    BalanceFair(c, s, user, now);
    FairTwice(t, c, s, user, 0, 0, now);
    SameScheduleTwice(t, c, s, now);
  }

  lemma SameScheduleTwice(t: Tier, s: Tier, r: Tier, now: nat)
    requires SameSchedule(t, s, now) && SameSchedule(s, r, now)
    ensures SameSchedule(t, r, now)
  {
    hide Remaining;
  }

  // The balance operations: when each is refused, and that each is fair to everyone.

  /** Shares for tokens: one for one into an empty tier, otherwise the floor of their proportion. */
  function MintFor(p: PoolRecord, amount: int): int {
    if p.shares == 0 then amount else if p.tokens == 0 then 0 else amount * p.shares / p.tokens
  }

  function CreditRefusal(t: Tier, user: Address, amount: int): Option<Error> {
    var p, minted := t.pool, MintFor(t.pool, amount);
    if WideMint(p, amount) then Some(Trap)
    else if minted <= 0 then Some(InvalidShareMintAmount)
    else if p.tokens + amount > I128_MAX || p.shares + minted > I128_MAX then Some(Trap)
    else None
  }

  lemma CreditExact(t: Tier, user: Address, amount: int, now: nat, eligible: bool)
    requires TierInv(t, now, eligible) && 0 <= amount
    ensures match CreditRefusal(t, user, amount)
            case Some(x) => CreditShares(t, user, amount) == Failure(x)
            case None =>
              var minted := MintFor(t.pool, amount);
              var u := DepositorOf(t, user).balance;
              CreditShares(t, user, amount) ==
              Success((SetBalance(t.(pool := PoolRecord(t.pool.shares + minted, t.pool.tokens + amount, t.pool.q4w)),
                                  user, u.(shares := u.shares + minted)),
                       minted))
  {
    hide TierInv, SetBalance, ConvertToShares, MintFor, WideMint, Queued, Amounts, Sorted, ExpiresBy;
    UserWithinPool(t, user, now, eligible);
    MintExact(t.pool, amount);
  }

  predicate WideMint(p: PoolRecord, amount: int) {
    0 < p.shares && 0 < p.tokens && !FitsI128(amount * p.shares)
  }

  lemma MintExact(p: PoolRecord, amount: int)
    requires ValidPool(p) && 0 <= amount
    ensures ConvertToShares(p, amount) == if WideMint(p, amount) then Failure(Trap) else Success(MintFor(p, amount))
    ensures 0 <= MintFor(p, amount)
  {
    hide ConvertToShares;
    SharesExact(p, amount);
    if 0 < p.shares && 0 < p.tokens {
      MulNonNegative(amount, p.shares);
      DivMonotone(0, amount * p.shares, p.tokens);
      if ConvertToShares(p, amount).Success? {
        DivUnique(amount * p.shares, p.tokens, ConvertToShares(p, amount).value);
      }
    }
  }

  function DepositRefusal(t: Tier, gate: Result<bool>, user: Address, amount: int, now: nat): Option<Error> {
    if gate.Failure? then Some(gate.error)
    else if !CheckpointFits(t, user, now) then Some(Overflow)
    else CreditRefusal(t, user, amount)
  }

  lemma DepositExact(t: Tier, gate: Result<bool>, user: Address, amount: int, now: nat, eligible: bool)
    requires TierInv(t, now, eligible) && 0 <= amount && (gate.Success? ==> gate.value == eligible)
    ensures var r, refusal := Tiers.Deposit(t, gate, user, amount, now), DepositRefusal(t, gate, user, amount, now);
            if r.Failure? then refusal == Some(r.error)
            else
              && refusal.None? && gate.Success? && r.value.1 == MintFor(t.pool, amount)
              && Fair(t, r.value.0, user, 0, now) && SameSchedule(t, r.value.0, now)
  {
    hide TierInv, CheckpointIf, CreditShares, CheckpointFits, Fair, SameSchedule, MintFor;
    if gate.Success? {
      CheckpointIfExact(t, user, now, eligible);
      CheckpointIfKeeps(t, user, now, eligible);
      var c := CheckpointIf(t, eligible, user, now);
      if c.Success? {
        CreditExact(c.value, user, amount, now, eligible);
        var r := CreditShares(c.value, user, amount);
        if r.Success? {
          CheckpointedFair(t, r.value.0, user, now, eligible);
        }
      }
    }
  }

  function QueueRefusal(t: Tier, gate: Result<bool>, user: Address, amount: int, now: nat): Option<Error> {
    var u := DepositorOf(t, user).balance;
    if u.shares < amount then Some(BalanceError)
    else if 20 <= |u.q4w| then Some(TooManyQ4WEntries)
    else if now + 17 * 86_400 > U64_MAX then Some(Trap)
    else if gate.Failure? then Some(gate.error)
    else if !CheckpointFits(t, user, now) then Some(Overflow)
    else None
  }

  lemma QueueExact(t: Tier, gate: Result<bool>, user: Address, amount: int, now: nat, eligible: bool)
    requires TierInv(t, now, eligible) && 0 <= amount && (gate.Success? ==> gate.value == eligible)
    ensures var r, refusal := Tiers.Queue(t, gate, user, amount, now), QueueRefusal(t, gate, user, amount, now);
            if r.Failure? then refusal == Some(r.error)
            else refusal.None? && gate.Success? && Fair(t, r.value, user, 0, now) && SameSchedule(t, r.value, now)
  {
    hide TierInv, CheckpointIf, CheckpointFits, Fair, SameSchedule, SetBalance;
    UserWithinPool(t, user, now, eligible);
    if gate.Success? {
      CheckpointIfExact(t, user, now, eligible);
      var r := Tiers.Queue(t, gate, user, amount, now);
      if r.Success? {
        BalanceSet(CheckpointIf(t, eligible, user, now).value, QueueForWithdraw(t.pool, amount).value, user,
          QueueShares(DepositorOf(t, user).balance, amount, now).value);
        CheckpointedFair(t, r.value, user, now, eligible);
      }
    }
  }

  lemma BalanceSet(c: Tier, pool: PoolRecord, user: Address, balance: UserRecord)
    ensures var s := SetBalance(c.(pool := pool), user, balance);
            s == SetBalance(c.(pool := s.pool), user, DepositorOf(s, user).balance)
  {
  }

  function DequeueRefusal(t: Tier, gate: Result<bool>, user: Address, amount: int, now: nat): Option<Error> {
    if Queued(DepositorOf(t, user).balance.q4w) < amount then Some(BalanceError)
    else if gate.Failure? then Some(gate.error)
    else if !CheckpointFits(t, user, now) then Some(Overflow)
    else None
  }

  lemma DequeueExact(t: Tier, gate: Result<bool>, user: Address, amount: int, now: nat, eligible: bool)
    requires TierInv(t, now, eligible) && 0 <= amount && (gate.Success? ==> gate.value == eligible)
    ensures var r, refusal := Tiers.Dequeue(t, gate, user, amount, now), DequeueRefusal(t, gate, user, amount, now);
            if r.Failure? then refusal == Some(r.error)
            else refusal.None? && gate.Success? && Fair(t, r.value, user, 0, now) && SameSchedule(t, r.value, now)
  {
    hide TierInv, CheckpointIf, CheckpointFits, Fair, SameSchedule, SetBalance, Queued, DequeueQueue, Units;
    UserWithinPool(t, user, now, eligible);
    DequeueTakesLatest(DepositorOf(t, user).balance.q4w, amount);
    if gate.Success? {
      CheckpointIfExact(t, user, now, eligible);
      var r := Tiers.Dequeue(t, gate, user, amount, now);
      if r.Success? {
        var u := DepositorOf(t, user).balance;
        BalanceSet(CheckpointIf(t, eligible, user, now).value, DequeueQ4w(t.pool, amount).value, user,
          UserRecord(u.shares + amount, DequeueQueue(u.q4w, amount).value));
        CheckpointedFair(t, r.value, user, now, eligible);
      }
    }
  }

  /** What `amount` queued shares pay. */
  function PaysFor(p: PoolRecord, amount: int): int {
    if p.shares == 0 then 0 else amount * p.tokens / p.shares
  }

  /** The refusals of a withdrawal, in order: the queue does not cover it; its value is too wide a product, unless
      it takes every share; it is worth nothing while the tier holds something; the gate; the checkpoint. */
  function WithdrawRefusal(t: Tier, gate: Result<bool>, user: Address, amount: int, now: nat): Option<Error> {
    var q, p := DepositorOf(t, user).balance.q4w, t.pool;
    if !(if amount == 0 then q == [] || q[0].exp <= now else amount <= Matured(q, now)) then
      Some(if q != [] && q[|q| - 1].exp > now then NotExpired else BalanceError)
    else if amount < p.shares && !FitsI128(amount * p.tokens) then Some(Trap)
    else if WorthLess(p, amount) then Some(InvalidTokenWithdrawAmount)
    else if gate.Failure? then Some(gate.error)
    else if !CheckpointFits(t, user, now) then Some(Overflow)
    else None
  }

  lemma WithdrawExact(t: Tier, gate: Result<bool>, user: Address, amount: int, now: nat, eligible: bool)
    requires TierInv(t, now, eligible) && 0 <= amount && (gate.Success? ==> gate.value == eligible)
    ensures var r, refusal := Tiers.Withdraw(t, gate, user, amount, now), WithdrawRefusal(t, gate, user, amount, now);
            if r.Failure? then refusal == Some(r.error)
            else
              && refusal.None? && gate.Success? && r.value.1 == PaysFor(t.pool, amount)
              && Fair(t, r.value.0, user, 0, now) && SameSchedule(t, r.value.0, now)
  {
    hide TierInv, CheckpointIf, CheckpointFits, Fair, SameSchedule, SetBalance, Queued, WithdrawQueue, Units, Matured,
         ConvertToTokens, PriceHolds;
    UserWithinPool(t, user, now, eligible);
    var q := DepositorOf(t, user).balance.q4w;
    WithdrawSucceedsIff(q, amount, now);
    if WithdrawQueue(q, amount, now).Success? {
      WithdrawTakesEarliest(q, amount, now);
      UnitsCount(q);
      UnitsCount(WithdrawQueue(q, amount, now).value);
      TokensExact(t.pool, amount);
      if ConvertToTokens(t.pool, amount).Success? {
        WorthLessExact(t.pool, amount);
      }
    }
    if gate.Success? {
      CheckpointIfExact(t, user, now, eligible);
      var r := Tiers.Withdraw(t, gate, user, amount, now);
      if r.Success? {
        var u := DepositorOf(t, user).balance;
        BalanceSet(CheckpointIf(t, eligible, user, now).value,
          PoolBalances.Withdraw(t.pool, r.value.1, amount).value, user, u.(q4w := WithdrawQueue(q, amount, now).value));
        CheckpointedFair(t, r.value.0, user, now, eligible);
      }
    }
  }

  lemma DrawExact(t: Tier, amount: int, now: nat, eligible: bool)
    requires TierInv(t, now, eligible) && 0 <= amount
    ensures var r := Tiers.Draw(t, amount);
            if r.Failure? then r.error == InsufficientFunds && t.pool.tokens < amount
            else
              && amount <= t.pool.tokens
              && forall u: Address :: Fair(t, r.value, u, 0, now) && SameSchedule(t, r.value, now)
  {
    hide Fair, SameSchedule;
    DrawKeeps(t, amount, now, eligible);
    TokensFair(t, t.pool.tokens - amount, now);
  }

  lemma TokensFair(t: Tier, tokens: int, now: nat)
    ensures var s := t.(pool := t.pool.(tokens := tokens));
            SameSchedule(t, s, now) && forall u: Address :: Fair(t, s, u, 0, now)
  {
    hide Scheduled, Emitted, Owed;
    var s := t.(pool := t.pool.(tokens := tokens));
    assert PresentIndex(s, now) == PresentIndex(t, now) && PresentCarry(s, now) == PresentCarry(t, now);
    assert Lost(s, now) == Lost(t, now);
    assert forall u: Address :: DepositorOf(s, u) == DepositorOf(t, u);
  }

  lemma DonateExact(t: Tier, amount: int, now: nat, eligible: bool)
    requires TierInv(t, now, eligible) && 0 <= amount
    ensures var r := Tiers.Donate(t, amount);
            if r.Failure? then r.error == Trap && I128_MAX < t.pool.tokens + amount
            else
              && t.pool.tokens + amount <= I128_MAX
              && forall u: Address :: Fair(t, r.value, u, 0, now) && SameSchedule(t, r.value, now)
  {
    hide Fair, SameSchedule;
    DonateKeeps(t, amount, now, eligible);
    TokensFair(t, t.pool.tokens + amount, now);
  }

  // Claims and restarts.

  /** A claim pays exactly the whole BLNT the depositor is entitled to by now, and costs nobody else anything. */
  lemma ClaimExact(t: Tier, user: Address, now: nat, eligible: bool)
    requires TierInv(t, now, eligible)
    ensures ClaimAccrued(t, user, now).Failure? ==> ClaimAccrued(t, user, now).error == Overflow
    ensures ClaimAccrued(t, user, now).Success? <==> CheckpointFits(t, user, now)
    ensures ClaimAccrued(t, user, now).Success? ==>
              var (s, claim) := ClaimAccrued(t, user, now).value;
              && claim == Entitled(t, user, now) / SCALAR_14 && 0 <= claim
              && Fair(t, s, user, claim, now) && SameSchedule(t, s, now) && Caught(s, now)
  {
    hide TierInv, Checkpoint, Fair, SameSchedule, PresentIndex, Owed, CheckpointFits;
    CheckpointExact(t, user, now, eligible);
    CheckpointKeeps(t, user, now, eligible);
    if Checkpoint(t, user, now).Success? {
      var c := Checkpoint(t, user, now).value;
      var m := DepositorOf(c, user).emission;
      UserFacts(c, user, now, eligible);
      var (s, claim) := ClaimAccrued(t, user, now).value;
      if t.stream.Some? {
        DivUnique(Entitled(t, user, now), SCALAR_14, m.accrued);
      } else {
        NoStreamNoEmission(t, now, eligible);
        NothingYet(t, user, now);
        NoStreamNoEmission(c, now, eligible);
      }
      PaidFair(c, s, user, claim, now);
      FairTwice(t, c, s, user, 0, claim, now);
      SameScheduleTwice(t, c, s, now);
    }
  }

  lemma NothingYet(t: Tier, user: Address, now: nat)
    requires t.stream.None? && DepositorOf(t, user).emission == EMPTY_EMISSION
    ensures Entitled(t, user, now) == 0
  {
    EarnedFacts(DepositorOf(t, user).balance.shares, 0, 0, 0);
  }

  /** Taking accrued BLNT out of a record, or leaving the tier as it is. */
  lemma PaidFair(c: Tier, s: Tier, user: Address, paid: int, now: nat)
    requires s == c.(users := s.users, claimed := c.claimed + paid)
    requires forall u: Address :: u != user ==> DepositorOf(s, u) == DepositorOf(c, u)
    requires var m := DepositorOf(c, user).emission;
             DepositorOf(s, user) == DepositorOf(c, user).(emission := m.(accrued := m.accrued - paid))
    ensures Fair(c, s, user, paid, now) && SameSchedule(c, s, now)
  {
    hide Scheduled, Emitted;
  }

  /** Starting the next seven days: refused exactly for the width of the index, of the rate or of the end. All that
      was unstreamed and all that was pending is streamed evenly; nobody's entitlement changes. */
  lemma RestartExact(t: Tier, pending: int, now: nat)
    requires TierInv(t, now, true) && 0 < pending
    ensures var r := SetEmissionRate(t, pending, now);
            && (r.Failure? ==> r.error == Overflow)
            && (r.Success? <==>
                  && (t.stream.None? || PresentIndex(t, now) <= I128_MAX)
                  && (SCALAR_7 * pending + Remaining(t, now)) / 604_800 <= U64_MAX && now + 604_800 <= U64_MAX)
            && (r.Success? ==>
                  var s := r.value;
                  && s == t.(stream := s.stream, forfeited := s.forfeited, funded := t.funded + pending)
                  && s.stream.Some? && Caught(s, now) && s.stream.value.expiration == now + 604_800
                  && s.stream.value.eps * 604_800 + s.stream.value.scheduleCarry
                     == SCALAR_7 * pending + Remaining(t, now)
                  && 0 <= s.stream.value.scheduleCarry < 604_800
                  && (forall u: Address :: Fair(t, s, u, 0, now)))
  {
    hide TierInv, AdvanceTier, Restream, Fair, PresentIndex, Lost, Emitted;
    AdvanceTierExact(t, now, true);
    if AdvanceTier(t, now).Success? {
      var a := AdvanceTier(t, now).value;
      AdvanceKeeps(t, now, true);
      StreamInv(a, now, true);
      RestreamExact(a.stream, pending, now);
      NothingLeft(a, t, now);
      var d := Restream(a.stream, pending, now);
      if d.Success? {
        var s := a.(stream := Some(d.value), funded := a.funded + pending);
        NoStreamNoEmission(a, now, true);
        forall u: Address ensures Fair(t, s, u, 0, now) {
          RestartFair(a, s, u, now);
          assert Fair(t, a, u, 0, now);
          FairTwice(t, a, s, u, 0, 0, now);
        }
      }
    }
  }

  lemma NothingLeft(a: Tier, t: Tier, now: nat)
    requires Caught(a, now) && Remaining(a, now) == Remaining(t, now)
    ensures Remaining(t, now)
            == match a.stream
               case None => 0
               case Some(d) => (if d.expiration > now then (d.expiration - now) * d.eps else 0) + d.scheduleCarry
  {
    if a.stream.Some? {
      CaughtUp(a, now);
    }
  }

  lemma RestartFair(a: Tier, s: Tier, user: Address, now: nat)
    requires Caught(a, now) && Caught(s, now) && s.stream.Some? && s.forfeited == a.forfeited && s.users == a.users
    requires s.pool == a.pool && s.claimed == a.claimed
    requires match a.stream
             case None =>
               && s.stream.value.index == 0 == s.stream.value.indexCarry
               && forall u: Address :: DepositorOf(a, u).emission == EMPTY_EMISSION
             case Some(d) => s.stream.value.index == d.index && s.stream.value.indexCarry == d.indexCarry
    ensures Fair(a, s, user, 0, now)
  {
    hide Scheduled, Emitted, Owed;
    CaughtUp(s, now);
    if a.stream.Some? {
      CaughtUp(a, now);
    }
  }
}
