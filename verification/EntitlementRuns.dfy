/** Depositors' emissions over whole runs: nobody's call moves anybody else's entitlement, time alone raises it, and
    what a depositor claims plus what it can still claim is what its shares earned. */
module EntitlementRuns {
  import opened Numbers
  import Tiers
  import Streams
  import opened TierLaws
  import opened TierOutcomes
  import EmitterLaws
  import opened Backstops
  import opened BookLaws
  import opened DistributionLaws
  import opened MigrationLaws
  import opened ContractLaws
  import opened Outcomes
  import opened GulpOutcomes
  import opened ClaimOutcomes
  import ShareLaws
  import opened Systems
  import opened SystemLaws
  import PoolBalances

  // One step.

  /** What a step pays the depositor out of the tier: all that is due, when it claims there. */
  function PaidBy(s: System, c: Deployment, step: Step, key: TierKey, user: Address): int {
    if step.Call? && step.call.DoClaim? && Next(s, c, step).Success?
       && step.call.user == user && step.call.tier == key.tier && key.pool in step.call.pools
    then ClaimDue(s.book, key, user, s.now) else 0
  }

  /** What a step streams into the tier: its LP's pending BLNT, when its pool gulps. */
  function StreamedBy(s: System, c: Deployment, step: Step, key: TierKey): int {
    if step.Call? && step.call.DoGulp? && Next(s, c, step).Success? then GulpTo(s.book, c, step.call.pool, key) else 0
  }

  /** A tier before and after something happened at `now`: same index and carry, same loss, the schedule longer by what
      was streamed in, the depositor's entitlement lower by what it was paid. */
  predicate Even(t: Tiers.Tier, s: Tiers.Tier, user: Address, paid: int, streamed: int, now: nat) {
    && PresentIndex(s, now) == PresentIndex(t, now) && PresentCarry(s, now) == PresentCarry(t, now)
    && Lost(s, now) == Lost(t, now)
    && s.funded == t.funded + streamed && Remaining(s, now) == Remaining(t, now) + SCALAR_7 * streamed
    && Entitled(s, user, now) + SCALAR_14 * paid == Entitled(t, user, now)
  }

  lemma FairIsEven(t: Tiers.Tier, s: Tiers.Tier, user: Address, paid: int, now: nat)
    requires Fair(t, s, user, paid, now) && SameSchedule(t, s, now)
    ensures Even(t, s, user, paid, 0, now)
  {
    hide PresentIndex, PresentCarry, Lost, Remaining, Entitled;
  }

  lemma OthersEven(t: Tiers.Tier, s: Tiers.Tier, claimant: Address, paid: int, user: Address, now: nat)
    requires Fair(t, s, claimant, paid, now) && SameSchedule(t, s, now) && user != claimant
    ensures Even(t, s, user, 0, 0, now)
  {
    hide PresentIndex, PresentCarry, Lost, Remaining, Entitled;
  }

  lemma SameIsEven(t: Tiers.Tier, user: Address, now: nat)
    ensures Even(t, t, user, 0, 0, now)
  {
    hide PresentIndex, PresentCarry, Lost, Remaining, Entitled;
  }

  lemma RestartedIsEven(t: Tiers.Tier, s: Tiers.Tier, user: Address, pending: int, now: nat)
    requires Restarted(t, s, pending, now)
    ensures Even(t, s, user, 0, pending, now)
  {
    hide PresentIndex, PresentCarry, Lost, Entitled;
    if pending == 0 {
      SameIsEven(t, user, now);
    } else {
      assert Fair(t, s, user, 0, now);
      FreshRemaining(s, now);
    }
  }

  lemma FreshRemaining(s: Tiers.Tier, now: nat)
    requires s.stream.Some? && s.stream.value.lastTime == now && s.stream.value.expiration == now + 604_800
    ensures Remaining(s, now) == s.stream.value.eps * 604_800 + s.stream.value.scheduleCarry
  {
  }

  lemma BookEven(b: Book, n: Book, key: TierKey, user: Address, now: nat)
    requires FairBook(b, n, now)
    ensures Even(TierOf(b, key), TierOf(n, key), user, 0, 0, now)
  {
    hide Fair, SameSchedule, Even;
    assert FairAt(b, n, key, user, now);
    FairIsEven(TierOf(b, key), TierOf(n, key), user, 0, now);
  }

  predicate MovesShares(call: BackstopCall) {
    call.DoDeposit? || call.DoQueue? || call.DoDequeue? || call.DoWithdraw? || call.DoForceQueue?
    || call.DoForceWithdraw? || call.DoDraw? || call.DoDonate?
  }

  lemma ShareCallFair(s: System, c: Deployment, call: BackstopCall)
    requires SystemInv(s, c) && MovesShares(call) && AfterLocal(s, c, call).Success?
    ensures FairBook(s.book, AfterLocal(s, c, call).value, s.now)
  {
    hide BookInv, EmitterLaws.EmitterInv, Lifecycle, Attested, Deployed, Deposit, QueueWithdrawal, DequeueWithdrawal,
         WithdrawMatured, ForceQueue, ForceWithdraw, Draw, Donate, FairBook, Outcomes.DepositRefusal,
         Outcomes.QueueRefusal, Outcomes.DequeueRefusal, Outcomes.WithdrawRefusal, DrawRefusal, DonateRefusal;
    var b, e, now := s.book, s.emitter, s.now;
    match call
    case DoDeposit(key, user, amount) => DepositOutcome(b, c, e, key, user, amount, now);
    case DoQueue(key, user, amount) => QueueOutcome(b, c, e, key, user, amount, now);
    case DoDequeue(key, user, amount) => DequeueOutcome(b, c, e, key, user, amount, now);
    case DoWithdraw(key, user, amount, liabilities) => WithdrawOutcome(b, c, e, key, user, amount, liabilities, now);
    case DoForceQueue(key, user) => ForceQueueOutcome(b, c, e, key, user, now);
    case DoForceWithdraw(key, user, liabilities) => ForceWithdrawOutcome(b, c, e, key, user, liabilities, now);
    case DoDraw(key, amount) => DrawOutcome(b, c, e, key, amount, now);
    case DoDonate(key, from, amount) => DonateOutcome(b, c, e, key, from, amount, now);
  }

  lemma GulpEven(s: System, c: Deployment, pool: Address, grant: Grant, key: TierKey, user: Address)
    requires SystemInv(s, c) && Gulp(s.book, c, pool, grant, s.now).Success?
    ensures Even(TierOf(s.book, key), TierOf(Gulp(s.book, c, pool, grant, s.now).value.0, key), user, 0,
                 GulpTo(s.book, c, pool, key), s.now)
  {
    hide BookInv, EmitterLaws.EmitterInv, Lifecycle, Attested, Deployed, Gulp, RatesFit, Restarted, Even, TierHolds;
    GulpOutcome(s.book, c, pool, grant, s.now);
    var n := Gulp(s.book, c, pool, grant, s.now).value.0;
    if n == s.book {
      SameIsEven(TierOf(s.book, key), user, s.now);
    } else {
      assert Restarted(TierOf(s.book, key), TierOf(n, key), GulpTo(s.book, c, pool, key), s.now);
      RestartedIsEven(TierOf(s.book, key), TierOf(n, key), user, GulpTo(s.book, c, pool, key), s.now);
    }
  }

  lemma ClaimSettles(s: System, c: Deployment, tier: nat, u: Address, pools: seq<Address>, minLp: int, trade: Exchange)
    requires SystemInv(s, c) && Claim(s.book, c, s.emitter, tier, u, pools, minLp, trade, s.now).Success?
    ensures exists amounts: seq<int> ::
              |amounts| == |pools|
              && Settled(s.book, Claim(s.book, c, s.emitter, tier, u, pools, minLp, trade, s.now).value.0, tier, u,
                         pools, ClaimsDue(s.book, tier, u, pools, s.now), amounts, s.now)
  {
    hide BookInv, EmitterLaws.EmitterInv, Lifecycle, Attested, Deployed, Claim, Settled, EntryRefusal, LoopRefusal,
         CreditsRefusal;
    ClaimOutcome(s.book, c, s.emitter, tier, u, pools, minLp, trade, s.now);
  }

  lemma ClaimEven(s: System, c: Deployment, tier: nat, u: Address, pools: seq<Address>, minLp: int, trade: Exchange,
                  key: TierKey, user: Address)
    requires SystemInv(s, c) && Claim(s.book, c, s.emitter, tier, u, pools, minLp, trade, s.now).Success?
    ensures var n := Claim(s.book, c, s.emitter, tier, u, pools, minLp, trade, s.now).value.0;
            Even(TierOf(s.book, key), TierOf(n, key), user,
                 if u == user && tier == key.tier && key.pool in pools then ClaimDue(s.book, key, user, s.now) else 0,
                 0, s.now)
  {
    hide SystemInv, Claim, Even, Fair, SameSchedule, TierOf, ClaimDue;
    ClaimSettles(s, c, tier, u, pools, minLp, trade);
    var n := Claim(s.book, c, s.emitter, tier, u, pools, minLp, trade, s.now).value.0;
    var due := ClaimsDue(s.book, tier, u, pools, s.now);
    var amounts: seq<int> :| |amounts| == |pools| && Settled(s.book, n, tier, u, pools, due, amounts, s.now);
    var t, after := TierOf(s.book, key), TierOf(n, key);
    if tier == key.tier && key.pool in pools {
      var j :| 0 <= j < |pools| && pools[j] == key.pool;
      assert TierKey(pools[j], tier) == key;
      assert Compounded(t, after, u, due[j], amounts[j], s.now);
      if u == user {
        FairIsEven(t, after, user, due[j], s.now);
      } else {
        OthersEven(t, after, u, due[j], user, s.now);
      }
    } else {
      assert after == t;
      SameIsEven(t, user, s.now);
    }
  }

  /** At one moment, whatever anyone does, the tier's index and loss stand still, its schedule grows only by what a gulp
      streams into it, and the depositor's entitlement falls only by what its own claim pays it. */
  lemma StepEven(s: System, c: Deployment, step: Step, key: TierKey, user: Address)
    requires SystemInv(s, c) && !step.Wait?
    ensures Even(TierOf(s.book, key), TierOf(Apply(s, c, step).book, key), user, PaidBy(s, c, step, key, user),
                 StreamedBy(s, c, step, key), s.now)
  {
    hide SystemInv, AfterLocal, AfterEmitter, Backstops.Distribute, Backstops.Drop, Even, ClaimDue, GulpTo;
    SameIsEven(TierOf(s.book, key), user, s.now);
    var n := Apply(s, c, step);
    if step.Call? && Next(s, c, step).Success? {
      var call := step.call;
      if MovesShares(call) {
        ShareCallFair(s, c, call);
        BookEven(s.book, n.book, key, user, s.now);
      } else if call.DoGulp? {
        LocalIsGulp(s, c, call);
        GulpEven(s, c, call.pool, call.grant, key, user);
      } else if call.DoClaim? {
        LocalIsClaim(s, c, call);
        ClaimEven(s, c, call.tier, call.user, call.pools, call.minLp, call.trade, key, user);
      } else {
        TiersStay(s, c, call);
        assert TierOf(n.book, key) == TierOf(s.book, key);
      }
    }
  }

  lemma LocalIsGulp(s: System, c: Deployment, call: BackstopCall)
    requires call.DoGulp? && AfterLocal(s, c, call).Success?
    ensures Gulp(s.book, c, call.pool, call.grant, s.now).Success?
    ensures AfterLocal(s, c, call).value == Gulp(s.book, c, call.pool, call.grant, s.now).value.0
  {
    hide Gulp;
  }

  lemma LocalIsClaim(s: System, c: Deployment, call: BackstopCall)
    requires call.DoClaim? && AfterLocal(s, c, call).Success?
    ensures Claim(s.book, c, s.emitter, call.tier, call.user, call.pools, call.minLp, call.trade, s.now).Success?
    ensures AfterLocal(s, c, call).value
            == Claim(s.book, c, s.emitter, call.tier, call.user, call.pools, call.minLp, call.trade, s.now).value.0
  {
    hide Claim;
  }

  lemma TiersStay(s: System, c: Deployment, call: BackstopCall)
    requires SystemInv(s, c) && Next(s, c, Call(call)).Success?
    requires call.DoDistribute? || call.DoDrop? || call.DoAddReward? || call.DoRemoveReward?
    ensures Next(s, c, Call(call)).value.book.tiers == s.book.tiers
  {
    hide Inv, Backstops.Distribute, Backstops.Drop, AddReward, RemoveReward;
    if call.DoDistribute? {
      DistributeStep(s, c, call.comet);
    } else if call.DoDrop? {
      DropKeepsAll(s.book, c, s.emitter, s.now);
    } else {
      ZoneKeepsTiers(s, c, call);
    }
  }

  lemma ZoneKeepsTiers(s: System, c: Deployment, call: BackstopCall)
    requires SystemInv(s, c) && (call.DoAddReward? || call.DoRemoveReward?) && AfterLocal(s, c, call).Success?
    ensures AfterLocal(s, c, call).value.tiers == s.book.tiers
  {
    hide BookInv, EmitterLaws.EmitterInv, Lifecycle, Attested, Deployed, AddReward, RemoveReward, PoolWeight;
    if call.DoAddReward? {
      AddRewardKeeps(s.book, c, s.emitter, call.pool, call.replaced, call.comet, s.now);
    } else {
      RemoveRewardKeeps(s.book, c, s.emitter, call.pool, call.comet, s.now);
    }
  }

  // Over runs.

  /** What a step lets the depositor's shares earn: active shares times index growth, as time passes. */
  function EarnedBy(s: System, step: Step, key: TierKey, user: Address): int {
    if step.Wait? then
      var t := TierOf(s.book, key);
      Tiers.DepositorOf(t, user).balance.shares * (PresentIndex(t, s.now + step.seconds) - PresentIndex(t, s.now))
    else 0
  }

  function PaidOver(s: System, c: Deployment, steps: seq<Step>, key: TierKey, user: Address): int
    decreases |steps|
  {
    if steps == [] then 0
    else PaidBy(s, c, steps[0], key, user) + PaidOver(Apply(s, c, steps[0]), c, steps[1..], key, user)
  }

  function EarnedOver(s: System, c: Deployment, steps: seq<Step>, key: TierKey, user: Address): int
    decreases |steps|
  {
    if steps == [] then 0
    else EarnedBy(s, steps[0], key, user) + EarnedOver(Apply(s, c, steps[0]), c, steps[1..], key, user)
  }

  function StreamedOver(s: System, c: Deployment, steps: seq<Step>, key: TierKey): int
    decreases |steps|
  {
    if steps == [] then 0
    else StreamedBy(s, c, steps[0], key) + StreamedOver(Apply(s, c, steps[0]), c, steps[1..], key)
  }

  lemma WaitEarns(t: Tiers.Tier, user: Address, now: nat, later: nat)
    ensures Entitled(t, user, later)
            == Entitled(t, user, now)
               + Tiers.DepositorOf(t, user).balance.shares * (PresentIndex(t, later) - PresentIndex(t, now))
  {
    var u := Tiers.DepositorOf(t, user);
    OwedSpelledOut(u.emission, u.balance.shares, PresentIndex(t, now));
    OwedSpelledOut(u.emission, u.balance.shares, PresentIndex(t, later));
    hide PresentIndex;
    Grows(u.balance.shares, PresentIndex(t, now), PresentIndex(t, later), u.emission.index);
  }

  lemma Grows(shares: int, now: int, later: int, from: int)
    ensures shares * (later - from) == shares * (now - from) + shares * (later - now)
  {
  }

  /** Over any run, with any depositors, claims and gulps in between: 10^14 times what the depositor was paid out of
      the tier, and what it can still claim there, is what it was entitled to and what its shares earned since. */
  lemma {:induction false} EntitlementOverRun(s: System, c: Deployment, steps: seq<Step>, key: TierKey, user: Address)
    requires SystemInv(s, c)
    ensures var r := Run(s, c, steps);
            && SCALAR_14 * PaidOver(s, c, steps, key, user) + Entitled(TierOf(r.book, key), user, r.now)
               == Entitled(TierOf(s.book, key), user, s.now) + EarnedOver(s, c, steps, key, user)
            && TierOf(r.book, key).funded == TierOf(s.book, key).funded + StreamedOver(s, c, steps, key)
    decreases |steps|
  {
    hide SystemInv, Apply, Entitled, PaidBy, StreamedBy, EarnedBy;
    if steps != [] {
      var n := Apply(s, c, steps[0]);
      StepKeeps(s, c, steps[0]);
      OneStepEntitles(s, c, steps[0], key, user);
      EntitlementOverRun(n, c, steps[1..], key, user);
    }
  }

  lemma OneStepEntitles(s: System, c: Deployment, step: Step, key: TierKey, user: Address)
    requires SystemInv(s, c)
    ensures var n := Apply(s, c, step);
            && SCALAR_14 * PaidBy(s, c, step, key, user) + Entitled(TierOf(n.book, key), user, n.now)
               == Entitled(TierOf(s.book, key), user, s.now) + EarnedBy(s, step, key, user)
            && TierOf(n.book, key).funded == TierOf(s.book, key).funded + StreamedBy(s, c, step, key)
  {
    hide SystemInv, AfterLocal, AfterEmitter, Backstops.Distribute, Backstops.Drop, Entitled, ClaimDue, GulpTo,
         PresentIndex, PresentCarry, Lost, Remaining;
    if step.Wait? {
      WaitEarns(TierOf(s.book, key), user, s.now, s.now + step.seconds);
    } else {
      StepEven(s, c, step, key, user);
      SameTime(s, c, step);
    }
  }

  lemma SameTime(s: System, c: Deployment, step: Step)
    requires !step.Wait?
    ensures Apply(s, c, step).now == s.now
  {
    hide AfterLocal, AfterEmitter, Backstops.Distribute, Backstops.Drop;
  }

  /** Since the beginning: all that a depositor was ever paid and can still claim is what its shares earned. */
  lemma LifetimeEntitlement(s: System, c: Deployment, initialBackstop: Address, token: Address, steps: seq<Step>,
                            key: TierKey, user: Address)
    requires Starts(s, c, initialBackstop, token) && ValidConfig(c)
    ensures var r := Run(s, c, steps);
            && SCALAR_14 * PaidOver(s, c, steps, key, user) + Entitled(TierOf(r.book, key), user, r.now)
               == EarnedOver(s, c, steps, key, user)
            && TierOf(r.book, key).funded == StreamedOver(s, c, steps, key)
  {
    hide Starts, Run, SystemInv, PaidOver, EarnedOver, StreamedOver;
    StartKeeps(s, c, initialBackstop, token);
    EntitlementOverRun(s, c, steps, key, user);
    NothingAtStart(s, c, initialBackstop, token, key, user);
  }

  lemma NothingAtStart(s: System, c: Deployment, initialBackstop: Address, token: Address, key: TierKey, user: Address)
    requires Starts(s, c, initialBackstop, token)
    ensures Entitled(TierOf(s.book, key), user, s.now) == 0 && TierOf(s.book, key).funded == 0
  {
    Streams.EarnedFacts(0, 0, 0, 0);
  }

  // A tier whose active shares stay the same.

  /** In every state of the run the tier's shares that are not queued number `active`. */
  predicate SteadyShares(s: System, c: Deployment, key: TierKey, active: int, steps: seq<Step>)
    decreases |steps|
  {
    var p := TierOf(s.book, key).pool;
    p.shares - p.q4w == active && (steps == [] || SteadyShares(Apply(s, c, steps[0]), c, key, active, steps[1..]))
  }

  /** Index, carry and what is left to stream hold one sum however far the stream has run. */
  lemma StreamSum(t: Tiers.Tier, now: nat, later: nat, eligible: bool)
    requires TierInv(t, now, eligible) && 0 < Streams.Active(t.pool) && now <= later
    ensures var a := Streams.Active(t.pool);
            && (PresentIndex(t, later) - PresentIndex(t, now)) * a + PresentCarry(t, later) - PresentCarry(t, now)
               == SCALAR_7 * (Remaining(t, now) - Remaining(t, later))
            && Lost(t, later) == Lost(t, now) && 0 <= PresentCarry(t, now) && 0 <= PresentCarry(t, later)
            && (PresentCarry(t, later) < a || PresentCarry(t, later) == PresentCarry(t, now))
  {
    StreamInv(t, now, eligible);
    if t.stream.Some? {
      var d := t.stream.value;
      SumAt(d, t.pool, now);
      SumAt(d, t.pool, later);
      hide IndexBy, CarryBy, Streams.Emitted, Streams.Scheduled;
      FromOneSum(IndexBy(d, t.pool, now), IndexBy(d, t.pool, later), d.index, Streams.Active(t.pool));
    }
  }

  lemma FromOneSum(now: int, later: int, from: int, a: int)
    ensures (later - now) * a == (later - from) * a - (now - from) * a
  {
  }

  lemma SumAt(d: Streams.EmissionData, b: PoolBalances.PoolRecord, now: nat)
    requires Streams.ValidData(d) && d.lastTime <= now && PoolBalances.ValidPool(b) && 0 < Streams.Active(b)
    ensures var a := Streams.Active(b);
            && (IndexBy(d, b, now) - d.index) * a + CarryBy(d, b, now)
               == SCALAR_7 * Streams.Emitted(d, now) + d.indexCarry
            && 0 <= CarryBy(d, b, now)
            && (if d.lastTime < Streams.StreamEnd(d, now) then CarryBy(d, b, now) < a
                else CarryBy(d, b, now) == d.indexCarry)
  {
    var n := SCALAR_7 * Streams.Emitted(d, now) + d.indexCarry;
    DivBounds(n, Streams.Active(b));
    Streams.EmittedLeavesSchedule(d, now);
    assert n / Streams.Active(b) * Streams.Active(b) == Streams.Active(b) * (n / Streams.Active(b));
  }

  /** Over a run with steady active shares all that left the schedule reached the index or its carry, however often the
      tier was checkpointed, claimed from or restarted; nothing was lost. */
  lemma {:induction false} SteadyStream(s: System, c: Deployment, key: TierKey, active: int, steps: seq<Step>)
    requires SystemInv(s, c) && 0 < active && SteadyShares(s, c, key, active, steps)
    ensures var r := Run(s, c, steps);
            var t, u := TierOf(s.book, key), TierOf(r.book, key);
            && (PresentIndex(u, r.now) - PresentIndex(t, s.now)) * active
               + PresentCarry(u, r.now) - PresentCarry(t, s.now)
               == SCALAR_7 * (Remaining(t, s.now) + SCALAR_7 * StreamedOver(s, c, steps, key) - Remaining(u, r.now))
            && Lost(u, r.now) == Lost(t, s.now) && 0 <= PresentCarry(t, s.now) && 0 <= PresentCarry(u, r.now)
            && (PresentCarry(u, r.now) < active || PresentCarry(u, r.now) == PresentCarry(t, s.now))
    decreases |steps|
  {
    hide SystemInv, Apply, PresentIndex, PresentCarry, Lost, Remaining, StreamedBy;
    SteadyNow(s, c, key, active, steps);
    if steps == [] {
      TierStreamSum(s, c, key, s.now);
    } else {
      var n := Apply(s, c, steps[0]);
      StepKeeps(s, c, steps[0]);
      SteadyNow(n, c, key, active, steps[1..]);
      SteadyStep(s, c, key, active, steps[0]);
      SteadyStream(n, c, key, active, steps[1..]);
      var t, m, u := TierOf(s.book, key), TierOf(n.book, key), TierOf(Run(s, c, steps).book, key);
      FromOneSum(PresentIndex(m, n.now), PresentIndex(u, Run(s, c, steps).now), PresentIndex(t, s.now), active);
    }
  }

  lemma SteadyNow(s: System, c: Deployment, key: TierKey, active: int, steps: seq<Step>)
    requires SteadyShares(s, c, key, active, steps)
    ensures Streams.Active(TierOf(s.book, key).pool) == active
  {
  }

  lemma TierStreamSum(s: System, c: Deployment, key: TierKey, later: nat)
    requires SystemInv(s, c) && 0 < Streams.Active(TierOf(s.book, key).pool) && s.now <= later
    ensures var t := TierOf(s.book, key);
            var a := Streams.Active(t.pool);
            && (PresentIndex(t, later) - PresentIndex(t, s.now)) * a + PresentCarry(t, later) - PresentCarry(t, s.now)
               == SCALAR_7 * (Remaining(t, s.now) - Remaining(t, later))
            && Lost(t, later) == Lost(t, s.now) && 0 <= PresentCarry(t, s.now) && 0 <= PresentCarry(t, later)
            && (PresentCarry(t, later) < a || PresentCarry(t, later) == PresentCarry(t, s.now))
  {
    hide BookInv, EmitterLaws.EmitterInv, Lifecycle, Attested, Deployed, TierInv, PresentIndex, PresentCarry, Lost,
         Remaining;
    ShareLaws.BookTier(s.book, c, key, s.now);
    StreamSum(TierOf(s.book, key), s.now, later, Earns(c, key));
  }

  lemma SteadyStep(s: System, c: Deployment, key: TierKey, active: int, step: Step)
    requires SystemInv(s, c) && 0 < active && Streams.Active(TierOf(s.book, key).pool) == active
    ensures var n := Apply(s, c, step);
            var t, u := TierOf(s.book, key), TierOf(n.book, key);
            && (PresentIndex(u, n.now) - PresentIndex(t, s.now)) * active
               + PresentCarry(u, n.now) - PresentCarry(t, s.now)
               == SCALAR_7 * (Remaining(t, s.now) + SCALAR_7 * StreamedBy(s, c, step, key) - Remaining(u, n.now))
            && Lost(u, n.now) == Lost(t, s.now) && 0 <= PresentCarry(t, s.now) && 0 <= PresentCarry(u, n.now)
            && (PresentCarry(u, n.now) < active || PresentCarry(u, n.now) == PresentCarry(t, s.now))
  {
    hide SystemInv, AfterLocal, AfterEmitter, Backstops.Distribute, Backstops.Drop, PresentIndex, PresentCarry, Lost,
         Remaining, Entitled, GulpTo;
    if step.Wait? {
      TierStreamSum(s, c, key, s.now + step.seconds);
    } else {
      TierStreamSum(s, c, key, s.now);
      StepEven(s, c, step, key, c.self);
      SameTime(s, c, step);
    }
  }

  /** A stream that has run to its end by then, over steady active shares: they were credited all that was left to
      stream at the start and all that was streamed in since, but for less than one index unit each. */
  lemma StreamCredited(s: System, c: Deployment, key: TierKey, active: int, steps: seq<Step>)
    requires SystemInv(s, c) && 0 < active && SteadyShares(s, c, key, active, steps)
    requires var r := Run(s, c, steps);
             TierOf(r.book, key).stream.Some? && TierOf(r.book, key).stream.value.expiration <= r.now
    ensures var r := Run(s, c, steps);
            var t, u := TierOf(s.book, key), TierOf(r.book, key);
            var streamed := SCALAR_7 * (Remaining(t, s.now) + SCALAR_7 * StreamedOver(s, c, steps, key));
            var growth := PresentIndex(u, r.now) - PresentIndex(t, s.now);
            streamed - active < growth * active <= streamed + PresentCarry(t, s.now)
  {
    hide SystemInv, Run, PresentIndex, PresentCarry, Lost, StreamedOver, Remaining;
    SteadyStream(s, c, key, active, steps);
    RunKeeps(s, c, steps);
    var r := Run(s, c, steps);
    NothingRemains(r, c, key);
  }

  lemma NothingRemains(r: System, c: Deployment, key: TierKey)
    requires SystemInv(r, c) && TierOf(r.book, key).stream.Some?
    requires TierOf(r.book, key).stream.value.expiration <= r.now
    ensures Remaining(TierOf(r.book, key), r.now) == 0
  {
    hide BookInv, EmitterLaws.EmitterInv, Lifecycle, Attested, Deployed;
    ShareLaws.BookTier(r.book, c, key, r.now);
    NothingScheduled(TierOf(r.book, key), r.now, Earns(c, key));
  }

  lemma NothingScheduled(t: Tiers.Tier, now: nat, eligible: bool)
    requires TierInv(t, now, eligible) && t.stream.Some? && t.stream.value.expiration <= now
    ensures Remaining(t, now) == 0
  {
    var d := t.stream.value;
    if d.lastTime < d.expiration {
      assert Streams.StreamEnd(d, now) == d.expiration;
    }
  }
}
