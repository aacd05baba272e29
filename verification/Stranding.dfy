/** The contract whose drop can never be made: an initial backstop with an extended drop list that schedules
    more backfill than its cap leaves room for. Its migration stays unfunded and its claims closed for good. */
module Stranding {
  import opened Numbers
  import opened Sums
  import opened Allocation
  import opened AllocationLaws
  import Emitters
  import opened EmitterLaws
  import opened Backstops
  import opened BookLaws
  import opened DistributionLaws
  import opened MigrationLaws
  import opened ContractLaws
  import opened DistributionOutcomes
  import opened Systems
  import opened SystemLaws
  import opened Examples

  // For good.

  /** Active, not funded, and the list with the scheduled backfill is over the contract's own cap. */
  ghost predicate Overscheduled(s: System, c: Deployment) {
    && IsActive(s.book) && s.book.migration.fundedBackfill.None?
    && SeqSum(Amounts(c.dropList)) + s.book.migration.scheduledBackfill > DropCap(c)
  }

  lemma OverscheduledStep(s: System, c: Deployment, step: Step)
    requires SystemInv(s, c) && Overscheduled(s, c)
    ensures Apply(s, c, step).book.migration == s.book.migration
  {
    hide Inv, AfterLocal, AfterEmitter, Backstops.Distribute, Backstops.Drop, SeqSum, AmountTo, Emitters.Distribute,
         LedgersOnly;
    if step.Call? {
      if step.call.DoDrop? {
        DropKeepsAll(s.book, c, s.emitter, s.now);
      } else if step.call.DoDistribute? {
        if Supplied(s.book, step.call.comet) {
          DistributeActiveKeeps(s.book, c, s.emitter, step.call.comet, s.now);
        }
      } else {
        LocalRecord(s, c, step.call);
      }
    }
  }

  /** Both ways out are closed: the drop, and every claim of anyone. */
  ghost predicate Stranded(s: System, c: Deployment) {
    && Backstops.Drop(s.book, c, s.emitter) == Failure(InvalidBackfillFunding)
    && (forall tier, user, pools, minLp, trade ::
          Claim(s.book, c, s.emitter, tier, user, pools, minLp, trade, s.now) == Failure(BackfillNotFunded))
  }

  lemma OverscheduledStrands(s: System, c: Deployment)
    requires SystemInv(s, c) && Overscheduled(s, c)
    ensures Stranded(s, c) && c.extendedDrop && 0 < s.book.migration.scheduledBackfill
  {
    hide Inv, Backstops.Drop, SeqSum, AmountTo, ClaimFrom, Compound;
    DropKeepsAll(s.book, c, s.emitter, s.now);
    ActiveParts(s.book, c, s.emitter, s.now);
    CapsFit(c, s.emitter);
  }

  /** Once overscheduled, always: whatever calls anyone makes on either contract and however long they wait,
      no drop ever succeeds, the backfill stays unfunded, and every claim is refused. */
  lemma {:induction false} StrandedForGood(s: System, c: Deployment, steps: seq<Step>)
    requires SystemInv(s, c) && Overscheduled(s, c)
    ensures var r := Run(s, c, steps);
            r.book.migration == s.book.migration && Stranded(r, c)
    decreases |steps|
  {
    hide SystemInv, Apply, Stranded, SeqSum;
    if steps == [] {
      OverscheduledStrands(s, c);
    } else {
      StepKeeps(s, c, steps[0]);
      OverscheduledStep(s, c, steps[0]);
      StrandedForGood(Apply(s, c, steps[0]), c, steps[1..]);
    }
  }

  /** Overscheduling is the only reason: any other active contract that is current and not yet funded makes its
      drop at once, and then claims pass the funding check. */
  lemma FundableUnlessOverscheduled(s: System, c: Deployment)
    requires SystemInv(s, c) && IsActive(s.book) && s.emitter.backstop == c.self
    requires s.book.migration.fundedBackfill.None?
    ensures var m := Apply(s, c, Call(DoDrop)).book.migration;
            m.fundedBackfill == Some(m.scheduledBackfill) <==> !Overscheduled(s, c)
  {
    hide Inv, Backstops.Drop, SeqSum, AmountTo;
    DropKeepsAll(s.book, c, s.emitter, s.now);
  }

  // It happens.

  /** A list that leaves less than a month of emission below the initial cap. */
  predicate LongList(list: seq<(Address, int)>) {
    && (forall i | 0 <= i < |list| :: 0 <= list[i].1)
    && Emitters.MAX_INITIAL_DROP - SCALAR_7 * Emitters.QUEUE_SECONDS < SeqSum(Amounts(list))
       <= Emitters.MAX_INITIAL_DROP
  }

  function Extended(p: Cast, list: seq<(Address, int)>): Deployment {
    Deployment(p.self, p.token, map[p.pool := [BlntUsdc]], list, true)
  }

  lemma ExtendedStarts(p: Cast, list: seq<(Address, int)>, start: nat)
    requires LongList(list)
    ensures Starts(Beginning(p, start), Extended(p, list), p.self, p.token) && ValidConfig(Extended(p, list))
  {
    hide NewBook, SeqSum;
    ListTotalExact(list, 0);
  }

  function Prepare(p: Cast, amount: Int128): seq<Step> {
    [Call(DoDistribute(Market(amount))),
     Call(DoDeposit(TierKey(p.pool, 0), p.user, amount)),
     Call(DoAddReward(p.pool, None, Market(amount)))]
  }

  function Attest(p: Cast, amount: Int128): seq<Step> {
    [Emit(QueueSwap(p.self, p.token, Wins(p.token))),
     Wait(Emitters.QUEUE_SECONDS),
     Call(DoDistribute(Market(amount)))]
  }

  function Switch(p: Cast, amount: Int128): seq<Step> {
    [Emit(SwapBackstop(Wins(p.token))), Call(DoDistribute(Market(amount)))]
  }

  /** An epoch opened at `at`, nothing scheduled yet. */
  predicate JustOpened(b: Book, at: nat) {
    && !IsActive(b) && b.migration.epochStart == Some(at) && b.ongoing == NothingSince(Some(at))
    && b.migration.scheduledBackfill == 0 && b.migration.fundedBackfill.None?
    && b.zoneCheckpoint == Some(at) && b.distributionStarted
  }

  lemma Opens(s: System, c: Deployment, p: Cast, amount: Int128)
    requires Staged(c, p) && p.self != p.other && Away(s.emitter, p, s.now) && s.book == NewBook() && 0 < amount
    ensures var n := Apply(s, c, Call(DoDistribute(Market(amount))));
            && n.emitter == s.emitter && n.now == s.now && Bare(n.book) && JustOpened(n.book, s.now)
  {
  }

  lemma Prepares(s: System, c: Deployment, p: Cast, amount: Int128)
    requires Distinguished(p) && Staged(c, p) && Away(s.emitter, p, s.now) && s.book == NewBook() && 0 < amount <= 1_000
    ensures var n := Run(s, c, Prepare(p, amount));
            && n.emitter == s.emitter && n.now == s.now && JustOpened(n.book, s.now)
            && n.book.zone == [p.pool] && Stocked(n.book, p, amount)
  {
    hide Away, Stocked, Backstops.Distribute, Backstops.Deposit, AddReward, NewBook;
    var steps := Prepare(p, amount);
    var s1 := Apply(s, c, steps[0]);
    Opens(s, c, p, amount);
    var s2 := Apply(s1, c, steps[1]);
    AwayGate(s.emitter, c, p, s.now);
    FirstDeposit(s1.book, c, s1.emitter, p, amount, s.now);
    FirstEntry(s2.book, c, s2.emitter, p, amount, s.now);
    StockedSame(s2.book, Apply(s2, c, steps[2]).book, p, amount);
    ThreeSteps(s, c, steps);
  }

  lemma AwayGate(e: EmitterState, c: Deployment, p: Cast, at: nat)
    requires Away(e, p, at) && Staged(c, p) && Distinguished(p)
    ensures e.backstop != c.self
  {
  }

  lemma ReturningFacts(e: EmitterState, c: Deployment, p: Cast, at: nat)
    requires Returning(e, p, at) && Staged(c, p) && Distinguished(p)
    ensures e.backstop != c.self
    ensures e.queued == Some(Emitters.Swap(c.self, c.migrationToken, at + Emitters.QUEUE_SECONDS))
  {
  }

  /** The month is scheduled, and the queued swap attested on the second it unlocks. */
  predicate Scheduled(b: Book, unlock: nat) {
    && !IsActive(b) && b.migration.epochStart.Some? && b.migration.verifiedUnlock == Some(unlock)
    && b.migration.scheduledBackfill == SCALAR_7 * Emitters.QUEUE_SECONDS && b.migration.fundedBackfill.None?
  }

  lemma Attests(b: Book, c: Deployment, e: EmitterState, now: nat)
    requires !IsActive(b) && b.migration.epochStart.Some? && now <= 2_000_000_000_000
    requires e.queued == Some(Emitters.Swap(c.self, c.migrationToken, now))
    ensures PrepareBackfill(b, c, e, now) == Success(b.(migration := b.migration.(verifiedUnlock := Some(now))))
  {
  }

  lemma Backfills(s: System, c: Deployment, p: Cast, amount: Int128, at: nat)
    requires Distinguished(p) && Staged(c, p) && Returning(s.emitter, p, at) && s.now == at + Emitters.QUEUE_SECONDS
    requires JustOpened(s.book, at) && s.book.zone == [p.pool] && Stocked(s.book, p, amount)
    requires 0 < amount <= 1_000 && s.now <= 2_000_000_000_000
    ensures var n := Apply(s, c, Call(DoDistribute(Market(amount))));
            && n.emitter == s.emitter && n.now == s.now && Scheduled(n.book, s.now)
            && n.book.held == s.book.held
  {
    hide Returning, Stocked, PrepareBackfill, CheckpointBackfill, CollectWeights, AllocateInto, AdvanceOnly;
    ReturningFacts(s.emitter, c, p, at);
    Attests(s.book, c, s.emitter, s.now);
    var b := s.book.(migration := s.book.migration.(verifiedUnlock := Some(s.now)));
    BackfillForm(s.book, c, s.emitter, Market(amount), s.now);
    StockedSame(s.book, b, p, amount);
    AllocatesInto(b, p, None, at, amount, SCALAR_7 * Emitters.QUEUE_SECONDS, s.now);
    CheckpointBackfillForm(b, s.now);
    AllocatingHolds(b, s.now);
    StockedSupplies(s.book, p, amount);
  }

  lemma AllocatingHolds(b: Book, checkpoint: nat)
    ensures CheckpointBackfill(b, checkpoint).Success? ==> CheckpointBackfill(b, checkpoint).value.0.held == b.held
  {
    hide CollectWeights, AllocateDistribution, StoreOngoing, CheckedOngoing;
  }

  lemma StockedSame(b: Book, n: Book, p: Cast, amount: Int128)
    requires Stocked(b, p, amount) && n.tiers == b.tiers && n.pools == b.pools && n.held == b.held
    ensures Stocked(n, p, amount)
  {
  }

  lemma StockedSupplies(b: Book, p: Cast, amount: Int128)
    requires Stocked(b, p, amount) && 0 < amount
    ensures Supplied(b, Market(amount))
  {
  }

  lemma AttestsMonth(s: System, c: Deployment, p: Cast, amount: Int128)
    requires Distinguished(p) && Staged(c, p) && Away(s.emitter, p, s.now) && s.now <= 1_500_000_000_000
    requires JustOpened(s.book, s.now) && s.book.zone == [p.pool] && Stocked(s.book, p, amount) && 0 < amount <= 1_000
    ensures var n := Run(s, c, Attest(p, amount));
            && Returning(n.emitter, p, s.now) && n.now == s.now + Emitters.QUEUE_SECONDS && Scheduled(n.book, n.now)
            && n.book.held == s.book.held
  {
    hide Away, Returning, Stocked, JustOpened, Scheduled, Backstops.Distribute, Emitters.QueueSwap;
    var steps := Attest(p, amount);
    QueuesReturn(s, c, p);
    var s2 := Apply(Apply(s, c, steps[0]), c, steps[1]);
    Backfills(s2, c, p, amount, s.now);
    ThreeSteps(s, c, steps);
  }

  /** On the second of its attested unlock, the swap is executed and the contract activates, still unfunded. */
  lemma Activates(s: System, c: Deployment, p: Cast, amount: Int128)
    requires SystemInv(s, c) && s.emitter.backstop == c.self && Scheduled(s.book, s.now)
    requires Supplied(s.book, Market(amount))
    ensures var n := Apply(s, c, Call(DoDistribute(Market(amount))));
            && IsActive(n.book) && n.book.migration.fundedBackfill.None? && n.emitter == s.emitter
            && n.book.migration.scheduledBackfill == SCALAR_7 * Emitters.QUEUE_SECONDS
  {
    hide Inv, Backstops.Distribute, LedgersOnly;
    ActivateOutcome(s.book, c, s.emitter, Market(amount), s.now);
  }

  lemma Switches(s: System, c: Deployment, p: Cast, amount: Int128)
    requires Distinguished(p) && Staged(c, p) && SystemInv(s, c)
    requires Emitters.QUEUE_SECONDS <= s.now <= 2_000_000_000_000
    requires Returning(s.emitter, p, s.now - Emitters.QUEUE_SECONDS) && Scheduled(s.book, s.now)
    requires Supplied(s.book, Market(amount))
    ensures var n := Run(s, c, Switch(p, amount));
            && IsActive(n.book) && n.book.migration.fundedBackfill.None?
            && n.book.migration.scheduledBackfill == SCALAR_7 * Emitters.QUEUE_SECONDS
  {
    hide SystemInv, Returning, Scheduled, Backstops.Distribute, Emitters.SwapBackstop;
    var steps := Switch(p, amount);
    var s1 := Apply(s, c, steps[0]);
    StepKeeps(s, c, steps[0]);
    SwapsBack(s, c, p);
    Activates(s1, c, p, amount);
    TwoSteps(s, c, steps);
  }

  function Journey(p: Cast, amount: Int128): seq<Step> {
    Leave(p) + Prepare(p, amount) + Attest(p, amount) + Switch(p, amount)
  }

  lemma JourneyParts(s: System, c: Deployment, p: Cast, amount: Int128)
    ensures Run(s, c, Journey(p, amount))
            == Run(Run(Run(Run(s, c, Leave(p)), c, Prepare(p, amount)), c, Attest(p, amount)), c, Switch(p, amount))
  {
    hide Run, Leave, Prepare, Attest, Switch;
    RunAppend(s, c, Leave(p) + Prepare(p, amount) + Attest(p, amount), Switch(p, amount));
    RunAppend(s, c, Leave(p) + Prepare(p, amount), Attest(p, amount));
    RunAppend(s, c, Leave(p), Prepare(p, amount));
  }

  lemma Arrives(p: Cast, list: seq<(Address, int)>, start: nat, amount: Int128)
    requires Small(start, amount) && Distinguished(p) && LongList(list)
    ensures var c := Extended(p, list);
            var r := Run(Beginning(p, start), c, Journey(p, amount));
            && SystemInv(r, c) && Overscheduled(r, c)
            && r.book.migration.scheduledBackfill == SCALAR_7 * Emitters.QUEUE_SECONDS
  {
    hide Run, Starts, SystemInv, Away, Returning, Stocked, NewBook, SeqSum, Leave, Prepare, Attest, Switch;
    var s, c := Beginning(p, start), Extended(p, list);
    ExtendedStarts(p, list, start);
    Reachable(s, c, p.self, p.token, Journey(p, amount));
    Reachable(s, c, p.self, p.token, Leave(p) + Prepare(p, amount) + Attest(p, amount));
    JourneyParts(s, c, p, amount);
    RunAppend(s, c, Leave(p) + Prepare(p, amount), Attest(p, amount));
    RunAppend(s, c, Leave(p), Prepare(p, amount));
    Leaves(s, c, p);
    var left := Run(s, c, Leave(p));
    Prepares(left, c, p, amount);
    var prepared := Run(left, c, Prepare(p, amount));
    AttestsMonth(prepared, c, p, amount);
    StockedSupplies(prepared.book, p, amount);
    Switches(Run(prepared, c, Attest(p, amount)), c, p, amount);
  }

  /** An initial backstop with such a list that the emitter leaves before it first distributes, whose epoch opens
      with one depositor, and to which the emitter returns by an attested swap: it activates with a month of
      backfill it can never fund. Every continuation of the run leaves it stranded. */
  lemma Strands(p: Cast, list: seq<(Address, int)>, start: nat, amount: Int128, more: seq<Step>)
    requires Small(start, amount) && Distinguished(p) && LongList(list)
    ensures var s, c := Beginning(p, start), Extended(p, list);
            && Starts(s, c, p.self, p.token) && ValidConfig(c)
            && var r := Run(s, c, Journey(p, amount) + more);
            && IsActive(r.book) && r.book.migration.fundedBackfill.None? && Stranded(r, c)
            && r.book.migration.scheduledBackfill == SCALAR_7 * Emitters.QUEUE_SECONDS
  {
    hide Run, Starts, SystemInv, Stranded, NewBook, SeqSum, Journey;
    var s, c := Beginning(p, start), Extended(p, list);
    ExtendedStarts(p, list, start);
    Arrives(p, list, start, amount);
    RunAppend(s, c, Journey(p, amount), more);
    StrandedForGood(Run(s, c, Journey(p, amount)), c, more);
  }
}
