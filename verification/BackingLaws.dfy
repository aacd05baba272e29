/** What backs the distributed BLNT: seconds minted against seconds booked, over whole runs. */
module BackingLaws {
  import opened Numbers
  import opened Sums
  import opened Allocation
  import opened AllocationLaws
  import Emitters
  import opened EmitterLaws
  import opened Backstops
  import opened BookLaws
  import opened DistributionLaws
  import opened ClaimLaws
  import opened MigrationLaws
  import opened ContractLaws
  import opened Systems
  import opened SystemLaws
  import opened FundingRuns

  /** Minted to this contract by distribution since it was activated. */
  ghost function MintedSince(s: System, c: Deployment): int {
    At(s.emitter.history.minted, c.self) - s.book.migration.mintedBefore
  }

  /** Seconds that re-installing this contract skipped since it was activated. */
  ghost function Gap(s: System, c: Deployment): int {
    At(s.emitter.history.skipped, c.self) - s.book.migration.skippedBefore
  }

  /** The exact balance of an active contract: it has booked every second since its activation checkpoint
      plus the backfill, and been minted every second up to the emitter's checkpoint except the skipped
      ones. So what it booked is covered exactly while the skipped seconds are still to be booked. Backfill
      covered an earlier interval. */
  lemma BackingExact(s: System, c: Deployment)
    requires SystemInv(s, c) && IsActive(s.book)
    ensures c.self in s.emitter.lastDistro && 0 <= Gap(s, c)
    ensures var m, last, checkpoint := s.book.migration, LastOf(s.book), s.emitter.lastDistro[c.self];
            && MintedSince(s, c) == SCALAR_7 * (checkpoint - m.activationCheckpoint - Gap(s, c))
            && s.book.ongoing.totalDistributed == m.scheduledBackfill + SCALAR_7 * (last - m.activationCheckpoint)
            && (s.book.ongoing.totalDistributed <= MintedSince(s, c) + m.scheduledBackfill <==>
               Gap(s, c) <= checkpoint - last)
            && m.backfillEnd.Some? && m.backfillEnd.value <= m.activationCheckpoint <= last
            && (m.epochStart.Some? ==> m.scheduledBackfill <= SCALAR_7 * (m.backfillEnd.value - m.epochStart.value))
            && (m.fundedBackfill.Some? ==> m.scheduledBackfill <= At(s.emitter.history.dropMinted, c.self))
  {
    hide BookInv, Attested, Deployed, DropLedger, SwapTiming, Sum;
    ActiveFacts(s.book, c, s.emitter, s.now);
  }

  /** What claimants and pools have taken never exceeds what was distributed. */
  lemma PaidWithinDistributed(b: Book, c: Deployment, now: nat)
    requires BookInv(b, c, now)
    ensures b.ongoing.backstopClaimed + b.granted <= b.ongoing.totalDistributed
  {
    hide Holdings, Sum, BackstopHeldOf, FundedOf, ClaimedOf;
    BookPools(b, c, now);
    HeldNonNegative(b.pools);
  }

  // Runs without re-installation.

  predicate Reinstalls(s: System, c: Deployment, step: Step) {
    && step.Emit? && step.emitterCall.SwapBackstop?
    && s.emitter.queued.Some? && s.emitter.queued.value.newBackstop == c.self
    && AfterEmitter(s, c, step.emitterCall).Success?
  }

  /** Once active, no step of the run swaps the emitter to this contract again. */
  predicate NeverReinstalled(s: System, c: Deployment, steps: seq<Step>)
    decreases |steps|
  {
    steps == []
    || ((IsActive(s.book) ==> !Reinstalls(s, c, steps[0])) && NeverReinstalled(Apply(s, c, steps[0]), c, steps[1..]))
  }

  /** The seconds that a step skips for good: those since this contract's own checkpoint, when the emitter comes
      back to it after it was active. */
  function SkippedBy(s: System, c: Deployment, step: Step): int {
    if IsActive(s.book) && Reinstalls(s, c, step) && s.emitter.backstop != c.self then
      s.now - (if c.self in s.emitter.lastDistro then s.emitter.lastDistro[c.self] else s.now)
    else 0
  }

  function TotalSkipped(s: System, c: Deployment, steps: seq<Step>): int
    decreases |steps|
  {
    if steps == [] then 0 else SkippedBy(s, c, steps[0]) + TotalSkipped(Apply(s, c, steps[0]), c, steps[1..])
  }

  lemma SwapSkips(s: System, c: Deployment, call: EmitterCall)
    requires AfterEmitter(s, c, call).Success? && IsActive(s.book) && s.emitter.backstop in s.emitter.lastDistro
    ensures At(AfterEmitter(s, c, call).value.history.skipped, c.self)
            == At(s.emitter.history.skipped, c.self) + SkippedBy(s, c, Emit(call))
  {
    hide Emitters.MintAll, Emitters.DropAmount;
  }

  ghost function GapSoFar(s: System, c: Deployment): int {
    if IsActive(s.book) then Gap(s, c) else 0
  }

  lemma GapStep(s: System, c: Deployment, step: Step)
    requires SystemInv(s, c)
    ensures GapSoFar(Apply(s, c, step), c) == GapSoFar(s, c) + SkippedBy(s, c, step)
  {
    hide Inv, AfterLocal, AfterEmitter, Backstops.Distribute, Backstops.Drop, SeqSum, AmountTo, Emitters.Distribute,
         LedgersOnly, JustExecuted, Reinstalls;
    RecordStep(s, c, step);
    if step.Emit? {
      if AfterEmitter(s, c, step.emitterCall).Failure? {
        AbortsInstallNothing(s, c, step);
      } else if IsActive(s.book) {
        SystemParts(s, c);
        SwapSkips(s, c, step.emitterCall);
      }
    } else {
      OnlySwapsInstall(s, c, step);
      if step.Call? {
        if step.call.DoDrop? {
          DropKeepsAll(s.book, c, s.emitter, s.now);
        } else if step.call.DoDistribute? {
          if Supplied(s.book, step.call.comet) {
            DistributeStep(s, c, step.call.comet);
            if !IsActive(s.book) && s.emitter.backstop == c.self {
              ActivationKeeps(s.book, c, s.emitter, step.call.comet, s.now);
            }
          }
        } else {
          LocalRecord(s, c, step.call);
        }
      }
    }
  }

  lemma AbortsInstallNothing(s: System, c: Deployment, step: Step)
    requires step.Emit? && AfterEmitter(s, c, step.emitterCall).Failure?
    ensures !Reinstalls(s, c, step)
  {
  }

  lemma OnlySwapsInstall(s: System, c: Deployment, step: Step)
    requires !step.Emit?
    ensures !Reinstalls(s, c, step)
  {
  }

  /** The gap at the end of any run is what its re-installations skipped. */
  lemma {:induction false} GapOverRun(s: System, c: Deployment, steps: seq<Step>)
    requires SystemInv(s, c)
    ensures GapSoFar(Run(s, c, steps), c) == GapSoFar(s, c) + TotalSkipped(s, c, steps)
    decreases |steps|
  {
    hide SystemInv, Apply, SkippedBy, GapSoFar;
    if steps != [] {
      StepKeeps(s, c, steps[0]);
      GapStep(s, c, steps[0]);
      GapOverRun(Apply(s, c, steps[0]), c, steps[1..]);
    }
  }

  lemma {:induction false} NeverSkips(s: System, c: Deployment, steps: seq<Step>)
    requires NeverReinstalled(s, c, steps)
    ensures TotalSkipped(s, c, steps) == 0
    decreases |steps|
  {
    hide Apply, Reinstalls;
    if steps != [] {
      NeverSkips(Apply(s, c, steps[0]), c, steps[1..]);
    }
  }

  lemma AfterDistribution(r: System, c: Deployment, comet: Composition)
    requires SystemInv(r, c) && IsActive(r.book) && Next(r, c, Call(DoDistribute(comet))).Success?
    ensures var n := Apply(r, c, Call(DoDistribute(comet)));
            && IsActive(n.book) && LastOf(n.book) == n.now == r.now
            && c.self in n.emitter.lastDistro && n.emitter.lastDistro[c.self] == n.now
  {
    hide Inv, Backstops.Distribute, LedgersOnly;
    DistributeActiveKeeps(r.book, c, r.emitter, comet, r.now);
  }

  /** What a distribution leaves unbacked. Right after a successful one, over any run, the contract has booked
      more than was minted for it and scheduled as backfill by exactly one BLNT for each second that
      re-installations skipped; so its bookings are covered if and only if none was. */
  lemma ShortfallExact(s: System, c: Deployment, initialBackstop: Address, token: Address, steps: seq<Step>,
                       comet: Composition)
    requires Starts(s, c, initialBackstop, token) && ValidConfig(c)
    ensures var r := Run(s, c, steps);
            var n := Apply(r, c, Call(DoDistribute(comet)));
            IsActive(r.book) && Next(r, c, Call(DoDistribute(comet))).Success? ==>
              && n.book.ongoing.totalDistributed - n.book.migration.scheduledBackfill - MintedSince(n, c)
                 == SCALAR_7 * TotalSkipped(s, c, steps) >= 0
              && (n.book.ongoing.totalDistributed <= MintedSince(n, c) + n.book.migration.scheduledBackfill <==>
                  TotalSkipped(s, c, steps) == 0)
  {
    hide Starts, SystemInv, Run, Gap, MintedSince, Next, TotalSkipped;
    StartKeeps(s, c, initialBackstop, token);
    NothingYetActive(s, c, initialBackstop, token);
    RunKeeps(s, c, steps);
    GapOverRun(s, c, steps);
    var r, step := Run(s, c, steps), Call(DoDistribute(comet));
    if IsActive(r.book) && Next(r, c, step).Success? {
      AfterDistribution(r, c, comet);
      GapStep(r, c, step);
      StepKeeps(r, c, step);
      BackingExact(Apply(r, c, step), c);
    }
  }

  lemma NothingYetActive(s: System, c: Deployment, initialBackstop: Address, token: Address)
    requires Starts(s, c, initialBackstop, token)
    ensures !IsActive(s.book)
  {
  }

  /** Full backing: in every run that never re-installs the active contract, distribution mints cover all it
      booked beyond the backfill, and what depositors claimed never exceeds what the contract was minted and
      dropped; nor, once the drop has covered the backfill, does what pools were granted with it. */
  lemma FullyBacked(s: System, c: Deployment, initialBackstop: Address, token: Address, steps: seq<Step>)
    requires Starts(s, c, initialBackstop, token) && ValidConfig(c) && NeverReinstalled(s, c, steps)
    ensures var r := Run(s, c, steps);
            IsActive(r.book) ==>
              && r.book.ongoing.totalDistributed <= MintedSince(r, c) + r.book.migration.scheduledBackfill
              && r.book.ongoing.backstopClaimed <= MintedSince(r, c) + At(r.emitter.history.dropMinted, c.self)
              && (r.book.migration.fundedBackfill.Some? || r.book.migration.scheduledBackfill == 0 ==>
                    r.book.ongoing.backstopClaimed + r.book.granted
                    <= MintedSince(r, c) + At(r.emitter.history.dropMinted, c.self))
  {
    hide Starts, SystemInv, Run, NeverReinstalled, TotalSkipped, Gap, MintedSince;
    ClaimedOnlyWhenFunded(s, c, initialBackstop, token, steps);
    StartKeeps(s, c, initialBackstop, token);
    NothingYetActive(s, c, initialBackstop, token);
    RunKeeps(s, c, steps);
    GapOverRun(s, c, steps);
    NeverSkips(s, c, steps);
    var r := Run(s, c, steps);
    if IsActive(r.book) {
      BackingExact(r, c);
      SystemParts(r, c);
      PaidWithinDistributed(r.book, c, r.now);
      DropsNonNegative(r.emitter, c.self, r.now);
    }
  }

  lemma SystemParts(s: System, c: Deployment)
    requires SystemInv(s, c)
    ensures BookInv(s.book, c, s.now) && EmitterInv(s.emitter, s.now)
    ensures IsActive(s.book) ==> s.book.ongoing.lastDistribution.Some? && c.self in s.emitter.lastDistro
                                 && LastOf(s.book) <= s.emitter.lastDistro[c.self]
  {
    hide BookInv, EmitterInv, Deployed, Attested;
  }

  lemma DropsNonNegative(e: EmitterState, a: Address, now: nat)
    requires EmitterInv(e, now)
    ensures 0 <= At(e.history.dropMinted, a)
  {
    hide EmissionLedger, SwapTiming;
  }

  // The emitter over runs.

  lemma StartStep(s: System, c: Deployment, step: Step)
    requires SystemInv(s, c)
    ensures Apply(s, c, step).emitter.history.start == s.emitter.history.start
    ensures Apply(s, c, step).emitter.initialBackstop == s.emitter.initialBackstop
  {
    hide Inv, AfterLocal, AfterEmitter, Backstops.Distribute, Backstops.Drop, SeqSum, AmountTo, LedgersOnly;
    if step.Emit? {
      if AfterEmitter(s, c, step.emitterCall).Success? {
        SameInitial(s, c, step.emitterCall);
      }
    } else if step.Call? && step.call.DoDrop? {
      DropKeepsAll(s.book, c, s.emitter, s.now);
    } else if step.Call? && step.call.DoDistribute? && Supplied(s.book, step.call.comet) {
      DistributeStep(s, c, step.call.comet);
    }
  }

  lemma {:induction false} StartOverRun(s: System, c: Deployment, steps: seq<Step>)
    requires SystemInv(s, c)
    ensures Run(s, c, steps).emitter.history.start == s.emitter.history.start
    ensures Run(s, c, steps).emitter.initialBackstop == s.emitter.initialBackstop
    decreases |steps|
  {
    hide SystemInv, Apply;
    if steps != [] {
      StepKeeps(s, c, steps[0]);
      StartStep(s, c, steps[0]);
      StartOverRun(Apply(s, c, steps[0]), c, steps[1..]);
    }
  }

  /** Over any run, re-installations included: all backstops together have been minted one BLNT for each
      second since emission began, up to the current backstop's checkpoint; and each has dropped at most its
      cap. */
  lemma EmittedOnceOverRuns(s: System, c: Deployment, initialBackstop: Address, token: Address, steps: seq<Step>)
    requires Starts(s, c, initialBackstop, token) && ValidConfig(c)
    ensures var e := Run(s, c, steps).emitter;
            && e.backstop in e.lastDistro
            && Sum(e.history.minted) == SCALAR_7 * (e.lastDistro[e.backstop] - s.now)
            && forall x | x in e.history.dropTotal ::
                 && x in e.dropped
                 && 0 <= e.history.dropTotal[x]
                    <= (if x == initialBackstop then 150_000_000 else 50_000_000) * 10_000_000
  {
    hide SystemInv, Run, Sum;
    StartKeeps(s, c, initialBackstop, token);
    RunKeeps(s, c, steps);
    StartOverRun(s, c, steps);
    SystemParts(Run(s, c, steps), c);
  }
}
