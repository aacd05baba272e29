/** Distribution and the drop across both contracts: each phase's whole list of refusals, and what a
    success does to the migration record and the ledgers. */
module ContractLaws {
  import opened Numbers
  import opened Sums
  import opened Allocation
  import opened AllocationLaws
  import Emitters
  import opened EmitterLaws
  import opened Backstops
  import opened BookLaws
  import opened WeightLaws
  import opened DistributionLaws
  import opened MigrationLaws

  /** Both contracts' invariants and the agreement between them. */
  ghost predicate Inv(b: Book, c: Deployment, e: EmitterState, now: nat) {
    && EmitterInv(e, now) && BookInv(b, c, now) && Deployed(c, e.initialBackstop)
    && Lifecycle(b.migration, b.ongoing.lastDistribution, b.ongoing.totalDistributed, e, c.self, now)
    && Attested(b.migration, e, c.self, c.migrationToken, now)
  }

  // Ongoing distribution.

  function LastOf(b: Book): nat {
    if b.ongoing.lastDistribution.Some? then b.ongoing.lastDistribution.value else 0
  }

  lemma DistributeActiveForm(b: Book, c: Deployment, e: EmitterState, comet: Composition, now: nat,
                             minted: Result<(EmitterState, int)>)
    requires CheckedOngoing(b.ongoing) == Success(b.ongoing) && e.backstop == c.self && b.zone != []
    requires c.self in e.lastDistro && b.ongoing.lastDistribution.Some? && LastOf(b) <= e.lastDistro[c.self]
    requires minted == Emitters.Distribute(e, c.self, now) && minted.Success?
    requires minted.value.1 == SCALAR_7 * (now - e.lastDistro[c.self]) && 0 <= minted.value.1
    requires c.self in minted.value.0.lastDistro && minted.value.0.lastDistro[c.self] == now
    requires MintedTo(e, minted.value.0, c.self) == minted.value.1
    ensures var r, weights := DistributeActive(b, c, e, comet, now), CollectWeights(b.pools, b.zone, Some(comet));
            var before := e.lastDistro[c.self];
            if weights.Failure? then r == Failure(weights.error)
            else if now - LastOf(b) < MIN_DISTRIBUTION_INTERVAL_SECONDS then r == Failure(DistributionTooSoon)
            else if !b.bindingVerified && before == now then r == Failure(InvalidOngoingBalance)
            else if !FitsI128((now - LastOf(b)) * SCALAR_7) then r == Failure(Overflow)
            else
              var next := AllocateInto(b, (now - LastOf(b)) * SCALAR_7, now, weights.value.0, weights.value.1);
              if next.Failure? then r == Failure(next.error)
              else r == Success((next.value.(bindingVerified := true), minted.value.0, (now - LastOf(b)) * SCALAR_7))
  {
    hide CollectWeights, Emitters.Distribute, AllocateInto, MintedTo;
  }

  lemma ActiveFacts(b: Book, c: Deployment, e: EmitterState, now: nat)
    requires Inv(b, c, e, now) && IsActive(b)
    ensures CheckedOngoing(b.ongoing) == Success(b.ongoing)
    ensures c.self in e.lastDistro && b.ongoing.lastDistribution.Some? && LastOf(b) <= e.lastDistro[c.self] <= now
    ensures Activated(b.migration, Some(LastOf(b)), b.ongoing.totalDistributed, e, c.self, now)
  {
    hide Holdings, Sum, DropLedger, SwapTiming, Attested;
  }

  lemma ActiveLifecycle(m: Migration, last: nat, total: int, e: EmitterState, d: EmitterState, self: Address,
                        amount: int, now: nat)
    requires EmitterInv(e, now) && Lifecycle(m, Some(last), total, e, self, now) && m.activatedAt.Some?
             && e.backstop == self
    requires Emitters.Distribute(e, self, now).Success? && d == Emitters.Distribute(e, self, now).value.0
    requires last <= now && amount == (now - last) * SCALAR_7
    ensures Lifecycle(m, Some(now), total + amount, d, self, now)
  {
    DistributeKeeps(e, now);
    hide EmitterInv;
  }

  /** The active phase. `before` is the emitter's checkpoint, `last` the contract's own: the contract books
      every second since `last`, the emitter mints every second since `before`. The two agree exactly when
      the contract was not re-installed in between. */
  lemma DistributeActiveKeeps(b: Book, c: Deployment, e: EmitterState, comet: Composition, now: nat)
    requires Inv(b, c, e, now) && IsActive(b)
    requires Covers(Some(comet), HeldOf(b, BlntUsdc), HeldOf(b, BlntXlm))
    ensures var r := Backstops.Distribute(b, c, e, comet, now);
            if r.Failure? then
              || (r.error == EmitterDidNotMigrate && e.backstop != c.self)
              || (r.error == NoEligibleWeight && b.zone == [])
              || (r.error == InvalidEmissionValue && !Readables(Some(comet)))
              || (r.error == DistributionTooSoon && now - LastOf(b) < MIN_DISTRIBUTION_INTERVAL_SECONDS)
              || (r.error == InvalidOngoingBalance && !b.bindingVerified && e.lastDistro[c.self] == now)
              || r.error == Overflow
            else
              var (n, d, amount) := r.value;
              && e.backstop == c.self && Emitters.Distribute(e, c.self, now).Success?
              && var emitted := Emitters.Distribute(e, c.self, now).value.1;
              && Inv(n, c, d, now) && d == Emitters.Distribute(e, c.self, now).value.0
              && LedgersOnly(b, n) && Distributed(b, n, amount, now) && n.migration == b.migration
              && amount - emitted == SCALAR_7 * (e.lastDistro[c.self] - LastOf(b)) >= 0
              && (amount == emitted <==> e.lastDistro[c.self] == LastOf(b))
  {
    hide BookInv, EmitterInv, Lifecycle, Activated, CollectWeights, Emitters.Distribute, AllocateInto,
         DistributeActive, ZoneWeights,
         CheckedOngoing, Deployed;
    ActiveFacts(b, c, e, now);
    if e.backstop == c.self {
      if b.zone != [] {
        DistributeKeeps(e, now);
        var minted := Emitters.Distribute(e, c.self, now);
        DistributeActiveForm(b, c, e, comet, now, minted);
        BookHoldings(b, c, now);
        CollectWeightsExact(b, c, Some(comet), now);
        var weights := CollectWeights(b.pools, b.zone, Some(comet));
        if weights.Success? {
          var amount := (now - LastOf(b)) * SCALAR_7;
          AllocateIntoKeeps(b, c, amount, now, Some(comet), weights.value.0, weights.value.1, now);
          var next := AllocateInto(b, amount, now, weights.value.0, weights.value.1);
          if next.Success? {
            FlagsKeep(next.value, next.value.(bindingVerified := true), c, now);
            ActiveLifecycle(b.migration, LastOf(b), b.ongoing.totalDistributed, e, minted.value.0, c.self, amount, now);
          }
        }
      } else {
        EmptyZoneRefused(b, c, e, comet, now);
      }
    } else {
      NotCurrentRefused(b, c, e, comet, now);
    }
  }

  lemma EmptyZoneRefused(b: Book, c: Deployment, e: EmitterState, comet: Composition, now: nat)
    requires e.backstop == c.self && b.zone == []
    ensures DistributeActive(b, c, e, comet, now) == Failure(NoEligibleWeight)
  {
    hide CollectWeights, Emitters.Distribute, AllocateInto;
  }

  lemma NotCurrentRefused(b: Book, c: Deployment, e: EmitterState, comet: Composition, now: nat)
    requires e.backstop != c.self
    ensures DistributeActive(b, c, e, comet, now) == Failure(EmitterDidNotMigrate)
  {
    hide CollectWeights, Emitters.Distribute, AllocateInto;
  }

  lemma BookHoldings(b: Book, c: Deployment, now: nat)
    requires BookInv(b, c, now)
    ensures Holdings(b, c, now) && OngoingLedger(b.ongoing)
  {
    hide Holdings, OngoingLedger, Sum;
  }

  // Activation.

  lemma InactiveParts(b: Book, c: Deployment, e: EmitterState, now: nat)
    requires Inv(b, c, e, now) && !IsActive(b)
    ensures BookInv(b, c, now) && EmitterInv(e, now) && CheckedOngoing(b.ongoing) == Success(b.ongoing)
    ensures Lifecycle(b.migration, b.ongoing.lastDistribution, b.ongoing.totalDistributed, e, c.self, now)
    ensures Attested(b.migration, e, c.self, c.migrationToken, now)
  {
    hide Holdings, Sum, EmitterInv, Lifecycle, Attested;
  }

  lemma ActivateForm(b: Book, c: Deployment, e: EmitterState, now: nat)
    requires Activate(b, c, e, now).Success?
    ensures var (n, last) := Activate(b, c, e, now).value;
            && n == b.(ongoing := b.ongoing.(lastDistribution := Some(last)), migration := n.migration)
            && n.migration.activatedAt == Some(now)
  {
    hide CheckActivationWindow;
  }

  lemma ActivatingForm(b: Book, c: Deployment, e: EmitterState, comet: Composition, now: nat)
    requires !IsActive(b) && e.backstop == c.self
    requires Activate(b, c, e, now).Success? ==>
               var o := Activate(b, c, e, now).value.0.ongoing; CheckedOngoing(o) == Success(o)
    ensures Backstops.Distribute(b, c, e, comet, now) ==
            match Activate(b, c, e, now)
            case Failure(x) => Failure(x)
            case Success((active, checkpoint)) =>
              match AdvanceOnly(active, active.ongoing, checkpoint)
              case Failure(x) => Failure(x)
              case Success(n) => Success((n, e, 0))
  {
    hide Activate, AdvanceOnly, CheckedOngoing;
  }

  lemma CheckIgnoresClock(o: Ongoing, last: Option<nat>)
    requires CheckedOngoing(o) == Success(o)
    ensures CheckedOngoing(o.(lastDistribution := last)) == Success(o.(lastDistribution := last))
  {
  }

  /** The switch: distribution by a contract the emitter already points at. Apart from overflow it succeeds
      exactly when nothing was prepared or the attested window is open; the swap that was attested is then
      the one that was executed. Nothing is distributed and no refusal comes from the checkpoints. */
  lemma ActivationKeeps(b: Book, c: Deployment, e: EmitterState, comet: Composition, now: nat)
    requires Inv(b, c, e, now) && !IsActive(b) && e.backstop == c.self
    ensures var r, m := Backstops.Distribute(b, c, e, comet, now), b.migration;
            var open := m.verifiedUnlock.Some?
                        && m.verifiedUnlock.value <= now <= m.verifiedUnlock.value + ACTIVATION_GRACE_SECONDS;
            if r.Failure? then
              || r.error == Overflow
              || (m.epochStart.Some? && !open && r.error == if m.verifiedUnlock.Some? then SyncWindowExpired
                 else MigrationNotPrepared)
            else
              var (n, d, amount) := r.value;
              && Inv(n, c, d, now) && d == e && amount == 0 && IsActive(n) && LedgersOnly(b, n)
              && (m.epochStart.Some? ==>
                    open && JustExecuted(m.verifiedUnlock.value, e, c.self, c.migrationToken)
                    && e.history.lastSwap.value.at <= now)
              && n.migration.scheduledBackfill == m.scheduledBackfill
              && n.migration.skippedBefore == At(e.history.skipped, c.self)
              && n.ongoing.totalDistributed == b.ongoing.totalDistributed
  {
    hide BookInv, EmitterInv, Lifecycle, Activate, AdvanceOnly, CheckedOngoing, Deployed, Attested;
    InactiveParts(b, c, e, now);
    ActivationExact(b, c, e, now);
    var a := Activate(b, c, e, now);
    if a.Success? {
      var (active, checkpoint) := a.value;
      ActivateForm(b, c, e, now);
      CheckIgnoresClock(b.ongoing, Some(checkpoint));
      ActivatingForm(b, c, e, comet, now);
      FlagsKeep(b, active, c, now);
      AdvanceOnlyKeeps(active, c, checkpoint, now);
      ActiveNeedsNoAttestation(active.migration, e, c.self, c.migrationToken, now);
      LastSwapPast(e, now);
    } else {
      ActivatingForm(b, c, e, comet, now);
    }
  }

  lemma ActiveNeedsNoAttestation(m: Migration, e: EmitterState, self: Address, token: Address, now: nat)
    requires m.activatedAt.Some?
    ensures Attested(m, e, self, token, now)
  {
  }

  lemma LastSwapPast(e: EmitterState, now: nat)
    requires EmitterInv(e, now)
    ensures e.history.lastSwap.Some? ==> e.history.lastSwap.value.at <= now
  {
    hide EmissionLedger, DropLedger;
  }

  // Backfill.

  lemma NothingYet(o: Ongoing, now: nat)
    requires OngoingLedger(o) && o.totalDistributed == 0 && o.lastDistribution.None?
    ensures NothingSince(Some(now)) == o.(lastDistribution := Some(now))
  {
  }

  lemma PreparedBook(b: Book, p: Book, c: Deployment, e: EmitterState, now: nat)
    requires Inv(b, c, e, now) && !IsActive(b)
    requires p == b.(migration := p.migration, ongoing := p.ongoing, zoneCheckpoint := p.zoneCheckpoint,
                     distributionStarted := p.distributionStarted)
    requires p.ongoing == if b.migration.epochStart.None? then NothingSince(Some(now)) else b.ongoing
    ensures BookInv(p, c, now) && CheckedOngoing(p.ongoing) == Success(p.ongoing)
    ensures p.ongoing.totalDistributed == b.ongoing.totalDistributed
  {
    hide Holdings, EmitterInv, GlobalLedger, CheckedOngoing, Attested;
    BookHoldings(b, c, now);
    InactiveParts(b, c, e, now);
    if b.migration.epochStart.None? {
      NothingYet(b.ongoing, now);
      CheckIgnoresClock(b.ongoing, Some(now));
    }
    FlagsKeep(b, p, c, now);
  }

  function Accrued(b: Book, checkpoint: nat): int {
    Min((checkpoint - LastOf(b)) * SCALAR_7, MAX_BACKFILLED_EMISSIONS - b.migration.scheduledBackfill)
  }

  lemma CheckpointBackfillForm(b: Book, checkpoint: nat)
    requires !IsActive(b) && CheckedOngoing(b.ongoing) == Success(b.ongoing)
    requires b.ongoing.lastDistribution.Some? && LastOf(b) <= checkpoint
    requires 0 <= b.migration.scheduledBackfill <= MAX_BACKFILLED_EMISSIONS
    ensures var r, weights := CheckpointBackfill(b, checkpoint), CollectWeights(b.pools, b.zone, None);
            if weights.Failure? then r == Failure(weights.error)
            else if weights.value.1 == 0 then
              match AdvanceOnly(b, b.ongoing, checkpoint)
              case Failure(x) => r == Failure(x)
              case Success(n) => r == Success((n, 0))
            else if !FitsI128((checkpoint - LastOf(b)) * SCALAR_7) then r == Failure(Overflow)
            else
              match AllocateInto(b, Accrued(b, checkpoint), checkpoint, weights.value.0, weights.value.1)
              case Failure(x) => r == Failure(x)
              case Success(n) =>
                r == Success((n.(migration := b.migration.(scheduledBackfill := b.migration.scheduledBackfill
                  + Accrued(b, checkpoint))),
                              Accrued(b, checkpoint)))
  {
    hide CollectWeights, AllocateInto, AdvanceOnly, CheckedOngoing;
  }

  lemma BackfillFacts(m: Migration, last: Option<nat>, total: int, e: EmitterState, self: Address, now: nat)
    requires Lifecycle(m, last, total, e, self, now) && m.activatedAt.None? && m.epochStart.Some?
    ensures Backfilling(m, last, total, e, self, now)
  {
  }

  lemma BackfillLifecycle(m: Migration, last: Option<nat>, total: int, e: EmitterState, self: Address, amount: int,
                          now: nat)
    requires Lifecycle(m, last, total, e, self, now) && m.activatedAt.None? && m.epochStart.Some? && e.backstop != self
    requires last.Some?
    requires 0 <= amount <= (now - last.value) * SCALAR_7 && m.scheduledBackfill + amount <= MAX_BACKFILLED_EMISSIONS
    ensures Lifecycle(m.(scheduledBackfill := m.scheduledBackfill + amount), Some(now), total + amount, e, self, now)
  {
  }

  lemma ScheduledIgnored(m: Migration, n: Migration, e: EmitterState, self: Address, token: Address, now: nat)
    requires Attested(m, e, self, token, now) && n == m.(scheduledBackfill := n.scheduledBackfill)
    ensures Attested(n, e, self, token, now)
  {
  }

  /** Checkpointing an open epoch, with every other error excluded. */
  lemma CheckpointKeeps(p: Book, c: Deployment, e: EmitterState, now: nat)
    requires BookInv(p, c, now) && !IsActive(p) && e.backstop != c.self && p.migration.epochStart.Some?
    requires Lifecycle(p.migration, p.ongoing.lastDistribution, p.ongoing.totalDistributed, e, c.self, now)
    requires Attested(p.migration, e, c.self, c.migrationToken, now)
    requires CheckedOngoing(p.ongoing) == Success(p.ongoing)
    ensures var r := CheckpointBackfill(p, now);
            if r.Failure? then r.error == Overflow
            else
              var (n, amount) := r.value;
              && BookInv(n, c, now) && LedgersOnly(p, n) && !IsActive(n)
                 && n.migration.epochStart == p.migration.epochStart
              && Lifecycle(n.migration, Some(now), n.ongoing.totalDistributed, e, c.self, now)
              && Attested(n.migration, e, c.self, c.migrationToken, now)
              && n.ongoing.lastDistribution == Some(now)
              && n.ongoing.totalDistributed == n.migration.scheduledBackfill == p.migration.scheduledBackfill + amount
              && 0 <= amount <= SCALAR_7 * (now - LastOf(p)) && LastOf(p) <= now
  {
    hide BookInv, Lifecycle, CheckpointBackfill, CheckedOngoing, Attested, AllocateInto, AdvanceOnly, CollectWeights,
         ZoneWeights;
    BookHoldings(p, c, now);
    BackfillFacts(p.migration, p.ongoing.lastDistribution, p.ongoing.totalDistributed, e, c.self, now);
    CheckpointBackfillForm(p, now);
    CollectWeightsExact(p, c, None, now);
    var weights := CollectWeights(p.pools, p.zone, None);
    if weights.Success? {
      if weights.value.1 == 0 {
        AdvanceOnlyKeeps(p, c, now, now);
        BackfillLifecycle(p.migration, p.ongoing.lastDistribution, p.ongoing.totalDistributed, e, c.self, 0, now);
      } else {
        var amount := Accrued(p, now);
        AllocateIntoKeeps(p, c, amount, now, None, weights.value.0, weights.value.1, now);
        var next := AllocateInto(p, amount, now, weights.value.0, weights.value.1);
        if next.Success? && CheckpointBackfill(p, now).Success? {
          var n := CheckpointBackfill(p, now).value.0;
          FlagsKeep(next.value, n, c, now);
          BackfillLifecycle(p.migration, p.ongoing.lastDistribution, p.ongoing.totalDistributed, e, c.self, amount,
            now);
          ScheduledIgnored(p.migration, n.migration, e, c.self, c.migrationToken, now);
        }
      }
    }
  }

  lemma BackfillForm(b: Book, c: Deployment, e: EmitterState, comet: Composition, now: nat)
    requires !IsActive(b) && e.backstop != c.self
    ensures Backstops.Distribute(b, c, e, comet, now) ==
            match PrepareBackfill(b, c, e, now)
            case Failure(x) => Failure(x)
            case Success(p) =>
              match CheckpointBackfill(p, now)
              case Failure(x) => Failure(x)
              case Success((n, amount)) => Success((n, e, amount))
  {
    hide PrepareBackfill, CheckpointBackfill;
  }

  /** Backfill can be refused only because a foreign swap is queued, or by overflow: the epoch is open by
      then, time has not run backwards, and the cap is respected by construction. */
  lemma BackfillKeeps(b: Book, c: Deployment, e: EmitterState, comet: Composition, now: nat)
    requires Inv(b, c, e, now) && !IsActive(b) && e.backstop != c.self
    ensures var r := Backstops.Distribute(b, c, e, comet, now);
            if r.Failure? then
              || r.error == Overflow
              || (r.error == InvalidQueuedSwap && e.queued.Some?
                  && (e.queued.value.newBackstop != c.self || e.queued.value.newBackstopToken != c.migrationToken))
            else
              var (n, d, amount) := r.value;
              && Inv(n, c, d, now) && d == e && !IsActive(n) && n.migration.epochStart.Some? && LedgersOnly(b, n)
              && n.ongoing.lastDistribution == Some(now)
              && n.ongoing.totalDistributed == n.migration.scheduledBackfill == b.migration.scheduledBackfill + amount
              && 0 <= amount
              && (amount > 0 ==> b.migration.epochStart.Some? && amount <= SCALAR_7 * (now - LastOf(b)))
              && (b.migration.epochStart.Some? ==> n.migration.epochStart == b.migration.epochStart)
  {
    hide BookInv, EmitterInv, Lifecycle, PrepareBackfill, CheckpointBackfill, CheckedOngoing, Deployed, Attested,
         Backstops.Distribute;
    InactiveParts(b, c, e, now);
    PrepareKeeps(b, c, e, now);
    BackfillForm(b, c, e, comet, now);
    var prepared := PrepareBackfill(b, c, e, now);
    if prepared.Success? {
      var p := prepared.value;
      PreparedBook(b, p, c, e, now);
      if b.migration.epochStart.None? {
        assert LastOf(p) == now;
      }
      CheckpointKeeps(p, c, e, now);
    }
  }

  // The drop.

  lemma {:induction false} AmountsAppend(list: seq<(Address, int)>, a: Address, amount: int)
    ensures SeqSum(Amounts(list + [(a, amount)])) == SeqSum(Amounts(list)) + amount
    ensures forall x :: AmountTo(list + [(a, amount)], x) == AmountTo(list, x) + if x == a then amount else 0
    decreases |list|
  {
    var longer := list + [(a, amount)];
    if list == [] {
      assert Amounts(longer) == [amount] && [amount][1..] == [];
      assert longer[1..] == [];
    } else {
      assert Amounts(longer)[1..] == Amounts(longer[1..]) && longer[1..] == list[1..] + [(a, amount)];
      assert Amounts(list)[1..] == Amounts(list[1..]);
      AmountsAppend(list[1..], a, amount);
    }
  }

  lemma {:induction false} DropTotalsExact(list: seq<(Address, int)>, self: Address, total: int, own: int)
    requires forall i | 0 <= i < |list| :: 0 <= list[i].1
    requires 0 <= own <= total && total + SeqSum(Amounts(list)) <= I128_MAX
    ensures DropTotals(list, self, total, own) == Success((total + SeqSum(Amounts(list)), own + AmountTo(list, self)))
    decreases |list|
  {
    if list != [] {
      assert Amounts(list)[1..] == Amounts(list[1..]);
      AmountsNonNegative(list[1..]);
      assert forall i | 0 <= i < |list[1..]| :: list[1..][i] == list[i + 1];
      DropTotalsExact(list[1..], self, total + list[0].1, if list[0].0 == self then own + list[0].1 else own);
    }
  }

  lemma DropForm(b: Book, c: Deployment, e: EmitterState, total: int, expected: int)
    requires IsActive(b) && b.migration.fundedBackfill.None?
    requires 0 <= b.migration.scheduledBackfill <= MAX_BACKFILLED_EMISSIONS
    requires DropTotals(c.dropList, c.self, b.migration.scheduledBackfill, b.migration.scheduledBackfill)
             == Success((total, expected))
    ensures Backstops.Drop(b, c, e) ==
            if total > DropCap(c) then Failure(InvalidBackfillFunding)
            else
              match Emitters.Drop(e, c.self, DropRecipients(c, b.migration.scheduledBackfill))
              case Failure(x) => Failure(x)
              case Success(d) =>
                if At(d.history.dropMinted, c.self) - At(e.history.dropMinted,
                    c.self) != expected
                then Failure(InvalidBackfillFunding)
                else Success((b.(migration := b.migration.(fundedBackfill := Some(b.migration.scheduledBackfill)),
                    bindingVerified := true), d))
  {
    hide Emitters.Drop, DropTotals;
  }

  lemma RecipientsExact(c: Deployment, scheduled: int, initialBackstop: Address)
    requires Deployed(c, initialBackstop) && 0 <= scheduled
    ensures var list := DropRecipients(c, scheduled);
            && (forall i | 0 <= i < |list| :: 0 <= list[i].1)
            && SeqSum(Amounts(list)) == SeqSum(Amounts(c.dropList)) + scheduled
            && AmountTo(list, c.self) == AmountTo(c.dropList, c.self) + scheduled
            && (forall a :: AmountTo(list, a) == AmountTo(c.dropList, a) + if a == c.self then scheduled else 0)
            && 0 <= SeqSum(Amounts(c.dropList)) && 0 <= AmountTo(c.dropList, c.self)
  {
    AmountsAppend(c.dropList, c.self, scheduled);
    AmountsNonNegative(c.dropList);
    AmountToNonNegative(c.dropList, c.self);
  }

  /** The emitter accepts this contract's drop once, whatever it schedules within the caps. */
  lemma EmitterAccepts(e: EmitterState, self: Address, list: seq<(Address, int)>, now: nat)
    requires EmitterInv(e, now) && (forall i | 0 <= i < |list| :: 0 <= list[i].1)
    ensures var r := Emitters.Drop(e, self, list);
            if e.backstop != self then r == Failure(Unauthorized)
            else if self in e.dropped then r == Failure(BadDrop)
            else if SeqSum(Amounts(list)) > Emitters.DropCap(e) then r.Failure?
            else
              && r.Success? && EmitterInv(r.value, now) && self in r.value.dropped
              && r.value == e.(dropped := e.dropped + {self},
                               history := e.history.(dropMinted := r.value.history.dropMinted,
                                 dropTotal := r.value.history.dropTotal))
              && (forall a :: At(r.value.history.dropMinted, a) == At(e.history.dropMinted, a) + AmountTo(list, a))
              && 0 <= At(e.history.dropMinted, self)
  {
    hide EmissionLedger, SwapTiming, Sum, Emitters.MintAll, AmountTo, SeqSum, Emitters.DropAmount;
    DropAmountExact(list, 0, Emitters.DropCap(e));
    if Emitters.Drop(e, self, list).Success? {
      DropKeeps(e, self, list, now);
    }
  }

  lemma DropLifecycle(m: Migration, last: Option<nat>, total: int, e: EmitterState, d: EmitterState, self: Address,
                      now: nat)
    requires Lifecycle(m, last, total, e, self, now) && m.activatedAt.Some?
    requires d == e.(dropped := e.dropped + {self}, history := d.history)
    requires d.history == e.history.(dropMinted := d.history.dropMinted, dropTotal := d.history.dropTotal)
    requires m.scheduledBackfill <= At(d.history.dropMinted, self)
    ensures Lifecycle(m.(fundedBackfill := Some(m.scheduledBackfill)), last, total, d, self, now)
  {
  }

  /** The drop of an active, current, not yet funded contract always succeeds, unless it is the emitter's
      initial backstop with an extended list on top of which backfill exceeds the initial cap. A migration
      candidate never exceeds a cap on either contract. */
  lemma DropKeepsAll(b: Book, c: Deployment, e: EmitterState, now: nat)
    requires Inv(b, c, e, now)
    ensures var r := Backstops.Drop(b, c, e);
            var total := SeqSum(Amounts(c.dropList)) + b.migration.scheduledBackfill;
            if b.migration.fundedBackfill.Some? then r == Failure(BackfillAlreadyFunded)
            else if !IsActive(b) then r == Failure(MigrationNotActive)
            else if total > DropCap(c) then r == Failure(InvalidBackfillFunding) && c.extendedDrop
            else if e.backstop != c.self then r == Failure(Unauthorized)
            else
              && r.Success?
              && var (n, d) := r.value;
              && Inv(n, c, d, now) && n == b.(migration := n.migration, bindingVerified := true)
              && n.migration == b.migration.(fundedBackfill := Some(b.migration.scheduledBackfill))
              && d == e.(dropped := e.dropped + {c.self},
                         history := e.history.(dropMinted := d.history.dropMinted, dropTotal := d.history.dropTotal))
              && (forall a ::
                    At(d.history.dropMinted, a) == At(e.history.dropMinted, a) + AmountTo(c.dropList, a)
                                                   + if a == c.self then b.migration.scheduledBackfill else 0)
  {
    hide BookInv, EmitterInv, Lifecycle, Deployed, Attested, SeqSum, AmountTo, DropRecipients, Emitters.Drop,
         DropTotals, Activated, Backstops.Drop;
    DropGuards(b, c, e);
    if b.migration.fundedBackfill.None? && IsActive(b) {
      var scheduled := b.migration.scheduledBackfill;
      ActiveParts(b, c, e, now);
      RecipientsExact(c, scheduled, e.initialBackstop);
      CapsFit(c, e);
      DropTotalsExact(c.dropList, c.self, scheduled, scheduled);
      DropForm(b, c, e, SeqSum(Amounts(c.dropList)) + scheduled, scheduled + AmountTo(c.dropList, c.self));
      EmitterAccepts(e, c.self, DropRecipients(c, scheduled), now);
      if e.backstop == c.self && SeqSum(Amounts(c.dropList)) + scheduled <= DropCap(c) {
        var (n, d) := Backstops.Drop(b, c, e).value;
        FlagsKeep(b, n, c, now);
        DropLifecycle(b.migration, b.ongoing.lastDistribution, b.ongoing.totalDistributed, e, d, c.self, now);
        ActiveNeedsNoAttestation(n.migration, d, c.self, c.migrationToken, now);
      }
    }
  }

  lemma DropGuards(b: Book, c: Deployment, e: EmitterState)
    ensures b.migration.fundedBackfill.Some? ==> Backstops.Drop(b, c, e) == Failure(BackfillAlreadyFunded)
    ensures b.migration.fundedBackfill.None? && !IsActive(b) ==> Backstops.Drop(b, c, e) == Failure(MigrationNotActive)
  {
    hide Emitters.Drop, DropTotals;
  }

  lemma ActiveParts(b: Book, c: Deployment, e: EmitterState, now: nat)
    requires Inv(b, c, e, now) && IsActive(b)
    ensures EmitterInv(e, now) && BookInv(b, c, now) && Deployed(c, e.initialBackstop)
    ensures Lifecycle(b.migration, b.ongoing.lastDistribution, b.ongoing.totalDistributed, e, c.self, now)
    ensures 0 <= b.migration.scheduledBackfill <= MAX_BACKFILLED_EMISSIONS
    ensures c.self in e.dropped <==> b.migration.fundedBackfill.Some?
  {
    hide BookInv, EmitterInv, Attested, Deployed;
  }

  /** A drop within this contract's own cap is within the emitter's; without an extended list it is always
      within both. */
  lemma CapsFit(c: Deployment, e: EmitterState)
    requires Deployed(c, e.initialBackstop)
    ensures DropCap(c) == (if c.extendedDrop then 150_000_000 else 50_000_000) * 10_000_000
    ensures e.backstop == c.self ==> DropCap(c) <= Emitters.DropCap(e)
    ensures !c.extendedDrop ==> SeqSum(Amounts(c.dropList)) + MAX_BACKFILLED_EMISSIONS <= DropCap(c)
    ensures SeqSum(Amounts(c.dropList)) <= Emitters.MAX_INITIAL_DROP
    ensures forall i | 0 <= i < |c.dropList| :: 0 <= c.dropList[i].1
  {
    hide SeqSum;
  }
}
