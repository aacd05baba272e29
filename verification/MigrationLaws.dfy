/** The migration lifecycle against the emitter's clock: what an attestation proves, when activation is
    possible, and what backfill and ongoing distribution add up to. */
module MigrationLaws {
  import opened Numbers
  import opened Sums
  import opened Emitters
  import opened EmitterLaws
  import opened Backstops
  import opened Allocation

  const RETRY: nat := QUEUE_SECONDS - QUEUE_ATTESTATION_WINDOW_SECONDS

  /** Nothing was prepared or distributed. */
  predicate Pending(m: Migration, last: Option<nat>, total: int) {
    && last.None? && total == 0 && m.scheduledBackfill == 0
    && m.verifiedUnlock.None? && m.fundedBackfill.None? && m.backfillEnd.None?
  }

  /** The epoch is open: everything distributed so far is backfill, no more than the cap and no more than
      one BLNT for each second since the epoch opened. */
  predicate Backfilling(m: Migration, last: Option<nat>, total: int, e: EmitterState, self: Address, now: nat)
    requires m.epochStart.Some?
  {
    && last.Some? && m.epochStart.value <= last.value <= now
    && 0 <= m.scheduledBackfill == total <= MAX_BACKFILLED_EMISSIONS
    && total <= SCALAR_7 * (last.value - m.epochStart.value)
    && m.fundedBackfill.None? && m.backfillEnd.None?
    && (e.backstop == self ==> self in e.lastDistro && last.value <= e.lastDistro[self])
  }

  /** Active: backfill ended no later than the checkpoint ongoing distribution starts from, every second
      since that checkpoint was distributed once, and the history recorded at activation matches the
      emitter's ledger at that time. */
  predicate Activated(m: Migration, last: Option<nat>, total: int, e: EmitterState, self: Address, now: nat) {
    && last.Some? && self in e.lastDistro && self in e.history.installedAt
    && m.activationCheckpoint <= last.value <= e.lastDistro[self]
    && total == m.scheduledBackfill + SCALAR_7 * (last.value - m.activationCheckpoint)
    && m.backfillEnd.Some? && m.backfillEnd.value <= m.activationCheckpoint
    && 0 <= m.scheduledBackfill <= MAX_BACKFILLED_EMISSIONS
    && (match m.epochStart
        case None => m.scheduledBackfill == 0
        case Some(start) =>
          start <= m.backfillEnd.value && m.scheduledBackfill <= SCALAR_7 * (m.backfillEnd.value - start))
    && m.mintedBefore == SCALAR_7 * (m.activationCheckpoint - e.history.installedAt[self] - m.skippedBefore)
    && m.skippedBefore <= At(e.history.skipped, self)
    && (m.fundedBackfill.Some? ==>
          m.fundedBackfill.value == m.scheduledBackfill && m.scheduledBackfill <= At(e.history.dropMinted, self))
  }

  predicate Lifecycle(m: Migration, last: Option<nat>, total: int, e: EmitterState, self: Address, now: nat) {
    && (self in e.dropped <==> m.fundedBackfill.Some?)
    && if m.activatedAt.Some? then Activated(m, last, total, e, self, now)
       else if m.epochStart.Some? then Backfilling(m, last, total, e, self, now)
       else Pending(m, last, total)
  }

  /** The attested swap is still the queued one. */
  predicate StillQueued(unlock: nat, e: EmitterState, self: Address, token: Address) {
    e.backstop != self && e.queued == Some(Swap(self, token, unlock))
  }

  /** The attested swap was executed, in its window, and no swap ran since. */
  predicate JustExecuted(unlock: nat, e: EmitterState, self: Address, token: Address) {
    && e.backstop == self && e.history.lastSwap.Some?
    && e.history.lastSwap.value.swap == Swap(self, token, unlock)
    && unlock <= e.history.lastSwap.value.at <= unlock + SWAP_GRACE_SECONDS
  }

  /** The attested swap is gone. Whatever installs this backstop now was queued too late for the
      attestation's window. */
  predicate Stale(unlock: nat, e: EmitterState, self: Address, now: nat) {
    || unlock + RETRY <= now
    || (e.backstop != self && (e.queued.Some? ==> unlock + RETRY <= e.queued.value.unlockTime))
  }

  predicate Attested(m: Migration, e: EmitterState, self: Address, token: Address, now: nat) {
    m.activatedAt.None? && m.verifiedUnlock.Some? ==>
      var unlock := m.verifiedUnlock.value;
      && FitsU64(unlock + ACTIVATION_GRACE_SECONDS) && unlock <= now + QUEUE_ATTESTATION_WINDOW_SECONDS
      && (StillQueued(unlock, e, self, token) || JustExecuted(unlock, e, self, token) || Stale(unlock, e, self, now))
  }

  // The emitter's own steps.

  lemma WaitKeeps(m: Migration, last: Option<nat>, total: int, e: EmitterState, self: Address, token: Address,
                  now: nat, later: nat)
    requires Lifecycle(m, last, total, e, self, now) && Attested(m, e, self, token, now) && now <= later
    ensures Lifecycle(m, last, total, e, self, later) && Attested(m, e, self, token, later)
  {
  }

  /** Another backstop collecting its emission. */
  lemma OtherDistributes(m: Migration, last: Option<nat>, total: int, e: EmitterState, self: Address, token: Address,
                         now: nat)
    requires EmitterInv(e, now) && Lifecycle(m, last, total, e, self, now) && Attested(m, e, self, token, now)
    requires e.backstop != self
    ensures var d := Emitters.Distribute(e, e.backstop, now).value.0;
            Lifecycle(m, last, total, d, self, now) && Attested(m, d, self, token, now)
  {
    DistributeKeeps(e, now);
    hide EmitterInv;
  }

  lemma QueueAttested(m: Migration, last: Option<nat>, total: int, e: EmitterState, self: Address, token: Address,
                      candidate: Address, newToken: Address, contest: Contest, now: nat)
    requires EmitterInv(e, now) && Lifecycle(m, last, total, e, self, now) && Attested(m, e, self, token, now)
    requires QueueSwap(e, candidate, newToken, contest, now).Success?
    ensures var s := QueueSwap(e, candidate, newToken, contest, now).value;
            Lifecycle(m, last, total, s, self, now) && Attested(m, s, self, token, now)
  {
    hide EmissionLedger, DropLedger;
  }

  lemma CancelAttested(m: Migration, last: Option<nat>, total: int, e: EmitterState, self: Address, token: Address,
                       contest: Contest, now: nat)
    requires EmitterInv(e, now) && Lifecycle(m, last, total, e, self, now) && Attested(m, e, self, token, now)
    requires CancelSwap(e, contest, now).Success?
    ensures var s := CancelSwap(e, contest, now).value;
            Lifecycle(m, last, total, s, self, now) && Attested(m, s, self, token, now)
  {
    hide EmissionLedger, DropLedger;
  }

  lemma SwapAttested(m: Migration, last: Option<nat>, total: int, e: EmitterState, self: Address, token: Address,
                     contest: Contest, now: nat)
    requires EmitterInv(e, now) && Lifecycle(m, last, total, e, self, now) && Attested(m, e, self, token, now)
    requires SwapBackstop(e, contest, now).Success?
    ensures var s := SwapBackstop(e, contest, now).value;
            Lifecycle(m, last, total, s, self, now) && Attested(m, s, self, token, now)
  {
    DistributeKeeps(e, now);
    var d := Emitters.Distribute(e, e.backstop, now).value.0;
    InstallLifecycle(m, last, total, d, self, token, e.queued.value, now);
  }

  lemma InstallLifecycle(m: Migration, last: Option<nat>, total: int, d: EmitterState, self: Address, token: Address,
                         swap: Swap, now: nat)
    requires EmitterInv(d, now) && Lifecycle(m, last, total, d, self, now) && Attested(m, d, self, token, now)
    requires d.queued == Some(swap) && swap.unlockTime <= now <= swap.unlockTime + SWAP_GRACE_SECONDS
    requires d.lastDistro[d.backstop] == now
    ensures var s := Install(d, swap, now);
            Lifecycle(m, last, total, s, self, now) && Attested(m, s, self, token, now)
  {
    hide DropLedger, Sum;
  }

  lemma OtherDrops(m: Migration, last: Option<nat>, total: int, e: EmitterState, self: Address, token: Address,
                   list: seq<(Address, int)>, now: nat)
    requires EmitterInv(e, now) && Lifecycle(m, last, total, e, self, now) && Attested(m, e, self, token, now)
    requires e.backstop != self && Emitters.Drop(e, e.backstop, list).Success?
    ensures var d := Emitters.Drop(e, e.backstop, list).value;
            Lifecycle(m, last, total, d, self, now) && Attested(m, d, self, token, now)
  {
    DropKeeps(e, e.backstop, list, now);
    AmountToNonNegative(list, self);
  }

  // This backstop's steps.

  /** Activation succeeds exactly when nothing was prepared or the attested window is open, and then the
      attested swap was the one executed, at its own unlock, with no swap since. The checkpoint taken over
      is never before the end of backfill. */
  lemma ActivationExact(b: Book, c: Deployment, e: EmitterState, now: nat)
    requires EmitterInv(e, now) && !IsActive(b) && e.backstop == c.self
    requires Lifecycle(b.migration, b.ongoing.lastDistribution, b.ongoing.totalDistributed, e, c.self, now)
    requires Attested(b.migration, e, c.self, c.migrationToken, now)
    ensures var m, r := b.migration, Activate(b, c, e, now);
            && (r.Success? <==>
                  m.epochStart.None?
                  || (m.verifiedUnlock.Some? && m.verifiedUnlock.value <= now
                     <= m.verifiedUnlock.value + ACTIVATION_GRACE_SECONDS))
            && (r.Failure? ==> r.error == if m.verifiedUnlock.Some? then SyncWindowExpired else MigrationNotPrepared)
    ensures Activate(b, c, e, now).Success? ==>
              var m := b.migration;
              var (n, last) := Activate(b, c, e, now).value;
              && (m.epochStart.Some? ==>
                    m.verifiedUnlock.Some? && JustExecuted(m.verifiedUnlock.value, e, c.self, c.migrationToken))
              && last == e.lastDistro[c.self] <= now && IsActive(n)
              && Lifecycle(n.migration, Some(last), n.ongoing.totalDistributed, e, c.self, now)
              && n.migration.scheduledBackfill == m.scheduledBackfill
              && n.migration.activationCheckpoint == last
              && n.migration.skippedBefore == At(e.history.skipped, c.self)
  {
    hide DropLedger, Sum;
  }

  lemma AttestKeeps(m: Migration, queued: Swap, last: Option<nat>, total: int, e: EmitterState, self: Address,
                    token: Address, now: nat)
    requires Lifecycle(m, last, total, e, self, now) && m.activatedAt.None?
    requires e.backstop != self && e.queued == Some(queued) && queued.newBackstop == self
             && queued.newBackstopToken == token
    ensures AttestQueue(m, queued, now).Failure? ==> AttestQueue(m, queued, now).error == Overflow
    ensures AttestQueue(m, queued, now).Success? ==>
              var n := AttestQueue(m, queued, now).value;
              && n == m.(verifiedUnlock := n.verifiedUnlock) && Attested(n, e, self, token, now)
              && (n.verifiedUnlock.Some? ==> StillQueued(n.verifiedUnlock.value, e, self, token))
  {
  }

  /** Preparing a backfill leaves the epoch open, and an attestation that matches the queue. */
  lemma PrepareKeeps(b: Book, c: Deployment, e: EmitterState, now: nat)
    requires !IsActive(b) && e.backstop != c.self
    requires Lifecycle(b.migration, b.ongoing.lastDistribution, b.ongoing.totalDistributed, e, c.self, now)
    ensures match PrepareBackfill(b, c, e, now)
            case Failure(x) =>
              || x == Overflow
              || (x == InvalidQueuedSwap && e.queued.Some?
                  && (e.queued.value.newBackstop != c.self || e.queued.value.newBackstopToken != c.migrationToken))
            case Success(p) =>
              && Lifecycle(p.migration, p.ongoing.lastDistribution, p.ongoing.totalDistributed, e, c.self, now)
              && Attested(p.migration, e, c.self, c.migrationToken, now)
              && p.migration.epochStart.Some? && !IsActive(p) && p.ongoing.lastDistribution.Some?
              && p.ongoing == (if b.migration.epochStart.None? then NothingSince(Some(now)) else b.ongoing)
              && p.migration.scheduledBackfill == b.migration.scheduledBackfill
              && (b.migration.epochStart.Some? ==> p.migration.epochStart == b.migration.epochStart)
              && p == b.(migration := p.migration, ongoing := p.ongoing, zoneCheckpoint := p.zoneCheckpoint,
                         distributionStarted := p.distributionStarted)
  {
    if e.queued.Some? && e.queued.value.newBackstop == c.self && e.queued.value.newBackstopToken == c.migrationToken {
      AttestKeeps(b.migration, e.queued.value, b.ongoing.lastDistribution, b.ongoing.totalDistributed, e, c.self,
        c.migrationToken, now);
    }
  }

  /** A drop list the constructor accepted, and which cap it falls under. */
  predicate Deployed(c: Deployment, initialBackstop: Address) {
    && (forall i | 0 <= i < |c.dropList| :: 0 <= c.dropList[i].1)
    && SeqSum(Amounts(c.dropList)) <= Emitters.MAX_INITIAL_DROP
    && (c.extendedDrop <==> SeqSum(Amounts(c.dropList)) > MAX_MIGRATION_DROP_LIST)
    && (c.extendedDrop ==> c.self == initialBackstop)
  }
}
