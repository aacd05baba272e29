/** The run that full backing excludes: the emitter leaves an active contract and comes back to it. The
    contract then books seconds the other backstop was paid for. */
module Reinstallation {
  import opened Numbers
  import opened Sums
  import opened Allocation
  import Emitters
  import opened EmitterLaws
  import opened Backstops
  import opened BookLaws
  import opened MigrationLaws
  import opened ContractLaws
  import opened Systems
  import opened SystemLaws
  import opened BackingLaws
  import opened WeightLaws
  import opened Examples

  function Contract(p: Cast): Deployment {
    Deployment(p.self, p.token, map[p.pool := [BlntUsdc]], [], false)
  }

  function SetUp(p: Cast, amount: Int128): seq<Step> {
    [Call(DoDistribute(Market(amount))),
     Call(DoDeposit(TierKey(p.pool, 0), p.user, amount)),
     Call(DoAddReward(p.pool, None, Market(amount)))]
  }

  function ComeBack(p: Cast): seq<Step> {
    [Emit(QueueSwap(p.self, p.token, Wins(p.token))),
     Wait(Emitters.QUEUE_SECONDS),
     Emit(SwapBackstop(Wins(p.token)))]
  }

  function ThereAndBack(p: Cast): seq<Step> {
    Leave(p) + ComeBack(p)
  }

  lemma BeginningStarts(p: Cast, start: nat)
    ensures Starts(Beginning(p, start), Contract(p), p.self, p.token) && ValidConfig(Contract(p))
  {
    hide NewBook;
  }

  /** Active since the beginning, nothing distributed. */
  ghost predicate Fresh(s: System, p: Cast, start: nat) {
    && s.now == start && s.emitter == Beginning(p, start).emitter && IsActive(s.book)
    && s.book.ongoing == NothingSince(Some(start)) && !s.book.bindingVerified
    && s.book.migration.scheduledBackfill == 0 && s.book.migration.activationCheckpoint == start
    && s.book.migration.skippedBefore == 0
  }

  lemma Activates(p: Cast, start: nat, amount: Int128)
    requires Small(start, amount)
    ensures var s := Apply(Beginning(p, start), Contract(p), SetUp(p, amount)[0]);
            && Fresh(s, p, start)
            && s.book.tiers == map[] && s.book.pools == map[] && s.book.zone == [] && s.book.held == map[]
  {
  }

  lemma Deposits(s: System, p: Cast, start: nat, amount: Int128)
    requires Small(start, amount) && Distinguished(p) && Fresh(s, p, start) && Bare(s.book)
    ensures var n := Apply(s, Contract(p), SetUp(p, amount)[1]);
            Fresh(n, p, start) && n.book.zone == [] && Stocked(n.book, p, amount)
  {
    hide Backstops.Deposit, Stocked;
    FirstDeposit(s.book, Contract(p), s.emitter, p, amount, s.now);
  }

  lemma Enters(s: System, p: Cast, start: nat, amount: Int128)
    requires Small(start, amount) && Fresh(s, p, start) && s.book.zone == [] && Stocked(s.book, p, amount)
    ensures var n := Apply(s, Contract(p), SetUp(p, amount)[2]);
            Fresh(n, p, start) && n.book.zone == [p.pool] && Stocked(n.book, p, amount)
  {
    hide AddReward;
    FirstEntry(s.book, Contract(p), s.emitter, p, amount, s.now);
  }

  /** The emitter leaves and comes back: the other backstop is paid the second month, and the contract's
      checkpoint jumps over it. */
  lemma Returns(s: System, p: Cast, start: nat)
    requires Distinguished(p) && s.now == start && start <= 1_000_000_000_000
             && s.emitter == Beginning(p, start).emitter
    ensures var n := Run(s, Contract(p), ThereAndBack(p));
            && n.book == s.book && n.now == start + 2 * Emitters.QUEUE_SECONDS
            && n.emitter.backstop == p.self && p.self in n.emitter.lastDistro && n.emitter.lastDistro[p.self] == n.now
            && At(n.emitter.history.skipped, p.self) == Emitters.QUEUE_SECONDS
            && At(n.emitter.history.minted, p.self) == SCALAR_7 * Emitters.QUEUE_SECONDS
  {
    hide Away, Returning, Emitters.QueueSwap, Emitters.SwapBackstop;
    var c, steps := Contract(p), ComeBack(p);
    Leaves(s, c, p);
    var s3 := Run(s, c, Leave(p));
    var s4 := Apply(s3, c, steps[0]);
    QueuesReturn(s3, c, p);
    var s5 := Apply(s4, c, steps[1]);
    SwapsBack(s5, c, p);
    ThreeSteps(s3, c, steps);
    RunAppend(s, c, Leave(p), steps);
  }

  /** A contract that was active, left and re-installed books both months and the five seconds since, but
      was never minted the second month. */
  lemma OverBooks(p: Cast, start: nat, amount: Int128)
    requires Small(start, amount) && Distinguished(p)
    ensures var c, steps := Contract(p),
            SetUp(p, amount) + ThereAndBack(p) + [Wait(5), Call(DoDistribute(Market(amount)))];
            && Starts(Beginning(p, start), c, p.self, p.token) && ValidConfig(c)
            && var r := Run(Beginning(p, start), c, steps);
            && IsActive(r.book) && r.book.migration.scheduledBackfill == 0
            && r.book.ongoing.totalDistributed == MintedSince(r, c) + SCALAR_7 * Emitters.QUEUE_SECONDS
            && Gap(r, c) == Emitters.QUEUE_SECONDS
  {
    var s0, c := Beginning(p, start), Contract(p);
    BeginningStarts(p, start);
    var s1 := Apply(s0, c, SetUp(p, amount)[0]);
    Activates(p, start, amount);
    var s2 := Apply(s1, c, SetUp(p, amount)[1]);
    Deposits(s1, p, start, amount);
    var s3 := Apply(s2, c, SetUp(p, amount)[2]);
    Enters(s2, p, start, amount);
    ThreeSteps(s0, c, SetUp(p, amount));
    var s9 := Run(s3, c, ThereAndBack(p));
    Returns(s3, p, start);
    var last := [Wait(5), Call(DoDistribute(Market(amount)))];
    RunAppend(s0, c, SetUp(p, amount) + ThereAndBack(p), last);
    RunAppend(s0, c, SetUp(p, amount), ThereAndBack(p));
    Reachable(s0, c, p.self, p.token, SetUp(p, amount) + ThereAndBack(p));
    LastSteps(s9, p, start, amount);
  }

  lemma Succeeds(s: System, p: Cast, start: nat, amount: Int128)
    requires Small(start, amount) && SystemInv(s, Contract(p)) && s.now == start + 2 * Emitters.QUEUE_SECONDS + 5
    requires s.book.zone == [p.pool] && Stocked(s.book, p, amount) && IsActive(s.book)
    requires s.book.ongoing == NothingSince(Some(start))
    requires s.emitter.backstop == p.self && p.self in s.emitter.lastDistro && s.emitter.lastDistro[p.self] == s.now - 5
    ensures Backstops.Distribute(s.book, Contract(p), s.emitter, Market(amount), s.now).Success?
  {
    hide BookInv, EmitterInv, Lifecycle, Attested, Deployed, CollectWeights, Emitters.Distribute, AllocateInto,
         DistributeActive,
         Stocked, CheckedOngoing, Activated, NewBook;
    var b, c := s.book, Contract(p);
    var total := (s.now - start) * SCALAR_7;
    AllocatesInto(b, p, Some(Market(amount)), start, amount, total, s.now);
    ActiveFacts(b, c, s.emitter, s.now);
    DistributeKeeps(s.emitter, s.now);
    DistributeActiveForm(b, c, s.emitter, Market(amount), s.now, Emitters.Distribute(s.emitter, c.self, s.now));
  }

  lemma Distributes(s: System, p: Cast, start: nat, amount: Int128)
    requires Small(start, amount) && SystemInv(s, Contract(p)) && s.now == start + 2 * Emitters.QUEUE_SECONDS + 5
    requires s.book.zone == [p.pool] && Stocked(s.book, p, amount) && IsActive(s.book)
    requires s.book.ongoing == NothingSince(Some(start))
    requires s.emitter.backstop == p.self && p.self in s.emitter.lastDistro && s.emitter.lastDistro[p.self] == s.now - 5
    ensures var r := Backstops.Distribute(s.book, Contract(p), s.emitter, Market(amount), s.now);
            && r.Success? && r.value.0.migration == s.book.migration
               && r.value.0.ongoing.lastDistribution == Some(s.now)
            && p.self in r.value.1.lastDistro && r.value.1.lastDistro[p.self] == s.now
            && r.value.1.history.skipped == s.emitter.history.skipped
  {
    hide Inv, Emitters.Distribute, Backstops.Distribute, Covers, Stocked, NewBook;
    var b, c := s.book, Contract(p);
    Succeeds(s, p, start, amount);
    MarketCovers(b, p, amount);
    SystemParts(s, c);
    DistributeActiveKeeps(b, c, s.emitter, Market(amount), s.now);
    DistributeKeeps(s.emitter, s.now);
    DistributeForm(s.emitter, c.self, s.now);
  }

  lemma MarketCovers(b: Book, p: Cast, amount: Int128)
    requires Stocked(b, p, amount) && 0 < amount
    ensures Covers(Some(Market(amount)), HeldOf(b, BlntUsdc), HeldOf(b, BlntXlm)) && Supplied(b, Market(amount))
  {
  }

  lemma LastSteps(s: System, p: Cast, start: nat, amount: Int128)
    requires Small(start, amount) && Distinguished(p)
    requires SystemInv(s, Contract(p)) && s.now == start + 2 * Emitters.QUEUE_SECONDS
    requires s.book.zone == [p.pool] && Stocked(s.book, p, amount) && IsActive(s.book)
    requires s.book.ongoing == NothingSince(Some(start)) && s.book.migration.scheduledBackfill == 0
    requires s.book.migration.activationCheckpoint == start && s.book.migration.skippedBefore == 0
    requires s.emitter.backstop == p.self && p.self in s.emitter.lastDistro && s.emitter.lastDistro[p.self] == s.now
    requires At(s.emitter.history.skipped, p.self) == Emitters.QUEUE_SECONDS
    ensures var c := Contract(p);
            var r := Run(s, c, [Wait(5), Call(DoDistribute(Market(amount)))]);
            && IsActive(r.book) && r.book.migration.scheduledBackfill == 0
            && r.book.ongoing.totalDistributed == MintedSince(r, c) + SCALAR_7 * Emitters.QUEUE_SECONDS
            && Gap(r, c) == Emitters.QUEUE_SECONDS
  {
    hide SystemInv, Stocked, Backstops.Distribute;
    var c, steps := Contract(p), [Wait(5), Call(DoDistribute(Market(amount)))];
    var waited := Apply(s, c, steps[0]);
    StepKeeps(s, c, steps[0]);
    Distributes(waited, p, start, amount);
    MarketCovers(waited.book, p, amount);
    var r := Apply(waited, c, steps[1]);
    StepKeeps(waited, c, steps[1]);
    BackingExact(r, c);
    assert steps[1..][1..] == [];
    assert Run(s, c, steps) == Run(waited, c, steps[1..]) == Run(r, c, []);
  }
}
