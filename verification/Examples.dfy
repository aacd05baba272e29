/** The parts two example runs share: a cast of identities, one pool with one depositor who is the whole LP
    supply, and the emitter leaving a backstop and coming back to it. */
module Examples {
  import opened Numbers
  import Tiers
  import UserBalances
  import PoolBalances
  import opened Allocation
  import Emitters
  import opened Sums
  import opened Backstops
  import opened Systems

  datatype Cast = Cast(self: Address, other: Address, pool: Address, user: Address, token: Address, otherToken: Address)

  predicate Distinguished(p: Cast) {
    p.self != p.other && p.pool != p.self && p.user != p.pool && p.user != p.self
  }

  /** The contract of the example: one registered pool with one BLNT:USDC tier. */
  predicate Staged(c: Deployment, p: Cast) {
    c.self == p.self && c.migrationToken == p.token && c.config == map[p.pool := [BlntUsdc]]
  }

  function Beginning(p: Cast, start: nat): System {
    System(start, Emitters.Initialized(p.self, p.token, start), NewBook())
  }

  /** The deposit is the whole LP supply. */
  function Market(amount: Int128): Composition {
    Composition(amount, amount, amount, amount)
  }

  function Wins(token: Address): Emitters.Contest {
    Emitters.Contest(2, 1, Some(token))
  }

  predicate Small(start: nat, amount: Int128) {
    start <= 1_000_000_000_000 && 0 < amount <= 1_000
  }

  // Runs in parts.

  lemma {:induction false} RunAppend(s: System, c: Deployment, a: seq<Step>, b: seq<Step>)
    ensures Run(s, c, a + b) == Run(Run(s, c, a), c, b)
    decreases |a|
  {
    hide Apply;
    if a == [] {
      assert a + b == b;
    } else {
      assert (a + b)[1..] == a[1..] + b;
      RunAppend(Apply(s, c, a[0]), c, a[1..], b);
    }
  }

  lemma TwoSteps(s: System, c: Deployment, steps: seq<Step>)
    requires |steps| == 2
    ensures Run(s, c, steps) == Apply(Apply(s, c, steps[0]), c, steps[1])
  {
    hide Apply;
    var rest := steps[1..];
    assert rest[1..] == [];
    var s1 := Apply(s, c, steps[0]);
    assert Run(s1, c, rest) == Run(Apply(s1, c, rest[0]), c, []);
  }

  lemma ThreeSteps(s: System, c: Deployment, steps: seq<Step>)
    requires |steps| == 3
    ensures Run(s, c, steps) == Apply(Apply(Apply(s, c, steps[0]), c, steps[1]), c, steps[2])
  {
    hide Apply;
    TwoSteps(Apply(s, c, steps[0]), c, steps[1..]);
  }

  // The emitter leaves and comes back.

  function Leave(p: Cast): seq<Step> {
    [Emit(QueueSwap(p.other, p.otherToken, Wins(p.otherToken))),
     Wait(Emitters.QUEUE_SECONDS),
     Emit(SwapBackstop(Wins(p.otherToken)))]
  }

  /** The emitter pays the other backstop since `at`, having paid this one for a month before. */
  predicate Away(e: EmitterState, p: Cast, at: nat) {
    && e.backstop == p.other && e.queued.None? && e.initialBackstop == p.self
    && p.self in e.lastDistro && e.lastDistro[p.self] == at
    && p.other in e.lastDistro && e.lastDistro[p.other] == at
    && At(e.history.skipped, p.self) == 0
    && At(e.history.minted, p.self) == SCALAR_7 * Emitters.QUEUE_SECONDS
  }

  lemma Leaves(s: System, c: Deployment, p: Cast)
    requires Distinguished(p) && Staged(c, p) && s.now <= 1_000_000_000_000
    requires s.emitter == Beginning(p, s.now).emitter
    ensures var n := Run(s, c, Leave(p));
            n.book == s.book && n.now == s.now + Emitters.QUEUE_SECONDS && Away(n.emitter, p, n.now)
  {
    var steps := Leave(p);
    var s1 := Apply(s, c, steps[0]);
    var s2 := Apply(s1, c, steps[1]);
    var s3 := Apply(s2, c, steps[2]);
    assert s3.emitter.backstop == p.other && s3.emitter.queued == None;
    ThreeSteps(s, c, steps);
  }

  /** A swap back to this contract, queued on the very ledger the emitter left. */
  predicate Returning(e: EmitterState, p: Cast, at: nat) {
    Away(e.(queued := None), p, at) && e.queued == Some(Emitters.Swap(p.self, p.token, at + Emitters.QUEUE_SECONDS))
  }

  lemma QueuesReturn(s: System, c: Deployment, p: Cast)
    requires Away(s.emitter, p, s.now) && s.now <= 2_000_000_000_000
    ensures var n := Apply(s, c, Emit(QueueSwap(p.self, p.token, Wins(p.token))));
            n.book == s.book && n.now == s.now && Returning(n.emitter, p, s.now)
  {
  }

  /** A month later the swap pays the other backstop that month, and this contract's checkpoint jumps over it. */
  lemma SwapsBack(s: System, c: Deployment, p: Cast)
    requires s.now >= Emitters.QUEUE_SECONDS && Returning(s.emitter, p, s.now - Emitters.QUEUE_SECONDS)
    requires Distinguished(p) && s.now <= 2_000_000_000_000
    ensures var n := Apply(s, c, Emit(SwapBackstop(Wins(p.token))));
            && n.book == s.book && n.now == s.now && n.emitter.backstop == p.self && n.emitter.initialBackstop == p.self
            && p.self in n.emitter.lastDistro && n.emitter.lastDistro[p.self] == n.now
            && At(n.emitter.history.skipped, p.self) == Emitters.QUEUE_SECONDS
            && At(n.emitter.history.minted, p.self) == SCALAR_7 * Emitters.QUEUE_SECONDS
  {
  }

  // One depositor, one pool.

  predicate Bare(b: Book) {
    b.tiers == map[] && b.pools == map[] && b.zone == [] && b.held == map[]
  }

  ghost predicate Stocked(b: Book, p: Cast, amount: Int128) {
    && b.tiers.Keys == {TierKey(p.pool, 0)}
       && b.tiers[TierKey(p.pool, 0)].pool == PoolBalances.PoolRecord(amount, amount, 0)
    && b.pools == map[p.pool := PoolEmissions(0, amount, 0, 0, 0, 0)] && b.held == map[BlntUsdc := amount]
  }

  /** Only what a deposit touches. */
  predicate Deposited(b: Book, n: Book) {
    n == b.(tiers := n.tiers, pools := n.pools, held := n.held)
  }

  lemma FirstDeposit(b: Book, c: Deployment, e: EmitterState, p: Cast, amount: Int128, now: nat)
    requires Distinguished(p) && Staged(c, p) && Bare(b) && GateOpen(b, c, e) && 0 < amount <= 1_000
    ensures var r := Backstops.Deposit(b, c, e, TierKey(p.pool, 0), p.user, amount, now);
            r.Success? && Deposited(b, r.value.0) && Stocked(r.value.0, p, amount)
  {
    var key := TierKey(p.pool, 0);
    var user := UserBalances.UserRecord(amount, []);
    var t := Tiers.SetBalance(Tiers.EMPTY_TIER.(pool := PoolBalances.PoolRecord(amount, amount, 0)), p.user, user);
    assert TierOf(b, key) == Tiers.EMPTY_TIER;
    assert Tiers.Deposit(Tiers.EMPTY_TIER, Success(true), p.user, amount, now) == Success((t, amount));
    DepositRefreshes(b, c, e, p, amount, t, now);
  }

  lemma DepositRefreshes(b: Book, c: Deployment, e: EmitterState, p: Cast, amount: Int128, t: Tiers.Tier, now: nat)
    requires Distinguished(p) && Staged(c, p) && Bare(b) && GateOpen(b, c, e) && 0 < amount <= 1_000
    requires Tiers.Deposit(Tiers.EMPTY_TIER, Success(true), p.user, amount, now) == Success((t, amount))
    requires t.pool == PoolBalances.PoolRecord(amount, amount, 0)
    ensures var r := Backstops.Deposit(b, c, e, TierKey(p.pool, 0), p.user, amount, now);
            r.Success? && Deposited(b, r.value.0) && Stocked(r.value.0, p, amount)
  {
    hide Tiers.Deposit;
    var key := TierKey(p.pool, 0);
    assert PrepareWeight(b, c, e, key) == Success(true);
    var stored := b.(tiers := b.tiers[key := t], held := b.held[BlntUsdc := amount]);
    assert FirstIndex(c.config[p.pool], BlntUsdc) == Some(0);
    assert FirstIndex(c.config[p.pool], BlntXlm) == None by {
      assert c.config[p.pool][1..] == [];
    }
    assert ActiveAssetsOf(stored, c, p.pool, BlntUsdc) == Success(amount);
    assert ActiveAssetsOf(stored, c, p.pool, BlntXlm) == Success(0);
  }

  lemma OneTier(c: Deployment, p: Cast)
    requires Staged(c, p)
    ensures EmissionTier(c, p.pool, BlntUsdc) == Success(Some(TierKey(p.pool, 0)))
    ensures EmissionTier(c, p.pool, BlntXlm) == Success(None)
  {
    assert c.config[p.pool][1..] == [];
  }

  lemma WholeSupply(amount: Int128)
    requires 0 < amount <= 1_000
    ensures UnderlyingBlnt(amount, amount, amount) == Success(amount)
    ensures UnderlyingBlnt(0, amount, amount) == Success(0)
  {
    DivUnique(amount * amount, amount, amount);
    DivUnique(0, amount, 0);
  }

  lemma FirstEntry(b: Book, c: Deployment, e: EmitterState, p: Cast, amount: Int128, now: nat)
    requires Staged(c, p) && Stocked(b, p, amount) && b.zone == [] && GateOpen(b, c, e) && 0 < amount <= 1_000
    requires IsActive(b) || DistributedRecently(b, now)
    ensures AddReward(b, c, e, p.pool, None, Market(amount), now) == Success(b.(zone := [p.pool]))
  {
    hide EmissionTier, UnderlyingBlnt, DistributedRecently;
    var key := TierKey(p.pool, 0);
    OneTier(c, p);
    WholeSupply(amount);
    assert TierOf(b, key).pool == PoolBalances.PoolRecord(amount, amount, 0);
    assert ActiveAssetsOf(b, c, p.pool, BlntUsdc) == Success(amount);
    assert ActiveAssetsOf(b, c, p.pool, BlntXlm) == Success(0);
    assert PoolWeight(b, c, p.pool, Market(amount)) == Success(amount);
    assert [p.pool] + [] == [p.pool];
    assert b.pools[p.pool := PoolEmissions(0, amount, 0, 0, 0, 0)] == b.pools;
    assert Refresh(b, c, p.pool) == Success(b);
  }

  lemma OneWeight(b: Book, p: Cast, comet: Option<Composition>, amount: Int128)
    requires 0 < amount <= 1_000 && b.zone == [p.pool] && Stocked(b, p, amount)
    requires comet.Some? ==> comet.value == Market(amount)
    ensures CollectWeights(b.pools, b.zone, comet)
            == Success(([Weight(p.pool, PoolEmissions(0, amount, 0, 0, 0, 0), amount, 0)], amount))
  {
    hide UnderlyingBlnt;
    WholeSupply(amount);
    var state := PoolEmissions(0, amount, 0, 0, 0, 0);
    var one := Collected([Weight(p.pool, state, amount, 0)], amount, if comet.Some? then amount else 0, 0);
    assert [] + [Weight(p.pool, state, amount, 0)] == [Weight(p.pool, state, amount, 0)];
    assert CollectOne(b.pools, p.pool, comet, Collected([], 0, 0, 0)) == Success(one);
    assert CollectFrom(b.pools, [p.pool], comet, Collected([], 0, 0, 0))
        == CollectFrom(b.pools, [p.pool][1..], comet, one);
    assert [p.pool][1..] == [];
  }

  lemma WholeShare(value: int, amount: Int128)
    requires 0 <= value <= I128_MAX && 0 < amount
    ensures ProportionalFloor(value, amount, amount) == Success(value)
    ensures ProportionalFloor(value, 0, amount) == Success(0)
  {
    DivUnique(value * amount, amount, value);
    DivUnique(0, amount, 0);
  }

  lemma TenthsFit(total: int)
    requires 0 <= total <= 1_000_000_000_000_000_000
    ensures QuoteSplit(total, 0).Success?
    ensures var (backstop, pool, carry) := QuoteSplit(total, 0).value;
            0 <= backstop <= total && 0 <= pool <= total && 0 <= carry && backstop + pool + carry == total
  {
  }

  lemma Allocates(pools: map<Address, PoolEmissions>, pool: Address, amount: Int128, start: nat, total: int,
                  checkpoint: nat)
    requires 0 < amount <= 1_000 && 0 <= total <= 1_000_000_000_000_000_000
    ensures var state := PoolEmissions(0, amount, 0, 0, 0, 0);
            var r := AllocateDistribution(NothingSince(Some(start)), pools, total, checkpoint,
                [Weight(pool, state, amount, 0)], amount);
            r.Success?
  {
    hide ProportionalFloor;
    var o := NothingSince(Some(start));
    var state := PoolEmissions(0, amount, 0, 0, 0, 0);
    var w := Weight(pool, state, amount, 0);
    TenthsFit(total);
    var (backstop, share, carry) := QuoteSplit(total, 0).value;
    WholeShare(backstop, amount);
    WholeShare(share, amount);
    var first := AllocateOne(w, backstop, share, amount, Allocated(pools, 0, 0));
    assert first.Success? && first.value.backstop == backstop && first.value.pool == share;
    assert [w][1..] == [];
    assert AllocateFrom([w], backstop, share, amount, Allocated(pools, 0, 0))
        == AllocateFrom([w][1..], backstop, share, amount, first.value);
  }

  /** The first allocation to the one pool, by spot weight or by cached weight. */
  lemma AllocatesInto(b: Book, p: Cast, comet: Option<Composition>, start: nat, amount: Int128, total: int,
                      checkpoint: nat)
    requires 0 < amount <= 1_000 && b.zone == [p.pool] && Stocked(b, p, amount)
             && b.ongoing == NothingSince(Some(start))
    requires 0 <= total <= 1_000_000_000_000_000_000 && (comet.Some? ==> comet.value == Market(amount))
    ensures var weights := CollectWeights(b.pools, b.zone, comet);
            && weights.Success? && weights.value.1 == amount
            && AllocateInto(b, total, checkpoint, weights.value.0, weights.value.1).Success?
  {
    hide CollectWeights, AllocateDistribution;
    OneWeight(b, p, comet, amount);
    Allocates(b.pools, p.pool, amount, start, total, checkpoint);
  }
}
