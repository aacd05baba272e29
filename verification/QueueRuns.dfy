/** The 17-day lock over whole runs: whatever else happens, what leaves a tier by withdrawal was queued at least
    17 days before, and what was queued that long ago and not taken back can be withdrawn. */
module QueueRuns {
  import opened Numbers
  import Tiers
  import opened UserBalances
  import opened Backstops
  import opened BookLaws
  import opened ShareLaws
  import opened DistributionLaws
  import opened ClaimLaws
  import EmitterLaws
  import opened MigrationLaws
  import opened ContractLaws
  import opened Systems
  import opened SystemLaws
  import opened TierLaws
  import opened TierOutcomes
  import opened Outcomes
  import PoolBalances

  function QueueOf(s: System, key: TierKey, user: Address): seq<Q4W> {
    UserOf(s.book, key, user).q4w
  }

  // How one operation on a queue moves the shares matured at a later time.

  lemma {:induction false} MaturedAppend(q: seq<Q4W>, p: seq<Q4W>, time: nat)
    ensures Matured(q + p, time) == Matured(q, time) + Matured(p, time)
    decreases |q|
  {
    if q == [] {
      assert q + p == p;
    } else {
      assert (q + p)[1..] == q[1..] + p;
      MaturedAppend(q[1..], p, time);
    }
  }

  lemma MaturedOne(entry: Q4W, time: nat)
    ensures Matured([entry], time) == if entry.exp <= time then entry.amount else 0
  {
    assert [entry][1..] == [];
  }

  lemma QueueMatures(u: UserRecord, toQ: int, now: nat, time: nat)
    requires QueueShares(u, toQ, now).Success?
    ensures var v := QueueShares(u, toQ, now).value;
            && Matured(v.q4w, time) == Matured(u.q4w, time) + (if now + Q4W_LOCK_TIME <= time then toQ else 0)
            && Queued(v.q4w) == Queued(u.q4w) + toQ
  {
    var entry := Q4W(toQ, now + Q4W_LOCK_TIME);
    MaturedAppend(u.q4w, [entry], time);
    MaturedOne(entry, time);
    QueuedAppend(u.q4w, [entry]);
    QueuedOne(entry);
  }

  /** A withdrawal takes only what has matured by now, so it takes it from every later total. */
  lemma {:induction false} WithdrawMatures(q: seq<Q4W>, left: int, now: nat, time: nat)
    requires Amounts(q) && 0 <= left && now <= time && WithdrawQueue(q, left, now).Success?
    ensures var r := WithdrawQueue(q, left, now).value;
            Matured(r, time) == Matured(q, time) - left && Queued(r) == Queued(q) - left
    decreases |q|
  {
    if q != [] {
      if q[0].amount > left {
        assert ([q[0].(amount := q[0].amount - left)] + q[1..])[1..] == q[1..];
      } else if q[0].amount < left {
        WithdrawMatures(q[1..], left - q[0].amount, now, time);
      }
    }
  }

  lemma {:induction false} DequeueMatures(q: seq<Q4W>, left: int, time: nat)
    requires Amounts(q) && 0 <= left && DequeueQueue(q, left).Success?
    ensures var r := DequeueQueue(q, left).value;
            && Matured(q, time) - left <= Matured(r, time) <= Matured(q, time)
            && Queued(r) == Queued(q) - left
    decreases |q|
  {
    if q != [] {
      var init, last := q[..|q| - 1], q[|q| - 1];
      assert q == init + [last];
      MaturedAppend(init, [last], time);
      MaturedOne(last, time);
      QueuedAppend(init, [last]);
      QueuedOne(last);
      if last.amount > left {
        var kept := last.(amount := last.amount - left);
        MaturedAppend(init, [kept], time);
        MaturedOne(kept, time);
        QueuedAppend(init, [kept]);
        QueuedOne(kept);
      } else if last.amount < left {
        DequeueMatures(init, left - last.amount, time);
      }
    }
  }

  // What a step moves for one depositor of one tier.

  /** Shares moved by a step: into the queue, out of the tier, back to active. */
  datatype Moves = Moves(queued: int, withdrawn: int, dequeued: int)

  function Still(): Moves {
    Moves(0, 0, 0)
  }

  function MovesOf(s: System, c: Deployment, step: Step, key: TierKey, user: Address): Moves {
    if !step.Call? || Next(s, c, step).Failure? then Still()
    else
      match step.call
      case DoQueue(k, u, amount) => if k == key && u == user then Moves(amount, 0, 0) else Still()
      case DoForceQueue(k, u) =>
        if k == key && u == user then Moves(UserOf(s.book, key, user).shares, 0, 0) else Still()
      case DoWithdraw(k, u, amount, _) => if k == key && u == user then Moves(0, amount, 0) else Still()
      case DoForceWithdraw(k, u, _) =>
        if k == key && u == user then Moves(0, Matured(QueueOf(s, key, user), s.now), 0) else Still()
      case DoDequeue(k, u, amount) => if k == key && u == user then Moves(0, 0, amount) else Still()
      case _ => Still()
  }

  /** One step's account, at any time from now on: `q` before and `r` after. */
  predicate Accounted(q: seq<Q4W>, r: seq<Q4W>, m: Moves, now: nat, time: nat) {
    var ripe := if now + Q4W_LOCK_TIME <= time then m.queued else 0;
    && 0 <= m.queued && 0 <= m.withdrawn && 0 <= m.dequeued
    && Matured(r, time) + m.withdrawn <= Matured(q, time) + ripe <= Matured(r, time) + m.withdrawn + m.dequeued
    && Queued(r) + m.withdrawn + m.dequeued == Queued(q) + m.queued
  }

  lemma Elsewhere(b: Book, n: Book, k: TierKey, u: Address, key: TierKey, user: Address)
    requires NoCheaper(b, n, k) && OthersSame(b, n, k, u) && (k != key || u != user)
    ensures UserOf(n, key, user) == UserOf(b, key, user)
  {
    if k != key {
      assert TierOf(n, key) == TierOf(b, key);
    }
  }

  predicate TouchesQueue(call: BackstopCall) {
    call.DoQueue? || call.DoForceQueue? || call.DoWithdraw? || call.DoForceWithdraw? || call.DoDequeue?
  }

  /** The queueing, dequeueing and withdrawing calls, seen by somebody else. */
  lemma QueueCallElsewhere(s: System, c: Deployment, call: BackstopCall, key: TierKey, user: Address)
    requires SystemInv(s, c) && TouchesQueue(call) && AfterLocal(s, c, call).Success?
    requires call.key != key || call.user != user
    ensures UserOf(AfterLocal(s, c, call).value, key, user) == UserOf(s.book, key, user)
  {
    hide BookInv, EmitterLaws.EmitterInv, Lifecycle, Attested, Deployed, NoCheaper, OthersSame, QueueWithdrawal,
         DequeueWithdrawal, WithdrawMatured, ForceQueue, ForceWithdraw, Matured, Queued, QueueShares, WithdrawQueue,
         DequeueQueue, SharesOnly, Moved;
    var b, e, now := s.book, s.emitter, s.now;
    match call {
      case DoQueue(k, u, amount) => QueueKeepsBook(b, c, e, k, u, amount, now);
      case DoForceQueue(k, u) => ForceQueueKeepsBook(b, c, e, k, u, now);
      case DoWithdraw(k, u, amount, liabilities) => WithdrawKeepsBook(b, c, e, k, u, amount, liabilities, now);
      case DoForceWithdraw(k, u, liabilities) => ForceWithdrawKeepsBook(b, c, e, k, u, liabilities, now);
      case DoDequeue(k, u, amount) => DequeueKeepsBook(b, c, e, k, u, amount, now);
    }
    Elsewhere(b, AfterLocal(s, c, call).value, call.key, call.user, key, user);
  }

  /** The same calls, seen by the depositor who makes them. */
  lemma QueueCallHere(s: System, c: Deployment, call: BackstopCall, time: nat)
    requires SystemInv(s, c) && s.now <= time && TouchesQueue(call) && AfterLocal(s, c, call).Success?
    ensures Accounted(QueueOf(s, call.key, call.user), UserOf(AfterLocal(s, c, call).value, call.key, call.user).q4w,
                      MovesOf(s, c, Call(call), call.key, call.user), s.now, time)
  {
    hide BookInv, EmitterLaws.EmitterInv, Lifecycle, Attested, Deployed, NoCheaper, OthersSame, QueueWithdrawal,
         DequeueWithdrawal, WithdrawMatured, ForceQueue, ForceWithdraw, Matured, Queued, QueueShares, WithdrawQueue,
         DequeueQueue, SharesOnly, Moved;
    var b, e, now, q := s.book, s.emitter, s.now, QueueOf(s, call.key, call.user);
    UserQueueFacts(b, c, call.key, call.user, now);
    match call
    case DoQueue(key, user, amount) =>
      QueueKeepsBook(b, c, e, key, user, amount, now);
      NotNegative(s, c, call);
      QueueMatures(UserOf(b, key, user), amount, now, time);
    case DoForceQueue(key, user) =>
      ForceQueueKeepsBook(b, c, e, key, user, now);
      QueueMatures(UserOf(b, key, user), UserOf(b, key, user).shares, now, time);
    case DoWithdraw(key, user, amount, liabilities) =>
      WithdrawKeepsBook(b, c, e, key, user, amount, liabilities, now);
      NotNegative(s, c, call);
      WithdrawMatures(q, amount, now, time);
    case DoForceWithdraw(key, user, liabilities) =>
      ForceWithdrawKeepsBook(b, c, e, key, user, liabilities, now);
      WithdrawMatures(q, Matured(q, now), now, time);
    case DoDequeue(key, user, amount) =>
      DequeueKeepsBook(b, c, e, key, user, amount, now);
      NotNegative(s, c, call);
      DequeueMatures(q, amount, time);
  }

  lemma NotNegative(s: System, c: Deployment, call: BackstopCall)
    requires call.DoQueue? || call.DoWithdraw? || call.DoDequeue?
    requires AfterLocal(s, c, call).Success?
    ensures 0 <= call.amount
  {
    hide Commit, Tiers.Queue, Tiers.Withdraw, Tiers.Dequeue, PrepareWeight, EntriesFrom;
  }

  /** Every other call leaves every queue alone. */
  lemma OtherCall(s: System, c: Deployment, call: BackstopCall, key: TierKey, user: Address)
    requires SystemInv(s, c) && !call.DoDistribute? && !call.DoDrop? && AfterLocal(s, c, call).Success?
    requires !TouchesQueue(call)
    ensures UserOf(AfterLocal(s, c, call).value, key, user).q4w == QueueOf(s, key, user)
  {
    hide BookInv, EmitterLaws.EmitterInv, Lifecycle, Attested, Deployed, NoCheaper, OthersSame, Backstops.Deposit, Draw,
         Donate, AddReward, RemoveReward, Gulp, Claim, SharesOnly, Moved, CreditsOnly, SameBalances;
    var b, e, now := s.book, s.emitter, s.now;
    var n := AfterLocal(s, c, call).value;
    match call
    case DoDeposit(k, u, amount) =>
      DepositKeepsBook(b, c, e, k, u, amount, now);
      if k != key || u != user {
        Elsewhere(b, n, k, u, key, user);
      }
    case DoDraw(k, amount) =>
      DrawKeepsBook(b, c, e, k, amount, now);
      assert k != key ==> TierOf(n, key) == TierOf(b, key);
    case DoDonate(k, from, amount) =>
      DonateKeepsBook(b, c, e, k, from, amount, now);
      OnlyThere(b, n, k, key);
    case DoAddReward(pool, replaced, comet) =>
      AddRewardKeeps(b, c, e, pool, replaced, comet, now);
    case DoRemoveReward(pool, comet) =>
      RemoveRewardKeeps(b, c, e, pool, comet, now);
    case DoGulp(pool, grant) =>
      GulpKeeps(b, c, pool, grant, now);
      SameQueues(b, n, key, user);
    case DoClaim(tier, u, pools, minLp, trade) =>
      ClaimKeepsBook(b, c, e, tier, u, pools, minLp, trade, now);
      CreditedQueues(b, n, u, key, user);
  }

  lemma OnlyThere(b: Book, n: Book, k: TierKey, key: TierKey)
    requires NoCheaper(b, n, k)
    ensures k != key ==> TierOf(n, key) == TierOf(b, key)
  {
  }

  lemma SameQueues(b: Book, n: Book, key: TierKey, user: Address)
    requires SameBalances(b, n)
    ensures UserOf(n, key, user) == UserOf(b, key, user)
  {
    assert SameTier(TierOf(b, key), TierOf(n, key));
  }

  lemma CreditedQueues(b: Book, n: Book, u: Address, key: TierKey, user: Address)
    requires CreditsOnly(b, n, u)
    ensures UserOf(n, key, user).q4w == UserOf(b, key, user).q4w
  {
    assert Grew(TierOf(b, key), TierOf(n, key), u);
  }

  lemma Untouched(q: seq<Q4W>, now: nat, time: nat)
    ensures Accounted(q, q, Still(), now, time)
  {
  }

  /** One step of anyone's, for any depositor of any tier. */
  lemma QueueStep(s: System, c: Deployment, step: Step, key: TierKey, user: Address, time: nat)
    requires SystemInv(s, c) && s.now <= time
    ensures Accounted(QueueOf(s, key, user), QueueOf(Apply(s, c, step), key, user), MovesOf(s, c, step, key, user),
                      s.now, time)
  {
    hide Inv, AfterLocal, AfterEmitter, Backstops.Distribute, Backstops.Drop, Accounted, LedgersOnly, Matured, Queued;
    Untouched(QueueOf(s, key, user), s.now, time);
    if step.Call? && Next(s, c, step).Success? {
      var call := step.call;
      if call.DoDrop? {
        DropKeepsAll(s.book, c, s.emitter, s.now);
      } else if call.DoDistribute? {
        DistributeStep(s, c, call.comet);
        SameTiers(s.book, Apply(s, c, step).book, key, user);
      } else if TouchesQueue(call) {
        if call.key == key && call.user == user {
          QueueCallHere(s, c, call, time);
        } else {
          QueueCallElsewhere(s, c, call, key, user);
        }
      } else {
        OtherCall(s, c, call, key, user);
      }
    }
  }

  lemma SameTiers(b: Book, n: Book, key: TierKey, user: Address)
    requires LedgersOnly(b, n)
    ensures UserOf(n, key, user) == UserOf(b, key, user)
  {
  }

  // Over runs.

  /** All that a run withdrew; all it dequeued; and all it queued, at least 17 days before `time`. */
  function Withdrawn(s: System, c: Deployment, steps: seq<Step>, key: TierKey, user: Address): int
    decreases |steps|
  {
    if steps == [] then 0
    else MovesOf(s, c, steps[0], key, user).withdrawn + Withdrawn(Apply(s, c, steps[0]), c, steps[1..], key, user)
  }

  function Dequeued(s: System, c: Deployment, steps: seq<Step>, key: TierKey, user: Address): int
    decreases |steps|
  {
    if steps == [] then 0
    else MovesOf(s, c, steps[0], key, user).dequeued + Dequeued(Apply(s, c, steps[0]), c, steps[1..], key, user)
  }

  function QueuedLongBefore(s: System, c: Deployment, steps: seq<Step>, key: TierKey, user: Address, time: nat): int
    decreases |steps|
  {
    if steps == [] then 0
    else
      (if s.now + Q4W_LOCK_TIME <= time then MovesOf(s, c, steps[0], key, user).queued else 0)
      + QueuedLongBefore(Apply(s, c, steps[0]), c, steps[1..], key, user, time)
  }

  lemma TimeForward(s: System, c: Deployment, steps: seq<Step>)
    ensures s.now <= Run(s, c, steps).now
    decreases |steps|
  {
    if steps != [] {
      TimeForward(Apply(s, c, steps[0]), c, steps[1..]);
    }
  }

  lemma {:induction false} RunAccount(s: System, c: Deployment, steps: seq<Step>, key: TierKey, user: Address,
                                      time: nat)
    requires SystemInv(s, c) && Run(s, c, steps).now <= time
    ensures var r := Run(s, c, steps);
            var out, back := Withdrawn(s, c, steps, key, user), Dequeued(s, c, steps, key, user);
            var ripe := QueuedLongBefore(s, c, steps, key, user, time);
            && 0 <= back
            && Matured(QueueOf(r, key, user), time) + out <= Matured(QueueOf(s, key, user), time) + ripe
               <= Matured(QueueOf(r, key, user), time) + out + back
    decreases |steps|
  {
    hide SystemInv, Apply, MovesOf, Matured, QueueOf;
    TimeForward(s, c, steps);
    if steps != [] {
      var n := Apply(s, c, steps[0]);
      StepKeeps(s, c, steps[0]);
      QueueStep(s, c, steps[0], key, user, time);
      RunAccount(n, c, steps[1..], key, user, time);
    }
  }

  lemma NothingQueued(s: System, c: Deployment, initialBackstop: Address, token: Address, key: TierKey, user: Address)
    requires Starts(s, c, initialBackstop, token)
    ensures QueueOf(s, key, user) == []
  {
  }

  /** The lock. At the end of any run from the start, a depositor has withdrawn no more of a tier than it had
      queued at least 17 days before; and all of that which it neither withdrew nor dequeued has matured, so
      that a withdrawal of it is not refused by the queue. */
  lemma LockedSeventeenDays(s: System, c: Deployment, initialBackstop: Address, token: Address, steps: seq<Step>,
                            key: TierKey, user: Address)
    requires Starts(s, c, initialBackstop, token) && ValidConfig(c)
    ensures var r := Run(s, c, steps);
            var out, back := Withdrawn(s, c, steps, key, user), Dequeued(s, c, steps, key, user);
            var ripe := QueuedLongBefore(s, c, steps, key, user, r.now);
            && out <= ripe
            && (forall amount | 0 < amount <= ripe - out - back ::
                  WithdrawQueue(QueueOf(r, key, user), amount, r.now).Success?)
  {
    hide Starts, SystemInv, Run, Withdrawn, Dequeued, QueuedLongBefore, Matured, WithdrawQueue;
    StartKeeps(s, c, initialBackstop, token);
    NothingQueued(s, c, initialBackstop, token, key, user);
    EmptyMatures(Run(s, c, steps).now);
    RunAccount(s, c, steps, key, user, Run(s, c, steps).now);
    RunKeeps(s, c, steps);
    var r := Run(s, c, steps);
    SystemQueue(r, c, key, user);
    forall amount | 0 < amount <= QueuedLongBefore(s, c, steps, key, user, r.now)
                                  - Withdrawn(s, c, steps, key, user) - Dequeued(s, c, steps, key, user)
      ensures WithdrawQueue(QueueOf(r, key, user), amount, r.now).Success?
    {
      WithdrawSucceedsIff(QueueOf(r, key, user), amount, r.now);
    }
  }

  lemma EmptyMatures(time: nat)
    ensures Matured([], time) == 0
  {
  }

  lemma SystemQueue(s: System, c: Deployment, key: TierKey, user: Address)
    requires SystemInv(s, c)
    ensures var q := QueueOf(s, key, user);
            Amounts(q) && Sorted(q) && 0 <= Matured(q, s.now)
  {
    hide BookInv, EmitterLaws.EmitterInv, Lifecycle, Attested, Deployed, Matured;
    UserQueueFacts(s.book, c, key, user, s.now);
  }

  /** Nothing but the queue could refuse this withdrawal. */
  predicate Unhindered(b: Book, c: Deployment, e: EmitterState, key: TierKey, user: Address, amount: int, now: nat) {
    var p := TierOf(b, key).pool;
    && !WorthLess(p, amount) && FitsI128(amount * p.tokens) && GateRefusal(b, c, e, key).None?
    && CheckpointFits(TierOf(b, key), user, now)
    && StoreRefusal(c, key, PoolBalances.PoolRecord(p.shares - amount, p.tokens - PaysFor(p, amount),
         p.q4w - amount)).None?
  }

  lemma LeavesNow(b: Book, c: Deployment, e: EmitterState, key: TierKey, user: Address, amount: int, now: nat)
    requires BookInv(b, c, now) && 0 < amount && Unhindered(b, c, e, key, user, amount, now)
    requires WithdrawQueue(UserOf(b, key, user).q4w, amount, now).Success?
    ensures var w := WithdrawMatured(b, c, e, key, user, amount, false, now);
            w.Success? && w.value.1 == PaysFor(TierOf(b, key).pool, amount)
  {
    hide BookInv, WithdrawQueue, WithdrawMatured, WorthLess, GateRefusal, CheckpointFits, StoreRefusal, PaysFor,
         Matured;
    UserQueueFacts(b, c, key, user, now);
    WithdrawSucceedsIff(UserOf(b, key, user).q4w, amount, now);
    WithdrawOutcome(b, c, e, key, user, amount, false, now);
  }

  /** And it can leave: whatever of that is worth at least one token is paid, to the floor, whenever the gate is open,
      the pool reports no debt, and the numbers involved fit. */
  lemma MaturedCanLeave(s: System, c: Deployment, initialBackstop: Address, token: Address, steps: seq<Step>,
                        key: TierKey, user: Address, amount: int)
    requires Starts(s, c, initialBackstop, token) && ValidConfig(c)
    ensures var r := Run(s, c, steps);
            var ripe := QueuedLongBefore(s, c, steps, key, user, r.now) - Withdrawn(s, c, steps, key, user)
                        - Dequeued(s, c, steps, key, user);
            0 < amount <= ripe && Unhindered(r.book, c, r.emitter, key, user, amount, r.now) ==>
              var w := WithdrawMatured(r.book, c, r.emitter, key, user, amount, false, r.now);
              w.Success? && w.value.1 == PaysFor(TierOf(r.book, key).pool, amount)
  {
    hide Starts, SystemInv, Run, Withdrawn, Dequeued, QueuedLongBefore, WithdrawQueue, WithdrawMatured, Unhindered,
         PaysFor;
    LockedSeventeenDays(s, c, initialBackstop, token, steps, key, user);
    StartKeeps(s, c, initialBackstop, token);
    RunKeeps(s, c, steps);
    var r := Run(s, c, steps);
    BookSound(r, c);
    var ripe := QueuedLongBefore(s, c, steps, key, user, r.now) - Withdrawn(s, c, steps, key, user)
                - Dequeued(s, c, steps, key, user);
    if 0 < amount <= ripe && Unhindered(r.book, c, r.emitter, key, user, amount, r.now) {
      assert WithdrawQueue(QueueOf(r, key, user), amount, r.now).Success?;
      LeavesNow(r.book, c, r.emitter, key, user, amount, r.now);
    }
  }
}
