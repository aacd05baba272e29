/** The backstop and the emitter together under one clock: every call on either, any token transfer in,
    and the passing of time, in any order. A call that aborts changes nothing. */
module Systems {
  import opened Numbers
  import opened Allocation
  import Emitters
  import opened Backstops

  datatype System = System(now: nat, emitter: EmitterState, book: Book)

  /** Calls on the emitter. `Collect` and `SpendDrop` are the current backstop's own calls, made by some
      other backstop while it is current. */
  datatype EmitterCall =
    | Collect
    | QueueSwap(candidate: Address, token: Address, contest: Emitters.Contest)
    | CancelSwap(contest: Emitters.Contest)
    | SwapBackstop(contest: Emitters.Contest)
    | SpendDrop(list: seq<(Address, int)>)

  datatype BackstopCall =
    | DoDeposit(key: TierKey, user: Address, amount: int)
    | DoQueue(key: TierKey, user: Address, amount: int)
    | DoDequeue(key: TierKey, user: Address, amount: int)
    | DoWithdraw(key: TierKey, user: Address, amount: int, liabilities: bool)
    | DoForceQueue(key: TierKey, user: Address)
    | DoForceWithdraw(key: TierKey, user: Address, liabilities: bool)
    | DoDraw(key: TierKey, amount: int)
    | DoDonate(key: TierKey, from: Address, amount: int)
    | DoAddReward(pool: Address, replaced: Option<Address>, comet: Composition)
    | DoRemoveReward(pool: Address, comet: Composition)
    | DoDistribute(comet: Composition)
    | DoGulp(pool: Address, grant: Grant)
    | DoClaim(tier: nat, user: Address, pools: seq<Address>, minLp: int, trade: Exchange)
    | DoDrop

  datatype Step = Wait(seconds: nat) | Receive(asset: Asset,
    amount: nat) | Emit(emitterCall: EmitterCall) | Call(call: BackstopCall)

  function AfterEmitter(s: System, c: Deployment, call: EmitterCall): Result<EmitterState> {
    match call
    case Collect =>
      if s.emitter.backstop == c.self then Failure(Unauthorized)
      else
        var (d, _) :- Emitters.Distribute(s.emitter, s.emitter.backstop, s.now);
        Success(d)
    case QueueSwap(candidate, token, contest) => Emitters.QueueSwap(s.emitter, candidate, token, contest, s.now)
    case CancelSwap(contest) => Emitters.CancelSwap(s.emitter, contest, s.now)
    case SwapBackstop(contest) => Emitters.SwapBackstop(s.emitter, contest, s.now)
    case SpendDrop(list) =>
      if s.emitter.backstop == c.self then Failure(Unauthorized) else Emitters.Drop(s.emitter, s.emitter.backstop, list)
  }

  function First<A, B>(r: Result<(A, B)>): Result<A> {
    match r
    case Failure(x) => Failure(x)
    case Success((a, _)) => Success(a)
  }

  function FirstOfThree<A, B, C>(r: Result<(A, B, C)>): Result<A> {
    match r
    case Failure(x) => Failure(x)
    case Success((a, _, _)) => Success(a)
  }

  /** Calls that leave the emitter alone. */
  function AfterLocal(s: System, c: Deployment, call: BackstopCall): Result<Book>
    requires !call.DoDistribute? && !call.DoDrop?
  {
    var b, e, now := s.book, s.emitter, s.now;
    match call
    case DoDeposit(key, user, amount) => First(Deposit(b, c, e, key, user, amount, now))
    case DoQueue(key, user, amount) => QueueWithdrawal(b, c, e, key, user, amount, now)
    case DoDequeue(key, user, amount) => DequeueWithdrawal(b, c, e, key, user, amount, now)
    case DoWithdraw(key, user, amount,
        liabilities) => First(WithdrawMatured(b, c, e, key, user, amount, liabilities, now))
    case DoForceQueue(key, user) => ForceQueue(b, c, e, key, user, now)
    case DoForceWithdraw(key, user, liabilities) => First(ForceWithdraw(b, c, e, key, user, liabilities, now))
    case DoDraw(key, amount) => Draw(b, c, e, key, amount)
    case DoDonate(key, from, amount) => Donate(b, c, e, key, from, amount)
    case DoAddReward(pool, replaced, comet) => AddReward(b, c, e, pool, replaced, comet, now)
    case DoRemoveReward(pool, comet) => RemoveReward(b, c, e, pool, comet, now)
    case DoGulp(pool, grant) => FirstOfThree(Gulp(b, c, pool, grant, now))
    case DoClaim(tier, user, pools, minLp, trade) => First(Claim(b, c, e, tier, user, pools, minLp, trade, now))
  }

  /** LP supplies are never smaller than one holder's balance. */
  predicate Supplied(b: Book, comet: Composition) {
    HeldOf(b, BlntUsdc) <= comet.usdcSupply && HeldOf(b, BlntXlm) <= comet.xlmSupply
  }

  function Next(s: System, c: Deployment, step: Step): Result<System> {
    match step
    case Wait(seconds) => Success(s.(now := s.now + seconds))
    case Receive(asset, amount) =>
      Success(s.(book := s.book.(held := s.book.held[asset := HeldOf(s.book, asset) + amount])))
    case Emit(call) =>
      var e :- AfterEmitter(s, c, call);
      Success(s.(emitter := e))
    case Call(DoDistribute(comet)) =>
      if !Supplied(s.book, comet) then Failure(Trap)
      else
        var (b, e, _) :- Distribute(s.book, c, s.emitter, comet, s.now);
        Success(s.(book := b, emitter := e))
    case Call(DoDrop) =>
      var (b, e) :- Drop(s.book, c, s.emitter);
      Success(s.(book := b, emitter := e))
    case Call(call) =>
      var b :- AfterLocal(s, c, call);
      Success(s.(book := b))
  }

  function Apply(s: System, c: Deployment, step: Step): System {
    match Next(s, c, step)
    case Failure(_) => s
    case Success(n) => n
  }

  function Run(s: System, c: Deployment, steps: seq<Step>): System
    decreases |steps|
  {
    if steps == [] then s else Run(Apply(s, c, steps[0]), c, steps[1..])
  }

  /** Emission has just begun, and the constructor accepted the deployment. */
  predicate Starts(s: System, c: Deployment, initialBackstop: Address, token: Address) {
    && s == System(s.now, Emitters.Initialized(initialBackstop, token, s.now), NewBook())
    && Deploy(c.self, c.migrationToken, c.config, c.dropList, s.emitter) == Success(c)
  }
}
