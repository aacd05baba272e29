/** The emitter: one BLNT a second to the current backstop, one drop per backstop, and replacement of
    the backstop by a 31-day contest with a seven-day execution window. */
module Emitters {
  import opened Numbers
  import opened Sums

  const QUEUE_SECONDS: nat := 31 * DAY_SECONDS
  const SWAP_GRACE_SECONDS: nat := 7 * DAY_SECONDS
  const MAX_INITIAL_DROP: int := 150_000_000 * SCALAR_7
  const MAX_MIGRATION_DROP: int := 50_000_000 * SCALAR_7

  datatype Swap = Swap(newBackstop: Address, newBackstopToken: Address, unlockTime: nat)

  /** A swap that was executed, and when. */
  datatype Executed = Executed(swap: Swap, at: nat)

  /** History of a run: when emission began, what distribution and drops minted to whom, when each
      backstop was first installed, how many seconds re-installing it skipped, the last swap. */
  datatype EmitterHistory = EmitterHistory(
    start: nat,
    minted: map<Address, int>,
    dropMinted: map<Address, int>,
    dropTotal: map<Address, int>,
    installedAt: map<Address, nat>,
    skipped: map<Address, int>,
    lastSwap: Option<Executed>)

  datatype EmitterState = EmitterState(
    backstop: Address,
    initialBackstop: Address,
    backstopToken: Address,
    queued: Option<Swap>,
    lastDistro: map<Address, nat>,
    dropped: set<Address>,
    history: EmitterHistory)

  /** What the emitter reads from other contracts during a contest: both balances of the comparison
      token, and the token the candidate declares (absent when that call fails). */
  datatype Contest = Contest(candidateBalance: int, incumbentBalance: int, declared: Option<Address>)

  predicate IsLarger(c: Contest) {
    c.candidateBalance > c.incumbentBalance
  }

  predicate HasValidToken(c: Contest, token: Address) {
    c.declared == Some(token)
  }

  function Initialized(backstop: Address, token: Address, now: nat): EmitterState {
    EmitterState(backstop, backstop, token, None, map[backstop := now], {},
                 EmitterHistory(now, map[], map[], map[], map[backstop := now], map[], None))
  }

  function SwapDeadline(s: Swap): Result<nat> {
    U64(s.unlockTime + SWAP_GRACE_SECONDS)
  }

  /** `execute_distribute`: mint every second since the backstop's own checkpoint. */
  function Distribute(e: EmitterState, backstop: Address, now: nat): Result<(EmitterState, int)> {
    if backstop !in e.lastDistro || now < e.lastDistro[backstop] then Failure(Trap)
    else
      var amount := (now - e.lastDistro[backstop]) * SCALAR_7;
      Success((e.(lastDistro := e.lastDistro[backstop := now],
                  history := e.history.(minted := e.history.minted[backstop := At(e.history.minted, backstop)
                    + amount])),
               amount))
  }

  function QueueSwap(e: EmitterState, candidate: Address, token: Address, c: Contest, now: nat): Result<EmitterState> {
    if e.queued.Some? then Failure(SwapAlreadyExists)
    else if !IsLarger(c) then Failure(InsufficientBackstopSize)
    else if !HasValidToken(c, token) then Failure(InvalidBackstopToken)
    else
      var unlock :- U64(now + QUEUE_SECONDS);
      var swap := Swap(candidate, token, unlock);
      var deadline :- SwapDeadline(swap);
      Success(e.(queued := Some(swap)))
  }

  function CancelSwap(e: EmitterState, c: Contest, now: nat): Result<EmitterState> {
    if e.queued.None? then Failure(SwapNotQueued)
    else
      var swap := e.queued.value;
      var deadline :- SwapDeadline(swap);
      if now <= deadline && IsLarger(c) && HasValidToken(c, swap.newBackstopToken) then
        Failure(SwapCannotBeCanceled)
      else
        Success(e.(queued := None))
  }

  function SwapBackstop(e: EmitterState, c: Contest, now: nat): Result<EmitterState> {
    if e.queued.None? then Failure(SwapNotQueued)
    else
      var swap := e.queued.value;
      if swap.unlockTime > now then Failure(SwapNotUnlocked)
      else
        var deadline :- SwapDeadline(swap);
        if now > deadline then Failure(SwapExpired)
        else if !IsLarger(c) then Failure(InsufficientBackstopSize)
        else if !HasValidToken(c, swap.newBackstopToken) then Failure(InvalidBackstopToken)
        else
          var (d, _) :- Distribute(e, e.backstop, now);
          Success(Install(d, swap, now))
  }

  /** Point the emitter at the new backstop. Its checkpoint restarts at `now`; seconds since an
      earlier checkpoint of its own are skipped, not minted. */
  function Install(e: EmitterState, swap: Swap, now: nat): EmitterState {
    var b := swap.newBackstop;
    var gap := if b in e.lastDistro then now - e.lastDistro[b] else 0;
    e.(queued := None,
       backstop := b,
       backstopToken := swap.newBackstopToken,
       lastDistro := e.lastDistro[b := now],
       history := e.history.(
         installedAt := if b in e.history.installedAt then e.history.installedAt else e.history.installedAt[b := now],
         skipped := e.history.skipped[b := At(e.history.skipped, b) + gap],
         lastSwap := Some(Executed(swap, now))))
  }

  function DropCap(e: EmitterState): int {
    if e.backstop == e.initialBackstop then MAX_INITIAL_DROP else MAX_MIGRATION_DROP
  }

  function DropAmount(list: seq<(Address, int)>, sum: int, cap: int): Result<int>
    decreases |list|
  {
    if list == [] then Success(sum)
    else if list[0].1 < 0 then Failure(BadDrop)
    else
      var next :- I128(sum + list[0].1);
      if next > cap then Failure(BadDrop) else DropAmount(list[1..], next, cap)
  }

  function MintAll(minted: map<Address, int>, list: seq<(Address, int)>): map<Address, int>
    decreases |list|
  {
    if list == [] then minted
    else MintAll(minted[list[0].0 := At(minted, list[0].0) + list[0].1], list[1..])
  }

  /** `execute_drop`; only the current backstop can authorise it. */
  function Drop(e: EmitterState, caller: Address, list: seq<(Address, int)>): Result<EmitterState> {
    if caller != e.backstop then Failure(Unauthorized)
    else if e.backstop in e.dropped then Failure(BadDrop)
    else
      var amount :- DropAmount(list, 0, DropCap(e));
      Success(e.(dropped := e.dropped + {e.backstop},
                 history := e.history.(
                   dropMinted := MintAll(e.history.dropMinted, list),
                   dropTotal := e.history.dropTotal[e.backstop := At(e.history.dropTotal, e.backstop) + amount])))
  }

  /** The deployed contract. */
  class Emitter {
    var backstop: Address
    const initialBackstop: Address
    var backstopToken: Address
    var queued: Option<Swap>
    var lastDistro: map<Address, nat>
    var dropped: set<Address>
    // A record of the run for the laws about it; the deployed contract keeps none.
    var history: EmitterHistory

    function State(): EmitterState
      reads this
    {
      EmitterState(backstop, initialBackstop, backstopToken, queued, lastDistro, dropped, history)
    }

    constructor (initial: Address, token: Address, now: nat)
      ensures State() == Initialized(initial, token, now)
    {
      backstop, initialBackstop, backstopToken := initial, initial, token;
      queued, lastDistro, dropped := None, map[initial := now], {};
      history := EmitterHistory(now, map[], map[], map[], map[initial := now], map[], None);
    }

    /** The host's rollback of an aborted invocation that had already called `distribute` or `drop`. */
    method Revert(lastDistro0: map<Address, nat>, dropped0: set<Address>, history0: EmitterHistory)
      modifies this`lastDistro, this`dropped, this`history
      ensures State() == old(State()).(lastDistro := lastDistro0, dropped := dropped0, history := history0)
    {
      lastDistro, dropped, history := lastDistro0, dropped0, history0;
    }

    method ExecuteDistribute(recipient: Address, now: nat) returns (r: Result<int>)
      modifies this`lastDistro, this`history
      ensures match Distribute(old(State()), recipient, now)
              case Failure(e) => r == Failure(e) && State() == old(State())
              case Success((s, amount)) => r == Success(amount) && State() == s
    {
      if recipient !in lastDistro || now < lastDistro[recipient] {
        return Failure(Trap);
      }
      var secondsSinceLastDistro := now - lastDistro[recipient];
      var distributionAmount := secondsSinceLastDistro * SCALAR_7;
      lastDistro := lastDistro[recipient := now];
      history := history.(minted := history.minted[recipient := At(history.minted, recipient)
        + distributionAmount]);
      return Success(distributionAmount);
    }

    method ExecuteQueueSwapBackstop(newBackstop: Address, newToken: Address, contest: Contest, now: nat)
      returns (r: Result<Swap>)
      modifies this`queued
      ensures match QueueSwap(old(State()), newBackstop, newToken, contest, now)
              case Failure(e) => r == Failure(e) && State() == old(State())
              case Success(s) => State() == s && s.queued.Some? && r == Success(s.queued.value)
    {
      if queued.Some? {
        return Failure(SwapAlreadyExists);
      }
      if !IsLarger(contest) {
        return Failure(InsufficientBackstopSize);
      }
      if !HasValidToken(contest, newToken) {
        return Failure(InvalidBackstopToken);
      }
      var unlockTime := now + QUEUE_SECONDS;
      if !FitsU64(unlockTime) {
        return Failure(Overflow);
      }
      var swap := Swap(newBackstop, newToken, unlockTime);
      var deadline := SwapDeadline(swap);
      if deadline.Failure? {
        return Failure(deadline.error);
      }
      queued := Some(swap);
      return Success(swap);
    }

    method ExecuteCancelSwapBackstop(contest: Contest, now: nat) returns (r: Result<Swap>)
      modifies this`queued
      ensures match CancelSwap(old(State()), contest, now)
              case Failure(e) => r == Failure(e) && State() == old(State())
              case Success(s) => State() == s && r == Success(old(queued).value)
    {
      if queued.None? {
        return Failure(SwapNotQueued);
      }
      var swap := queued.value;
      var deadline := SwapDeadline(swap);
      if deadline.Failure? {
        return Failure(deadline.error);
      }
      var expired := now > deadline.value;
      if !expired && IsLarger(contest) && HasValidToken(contest, swap.newBackstopToken) {
        return Failure(SwapCannotBeCanceled);
      }
      queued := None;
      return Success(swap);
    }

    method ExecuteSwapBackstop(contest: Contest, now: nat) returns (r: Result<Swap>)
      modifies this
      ensures match SwapBackstop(old(State()), contest, now)
              case Failure(e) => r == Failure(e) && State() == old(State())
              case Success(s) => State() == s && r == Success(old(queued).value)
    {
      if queued.None? {
        return Failure(SwapNotQueued);
      }
      var swap := queued.value;
      if swap.unlockTime > now {
        return Failure(SwapNotUnlocked);
      }
      var deadline := SwapDeadline(swap);
      if deadline.Failure? {
        return Failure(deadline.error);
      }
      if now > deadline.value {
        return Failure(SwapExpired);
      }
      if !IsLarger(contest) {
        return Failure(InsufficientBackstopSize);
      }
      if !HasValidToken(contest, swap.newBackstopToken) {
        return Failure(InvalidBackstopToken);
      }
      // The outgoing backstop receives everything up to this instant.
      var minted := ExecuteDistribute(backstop, now);
      if minted.Failure? {
        return Failure(minted.error);
      }
      var gap := if swap.newBackstop in lastDistro then now - lastDistro[swap.newBackstop] else 0;
      queued := None;
      backstop := swap.newBackstop;
      backstopToken := swap.newBackstopToken;
      lastDistro := lastDistro[swap.newBackstop := now];
      history := history.(
        installedAt := if swap.newBackstop in history.installedAt then history.installedAt
                       else history.installedAt[swap.newBackstop := now],
        skipped := history.skipped[swap.newBackstop := At(history.skipped, swap.newBackstop) + gap],
        lastSwap := Some(Executed(swap, now)));
      return Success(swap);
    }

    method ExecuteDrop(caller: Address, list: seq<(Address, int)>) returns (r: Result<()>)
      modifies this`dropped, this`history
      ensures match Drop(old(State()), caller, list)
              case Failure(e) => r == Failure(e) && State() == old(State())
              case Success(s) => r.Success? && State() == s
    {
      if caller != backstop {
        return Failure(Unauthorized);
      }
      if backstop in dropped {
        return Failure(BadDrop);
      }
      var maxDrop := if backstop == initialBackstop then MAX_INITIAL_DROP else MAX_MIGRATION_DROP;
      var dropAmount := 0;
      for i := 0 to |list|
        invariant DropAmount(list, 0, maxDrop) == DropAmount(list[i..], dropAmount, maxDrop)
      {
        var amt := list[i].1;
        assert list[i..][1..] == list[i + 1..];
        if amt < 0 {
          return Failure(BadDrop);
        }
        if !FitsI128(dropAmount + amt) {
          return Failure(Overflow);
        }
        dropAmount := dropAmount + amt;
        if dropAmount > maxDrop {
          return Failure(BadDrop);
        }
      }
      for i := 0 to |list|
        invariant unchanged(this`backstop) && dropped == old(dropped)
        invariant history == old(history).(dropMinted := history.dropMinted)
        invariant MintAll(old(history).dropMinted, list) == MintAll(history.dropMinted, list[i..])
      {
        assert list[i..][1..] == list[i + 1..];
        history := history.(dropMinted := history.dropMinted[list[i].0 := At(history.dropMinted, list[i].0)
          + list[i].1]);
      }
      dropped := dropped + {backstop};
      history := history.(dropTotal := history.dropTotal[backstop := At(history.dropTotal, backstop)
        + dropAmount]);
      return Success(());
    }
  }
}
