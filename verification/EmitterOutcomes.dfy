/** Exactly when each emitter operation succeeds and the whole state it leaves. */
module EmitterOutcomes {
  import opened Numbers
  import opened Sums
  import opened Emitters
  import opened EmitterLaws

  /** The contest: the candidate holds strictly more of the comparison token, and names this token as its own. */
  predicate Larger(c: Contest) {
    c.incumbentBalance < c.candidateBalance
  }

  predicate Names(c: Contest, token: Address) {
    c.declared.Some? && c.declared.value == token
  }

  /** Queueing: only when none is queued, only for a larger candidate naming the token; it unlocks 31 days on. */
  lemma QueueOutcome(e: EmitterState, candidate: Address, token: Address, c: Contest, now: nat)
    ensures var r := QueueSwap(e, candidate, token, c, now);
            if e.queued.Some? then r == Failure(SwapAlreadyExists)
            else if !Larger(c) then r == Failure(InsufficientBackstopSize)
            else if !Names(c, token) then r == Failure(InvalidBackstopToken)
            else if U64_MAX < now + 38 * 86_400 then r == Failure(Overflow)
            else r == Success(e.(queued := Some(Swap(candidate, token, now + 31 * 86_400))))
  {
  }

  /** Cancelling: anyone may, once the seven days after the unlock are over, or once the contest is lost. */
  lemma CancelOutcome(e: EmitterState, c: Contest, now: nat)
    ensures var r := CancelSwap(e, c, now);
            if e.queued.None? then r == Failure(SwapNotQueued)
            else
              var swap := e.queued.value;
              if U64_MAX < swap.unlockTime + 7 * 86_400 then r == Failure(Overflow)
              else if now <= swap.unlockTime + 7 * 86_400 && Larger(c) && Names(c, swap.newBackstopToken) then
                r == Failure(SwapCannotBeCanceled)
              else r == Success(e.(queued := None))
  {
  }

  /** Swapping: only from the unlock to seven days after it, and only if the contest is still won. The outgoing backstop
      is paid to the second; both checkpoints are now; a checkpoint of its own that the incoming one still had is
      skipped. */
  lemma SwapOutcome(e: EmitterState, c: Contest, now: nat)
    requires EmitterInv(e, now)
    ensures var r := SwapBackstop(e, c, now);
            && e.backstop in e.lastDistro
            && if e.queued.None? then r == Failure(SwapNotQueued)
               else
                 var swap := e.queued.value;
                 if now < swap.unlockTime then r == Failure(SwapNotUnlocked)
                 else if U64_MAX < swap.unlockTime + 7 * 86_400 then r == Failure(Overflow)
                 else if swap.unlockTime + 7 * 86_400 < now then r == Failure(SwapExpired)
                 else if !Larger(c) then r == Failure(InsufficientBackstopSize)
                 else if !Names(c, swap.newBackstopToken) then r == Failure(InvalidBackstopToken)
                 else
                   var h, x := e.history, swap.newBackstop;
                   var before := if x == e.backstop then now else if x in e.lastDistro then e.lastDistro[x] else now;
                   r == Success(e.(
                     backstop := x, backstopToken := swap.newBackstopToken, queued := None,
                     lastDistro := e.lastDistro[e.backstop := now][x := now],
                     history := h.(
                       minted := h.minted[e.backstop :=
                         At(h.minted, e.backstop) + (now - e.lastDistro[e.backstop]) * 10_000_000],
                       installedAt := if x in h.installedAt then h.installedAt else h.installedAt[x := now],
                       skipped := h.skipped[x := At(h.skipped, x) + (now - before)],
                       lastSwap := Some(Executed(swap, now)))))
  {
    hide EmitterInv;
    CurrentInstalled(e, now);
  }

  /** A drop: only by the current backstop, once, of nonnegative amounts within 150 million BLNT for the initial
      backstop and 50 million for any other. Each address is minted what the list gives it. */
  lemma DropOutcome(e: EmitterState, caller: Address, list: seq<(Address, int)>, now: nat)
    requires EmitterInv(e, now)
    ensures var r := Emitters.Drop(e, caller, list);
            var cap := (if e.backstop == e.initialBackstop then 150_000_000 else 50_000_000) * 10_000_000;
            if caller != e.backstop then r == Failure(Unauthorized)
            else if e.backstop in e.dropped then r == Failure(BadDrop)
            else if (exists i :: 0 <= i < |list| && list[i].1 < 0) || cap < SeqSum(Amounts(list)) then
              r.Failure? && r.error in {BadDrop, Overflow}
            else
              && r.Success? && r.value.dropped == e.dropped + {e.backstop}
              && (forall a :: At(r.value.history.dropMinted, a) == At(e.history.dropMinted, a) + AmountTo(list, a))
              && r.value.history.dropTotal
                 == e.history.dropTotal[e.backstop := At(e.history.dropTotal, e.backstop) + SeqSum(Amounts(list))]
              && r.value == e.(dropped := r.value.dropped,
                               history := e.history.(dropMinted := r.value.history.dropMinted,
                                                     dropTotal := r.value.history.dropTotal))
  {
    hide EmitterInv, SeqSum, MintAll, AmountTo, DropAmount;
    DropAmountExact(list, 0, DropCap(e));
    DropErrors(list, 0, DropCap(e));
    if caller == e.backstop && e.backstop !in e.dropped && forall i | 0 <= i < |list| :: 0 <= list[i].1 {
      MintAllExact(e.history.dropMinted, list);
    }
  }

  lemma {:induction false} DropErrors(list: seq<(Address, int)>, sum: int, cap: int)
    ensures DropAmount(list, sum, cap).Failure? ==> DropAmount(list, sum, cap).error in {BadDrop, Overflow}
    decreases |list|
  {
    if list != [] {
      DropErrors(list[1..], sum + list[0].1, cap);
    }
  }
}
