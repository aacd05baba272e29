/** What every emitter operation keeps, for any mix of distributions, contests, swaps and drops. */
module EmitterLaws {
  import opened Numbers
  import opened Sums
  import opened Emitters

  /** Each second since initialisation has been minted once, to whichever backstop was current. A
      backstop's own mints cover the time since it was first installed, less what re-installation
      skipped because another backstop had been paid for it. */
  ghost predicate EmissionLedger(e: EmitterState, now: nat) {
    var h := e.history;
    && e.backstop in e.lastDistro && e.lastDistro.Keys == h.installedAt.Keys
    && h.minted.Keys <= e.lastDistro.Keys && h.skipped.Keys <= e.lastDistro.Keys
    && h.start <= e.lastDistro[e.backstop] <= now
    && (forall b | b in e.lastDistro :: e.lastDistro[b] <= e.lastDistro[e.backstop])
    && Sum(h.minted) == SCALAR_7 * (e.lastDistro[e.backstop] - h.start)
    && (forall b | b in e.lastDistro ::
          At(h.minted, b) == SCALAR_7 * (e.lastDistro[b] - h.installedAt[b] - At(h.skipped, b)))
    && (forall b | b in e.lastDistro :: 0 <= At(h.skipped, b) && h.start <= h.installedAt[b])
  }

  /** Every backstop drops at most once and within the cap that applied to it. */
  ghost predicate DropLedger(e: EmitterState) {
    && e.history.dropTotal.Keys <= e.dropped
    && (forall b | b in e.history.dropTotal ::
          0 <= e.history.dropTotal[b] <= if b == e.initialBackstop then MAX_INITIAL_DROP else MAX_MIGRATION_DROP)
    && (forall a | a in e.history.dropMinted :: 0 <= e.history.dropMinted[a])
  }

  /** A queued swap was queued exactly 31 days before its unlock, after the last executed swap; the
      current backstop is the one that swap installed. */
  ghost predicate SwapTiming(e: EmitterState, now: nat) {
    && (e.queued.Some? ==> QUEUE_SECONDS <= e.queued.value.unlockTime <= now + QUEUE_SECONDS)
    && (e.history.lastSwap.None? ==> e.backstop == e.initialBackstop)
    && (e.history.lastSwap.Some? ==>
          var last := e.history.lastSwap.value;
          && last.swap.newBackstop == e.backstop && last.swap.newBackstopToken == e.backstopToken
          && last.swap.unlockTime <= last.at <= last.swap.unlockTime + SWAP_GRACE_SECONDS
          && last.at <= now
          && (e.queued.Some? ==> last.at + QUEUE_SECONDS <= e.queued.value.unlockTime))
  }

  ghost predicate EmitterInv(e: EmitterState, now: nat) {
    EmissionLedger(e, now) && DropLedger(e) && SwapTiming(e, now)
  }

  lemma InitializedInv(backstop: Address, token: Address, now: nat)
    ensures EmitterInv(Initialized(backstop, token, now), now)
  {
  }

  lemma EmitterTimePasses(e: EmitterState, now: nat, later: nat)
    requires EmitterInv(e, now) && now <= later
    ensures EmitterInv(e, later)
  {
  }

  /** Distributing to the current backstop mints exactly the seconds since its checkpoint, and never
      traps. */
  lemma DistributeKeeps(e: EmitterState, now: nat)
    requires EmitterInv(e, now)
    ensures Distribute(e, e.backstop, now).Success?
    ensures var (d, amount) := Distribute(e, e.backstop, now).value;
            && EmitterInv(d, now) && d.backstop in d.lastDistro && d.lastDistro[d.backstop] == now
            && amount == SCALAR_7 * (now - e.lastDistro[e.backstop])
            && d == e.(lastDistro := d.lastDistro, history := e.history.(minted := d.history.minted))
            && At(d.history.minted, e.backstop) == At(e.history.minted, e.backstop) + amount
            && (forall b | b != e.backstop :: b in d.lastDistro <==> b in e.lastDistro)
            && (forall b | b != e.backstop && b in e.lastDistro :: d.lastDistro[b] == e.lastDistro[b])
            && (forall b | b != e.backstop :: At(d.history.minted, b) == At(e.history.minted, b))
  {
    DistributeLedger(e, now);
    hide EmissionLedger, Sum;
  }

  lemma DistributeLedger(e: EmitterState, now: nat)
    requires EmissionLedger(e, now)
    ensures Distribute(e, e.backstop, now).Success?
    ensures var (d, amount) := Distribute(e, e.backstop, now).value;
            && EmissionLedger(d, now) && d.lastDistro[d.backstop] == now
            && amount == SCALAR_7 * (now - e.lastDistro[e.backstop])
            && d.backstop == e.backstop && d.lastDistro.Keys == e.lastDistro.Keys
            && (forall b | b in e.lastDistro :: d.lastDistro[b] == if b == e.backstop then now else e.lastDistro[b])
            && (forall b :: At(d.history.minted, b) == At(e.history.minted, b) + if b == e.backstop then amount else 0)
  {
    hide Sum;
    var amount := (now - e.lastDistro[e.backstop]) * SCALAR_7;
    SumUpdate(e.history.minted, e.backstop, At(e.history.minted, e.backstop) + amount);
  }

  lemma QueueKeeps(e: EmitterState, candidate: Address, token: Address, c: Contest, now: nat)
    requires EmitterInv(e, now) && QueueSwap(e, candidate, token, c, now).Success?
    ensures EmitterInv(QueueSwap(e, candidate, token, c, now).value, now)
    ensures e.queued.None? && candidate == QueueSwap(e, candidate, token, c, now).value.queued.value.newBackstop
    ensures QueueSwap(e, candidate, token, c, now).value.queued.value.unlockTime == now + QUEUE_SECONDS
  {
  }

  lemma CancelKeeps(e: EmitterState, c: Contest, now: nat)
    requires EmitterInv(e, now) && CancelSwap(e, c, now).Success?
    ensures EmitterInv(CancelSwap(e, c, now).value, now)
  {
  }

  /** A swap pays the outgoing backstop to the second and starts the incoming one at that second. */
  lemma SwapKeeps(e: EmitterState, c: Contest, now: nat)
    requires EmitterInv(e, now) && SwapBackstop(e, c, now).Success?
    ensures var s := SwapBackstop(e, c, now).value;
            var swap := e.queued.value;
            && EmitterInv(s, now)
            && s.backstop == swap.newBackstop && s.backstop in s.lastDistro && s.lastDistro[s.backstop] == now
               && s.queued.None?
            && s.history.lastSwap == Some(Executed(swap, now))
            && e.backstop in s.lastDistro && s.lastDistro[e.backstop] == now && e.backstop in e.lastDistro
            && At(s.history.minted, e.backstop)
               == At(e.history.minted, e.backstop) + SCALAR_7 * (now - e.lastDistro[e.backstop])
  {
    hide EmitterInv, Install, Distribute;
    DistributeKeeps(e, now);
    CurrentInstalled(e, now);
    var d := Distribute(e, e.backstop, now).value.0;
    SwapForm(e, c, now);
    InstallKeeps(d, e.queued.value, now);
    InstallEffect(d, e.queued.value, now);
  }

  lemma CurrentInstalled(e: EmitterState, now: nat)
    requires EmitterInv(e, now)
    ensures e.backstop in e.lastDistro && e.lastDistro[e.backstop] <= now
  {
    hide DropLedger, SwapTiming, Sum;
  }

  lemma SwapForm(e: EmitterState, c: Contest, now: nat)
    requires SwapBackstop(e, c, now).Success?
    ensures e.queued.Some? && Distribute(e, e.backstop, now).Success?
    ensures SwapBackstop(e, c, now).value == Install(Distribute(e, e.backstop, now).value.0, e.queued.value, now)
    ensures e.queued.value.unlockTime <= now <= e.queued.value.unlockTime + SWAP_GRACE_SECONDS
  {
    hide Install, Distribute;
  }

  lemma InstallEffect(e: EmitterState, swap: Swap, now: nat)
    ensures var s := Install(e, swap, now);
            && s.backstop == swap.newBackstop && s.lastDistro == e.lastDistro[swap.newBackstop := now] && s.queued.None?
            && s.history.lastSwap == Some(Executed(swap, now)) && s.history.minted == e.history.minted
  {
  }

  lemma InstallKeeps(e: EmitterState, swap: Swap, now: nat)
    requires EmitterInv(e, now) && e.queued == Some(swap) && e.backstop in e.lastDistro
             && e.lastDistro[e.backstop] == now
    requires swap.unlockTime <= now <= swap.unlockTime + SWAP_GRACE_SECONDS
    ensures EmitterInv(Install(e, swap, now), now)
  {
    hide EmissionLedger;
    InstallLedger(e, swap, now);
  }

  lemma InstallLedger(e: EmitterState, swap: Swap, now: nat)
    requires EmissionLedger(e, now) && e.lastDistro[e.backstop] == now
    ensures EmissionLedger(Install(e, swap, now), now)
  {
    hide Sum;
    assert forall b :: At(e.history.skipped, b) == At(e.history.skipped, b);
  }

  /** The sum loop of a drop accepts a list exactly when it is nonnegative and within the cap. */
  lemma {:induction false} DropAmountExact(list: seq<(Address, int)>, sum: int, cap: int)
    requires 0 <= sum <= cap <= I128_MAX
    ensures DropAmount(list, sum, cap).Success? <==>
              (forall i | 0 <= i < |list| :: 0 <= list[i].1) && sum + SeqSum(Amounts(list)) <= cap
    ensures DropAmount(list, sum, cap).Success? ==>
              DropAmount(list, sum, cap).value == sum + SeqSum(Amounts(list)) && SeqSum(Amounts(list)) >= 0
    decreases |list|
  {
    if list != [] {
      assert Amounts(list)[1..] == Amounts(list[1..]);
      if 0 <= list[0].1 {
        if sum + list[0].1 <= cap {
          DropAmountExact(list[1..], sum + list[0].1, cap);
          assert forall i | 0 <= i < |list[1..]| :: list[1..][i] == list[i + 1];
        } else if forall i | 0 <= i < |list| :: 0 <= list[i].1 {
          AmountsNonNegative(list[1..]);
        }
      }
    }
  }

  function Amounts(list: seq<(Address, int)>): seq<int> {
    seq(|list|, i requires 0 <= i < |list| => list[i].1)
  }

  lemma AmountsNonNegative(list: seq<(Address, int)>)
    requires forall i | 0 <= i < |list| :: 0 <= list[i].1
    ensures 0 <= SeqSum(Amounts(list))
  {
    SeqSumNonNegative(Amounts(list));
  }

  function AmountTo(list: seq<(Address, int)>, a: Address): int
    decreases |list|
  {
    if list == [] then 0 else (if list[0].0 == a then list[0].1 else 0) + AmountTo(list[1..], a)
  }

  lemma {:induction false} AmountToNonNegative(list: seq<(Address, int)>, a: Address)
    requires forall i | 0 <= i < |list| :: 0 <= list[i].1
    ensures 0 <= AmountTo(list, a)
    decreases |list|
  {
    if list != [] {
      AmountToNonNegative(list[1..], a);
    }
  }

  /** A drop mints to each address exactly what the list gives it, repeated entries included. */
  lemma {:induction false} MintAllExact(minted: map<Address, int>, list: seq<(Address, int)>)
    requires forall i | 0 <= i < |list| :: 0 <= list[i].1
    ensures forall a :: At(MintAll(minted, list), a) == At(minted, a) + AmountTo(list, a)
    ensures (forall a | a in minted :: 0 <= minted[a]) ==>
              forall a | a in MintAll(minted, list) :: 0 <= MintAll(minted, list)[a]
    decreases |list|
  {
    if list != [] {
      var next := minted[list[0].0 := At(minted, list[0].0) + list[0].1];
      MintAllExact(next, list[1..]);
      forall a ensures At(MintAll(minted, list), a) == At(minted, a) + AmountTo(list, a) {
        assert At(MintAll(next, list[1..]), a) == At(next, a) + AmountTo(list[1..], a);
      }
    }
  }

  lemma FitsBelowCap(list: seq<(Address, int)>, cap: int)
    requires 0 <= cap && DropAmount(list, 0, cap).Success? && cap <= I128_MAX
    ensures 0 <= DropAmount(list, 0, cap).value <= cap
  {
    DropAmountExact(list, 0, cap);
  }

  lemma DropKeeps(e: EmitterState, caller: Address, list: seq<(Address, int)>, now: nat)
    requires EmitterInv(e, now) && Drop(e, caller, list).Success?
    ensures var d := Drop(e, caller, list).value;
            && EmitterInv(d, now) && e.backstop !in e.dropped && e.backstop in d.dropped
            && d == e.(dropped := d.dropped,
               history := e.history.(dropMinted := d.history.dropMinted, dropTotal := d.history.dropTotal))
            && (forall a :: At(d.history.dropMinted, a) == At(e.history.dropMinted, a) + AmountTo(list, a))
            && (forall i | 0 <= i < |list| :: 0 <= list[i].1)
  {
    hide Sum, SeqSum, DropAmount, MintAll, AmountTo;
    DropAmountExact(list, 0, DropCap(e));
    MintAllExact(e.history.dropMinted, list);
    FitsBelowCap(list, DropCap(e));
  }

  /** Every second is emitted exactly once, over all backstops together. */
  lemma EmittedOnce(e: EmitterState, now: nat)
    requires EmitterInv(e, now)
    ensures Sum(e.history.minted) == SCALAR_7 * (e.lastDistro[e.backstop] - e.history.start)
    ensures Distribute(e, e.backstop, now).Success?
    ensures Sum(e.history.minted) + Distribute(e, e.backstop, now).value.1 == SCALAR_7 * (now - e.history.start)
  {
    DistributeKeeps(e, now);
  }
}
