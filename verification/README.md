# The v3 backstop, its emitter, and auction fills

A Dafny model of the lending protocol's insurance module and of the contract that feeds it, with proofs of
what they keep over every run. Three parts:

- **The backstop.** Depositors put liquidity-pool tokens, USDC or XLM into the loss tiers of lending pools
  and hold shares. BLNT is emitted by time, split 70/30 between depositors and pools, spread over a reward
  zone by weight, split over each pool's two emission tiers, streamed for seven days into a
  reward-per-share index, accrued, and compounded back into shares. Every rounding remainder is carried.
- **The emitter** and the migration onto it: a 31-day contest, a seven-day execution window, a seven-day
  attestation, activation, backfill and the one-time drop.
- **Auctions**: partial fills with a rounding composed twice and a price that moves with time, and the stored
  user liquidations, whose forced exits their target must not be able to delete.

## How it is organised

Each contract operation has a specification, a function from state to a `Result`; an abort is a `Failure`
and leaves the state as it was. `Systems` puts both contracts under one clock: a run is any sequence of
calls, transfers in and waiting. `Contracts` and `Emitters` hold the contracts as classes whose methods
follow the source's order, loops, working copies and storage writes; each method is proved to end where the
specification does, and `Contracts.Backstop.Invoke` to be one step of the system, rollback included. The
`Outcomes` files then fix every specification from outside, in arithmetic: the conditions under which a call
succeeds, the error it gives otherwise, width by width, and the state it leaves.

| file | part |
|---|---|
| Numbers, Sums, FixedPoint | widths and aborts, sums over maps, the fixed-point library |
| UserBalances, PoolBalances | the withdrawal queue, the share price |
| Streams, Tiers, TierLaws, TierOutcomes | emission streams; one tier, what its operations keep, when each succeeds |
| Allocation, AllocationLaws, AllocationOutcomes | the split pipeline, its conservation, what every pool gets |
| Backstops, BookLaws | the whole contract; the contract-wide invariant |
| ShareLaws, WeightLaws, DistributionLaws, ClaimLaws | what each kind of call keeps |
| Outcomes, WeightOutcomes, DistributionOutcomes, GulpOutcomes, ClaimOutcomes | exactly when each call succeeds and what it does, error by error |
| Emitters, EmitterLaws, EmitterOutcomes | the emitter |
| MigrationLaws, ContractLaws | attestation, activation, backfill, drop across both contracts |
| Systems, SystemLaws | runs of both contracts under one clock |
| BackingLaws, EntitlementRuns, FundingRuns, GateRuns, QueueRuns | theorems over runs: backing, depositors' entitlements, where BLNT goes, the migration gate, the 17-day lock |
| Examples, Reinstallation, Stranding | runs in which a property fails: full backing, and the drop |
| Contracts | the backstop as a mutable contract |
| Valuations, ValuationOutcomes | what a pool's tiers are worth and the queued share it is told |
| AuctionMath, Auctions, AuctionStores | auction scaling; stored user liquidations and forced exits |

`dafny verify dfyconfig.toml` checks everything.

## What to know before reading

- **Aborts.** Checked arithmetic reports `Overflow`; an unchecked operator, a failed unwrap or a failed call
  is a `Trap`, as the release profile compiles overflow to one. Numbers are otherwise unbounded and each
  width check is written out.
- **History.** `funded`, `claimed`, `forfeited` of a tier, `granted` and `approvals` of the contract, the
  emitter's `history`, the three fields recorded at activation and how a stored auction was created exist to
  state laws; no branch reads them, except that the balance differences of the drop and of the first
  distribution are read from the emitter's mint record.
- **Inputs.** Liquidity-pool reserves and supplies, what the liquidity pool answers a claim and the balance
  differences around it (`Backstops.Exchange`), the allowance a pool already has (`Backstops.Grant`), whether
  a pool reports debt to the backstop, the balances and the declared token of a swap contest, and the ledger's
  time and sequence are inputs of a step; amounts that other contracts answer are 128-bit (`Numbers.Int128`).
  Pool configurations are as registration validates them: at most three tiers, each earning LP in at most one
  (`BookLaws.ValidConfig`). Two facts about the world are used: time does not go back, and a token's supply is
  never below the contract's own balance (`Systems.Supplied`).
- **A property that is false: full backing.** It fails when the emitter leaves an active contract and later
  installs it again: the contract books from its own checkpoint, the emitter starts a new one.
  `Reinstallation.OverBooks` is such a run. `BackingLaws.ShortfallExact` is the exact condition over every
  run: right after a distribution the shortfall is one BLNT for each second that re-installations skipped, so
  there is none if and only if nothing was skipped.
- **A property that is false: the drop funds the backfill.** An initial backstop with an extended drop list that
  lets a backfill epoch open before it activates can schedule more than its cap leaves room for.
  `Stranding.Strands` is a family of such runs. From then on nothing helps: `Stranding.StrandedForGood` shows
  that in every continuation the drop is refused and so is every claim of every depositor, because claims wait
  for the funded backfill. The exact condition, checked by the drop itself, is that the list and the scheduled
  backfill exceed the contract's cap: `Stranding.FundableUnlessOverscheduled`.
- **Entitlements.** What a depositor can claim at a moment is defined from the stored stream and shares alone
  (`TierOutcomes.Entitled`). Every call, by anyone, leaves everybody's as it was except a claim by its own
  claimant; only time raises it (`EntitlementRuns.LifetimeEntitlement`).
- **A zero withdrawal** from a queue whose first entry is locked is refused although nothing is asked for;
  `UserBalances.WithdrawSucceedsIff` states the exception.

## Model

| member | source | states |
|---|---|---|
| SystemLaws.StepKeeps | backstop/src/contract.rs:242-440 | Every call on either contract, every token transfer in and every passing of time, aborting or not, keeps all invariants of both contracts; unless it is a draw, no share of any tier loses value. |
| SystemLaws.Reachable | backstop/src/contract.rs:189-234 | From the start of emission and any deployment the constructor accepts, every run of any length stays inside those invariants. |
| SystemLaws.DeployOutcome | backstop/src/contract.rs:189-234 | The constructor accepts a drop list iff no amount is negative and it is within 150 million BLNT, and within 40 million unless the emitter pays this contract already; which of the two fixes its cap; the error otherwise. |
| SystemLaws.ReachableTier | backstop/src/emissions/distributor.rs:65-193 | In every reachable state and every tier: pool totals are the sums over depositors; 10^14 times everything streamed in equals what is still scheduled, in the index carry, owed, claimed and forfeited; claims never exceed funding; every queue is sorted and locked at most 17 days ahead. |
| SystemLaws.ReachableBook | backstop/src/emissions/tier_accounting.rs:124-298 | In every reachable state: distributed = allocated + carried for both tranches, each allocated unit is in a pool record, a stream or a grant; each cached weight is the floor part of the tier's tokens behind the shares not queued; the zone has no duplicates; custody covers the tiers; at most 20 queue entries per depositor and pool; claimed <= streamed <= allocated. |
| SystemLaws.ActivationSafety | backstop/src/migration.rs:235-266 | In every run, if a step activates a contract whose epoch was open, the emitter installed it by executing exactly the attested swap, inside that swap's window, no swap ran since, and now is at most seven days past the attested unlock. |
| SystemLaws.OneWay | backstop/src/migration.rs:157-180 | Over any run the lifecycle only moves pending, open, active; once active, the backfill, its end and the checkpoint taken over never change. |
| SystemLaws.PriceNeverFalls | backstop/src/backstop/pool.rs:199-256 | Over any run without a draw in which a tier keeps shares, its tokens per share, by cross-multiplication, never fall. |
| BackingLaws.BackingExact | backstop/src/emissions/manager.rs:131-177 | For an active contract: BLNT minted since activation and BLNT booked as exact functions of the two checkpoints; bookings are covered if and only if the seconds skipped by re-installation do not exceed the seconds not yet booked; backfill and ongoing intervals do not overlap. |
| BackingLaws.FullyBacked | backstop/src/migration.rs:182-266 | In every run in which no swap back to the active contract succeeds: mints since activation plus the scheduled backfill cover everything distributed; what depositors claimed never exceeds what was minted and dropped; nor, once the drop is done or when nothing was scheduled, does that together with what pools were granted. |
| BackingLaws.ShortfallExact | backstop/src/emissions/manager.rs:131-177 | Over every run, right after a successful distribution: booked minus minted minus backfill is exactly one BLNT per second that re-installations of the active contract skipped in the run, never negative; bookings are covered iff none was skipped. |
| QueueRuns.LockedSeventeenDays | backstop/src/backstop/user.rs:53-107 | At the end of every run and for every depositor of every tier: no more shares were withdrawn than were queued at least 17 days before; and of those, whatever was neither withdrawn nor dequeued has matured, so the queue does not refuse withdrawing it. |
| QueueRuns.MaturedCanLeave | backstop/src/backstop/withdrawal.rs:74-118 | At the end of every run, any part of what was queued 17 days before and neither withdrawn nor dequeued, worth at least one token, is paid to the floor when the gate is open, the pool reports no debt and the widths fit. |
| QueueRuns.QueueStep | backstop/src/backstop/withdrawal.rs:14-158 | Each call, by anyone, moves a depositor's queue by exactly what that depositor queued, withdrew or dequeued in that tier, and what has matured by any later time accordingly; all other calls leave it alone. |
| EntitlementRuns.LifetimeEntitlement | backstop/src/emissions/distributor.rs:14-193 | Over every run: 10^14 times all a depositor was ever paid out of a tier, and what it can still claim there, is exactly the sum over time of its active shares times the index growth; a tier was streamed exactly what its gulps took. |
| EntitlementRuns.StepEven | backstop/src/emissions/distributor.rs:14-193 | At one moment, whatever anyone calls: index, index carry and loss of every tier stand still, its schedule grows only by what a gulp streams in, and a depositor's entitlement falls only by what its own claim pays. |
| EntitlementRuns.StreamCredited | backstop/src/emissions/distributor.rs:127-166 | Over every run with a tier's active shares steady, once its stream has ended: they were credited all that was left to stream and all streamed in since, but for less than one index unit each, whatever checkpoints, claims and restarts came in between. |
| FundingRuns.LpLedger | backstop/src/emissions/manager.rs:184-248 | Over every run, for each LP of each pool: all that distributions gave it, by the exact parts, was streamed to the pool's tier of that LP or is pending there; none of it reaches another tier. |
| FundingRuns.ClaimedOnlyWhenFunded | backstop/src/emissions/claim.rs:33-40 | In every run, nobody has been paid anything unless the contract is active and its scheduled backfill is funded, or none was scheduled. |
| GateRuns.WeightsFrozen | backstop/src/migration.rs:67-74 | Over every run from the swap to this contract until it activates, the zone, the shares and tokens of every LP tier and every pool's cached weight stay as they were. |
| BackingLaws.EmittedOnceOverRuns | emitter/src/emitter.rs:10-57 | Over any run, re-installations included, all backstops together were minted one BLNT per second since emission began up to the current checkpoint; each backstop drops within its cap. |
| Reinstallation.OverBooks | backstop/src/emissions/manager.rs:131-177 | A concrete family of runs where the emitter leaves an active contract and returns: it books a month it was never minted, so unconditional full backing is false. |
| Stranding.Strands | backstop/src/migration.rs:182-233 | For every drop list within a month of emission of the initial cap: an accepted deployment and a run (the emitter leaves before the first distribution, an epoch opens, a deposit and a zone entry, an attested swap back, activation) after which, however it continues, the drop and every claim are refused. |
| Stranding.StrandedForGood | backstop/src/migration.rs:76-82 | Once an active, unfunded contract's list and scheduled backfill exceed its cap, every state of every continuation keeps the same migration record, refuses the drop, and refuses every claim as not funded. |
| Stranding.FundableUnlessOverscheduled | backstop/src/migration.rs:182-233 | The exact condition: an active, current, unfunded contract funds its backfill by one drop iff its list and scheduled backfill are within its cap. |
| ContractLaws.DistributeActiveKeeps | backstop/src/emissions/manager.rs:124-182 | Active distribution: the complete list of refusals with their causes (the cached-total, checkpoint-order and conservation checks are not among them); the amount booked exceeds the amount minted by exactly the seconds between the two checkpoints, and equals it iff they agree. |
| DistributionOutcomes.DistributeOutcome | backstop/src/emissions/manager.rs:124-182 | Active distribution, exactly: each refusal in order; otherwise the amount, and for every pool its record to the unit by its weight in the zone's, carries included; pools outside the zone unchanged. |
| ContractLaws.ActivationKeeps | backstop/src/migration.rs:157-180 | Activation through distribute keeps the invariants of both contracts, distributes nothing, and after an opened epoch needs the attested swap executed. |
| DistributionOutcomes.ActivateOutcome | backstop/src/migration.rs:235-266 | Activation is refused iff the epoch is open and the attested window is not, with the error for each case; no width can refuse it; the record and the clocks it leaves. |
| MigrationLaws.ActivationExact | backstop/src/migration.rs:235-266 | Activation succeeds iff nothing was prepared or the attested window is open; the checkpoint comparisons never refuse, and the backfill end is not after the checkpoint. |
| ContractLaws.BackfillKeeps | backstop/src/emissions/tier_accounting.rs:32-64 | Backfill is refused only for a foreign queued swap or overflow; scheduled backfill stays equal to total distributed, within ten million BLNT and one BLNT per second of the epoch. |
| DistributionOutcomes.BackfillOutcome | backstop/src/emissions/tier_accounting.rs:32-64 | Backfill, exactly: each refusal; the attestation kept iff now is within seven days of the queued unlock; the epoch opened once; one BLNT per second up to ten million in all, spread by active BLNT:USDC LP, or only the clock when the zone has none. |
| ContractLaws.DropKeepsAll | backstop/src/migration.rs:182-233 | The drop succeeds exactly when active, current, not yet funded and within the cap; only an extended initial list can exceed it, so a migration candidate never does on either contract; every address receives what was listed for it, and the contract the backfill besides. |
| ContractLaws.CapsFit | backstop/src/contract.rs:208-223 | A drop list the constructor accepted for a candidate leaves room for the whole backfill under the cap, which is 150 million BLNT for an extended list and 50 million otherwise, never above the emitter's. |
| ContractLaws.DropTotalsExact | backstop/src/migration.rs:188-214 | The totals loop returns the exact sums, overall and for the contract itself. |
| MigrationLaws.AttestKeeps | backstop/src/migration.rs:286-303 | An attestation is recorded only for the swap that is queued for this contract now. |
| MigrationLaws.SwapAttested | emitter/src/backstop_manager.rs:111-142 | A swap turns an attested queued swap into an executed one, or leaves the attestation stale for good. |
| MigrationLaws.QueueAttested | emitter/src/backstop_manager.rs:56-89 | A swap queued after an attested one vanished unlocks too late for the old attestation. |
| MigrationLaws.CancelAttested | emitter/src/backstop_manager.rs:93-108 | Cancelling leaves an attestation that no later queueing can satisfy. |
| EmitterLaws.DistributeKeeps | emitter/src/emitter.rs:10-22 | Distribution to the current backstop never traps and mints exactly the seconds since its checkpoint. |
| EmitterLaws.SwapKeeps | emitter/src/backstop_manager.rs:111-142 | A swap pays the outgoing backstop to the second and starts the incoming one at that second. |
| EmitterLaws.DropKeeps | emitter/src/emitter.rs:25-57 | A drop happens once per backstop, within its cap, and mints to each address exactly what the list gives it. |
| EmitterLaws.DropAmountExact | emitter/src/emitter.rs:32-49 | The sum loop accepts a list iff every amount is nonnegative and the total is within the cap. |
| EmitterLaws.EmittedOnce | emitter/src/emitter.rs:10-22 | What was minted plus what is due equals one BLNT per second since emission began. |
| EmitterOutcomes.SwapOutcome | emitter/src/backstop_manager.rs:111-142 | A swap succeeds iff one is queued, now is from its unlock to seven days after, and the candidate is larger and names the token; each error otherwise; the whole state it leaves. |
| EmitterOutcomes.QueueOutcome | emitter/src/backstop_manager.rs:56-89 | Queueing succeeds iff none is queued and the candidate is larger and names the token; it unlocks 31 days on; each error otherwise. |
| EmitterOutcomes.CancelOutcome | emitter/src/backstop_manager.rs:93-108 | Cancelling succeeds iff the swap has expired or its contest is lost; each error otherwise. |
| EmitterOutcomes.DropOutcome | emitter/src/emitter.rs:25-57 | A drop succeeds iff called by the current backstop, for the first time, with nonnegative amounts within 150 or 50 million BLNT; what it mints to each address. |
| Emitters.Emitter.ExecuteDistribute | emitter/src/emitter.rs:10-22 | The stored state and the amount are those of the distribution step. |
| Emitters.Emitter.ExecuteSwapBackstop | emitter/src/backstop_manager.rs:111-142 | Storage after a swap is the swap step's; a refusal changes nothing. |
| Emitters.Emitter.ExecuteQueueSwapBackstop | emitter/src/backstop_manager.rs:56-89 | Storage after queueing is the queue step's; a refusal changes nothing. |
| Emitters.Emitter.ExecuteCancelSwapBackstop | emitter/src/backstop_manager.rs:93-108 | Storage after cancelling is the cancel step's; a refusal changes nothing. |
| Emitters.Emitter.ExecuteDrop | emitter/src/emitter.rs:25-57 | The two loops of the drop store exactly the drop step's state. |
| Contracts.Backstop.Invoke | backstop/src/contract.rs:242-440 | One invocation on the mutable contracts, rollback included, is exactly one step of the state machine and keeps its invariants. |
| Contracts.Backstop.ExecuteDeposit | backstop/src/backstop/deposit.rs:8-35 | Step by step on storage, the deposit equals its specification. |
| Contracts.Backstop.CreditTierShares | backstop/src/backstop/deposit.rs:38-57 | Crediting through working copies stores exactly the specified tier. |
| Contracts.Backstop.ExecuteQueueWithdrawal | backstop/src/backstop/withdrawal.rs:14-42 | Editing the user copy before a checkpoint that reads the stored balance gives the specified result. |
| Contracts.Backstop.ExecuteDequeueWithdrawal | backstop/src/backstop/withdrawal.rs:45-71 | Step by step, dequeueing equals its specification. |
| Contracts.Backstop.ExecuteWithdraw | backstop/src/backstop/withdrawal.rs:74-118 | Step by step, withdrawing equals its specification. |
| Contracts.Backstop.ExecuteForceWithdrawal | backstop/src/backstop/withdrawal.rs:135-158 | The prefix loop and the withdrawal equal the specified forced withdrawal. |
| Contracts.Backstop.RequireEntryCapacity | backstop/src/backstop/withdrawal.rs:160-172 | The loop over the pool's tiers refuses iff the depositor already has 20 entries. |
| Contracts.Backstop.ExecuteDraw | backstop/src/backstop/fund_management.rs:10-34 | Step by step, a draw equals its specification. |
| Contracts.Backstop.ExecuteDonate | backstop/src/backstop/fund_management.rs:37-63 | Step by step, a donation equals its specification. |
| Contracts.Backstop.UpdateEmissions | backstop/src/emissions/distributor.rs:14-33 | Advancing the stored stream and accruing the stored user gives the specified checkpoint. |
| Contracts.Backstop.ClaimEmissions | backstop/src/emissions/distributor.rs:55-63 | Taking a user's accrual stores the specified tier and returns the amount. |
| Contracts.Backstop.SetBackstopEmissionEps | backstop/src/emissions/distributor.rs:65-113 | Restarting a stored stream gives the specified tier. |
| Contracts.Backstop.CollectZoneWeights | backstop/src/emissions/tier_accounting.rs:66-122 | The accumulator loop over the zone returns the specified weights and total, or the specified refusal. |
| Contracts.Backstop.AllocateAmount | backstop/src/emissions/tier_accounting.rs:124-173 | The allocation loop, writing pool records as it goes, ends in the specified storage. |
| Contracts.Backstop.ExecuteCheckpointBackfill | backstop/src/emissions/tier_accounting.rs:32-64 | Step by step, a backfill checkpoint equals its specification. |
| Contracts.Backstop.ExecuteDistribute | backstop/src/emissions/manager.rs:109-182 | The three-way distribution, emitter call and the first call's balance check included, ends in the specified states of both contracts. |
| Contracts.Backstop.ExecuteActivate | backstop/src/migration.rs:235-266 | Step by step, activation equals its specification. |
| Contracts.Backstop.ExecuteDrop | backstop/src/migration.rs:182-233 | The drop, with its marker stored first, ends in the specified states of both contracts. |
| Contracts.Backstop.ExecuteGulp | backstop/src/emissions/manager.rs:184-234 | Step by step, a gulp equals its specification, with the raised allowance, its overflow and its expiry ledger. |
| Contracts.Backstop.ExecuteClaim | backstop/src/emissions/claim.rs:33-142 | Both loops of the batched claim, the approval ledger and the check that exactly the claimed BLNT was spent for the LP received end in the specified storage. |
| Contracts.Backstop.AddToRewardZone | backstop/src/emissions/manager.rs:33-68 | Editing the zone equals its specification. |
| Contracts.Backstop.RemoveFromRewardZone | backstop/src/emissions/manager.rs:71-84 | Removing from the zone equals its specification. |
| ShareLaws.DepositKeepsBook | backstop/src/backstop/deposit.rs:8-57 | Contract-wide deposit: the possible refusals; shares minted, tokens taken into custody, the depositor's and only the depositor's balance, no price loss, all invariants. |
| ShareLaws.QueueKeepsBook | backstop/src/backstop/withdrawal.rs:14-42 | Queueing: possible refusals (a missing balance iff shares fall short); only the queue parts move; the 20-entry cap holds. |
| ShareLaws.DequeueKeepsBook | backstop/src/backstop/withdrawal.rs:45-71 | Dequeueing: the pool-side InsufficientFunds guard is unreachable; the latest entries return as shares. |
| ShareLaws.WithdrawKeepsBook | backstop/src/backstop/withdrawal.rs:74-118 | Withdrawing: every part of the pool-side guard is unreachable; refused for its amount only when that is worth less than one token; the payout is the floor of the proportion, leaves custody covered and the price no lower. |
| ShareLaws.ForceQueueKeepsBook | backstop/src/backstop/withdrawal.rs:121-132 | Forced queueing never lacks a balance and leaves no active share. |
| ShareLaws.ForceWithdrawKeepsBook | backstop/src/backstop/withdrawal.rs:135-158 | Forced withdrawal is refused as not expired only when nothing is matured, and for its amount only when all of that is worth less than one token; its queue step cannot fail and no matured share remains. |
| ShareLaws.DrawKeepsBook | backstop/src/backstop/fund_management.rs:10-34 | A draw takes only tokens, never more than the tier holds, and moves no other tier. |
| ShareLaws.DonateKeepsBook | backstop/src/backstop/fund_management.rs:37-63 | A donation adds only tokens and lowers no price. |
| ShareLaws.TierWithinCustody | backstop/src/backstop/fund_management.rs:10-34 | Each tier's tokens are in the contract's custody, so no payout asks for more than it holds. |
| Outcomes.DepositOutcome | backstop/src/backstop/deposit.rs:8-57 | A deposit, exactly: each refusal in order, widths written out; otherwise shares for the floor of their proportion; no tier's emissions move. |
| Outcomes.QueueOutcome | backstop/src/backstop/withdrawal.rs:14-42 | Queueing is refused iff the amount is negative, the pool unknown, 20 entries are queued over its tiers, the shares fall short, the gate is closed, or a width fails; no tier's emissions move. |
| Outcomes.DequeueOutcome | backstop/src/backstop/withdrawal.rs:45-71 | Dequeueing is refused iff the amount is negative or not queued, the gate is closed, or a width fails; no tier's emissions move. |
| Outcomes.WithdrawOutcome | backstop/src/backstop/withdrawal.rs:74-118 | Withdrawing is refused iff the amount is negative, the pool reports debt, the matured shares fall short, they are worth less than one token of a tier that holds some, the gate is closed, or a width fails; otherwise it pays the floor of the proportion; no tier's emissions move. |
| Outcomes.ForceQueueOutcome | backstop/src/backstop/withdrawal.rs:121-132 | Forced queueing is refused iff there is no active share or queueing all of them is. |
| Outcomes.ForceWithdrawOutcome | backstop/src/backstop/withdrawal.rs:135-158 | A forced withdrawal is refused iff nothing has matured or withdrawing all that has is; otherwise it pays for all of it. |
| Outcomes.DrawOutcome | backstop/src/backstop/fund_management.rs:10-34 | A draw is refused iff negative, gated, above the tier's tokens, or too wide to quote after; no tier's emissions move. |
| Outcomes.DonateOutcome | backstop/src/backstop/fund_management.rs:37-63 | A donation is refused iff negative, from the pool or the contract, gated, or too wide; no tier's emissions move. |
| WeightLaws.CollectWeightsExact | backstop/src/emissions/tier_accounting.rs:66-122 | With LP supplies no smaller than the contract's balances, weights are refused only for unreadable reserves or overflow: the cached-total guard is unreachable; the result is one fresh weight per zone pool and their sum. |
| WeightLaws.EntryWeightIsDistributionWeight | backstop/src/emissions/tier_accounting.rs:18-27 | The weight compared on reward-zone entry and removal is the very weight the next distribution uses, before and after activation. |
| WeightLaws.ActiveSumWithin | backstop/src/emissions/tier_accounting.rs:92-120 | The zone's total cached LP never exceeds the tokens its tiers hold. |
| TierLaws.ActiveAssetsExact | backstop/src/emissions/policy.rs:135-142 | Active assets are the floor part of the tier's tokens behind the shares not queued: all of them when none is, nothing when all are; only a product over 128 bits stops the quote. |
| AllocationOutcomes.UnderlyingExact | backstop/src/emissions/policy.rs:165-175 | The BLNT under an LP amount is its floor proportion of the reserve, at most the reserve; refused iff a sign is wrong or the amount is above the supply. |
| WeightOutcomes.PoolWeightExact | backstop/src/emissions/policy.rs:86-100 | A pool's weight on entry and removal, through each LP tier it has, before and after activation; each refusal. |
| WeightOutcomes.CollectOutcome | backstop/src/emissions/tier_accounting.rs:66-122 | Weighing the zone is refused iff a liquidity pool is unreadable or the total leaves 128 bits; otherwise every pool's weight in order and their sum. |
| WeightOutcomes.QueuedPoolLeaves | backstop/src/emissions/manager.rs:71-84 | Once all of a pool's LP is queued its cached amounts are zero and it can be taken out of the zone. |
| DistributionLaws.AllocateIntoKeeps | backstop/src/emissions/tier_accounting.rs:124-173 | Allocating over fresh weights fails only by overflow: the conservation check, each checked subtraction and each sign check hold, and every ledger is kept. |
| AllocationOutcomes.AllocationExact | backstop/src/emissions/tier_accounting.rs:124-173 | Allocating succeeds iff the total ever distributed fits 128 bits; every zone pool's record after it to the unit, every other pool's unchanged, and the totals and carries. |
| AllocationLaws.DistributionConserves | backstop/src/emissions/tier_accounting.rs:124-173 | One distribution's growth of the totals equals the growth of what pools hold, per tranche; caches untouched. |
| AllocationLaws.DistributionProRata | backstop/src/emissions/tier_accounting.rs:134-162 | Each zone pool receives exactly its proportion, rounded down, of both tranches with their carries. |
| AllocationLaws.TierSplitProRata | backstop/src/emissions/tier_accounting.rs:254-261 | Between its two tiers a pool's amount goes by weight, rounded down, and at most one unit is carried. |
| AllocationLaws.AllocateFromConserves | backstop/src/emissions/tier_accounting.rs:138-162 | The allocation loop never gives out more than the distribution, and nothing at zero weight. |
| AllocationLaws.PoolSplitConserves | backstop/src/emissions/tier_accounting.rs:241-262 | The tier split conserves exactly, sends nothing to a weightless tier, and leaves a weightless pool untouched. |
| AllocationLaws.SplitConserves | backstop/src/emissions/policy.rs:102-125 | The 70/30 split gives exact floors and carries at most one unit. |
| BookLaws.RefreshKeeps | backstop/src/emissions/tier_accounting.rs:199-208 | Resampling a pool writes only its cached amounts, each the floor part of the tier's tokens behind the shares not queued; it succeeds iff those products fit, and moves no BLNT. |
| BookLaws.CommitKeeps | backstop/src/emissions/tier_accounting.rs:225-239 | Storing a changed tier keeps every contract-wide invariant, and traps iff the tier earns and its active part cannot be quoted. |
| BookLaws.EmissionTierExact | backstop/src/backstop/pool.rs:104-116 | The tier found for a canonical LP is the pool's only one with it. |
| DistributionLaws.GulpKeeps | backstop/src/emissions/manager.rs:184-234 | A gulp is refused only for an unregistered pool, within a day, or by overflow; pending BLNT always has a tier; amounts move to the unit, and the pool's allowance grows by exactly its tranche for 180 days of ledgers. |
| GulpOutcomes.GulpOutcome | backstop/src/emissions/manager.rs:184-248 | A gulp, exactly: each refusal; otherwise, tier by tier, each LP's pending BLNT restarts the pool's tier of that LP evenly over seven days with all it had not streamed, every other tier and pool is untouched, and nobody's entitlement changes. |
| DistributionLaws.AddRewardKeeps | backstop/src/emissions/manager.rs:33-68 | Membership after an addition, exactly; a full zone gives up only the named, strictly lighter member. |
| DistributionLaws.RemoveRewardKeeps | backstop/src/emissions/manager.rs:71-84 | Only a weightless member is removed; membership after it, exactly. |
| WeightOutcomes.AddRewardOutcome | backstop/src/emissions/manager.rs:33-68 | Entering the zone, exactly: each refusal in order, and the new zone with its order. |
| WeightOutcomes.RemoveRewardOutcome | backstop/src/emissions/manager.rs:71-84 | Leaving the zone, exactly: each refusal in order, and the zone left, in order. |
| ClaimLaws.ClaimKeepsBook | backstop/src/emissions/claim.rs:33-142 | A claim keeps the contract-wide invariant and is never refused because claims exceed allocations; what it pays is the growth of the claim ledger and exactly what was spent; the LP received is in custody and credited but for less than one unit per pool; nobody else's balance moves. |
| ClaimOutcomes.ClaimGate | backstop/src/migration.rs:76-82 | An active contract refuses every claim as not funded while its scheduled backfill is positive and not funded; any claim that succeeds had both. |
| ClaimOutcomes.ClaimOutcome | backstop/src/emissions/claim.rs:33-142 | A batched claim, exactly: each refusal in order; otherwise the user is paid, pool by pool, exactly the whole BLNT it was entitled to, all of it is spent, and each pool's tier is credited its floor part of the LP received, with no other tier touched. |
| ClaimLaws.ClaimedWithinAllocated | backstop/src/emissions/tier_accounting.rs:286-298 | Claimed <= streamed <= allocated across all pools and tiers. |
| ClaimLaws.ClaimFromKeeps | backstop/src/emissions/claim.rs:54-79 | The claim loop over distinct pools conserves and synchronises the user everywhere. |
| ClaimLaws.CreditFromKeeps | backstop/src/emissions/claim.rs:124-138 | The crediting loop hands out at most the bought LP and less than one unit per pool too little. |
| TierLaws.AdvanceKeeps | backstop/src/emissions/distributor.rs:115-166 | Advancing a stored stream keeps the tier's ledgers; only overflow stops it. |
| TierLaws.CheckpointKeeps | backstop/src/emissions/distributor.rs:14-33 | A checkpoint keeps conservation, pays nothing and synchronises the user. |
| TierLaws.ClaimKeeps | backstop/src/emissions/distributor.rs:55-63 | A claim moves exactly the accrual out of what is owed. |
| TierLaws.SetRateKeeps | backstop/src/emissions/distributor.rs:65-113 | A new pending amount is added exactly to what the tier accounts for. |
| TierLaws.ClaimedAtMostFunded | backstop/src/emissions/distributor.rs:55-193 | Claims of a tier never exceed what was streamed into it. |
| TierLaws.WithdrawKeeps | backstop/src/backstop/pool.rs:249-256 | On a tier, no part of the pool-side withdrawal guard can fire; a withdrawal is refused for its amount only when that is worth less than one token. |
| TierLaws.DequeueKeeps | backstop/src/backstop/pool.rs:270-275 | On a tier, the pool-side dequeue guard cannot fire. |
| TierOutcomes.CheckpointExact | backstop/src/emissions/distributor.rs:14-33 | A checkpoint brings the index and the user to the present, is refused iff one of the two widths fails, and changes nobody's entitlement. |
| TierOutcomes.ClaimExact | backstop/src/emissions/distributor.rs:55-63 | A claim pays exactly the whole BLNT the user is entitled to by now. |
| TierOutcomes.RestartExact | backstop/src/emissions/distributor.rs:65-113 | A restart streams all that was pending and unstreamed evenly over seven days; refused iff the index, the rate or the end does not fit. |
| Streams.AdvanceEmissionData | backstop/src/emissions/distributor.rs:127-166 | The step-by-step update ends where the specified advance, which AdvanceExact fixes in arithmetic, does. |
| Streams.AdvanceExact | backstop/src/emissions/distributor.rs:127-166 | With active shares and time to run, 10^7 times the value released since the last checkpoint and the carry are divided by the shares: index growth times shares plus the new carry equals it, the carry is below the shares; otherwise the index stands still. Refused iff the index leaves 128 bits. |
| Streams.RunsOut | backstop/src/emissions/distributor.rs:127-166 | Run to its end over unchanged active shares, through any increasing checkpoints, a stream has credited all that was scheduled but for less than one index unit per share. |
| Streams.AccrueExact | backstop/src/emissions/distributor.rs:168-193 | Accrued BLNT times 10^14 and a carry below that equal shares times index growth and the old carry; refused iff the accrued amount leaves 128 bits. |
| Streams.RestreamExact | backstop/src/emissions/distributor.rs:65-113 | The restarted stream ends in exactly 604800 seconds; rate times that plus a remainder below it is all that was pending and unstreamed; refused iff rate or end leaves 64 bits. |
| Streams.UpdateUserEmissions | backstop/src/emissions/distributor.rs:168-193 | The step-by-step accrual computes the specified one. |
| Streams.RestreamEmission | backstop/src/emissions/distributor.rs:65-113 | The step-by-step restart computes the specified stream. |
| Streams.AdvanceConserves | backstop/src/emissions/distributor.rs:127-166 | What leaves the schedule reaches the index, its carry or nobody, exactly. |
| Streams.RestreamConserves | backstop/src/emissions/distributor.rs:65-113 | A restart keeps every unstreamed unit and adds the pending amount exactly. |
| Streams.AccrueConserves | backstop/src/emissions/distributor.rs:168-193 | Accrual changes where earnings are held, not how much is owed. |
| Streams.PokeIndependence | backstop/src/emissions/distributor.rs:127-166 | With shares unchanged, any increasing run of checkpoints ends in the same stream, index and carries as the last one alone, overflow included. |
| Streams.UserPokeIndependence | backstop/src/emissions/distributor.rs:168-193 | A user's accrued amount and carry do not depend on how many checkpoints were taken. |
| UserBalances.QueueAppendsUnits | backstop/src/backstop/user.rs:53-68 | Queueing moves exactly the shares behind the queue, locked for 17 days. |
| UserBalances.WithdrawTakesEarliest | backstop/src/backstop/user.rs:78-107 | A withdrawal removes exactly the earliest units, all matured. |
| UserBalances.DequeueTakesLatest | backstop/src/backstop/user.rs:117-142 | A dequeue succeeds iff enough is queued and removes exactly the latest units. |
| UserBalances.WithdrawSucceedsIff | backstop/src/backstop/user.rs:78-107 | On a sorted queue a withdrawal succeeds iff the matured shares cover it (with the zero request's exception), and which error it gives otherwise. |
| UserBalances.ForcedWithdrawalComplete | backstop/src/backstop/withdrawal.rs:135-158 | The prefix sum is all that is matured, withdrawing it succeeds, and no positive matured amount is left. |
| UserBalances.UserBalance.WithdrawSharesFromQueue | backstop/src/backstop/user.rs:78-107 | The popping loop computes the specified queue or error. |
| UserBalances.UserBalance.DequeueSharesFromQueue | backstop/src/backstop/user.rs:117-142 | The popping loop from the back computes the specified queue or error. |
| UserBalances.UserBalance.QueueSharesForWithdrawal | backstop/src/backstop/user.rs:53-68 | Queueing on the working copy, or the specified error. |
| PoolBalances.TokensExact | backstop/src/backstop/pool.rs:216-227 | Shares convert to the floor of their proportion, never more than the pool has; fails iff it is not all the shares and the product leaves 128 bits. |
| PoolBalances.SharesExact | backstop/src/backstop/pool.rs:199-210 | Tokens convert to the floor of their proportion of shares, one for one into an empty tier; fails iff the product leaves 128 bits. |
| PoolBalances.DepositHoldsPrice | backstop/src/backstop/pool.rs:239-242 | A deposit does not lower the price. |
| PoolBalances.WithdrawHoldsPrice | backstop/src/backstop/pool.rs:249-256 | A withdrawal does not lower the price. |
| PoolBalances.RoundTripLosesNothingToPool | backstop/src/backstop/pool.rs:199-227 | Into a tier with shares, deposit then withdrawal returns at most the deposit. |
| PoolBalances.PartitionLosesAtMostOne | backstop/src/backstop/pool.rs:612-621 | Active and queued parts sum to the tokens or one less. |
| PoolBalances.PoolBalance.WithdrawFrom | backstop/src/backstop/pool.rs:249-256 | The working copy after a withdrawal, or the refusal. |
| PoolBalances.PoolBalance.DepositInto | backstop/src/backstop/pool.rs:239-242 | The working copy after a deposit, or the trap. |
| Valuations.BuildPoolValuation | backstop/src/backstop/pool.rs:325-439 | The two passes over the tiers compute the specified value lists, or the specified refusal. |
| ValuationOutcomes.PoolOutcome | backstop/src/backstop/pool.rs:325-439 | A pool is valued iff every tier can be split and valued and the liquidity pools that some tier with tokens needs can be read; each list entry is its tier's value, in order. |
| ValuationOutcomes.QuoteOutcome | backstop/src/backstop/pool.rs:462-547 | The floor value of the active, queued and total tokens of each of the four assets as a fraction of the reserves, and each refusal. |
| ValuationOutcomes.PartitionOutcome | backstop/src/backstop/pool.rs:612-621 | The active and the queued part are floor proportions of the tokens; refused iff a product leaves 128 bits. |
| Valuations.SumTierValues | backstop/src/backstop/pool.rs:760-771 | The loop returns the sum of the values, and refuses exactly a negative value or a sum over 128 bits. |
| Valuations.ValueSound | backstop/src/backstop/pool.rs:462-547 | For every asset, the active and queued values of a valid tier never exceed its total value; an empty part is worth nothing. |
| Valuations.PercentageExact | backstop/src/backstop/pool.rs:773-795 | The reported share is the exact ceiling of the sum of queued values over the sum of all: never understated, zero iff nothing of value is queued, whole if nothing else is; refused iff a value is negative or the sum overflows. |
| Valuations.PercentageMonotone | backstop/src/backstop/pool.rs:773-795 | Between two pairs of value lists of the same total, more queued value never reports a lower share. |
| Valuations.ReportedShareSound | backstop/src/backstop/pool.rs:143-162 | In every state that keeps the invariant, every registered pool is told a sound partition and share. |
| Auctions.ScaleAuction | pool/src/auctions/auction.rs:317-370 | Both loops compute the specified fill and remainder, or the refusal. |
| Auctions.FillEffect | pool/src/auctions/auction.rs:317-370 | One fill selects a base, leaves exactly the rest, and takes the time-scaled base of each side. |
| Auctions.FillExact | pool/src/auctions/auction.rs:317-370 | A fill is refused iff the percentage is not 1 to 100 or the auction has not begun; otherwise of each bid asset the percentage rounded up, of each lot asset rounded down, each scaled by the ledger's price with the same rounding; nothing is left iff that selects all of every asset. |
| Auctions.TotalsBounded | pool/src/auctions/auction.rs:218-250 | At any mix of ledgers, totals taken plus what is left never exceed the original on either side. |
| Auctions.SplittingNeverHelps | pool/src/auctions/auction.rs:317-370 | Partial fills completing an auction pay at least the bid and receive at most the lot of one full fill on the last ledger, on one ledger within a unit per extra fill; everything auctioned was selected. |
| AuctionStores.StoreRunKeeps | pool/src/storage.rs:938-981 | Over every run of creations, fills, deletions, clawbacks and ledgers by any accounts: a forced-exit marker is live exactly while its forced exit is and for the same ledgers, so a user can delete the auction on itself iff there is one, it was not created as a forced exit, and the user ends healthy. |
| AuctionStores.AuctionBegins | pool/src/auctions/auction.rs:96-141 | An auction begins only by being created when there is none, with the quoted amounts, on the ledger after. |
| AuctionStores.AuctionEnds | pool/src/auctions/auction.rs:163-260 | A live auction ends in exactly the listed ways; otherwise exactly what a fill left of it stays, as it was created. |
| AuctionStores.WrittenAuctionLasts | pool/src/storage.rs:938-981 | Once created or filled in part it lives 46 days of ledgers, or what it had left if more than 45, and its marker exactly as long. |
| AuctionStores.ForcedExitEnds | pool/src/auctions/auction.rs:163-260 | A live forced exit ends in a step iff its lifetime runs out, another account fills all that is left, it is deleted at 500 ledgers old, or a clawback invalidates it; never by its target's request. |
| AuctionStores.ForcedExitStays | pool/src/auctions/auction.rs:236-245 | Through any run without those endings, partial fills and renewals included, the exit stays live and each deletion request of its target is refused as unauthorized. |
| AuctionStores.AuctionStore.CreateAuction | pool/src/auctions/auction.rs:96-141 | Storage after creating a liquidation or a forced exit is the specified one, a live auction of the user refuses it, a refusal changes nothing. |
| AuctionStores.AuctionStore.FillAuction | pool/src/auctions/auction.rs:218-250 | A fill stores the remainder and renews auction and marker alike, or removes both when nothing is left; each refusal, and that it changes nothing. |
| AuctionStores.AuctionStore.DeleteStaleAuction | pool/src/auctions/auction.rs:163-174 | Storage after deleting a stale user liquidation with its marker; refused iff there is none, it is younger than 500 ledgers, or its age overflows. |
| AuctionStores.AuctionStore.DeleteLiquidationAuction | pool/src/auctions/auction.rs:196-204 | Storage after the user's own deletion; refused iff there is no auction, a marker is live, or the user does not end healthy. |
| AuctionMath.ModifiersMonotone | pool/src/auctions/math.rs:6-29 | Later fills are never worse priced; both modifiers stay within one whole and one of them is whole. |
| AuctionMath.ModifiersExact | pool/src/auctions/math.rs:6-29 | The lot grows in equal steps over the first 200 ledgers with the bid whole, the bid shrinks in equal steps over the next 200 with the lot whole, and is nothing from then on. |
| AuctionMath.ScaleBidExact | pool/src/auctions/math.rs:58-70 | The bid amounts are the exact ceilings, twice. |
| AuctionMath.ScaleLotExact | pool/src/auctions/math.rs:74-86 | The lot amounts are the exact floors, twice. |
| FixedPoint.DivFloorExact | compat/soroban-fixed-point-math/src/lib.rs:43-50 | The truncating code is the mathematical floor iff the signs are not the combination it mishandles; for a positive denominator it always is. |
| FixedPoint.DivCeilExact | compat/soroban-fixed-point-math/src/lib.rs:56-63 | The same for the ceiling. |
| FixedPoint.FastPathAgrees | compat/soroban-fixed-point-math/src/lib.rs:83-109 | The 128-bit path and the 256-bit path agree whenever the product fits. |
| FixedPoint.ScaledExact | compat/soroban-fixed-point-math/src/lib.rs:83-109 | For every positive denominator and all signs the scaled forms are the mathematical floor and ceiling. |
| FixedPoint.PlainExact | compat/soroban-fixed-point-math/src/lib.rs:39-63 | The plain form is the floor exactly while the product fits 128 bits. |

## Left out

- Authorisation and access control: calls are taken as authorised; only "the caller is the current backstop" is kept, for the emitter's distribution and drop.
- Storage lifetimes other than those of user liquidations, key encodings, events and error numbers: they do not change what is computed.
- Token contracts, liquidity pools and the pool factory: balances, supplies, reserves and the LP bought are inputs; a transfer moves exactly its amount. A pool's tier configuration is taken as fixed from the start instead of being read from the factory once and cached.
- A failing external transfer in the middle of a call is not a separate step: it aborts like any trap and leaves the state unchanged.
- A withdrawal or draw paid to the backstop itself: the same as the payout followed by a `Receive` of it.
- Re-entry: the modelled callees are token contracts and the emitter, neither of which calls back.
- Storage layout: pool balance, depositor balances, depositor accruals and stream of one tier are one record, read and written together; an absent record and a default one read alike.
- Deployment time: every backstop is taken to be deployed when emission begins and to be unused until its first call, which includes every later deployment.
- `Contracts.Backstop.Invoke`: requires LP supplies no smaller than the contract's balances when it distributes, because no token contract can answer otherwise.
- `MigrationLaws.ActivationExact`: `Overflow` from adding the grace period is excluded by an invariant rather than listed, because an attestation already performed that addition.
- `AuctionStores.AuctionStore.FillAuction`: the position transfer behind a fill is not part of this model; whether it goes through is an input.
- `AuctionStores.AuctionStore.CreateAuction`: the amounts a liquidation or a forced exit is created with, and the refusals of pricing it, are an input.
- `AuctionStores.AuctionStore.DeleteStaleAuction`: only user liquidations are stored here; the interest, bad-debt and protocol-fee auctions of the backstop are not part of this model.
- `AuctionStores.AuctionStore.DeleteLiquidationAuction`: the health check that follows it is an input, because reserves and prices are not part of this model.
- Pool reserves, interest, the health factor and bad debt: not part of this model.
- The host's entry lifetimes beyond the renewal rule: a write to an entry with more than 45 days left keeps its lifetime, any other write sets 46 days.
- The authorisation entry a claim signs for its exchange: only its expiry ledger and the overflow of that are modelled.
- Previews and view functions other than the pool valuation, configuration checks and permission masks: each is settled by reading one branch.
