# A permissioned ledger: execution, ordering, catch-up and formats

This project models the hard parts of a permissioned blockchain system and proves
what they are for. The system has three kinds of nodes. A *core* node simulates a
contract against the state of a commit peer and records a read/write set. The
*ordering service* collects transactions into hash-linked blocks and replicates
them under a leader. A *commit peer* checks each block, re-checks the recorded
versions and applies the writes.

## How to read it

**Execute, order, validate.** `Ledger`, `RwSets`, `Simulation` and `WorldStates`
hold the state, the host functions and `ApplyBlock`. A contract is a program over
`GetState` and `PutState`; the engine, the read/write set and the world state are
classes proved against functions. `Histories` defines runs (blocks whose
transactions were simulated on any earlier states, admin puts and deletes) and
proves that versions identify values. `Serializability` proves that a run equals
executing the VALID contracts one after another. `Contracts`, `Effects`, `Supply`
and `CallRuns` put the five account contracts on top: the supply equation and
serial escrows. `Outcomes` writes out when each call is VALID on the newest state and
the balances it leaves. `Footprints` says what the calls read and write, `DirectCalls` which accounts and escrow ids that makes safe, `Trimming` and
`PaddedEscrows` (with `OneState`) what the others do, both with exact conditions.
`Escrows` proves of all runs that escrows pay at most once and what was locked, and
`PaidParties` exactly to whom.
`SupplyModulo` drops the bound on the money. `Peers` shows why block heights, hence
versions, are fresh. `Texts` and `CanonicalForm` treat the strings behind keys and versions, and
the endorsement digest.

**Replication under one leader.** `Nodes` is the ordering node; `Membership` the
quorum base. `Replication` is the state machine of one reign: the leader, its
followers, every message ever sent, and a network that delivers any of them at any
later time, any number of times. Quorum durability is proved there, and in
`Quorums` when a block commits; `Delivery` proves the FIFO queue and the leader's hash chain, `Followers` what the followers'
chains contain on different links, `Notices` exactly what a follower commits, and
`Queues` exactly when the queue keeps its order.

**Catch-up.** `Merkle`, `Roots`, `Blocks` and `Chains` treat roots, headers and hash chains;
`Sync` the chunked, sharded fetch with retries; `CatchUp` a whole sync cycle.

**Byte formats.** `Transactions`, `Layouts` and `TxEncoding` treat the wire encoding,
`Payloads` and `PayloadRoundTrip` the explorer's payload codec. `Bytes` and
`Wrappers` are shared.

`dafny verify dfyconfig.toml` checks everything.

## Assumptions

- Double SHA-256 is an arbitrary function to 32 bytes. Collision-freedom is assumed
  only where a lemma says so, and only of the inputs hashed there (the headers or
  tree nodes of the two lists compared).
- A simulation has a budget of host calls, and every theorem holds for every budget,
  so it holds for every contract run that ends.
- A fetch returns one atomic (value, version) pair, that of the trimmed key, and does
  not fail. The start state of a run is well-formed (the empty one is). Admin versions are fresh.
- In a reign leader, term and membership are fixed, logs start empty, and a proposal
  resolves, by commit or timeout, before the next one starts.

## What the proofs found

- The state endpoint trims the key it is asked for, core records the pair under the
  untrimmed key, and the commit check compares it with that key's version. Serial
  execution therefore holds on keys without white space at the end (`CleanTx`), and
  `ActsDirectlyExactly` is the exact condition on a history. Of the account contracts it
  holds for all accounts but one kind: the treasury's name padded to 40 bytes.
  `PaddedNameBreaksRun` loses 420 of 1110 with it; `HarmlessExactly` says that nothing
  else breaks the runs. Even in broken runs escrows pay at most once (`EscrowPaysOnce`),
  and what was locked, unless to that name itself (`PaidPartyExactly`).
- An escrow id that ends in white space can be locked (`PaddedLockIsValid`) and is then
  never paid out (`PaddedEscrowStays`, `PaddedOnlyLocked`). `PayoutValidExactly` is the exact
  condition for a payout. A padded account is frozen likewise once it holds a balance
  (`PaddedAccountConflicts`).
- Reading one simulation's keys from different states is safe without deletes. With
  deletes it is not: `SnapshotsUnneededExactly` gives the exact condition.
- The pool filter works by id. A pooled transaction that repeats a committed id is
  dropped without being committed; `FifoExactly` says exactly when the queue
  stays in order, and `LostTransactionRun` is a run that loses one.
- A commit notice delivered twice makes a follower append the block twice
  (`RepeatedNoticeRun`; `FollowerChainExactly` for every order of delivery). A follower
  that lost one is not repaired by a later sync unless its tip is the chain's block at
  its height (`HonestSyncExactly`).
- `verifyHashChain` does not look at transactions, and accepts an empty list for any
  target; the caller never passes one. `AcceptedExactly` says what it does pin down.
- A Merkle root does not bind the number of ids; `RootsEqualExactly` says what it binds.
- An input id that is not hex contributes no bytes to the wire encoding, so all
  such ids encode alike (`BadIdsEncodeAlike`, `BadIdsCollide`).
- The explorer documents UINT32 as 0 to 4294967295 but decodes it as signed; values
  survive from -2^31 to 2^31-1. An address with capital letters comes back in lower case.
  A schema without fields encodes to a text that cannot be decoded.
- `checkReadSet` uses the empty key for "no conflict". No key of the contracts is empty
  (`ConflictTextExact`).

## Model

| member | source | states |
|---|---|---|
| `RwSets.RWSet.PutWrite` | coreservice/internal/core/rwset.go:40-53 | a write replaces the value of its key where that stands, or is appended |
| `RwSets.RWSet.DeleteWrite` | coreservice/internal/core/rwset.go:56-68 | a delete marks its key where that stands, or is appended |
| `RwSets.RWSet.LookupWrite` | coreservice/internal/core/rwset.go:71-89 | the overlay says deleted, written with a value, or not written (malformed hex included) |
| `RwSets.RWSet.RecordRead` | coreservice/internal/core/rwset.go:93-107 | only the first read of a key is recorded |
| `RwSets.PutInIsPut` | coreservice/internal/core/rwset.go:40-53 | applying a write set after an upsert is applying it and then putting the key; upserts keep keys unique |
| `RwSets.OverlayIsApplied` | coreservice/internal/core/rwset.go:71-89 | the overlay answers exactly what the store with the writes applied would answer |
| `RwSets.UpsertPlaces` | coreservice/internal/core/rwset.go:40-53 | an upsert replaces the first write of its key where it stands; without one it goes to the end |
| `RwSets.LastWriteDecides` | commitingpeer/source/internal/storage/world_state.go:99-116 | after a write set is applied every key shows its last write (value and stamp, or nothing after a delete), and an unwritten key what it had |
| `Simulation.WasmEngine.Get` | coreservice/internal/vm/engine.go:107-159 | one `GetState`: overlay first, else the pair that the state endpoint serves, which is that of the trimmed key; recorded once, under the key as given |
| `Simulation.WasmEngine.CallGuest` | coreservice/internal/vm/engine.go:463-472 | a guest run against the host functions has the outcome and read/write set of the simulation function |
| `Simulation.WasmEngine.Execute` | coreservice/internal/vm/engine.go:436-461 | `verify_tx` then `execute` share one read/write set; a rejection yields none; an untouched state yields an absent set |
| `Simulation.ExecutedExactly` | coreservice/internal/vm/engine.go:436-461 | the set is absent if and only if the call is accepted and nothing was read or written; otherwise it is just what was collected |
| `Simulation.SimulateKeepsUnique` | coreservice/internal/core/rwset.go:40-107 | every simulation leaves reads and writes without repeated keys |
| `Simulation.ExecutedIsUnique` | coreservice/internal/vm/engine.go:436-461 | so does the read/write set of a whole transaction |
| `Simulation.OwnPairServedExactly` | commitingpeer/source/internal/metrics/wallet.go:105-134 | the state endpoint serves a key's own pair in every state if and only if the key has no white space at its end |
| `Simulation.SimulateIsDirect` | coreservice/internal/vm/engine.go:80-159 | a simulation whose recorded versions are still current, on keys stable there, had the outcome and the effect of executing directly |
| `Simulation.SimulateAllIsDirect` | coreservice/internal/vm/engine.go:436-445 | the same for all guest calls of a transaction |
| `WorldStates.WorldState.GetVer` | commitingpeer/source/internal/storage/world_state.go:69-79 | the memoised lookup returns the live version and keeps the memo right |
| `WorldStates.WorldState.CheckReadSet` | commitingpeer/source/internal/storage/world_state.go:127-138 | returns the first conflicting key against the live state, or none |
| `WorldStates.NoConflict` | commitingpeer/source/internal/storage/world_state.go:127-138 | there is no conflict if and only if every recorded version is the current one |
| `WorldStates.WorldState.QueueWrites` | commitingpeer/source/internal/storage/world_state.go:99-116 | the queued batch, once applied, is the writes applied with the stamp `<height>:<index>` |
| `WorldStates.WorldState.ApplyBlock` | commitingpeer/source/internal/storage/world_state.go:62-124 | with memo and one deferred batch: one result for each transaction in block order, under its own id and position; VALID if and only if it has no set or all its read versions are current after the VALID ones before it, else the first stale key; the store is theirs applied; on any error it is unchanged |
| `WorldStates.CommitReports` | commitingpeer/source/internal/storage/world_state.go:62-124 | the same of checking and committing one transaction at a time |
| `WorldStates.CommitFails` | commitingpeer/source/internal/storage/world_state.go:99-116 | a block fails exactly at the first write that is no hex text, of the first transaction with current reads that has one |
| `WorldStates.WorldState.PutKV` | commitingpeer/source/internal/storage/world_state.go:307-316 | value and fresh admin version are written together |
| `WorldStates.WorldState.DeleteKV` | commitingpeer/source/internal/storage/world_state.go:319-324 | value and version disappear together |
| `Histories.LiveEffect` | commitingpeer/source/internal/storage/world_state.go:81-118 | a block leaves each key as it was, removes it, or stamps it with its own height |
| `Histories.HeightIsNew` | commitingpeer/source/internal/peer/peer.go:267-269 | no version of an earlier state carries the height of a coming block |
| `Histories.RunCoherent` | commitingpeer/source/internal/storage/world_state.go:99-116 | over every run: a key has a version exactly when it has a value, no version returns once overwritten, equal non-empty versions of a key mean equal values |
| `Serializability.ValidTxIsDirect` | commitingpeer/source/internal/storage/world_state.go:81-118 | a transaction on clean keys that is found VALID is accepted when executed on the live state and leaves it exactly as the commit does |
| `Serializability.BlockSerializable` | commitingpeer/source/internal/storage/world_state.go:62-124 | on clean keys, the state after a block is the one reached by executing exactly the VALID contracts in block order |
| `Serializability.RunSerializable` | commitingpeer/source/internal/storage/world_state.go:62-138 | the final state of every run on clean keys is its serial replay |
| `Serializability.NoDeletesKeysPersist` | coreservice/internal/vm/engine.go:80-103 | without admin deletes no key ever disappears, since simulations only put |
| `Serializability.RunSerializableWithoutSnapshots` | coreservice/internal/vm/engine.go:135-144 | on clean keys and without admin deletes, each fetch of one simulation may see a different and later state |
| `Serializability.ActsDirectlyExactly` | coreservice/internal/vm/engine.go:135-144 | on any keys: all contracts act directly if and only if whichever state serves the version a key has at the end also serves, then and later, the value it has at the end |
| `Serializability.SnapshotsUnneededExactly` | coreservice/internal/core/rwset.go:93-107 | on clean keys, reading from different states is harmless for all contracts if and only if no missing key was missing and then visible before |
| `Serializability.DeleteFlickers` | commitingpeer/source/internal/storage/world_state.go:319-324 | a put and a delete by an admin violate that condition |
| `Peers.CommittingPeer.Start` | commitingpeer/source/internal/peer/peer.go:85-97 | after a restart the height counter equals the number of blocks on file |
| `Peers.CommittingPeer.HandleBlock` | commitingpeer/source/internal/peer/peer.go:254-275 | a block is appended, then applied under the next height, which is newer than every version in the world state |
| `Peers.HandledHeightsGrow` | commitingpeer/source/internal/peer/peer.go:254-275 | along blocks handled, failed applications, restarts and admin edits, the heights of the applied blocks grow and exceed every version of the start state |
| `Peers.HeightsStayBelow` | commitingpeer/source/internal/peer/peer.go:267-269 | applying a block leaves all versions below the next height |
| `Texts.KeyTextInjective` | coreservice/contracts/escrow/main.go:30-32 | distinct contract keys have distinct texts |
| `Texts.KeyTexts` | coreservice/contracts/escrow/main.go:30-32 | the text of each kind of key |
| `Texts.TrimmedText` | commitingpeer/source/internal/metrics/wallet.go:110-110 | trimming a key's text trims the white space at its end, and leaves exactly the clean keys alone |
| `Texts.ConflictTextExact` | commitingpeer/source/internal/storage/world_state.go:92-92 | the empty text means no conflict and nothing else, since no key is empty |
| `Texts.VersionTextInjective` | commitingpeer/source/internal/storage/world_state.go:99-99 | distinct versions have distinct texts, block stamps and admin stamps included |
| `Texts.VersionReads` | commitingpeer/source/internal/storage/world_state.go:99-99 | a block stamp reads back as height and position in decimal; an admin stamp has its mark in front |
| `Texts.KeyLessTotal` | coreservice/internal/core/rwset.go:123-124 | comparing key texts orders all keys |
| `Texts.LexLessExactly` | coreservice/internal/core/rwset.go:123-124 | one text is less than another if and only if it is a proper beginning of it or smaller at the first difference |
| `CanonicalForm.CanonicalIffSameContents` | commitingpeer/source/internal/types/rwset.go:39-59 | on unique keys the hashed lists are equal if and only if the read/write sets have the same contents, in whatever order |
| `CanonicalForm.CanonicalAscends` | coreservice/internal/core/rwset.go:111-126 | both hashed lists ascend by text and hold each entry once, under its own key |
| `Contracts.FeeBounds` | coreservice/contracts/loyalty_xfer/main.go:55-80 | 0 <= fee < amount even when the fee product wraps; exact when it does not |
| `Outcomes.FeeIs` | coreservice/contracts/loyalty_xfer/main.go:55-80 | by amount: no fee below 50, a fiftieth below 100, a twentieth below 500, then 8 percent; also what a wrapped product gives |
| `Contracts.RedeemLoop` | coreservice/contracts/loyalty_xfer/main.go:154-159 | every full 100 points are burnt for 5, what is left is below 100, and fewer points stay as they are |
| `Contracts.DiscountedDebit` | coreservice/contracts/transfer/main.go:96-103 | a discounted debit lies between 1 and the amount |
| `Effects.TransferEffect` | coreservice/contracts/transfer/main.go:86-123 | the contract either rejects or moves the debit and the credit and writes its receipt |
| `Effects.EscrowEffectHolds` | coreservice/contracts/escrow/main.go:113-194 | lock, release and refund as effects on the store, each with its rejections |
| `Effects.LoyaltyEffectHolds` | coreservice/contracts/loyalty_xfer/main.go:109-175 | payment, fee, points and bonus as one effect on the store |
| `Effects.CallEffect` | coreservice/internal/vm/engine.go:436-445 | an accepted call has exactly its effect; with budget for 16 host calls a call with an effect is accepted |
| `Supply.AddTo` | coreservice/contracts/loyalty_xfer/main.go:135-171 | while the total fits int64, adding to a stored balance does not wrap |
| `Supply.QtyFits` | coreservice/contracts/qty_credit/main.go:43-64 | `verify_tx` keeps the credited product below the int64 limit |
| `Supply.EscrowSupply` | coreservice/contracts/escrow/main.go:113-194 | lock, release and refund keep balances plus live escrows constant |
| `Supply.LoyaltySupply` | coreservice/contracts/loyalty_xfer/main.go:109-175 | the total grows by exactly the bonus, treasury included, and points stay in [0,100) |
| `Supply.CallSupply` | coreservice/contracts/transfer/main.go:86-123 | every accepted call keeps entries in range and grows the total by exactly its mint (for a discounted transfer, the discount) |
| `SupplyModulo.CallGrows` | coreservice/contracts/transfer/main.go:86-123 | without any bound: every accepted call changes the total by its mint modulo 2^64, whatever wraps around |
| `Footprints.SimulatedWithin` | coreservice/contracts/escrow/main.go:113-194 | the simulation of any call reads only the balances, points and discount of the accounts in use, the treasury's balance and its own escrow; it writes no other escrow and no account whose name has not 40 bytes, the treasury aside |
| `Footprints.CommitTouches` | commitingpeer/source/internal/storage/world_state.go:81-118 | after a block a key is as before or carries the stamp of a transaction whose call may write it |
| `Footprints.CommitKeepsApart` | commitingpeer/source/internal/storage/world_state.go:99-116 | since a transaction stamps at most one escrow key, no two escrow keys come to share a version |
| `DirectCalls.PaddedAccountIsStable` | commitingpeer/source/internal/metrics/wallet.go:105-134 | an account whose name ends in white space, other than the treasury's, is served as missing in every state, so a VALID read of it saw the live value |
| `DirectCalls.PaddedAccountConflicts` | commitingpeer/source/internal/storage/world_state.go:127-138 | once such an account holds anything, no transaction that reads it is VALID |
| `DirectCalls.CallIsDirect` | commitingpeer/source/internal/storage/world_state.go:81-118 | a VALID call on harmless accounts acts as executed on the live state; a padded escrow id is harmless too when escrow versions are apart |
| `DirectCalls.NewestExactly` | commitingpeer/source/internal/storage/world_state.go:127-138 | a call simulated on the newest state, its keys being served their own pairs, is rejected if it has no effect there, and otherwise VALID with exactly that effect |
| `DirectCalls.CleanNewestExactly` | coreservice/internal/vm/engine.go:436-461 | the same for every call on clean accounts and ids |
| `Outcomes.TransferOutcome` | coreservice/contracts/transfer/main.go:43-123 | on the newest state a transfer is VALID if and only if it keeps the written-out limits, both balances are numbers and the sender holds the debit; the balances it leaves |
| `Outcomes.DoubleOutcome` | coreservice/contracts/double_credit/main.go:42-98 | the same for a doubled credit; the recipient gains twice the amount |
| `Outcomes.QtyOutcome` | coreservice/contracts/qty_credit/main.go:43-91 | the same for a quantity credit; the recipient gains amount times quantity, at most 2^62 |
| `Outcomes.LoyaltyOutcome` | coreservice/contracts/loyalty_xfer/main.go:84-175 | the same for a loyalty transfer; the recipient gains all but the fee of the schedule, the treasury the fee, the sender its points and bonus |
| `Outcomes.LockOutcome` | coreservice/contracts/escrow/main.go:76-146 | the same for a lock; the record it leaves |
| `Outcomes.PayoutOutcome` | coreservice/contracts/escrow/main.go:76-194 | the same for a release or refund: VALID if and only if a live escrow names the asking party as its action demands |
| `Outcomes.UndecodedOutcome` | coreservice/contracts/escrow/main.go:76-90 | a payload that does not decode is never VALID |
| `CallRuns.SuitsSoFar` | commitingpeer/source/internal/storage/world_state.go:62-124 | along every run of harmless accounts the stored escrows pay such accounts and no shorter account name appears |
| `CallRuns.ApartSoFar` | commitingpeer/source/internal/storage/world_state.go:99-116 | along every run of calls, on any names, versions of different escrow keys stay apart |
| `CallRuns.StopAt` | commitingpeer/source/internal/storage/world_state.go:81-118 | what every VALID call of any run was simulated on, the store it met and the store it left, from the start of the run to its last state |
| `CallRuns.RunIsTrace` | commitingpeer/source/internal/storage/world_state.go:62-138 | every state of a run on harmless accounts is the start state with the effects of the VALID calls in commit order |
| `CallRuns.SupplyEquation` | coreservice/contracts/escrow/main.go:113-194 | while the minted money fits int64, balances plus live escrows equal the start total plus the declared mints of VALID calls, in every state of every such run |
| `CallRuns.SupplyEquationModulo` | coreservice/contracts/escrow/main.go:113-194 | without that bound the same equation holds modulo 2^64 |
| `CallRuns.EscrowTransition` | coreservice/contracts/escrow/main.go:123-190 | an accepted call changes an escrow only by locking it when open or paying it out when locked |
| `CallRuns.StaysLocked` | coreservice/contracts/escrow/main.go:55-74 | a locked escrow keeps its record until it is paid out |
| `CallRuns.TracePaysLockedAmount` | coreservice/contracts/escrow/main.go:147-186 | serially, a payout credits exactly the amount of the lock it answers, changes no other balance, and was asked for by the sender, or, for a release, by either party |
| `CallRuns.HarmlessPaysLockedAmount` | coreservice/contracts/escrow/main.go:147-186 | on harmless runs whose money fits int64 such a payout adds exactly the locked amount to the serial state, without wrapping |
| `Escrows.EscrowLeft` | coreservice/contracts/escrow/main.go:123-190 | every VALID escrow call, whatever it saw, leaves the record it locked or clears it |
| `Escrows.RunChanges` | coreservice/contracts/escrow/main.go:123-190 | in every run, on any accounts: a VALID call changes the escrow of a clean id only by locking it when open, or by paying it out when locked, asked by an entitled party |
| `Escrows.NamedTwiceIsClean` | coreservice/contracts/escrow/main.go:123-190 | in every run: an id that two VALID calls name has no white space at its end |
| `Escrows.EscrowPaysOnce` | coreservice/contracts/escrow/main.go:123-190 | in every run, whatever accounts and ids its calls name: between two VALID payouts of an id there is a VALID lock of it |
| `Escrows.RunEscrowIsExact` | coreservice/contracts/escrow/main.go:113-194 | in every run: a VALID call that names a clean id has exactly its effect on the store it met, if the one party whose balance it changes is safe |
| `Escrows.EscrowPaysLockedAmount` | coreservice/contracts/escrow/main.go:147-186 | in every run: a VALID payout credits exactly the amount of the lock it answers and changes no other balance, if the paid party is safe |
| `PaidParties.PaddedPartyRun` | commitingpeer/source/internal/metrics/wallet.go:110-115 | a VALID release to the treasury's padded name that leaves it 50 instead of 470 |
| `PaidParties.PaidPartyExactly` | commitingpeer/source/internal/metrics/wallet.go:110-115 | in all runs whatever other accounts do, VALID payouts to w do what the record says, if and only if w is not the treasury's name padded to 40 bytes |
| `Trimming.SimulateTransfer` | coreservice/contracts/transfer/main.go:86-123 | reads and writes of an undiscounted transfer simulated on one state, trimmed keys included |
| `Trimming.SimulateLoyalty` | coreservice/contracts/loyalty_xfer/main.go:109-175 | the same for a loyalty transfer with a fee and no redemption |
| `Trimming.PaddedNameBreaksRun` | commitingpeer/source/internal/metrics/wallet.go:110-115 | for every recipient that is the treasury's name padded with white space: two calls, each simulated on the newest state and VALID, end with 50 instead of the serial 470, and the total falls from 1110 to 690 |
| `Trimming.PaddedNameBreaksSomeRun` | commitingpeer/source/internal/metrics/wallet.go:110-115 | such a recipient exists, with payload texts that decode to the two calls, so neither serial execution nor the supply equation holds of all runs |
| `Trimming.HarmlessExactly` | commitingpeer/source/internal/metrics/wallet.go:110-115 | all runs whose accounts are clean or named w are serial, and all keep the supply equation, if and only if w is not the treasury's name padded to 40 bytes |
| `PaddedEscrows.PaddedEscrowStays` | coreservice/contracts/escrow/main.go:55-74 | along every run, whatever is simulated on whichever states: the entry of an id that ends in white space never changes once written |
| `PaddedEscrows.PaddedOnlyLocked` | coreservice/contracts/escrow/main.go:147-186 | along every run the only VALID calls that name such an id are locks, whatever the trimmed id holds |
| `PaddedEscrows.PayoutValidExactly` | coreservice/contracts/escrow/main.go:147-186 | a release or refund within the written-out limits of a live escrow by an entitled party, simulated on the newest state, is VALID if and only if the id is clean or its trimmed id serves the same pair |
| `PaddedEscrows.RunPayoutValidExactly` | coreservice/contracts/escrow/main.go:147-186 | in every sound state of every run: if and only if the id is clean, for a paid party that is clean |
| `PaddedEscrows.PaddedLockIsValid` | coreservice/contracts/escrow/main.go:123-146 | a lock of such an id becomes VALID and takes the money |
| `Nodes.RaftLog.AppendEntry` | orderingservice/source/internal/types/block.go:203-207 | the log gains the entry at its end |
| `Nodes.RaftLog.GetLastIndex` | orderingservice/source/internal/types/block.go:210-217 | index of the last entry, 0 if empty |
| `Nodes.RaftLog.FindEntryByIndex` | orderingservice/source/internal/types/block.go:220-229 | the first entry with the index, or none |
| `Nodes.RaftLog.RemoveFrom` | orderingservice/source/internal/types/block.go:232-241 | drops the first entry whose index is at least the given one and all after it |
| `Nodes.OrderingBlock.AppendBlock` | orderingservice/source/internal/types/block.go:260-264 | the committed chain gains the block at its end |
| `Nodes.TxPool.Append` | orderingservice/source/internal/raft/transaction.go:34-37 | the pool gains the submission at its end, in its array or a larger one |
| `Nodes.TxPool.FilterOut` | orderingservice/source/internal/raft/transaction.go:314-322 | the pool keeps exactly the transactions whose id is not committed, in order, moved to the front of the same array |
| `Nodes.RaftNode.SubmitTransaction` | orderingservice/source/internal/raft/transaction.go:17-31 | a valid submission is pooled on the leader or sent to it; an invalid one, one without a known leader and one whose sending fails are errors |
| `Nodes.RaftNode.ProcessTx` | orderingservice/source/internal/raft/transaction.go:33-44 | a submission joins the end of the pool |
| `Nodes.RaftNode.ProposeBlock` | orderingservice/source/internal/raft/transaction.go:152-193 | proposes a block of the first transactions of the pool, linked to the last committed hash, and logs it under the next index; two error cases, and the panic on an overlong last hash |
| `Nodes.RaftNode.WaitForBlockAcks` | orderingservice/source/internal/raft/transaction.go:226-288 | commits if and only if twice the number of voters exceeds the full membership |
| `Nodes.VotersExactly` | orderingservice/source/internal/raft/transaction.go:272-275 | who counts: the proposer, and each sender of an acknowledgment that accepts just this block at just this index |
| `Quorums.StepDecides` | orderingservice/source/internal/raft/transaction.go:226-288 | every step of every run: a proposal commits in this step if and only if more than half of the members, the leader included, have now been heard |
| `Quorums.CommittedAtMajority` | orderingservice/source/internal/raft/transaction.go:226-288 | over every run: a pending entry is one that at most half of the members were heard for since its proposal; it commits in the very step that makes it more than half |
| `Nodes.RaftNode.CommitBlock` | orderingservice/source/internal/raft/transaction.go:298-323 | appends the block, moves the tip, and drops the committed ids from the pool |
| `Nodes.RaftNode.HandleBlockProposal` | orderingservice/source/internal/raft/transaction.go:368-449 | each rejection, the truncation on a term mismatch, or the append, with the acknowledgment sent |
| `Nodes.OnProposalExactly` | orderingservice/source/internal/raft/transaction.go:368-449 | any node: the log gains the entry if and only if the leader sent it with a current term and it continues the log; exactly then, a known leader gets an accepting reply; otherwise the log is at most cut, and only at the leader's word |
| `Nodes.OnProposalRefuses` | orderingservice/source/internal/raft/transaction.go:398-445 | which refusal is sent when; a missing previous entry is never one |
| `Nodes.RaftNode.HandleBlockCommit` | orderingservice/source/internal/raft/transaction.go:497-554 | commits the entry found by index if its id matches; a missing entry starts a sync |
| `Nodes.OnCommitExactly` | orderingservice/source/internal/raft/transaction.go:497-554 | any node: the chain gains the block of the first entry at the index if and only if the leader spoke with a current term and the id matches; a sync starts if and only if there is no such entry |
| `Membership.MembershipView.AddMember` | orderingservice/source/internal/types/membership.go:32-45 | a new member gets the next priority; priorities are never shared |
| `Membership.MembershipView.Mark` | orderingservice/source/internal/types/membership.go:47-65 | liveness marks leave the quorum base and the join order alone |
| `Membership.MembershipView.GetTotalCount` | orderingservice/source/internal/types/membership.go:85-89 | the quorum base counts all known members |
| `Membership.MembershipView.GetHighestPriorityAliveNode` | orderingservice/source/internal/types/membership.go:67-81 | the live member that joined first, in whatever order the map is walked |
| `Replication.TruncatedExactly` | orderingservice/source/internal/types/block.go:232-241 | on a log with ascending indices exactly the entries below the index stay |
| `Replication.FindNumbered` | orderingservice/source/internal/types/block.go:220-229 | on a numbered log the entry found is the one at that position |
| `Replication.OnProposalKeepsPrefix` | orderingservice/source/internal/raft/transaction.go:413-448 | in a reign a follower appends exactly the leader's next entry, and the reply accepts if and only if it did |
| `Replication.DeliveryIsAcknowledged` | orderingservice/source/internal/raft/transaction.go:368-449 | each delivered proposal adds one acknowledgment, which accepts if and only if the entry was the follower's next one; hearing it counts the follower |
| `Replication.OnCommitAppends` | orderingservice/source/internal/raft/transaction.go:538-553 | a commit notice appends the leader's block at that index, or starts a sync if the entry is missing |
| `Replication.StepReplicated` | orderingservice/source/internal/raft/transaction.go:152-563 | every protocol step keeps the replication invariant, and logs and committed entries only grow |
| `Replication.QuorumDurability` | orderingservice/source/internal/raft/transaction.go:226-288 | under any loss, duplication and reordering: followers' logs are prefixes of the leader's, and every majority contains a holder of every committed entry, now and later |
| `Delivery.FilterDropsBlockExactly` | orderingservice/source/internal/raft/transaction.go:310-321 | the pool filter drops the block and nothing else if and only if no later pool transaction repeats one of its ids |
| `Delivery.CommitKeepsFifoExactly` | orderingservice/source/internal/raft/transaction.go:298-323 | a commit keeps the queue order under exactly that condition |
| `Queues.FifoExactly` | orderingservice/source/internal/raft/transaction.go:298-323 | over every run the queue stays in order if and only if every commit met that condition |
| `Queues.LostTransactionRun` | orderingservice/source/internal/raft/transaction.go:310-321 | a run from the start in which a submission that repeats an id is neither committed nor pooled |
| `Delivery.LeaderChainLinked` | orderingservice/source/internal/raft/transaction.go:179-180 | the leader's chain is hash-linked from the empty hash and ends at its last committed hash |
| `Delivery.OrderingIsFifo` | orderingservice/source/internal/raft/transaction.go:33-323 | with distinct ids, committed transactions followed by the pool are the submissions in order, aborted blocks included |
| `Delivery.RunLosesNoId` | orderingservice/source/internal/raft/transaction.go:310-321 | repeated ids or not, the ids of committed and pooled transactions are the submitted ids |
| `Followers.FollowerChainIsPrefix` | orderingservice/source/internal/raft/transaction.go:368-554 | with in-order lossless links a follower's chain is a hash-linked prefix of the leader's |
| `Followers.FollowerChainIsSubsequence` | orderingservice/source/internal/raft/transaction.go:497-554 | with in-order lossy links and no sync it is a subsequence |
| `Followers.FollowersCommitOnlyCommitted` | orderingservice/source/internal/raft/transaction.go:538-553 | whatever the network does, a follower commits only blocks the leader committed |
| `Notices.ChainOfHandled` | orderingservice/source/internal/raft/transaction.go:538-553 | for every order of delivery a follower's chain is the leader's blocks at the indices of the notices it handled while holding the entry |
| `Notices.FollowerChainExactly` | orderingservice/source/internal/raft/transaction.go:497-554 | with distinct committed blocks: that chain is a subsequence of the leader's if and only if those indices increase, and a prefix if and only if they are the first the leader committed |
| `Notices.DistinctIdsDistinctBlocks` | orderingservice/source/internal/raft/transaction.go:162-168 | distinct transaction ids in blocks that are not empty make distinct blocks |
| `Notices.RepeatedNoticeRepeatsBlock` | orderingservice/source/internal/raft/transaction.go:538-553 | in every run, handling a notice again ends the chain's being a subsequence |
| `Notices.RepeatedNoticeRun` | orderingservice/source/internal/raft/transaction.go:538-553 | a run from the start in which this happens |
| `Merkle.ComputeMerkleRoot` | orderingservice/source/internal/types/block.go:83-160 | for ids of any length the root is the one that the workers' shares and buffers determine; for ids of at least 32 bytes it is the tree's, whatever the number and order of workers |
| `Merkle.ParallelLevel` | orderingservice/source/internal/types/block.go:100-136 | for ids of any length, each node is what its owner's buffer holds; for ids of at least 32 bytes the level equals the sequential one |
| `Merkle.FoldLevels` | orderingservice/source/internal/types/block.go:138-159 | level after level through one reused buffer, stale bytes included |
| `Merkle.PeerMerkleRoot` | commitingpeer/source/internal/crypto/keys.go:45-82 | the peer's copy is the sequential root, in hex |
| `Merkle.SequentialIsRoot` | orderingservice/source/internal/types/block.go:138-159 | with ids of at least 32 bytes the reused buffer does not show |
| `Merkle.SmallRoots` | orderingservice/source/internal/types/block.go:83-160 | the roots of up to three ids, written out |
| `Merkle.ShortRoots` | orderingservice/source/internal/types/block.go:138-159 | the same for ids of at most 32 bytes, with the stale bytes of the reused buffer |
| `Merkle.StretchesOfNodes` | orderingservice/source/internal/types/block.go:100-136 | each worker starts its stretch of nodes with a clean buffer and loads every node over the one before |
| `Merkle.RootBinds` | orderingservice/source/internal/types/block.go:138-159 | for equal lengths of at least two, equal roots if and only if all ids agree on their first 32 bytes, given no collision among the hashed nodes |
| `Roots.RootsEqualExactly` | orderingservice/source/internal/types/block.go:138-159 | for any two lengths of at least two: equal roots if and only if the complete trees, odd tails doubled on every level, agree leaf by leaf at the level where the depths meet |
| `Roots.RootOfOneExactly` | orderingservice/source/internal/types/block.go:88-92 | a list of one id has the root of a longer list if and only if the id reads like that list's topmost node |
| `Roots.SameLeavesSameFold` | orderingservice/source/internal/types/block.go:138-159 | equal complete trees give equal roots whatever the hash |
| `Roots.SixAndEight` | orderingservice/source/internal/types/block.go:143-149 | six ids have the root of those six followed by the last two again |
| `Merkle.RepeatedTailKeepsRoot` | orderingservice/source/internal/types/block.go:143-149 | an odd number of ids, at least three, has the root of the list that repeats its last one |
| `Roots.IntactExactly` | commitingpeer/source/internal/validation/engine.go:140-162 | given one intact block, its header over other transactions passes the check if and only if their ids make the same complete tree |
| `Blocks.HeaderLayout` | orderingservice/source/internal/types/block.go:54-72 | which of the 80 bytes hold version, hashes, timestamp, difficulty and nonce |
| `Blocks.HeaderDetermines` | orderingservice/source/internal/types/block.go:54-72 | headers agree if and only if both hashes, and timestamp and nonce modulo 2^32, agree |
| `Blocks.NewBlock` | orderingservice/source/internal/types/block.go:32-46 | the block carries transactions, previous hash, total size, Merkle root and header hash; a previous hash above 32 bytes is a panic |
| `Layouts.SizesAdd` | orderingservice/source/internal/types/block.go:32-40 | a block's size counts each transaction once, by its payload if it calls a contract, else by its encoding |
| `Blocks.HashBlock` | commitingpeer/source/internal/crypto/keys.go:16-42 | the peer's header hash is that of the bytes behind the hex texts, or a panic when they exceed 32 bytes |
| `Blocks.VerifyBlockIntegrity` | commitingpeer/source/internal/validation/engine.go:140-162 | accepts if and only if root and hash are the recomputed ones; which error otherwise |
| `Blocks.NewBlockIsIntact` | commitingpeer/source/internal/validation/engine.go:140-162 | the peer accepts every block `NewBlock` builds from at most 1000 ids or from ids of at least 32 bytes |
| `Chains.VerifyHashChain` | orderingservice/source/internal/raft/sync.go:443-465 | accepts if and only if the list is linked to the start and ends in the target (an empty list always); which block fails otherwise |
| `Chains.LinkedConcat` | orderingservice/source/internal/raft/sync.go:84-95 | appending a list that continues the tip keeps the chain linked |
| `Chains.AcceptedExactly` | orderingservice/source/internal/raft/sync.go:443-465 | given one accepted list, another of its length is accepted if and only if it carries the same links at every position |
| `Chains.SameChainSameIds` | orderingservice/source/internal/raft/sync.go:443-465 | two accepted chains of intact blocks with equally many ids carry the same ids, as far as the tree copies them |
| `Sync.StreamBlocks` | orderingservice/source/internal/raft/sync_server.go:101-138 | sends the chunks of the clamped range in order, up to where the stream fails; it terminates |
| `Sync.ChunksAreRange` | orderingservice/source/internal/raft/sync_server.go:105-131 | the chunks concatenate to the clamped range, all but the last have the asked size, and only the last one marks the end |
| `Sync.FetchShardBlocks` | orderingservice/source/internal/raft/sync.go:327-367 | collects chunks to the marked end or the end of the stream; the three error cases |
| `Sync.FetchedExactly` | orderingservice/source/internal/raft/sync.go:348-366 | of any stream: the first error or end mark decides; a success is all blocks up to there |
| `Sync.CutFetch` | orderingservice/source/internal/raft/sync.go:348-366 | of a stream cut anywhere, a fetch that succeeds holds a prefix of what was served |
| `Sync.FetchShard` | orderingservice/source/internal/raft/sync.go:296-307 | tries source after source; an error sticks unless blocks came later |
| `Sync.EverySourceTried` | orderingservice/source/internal/raft/sync.go:297-299 | a shard is given up if and only if every source failed: the rotation leaves none out |
| `Sync.FirstAnswer` | orderingservice/source/internal/raft/sync.go:296-307 | shard i starts with source i modulo their number and goes on in turn; the first answer counts |
| `Sync.ShardFailedExactly` | orderingservice/source/internal/raft/sync.go:308-316 | a fetch fails on a shard if and only if one within the range gets no answer, or nothing but an empty one after a failed first source |
| `Sync.FetchBlocksParallel` | orderingservice/source/internal/raft/sync.go:263-324 | the shards' first answers in order, or the error case |
| `Sync.FetchReassembles` | orderingservice/source/internal/raft/sync.go:263-324 | with sources holding prefixes of one chain it succeeds if and only if every shard's first answer is complete, and then returns exactly the blocks [from..to] |
| `CatchUp.StartSync` | orderingservice/source/internal/raft/sync.go:59-99 | one cycle: fetch, verify, install; anything that fails leaves the node as it was |
| `CatchUp.SyncKeepsChainLinked` | orderingservice/source/internal/raft/sync.go:84-95 | whatever the sources send, a linked chain stays linked and an installed one has the target's length and hash |
| `CatchUp.SyncedAlike` | orderingservice/source/internal/raft/sync.go:76-95 | two installs from the same chain to the same target carry the same links at every position |
| `CatchUp.HonestSyncExactly` | orderingservice/source/internal/raft/sync.go:76-95 | with sources holding prefixes of one chain: exactly when a cycle fails to fetch, is rejected, or installs the missing blocks |
| `Transactions.Buffer.WriteVarInt` | orderingservice/source/internal/types/transaction.go:276-290 | the four length-prefix forms |
| `Transactions.ReverseBytes` | orderingservice/source/internal/types/transaction.go:305-311 | the bytes in opposite order |
| `Transactions.Serialize` | orderingservice/source/internal/types/transaction.go:178-204 | the buffer ends up holding the wire encoding |
| `Layouts.VarIntForms` | orderingservice/source/internal/types/transaction.go:276-290 | the bytes of each form of a length, least significant first |
| `Layouts.InputForm` | orderingservice/source/internal/types/transaction.go:183-190 | an input byte by byte: the id reversed and filled to 32 bytes, output number, script, four bytes of ones |
| `Layouts.BadInputForm` | orderingservice/source/internal/types/transaction.go:184-190 | an id that is no hex leaves no byte in front of the output number |
| `Layouts.OutputForm` | orderingservice/source/internal/types/transaction.go:193-198 | an output byte by byte |
| `Layouts.InputsInOrder` | orderingservice/source/internal/types/transaction.go:182-191 | each input stands behind those before it and in front of those after it |
| `Layouts.TransactionForm` | orderingservice/source/internal/types/transaction.go:178-204 | version first, lock time last, inputs before outputs, each list after its length |
| `TxEncoding.ReadsVarInt` | coreservice/internal/core/utxo_sig.go:154-168 | reading a length prefix of any form gives the number back |
| `TxEncoding.VarIntShortest` | orderingservice/source/internal/types/transaction.go:276-290 | the form chosen is the shortest that reads as the number |
| `TxEncoding.WireRoundTrip` | coreservice/internal/core/utxo_sig.go:17-42 | reading an encoded transaction gives its decoded content and leaves what follows |
| `TxEncoding.SameBytesIffSameContent` | orderingservice/source/internal/types/transaction.go:178-204 | two encodings are equal if and only if version, every decoded input and output, and lock time are |
| `TxEncoding.BadIdsEncodeAlike` | orderingservice/source/internal/types/transaction.go:184-186 | previous ids that are not hex break this: any two of them encode alike |
| `TxEncoding.BadIdsCollide` | orderingservice/source/internal/types/transaction.go:184-186 | and two valid transactions that differ in an output index share one encoding |
| `Payloads.BinaryPayloadEncoder.WriteUint64` | BlockchainExplorer-FrontEnd/src/components/transactionTypes.js:49-54 | appends the eight bytes, most significant first |
| `Payloads.BinaryPayloadEncoder.WriteField` | BlockchainExplorer-FrontEnd/src/components/transactionTypes.js:30-96 | appends the bytes of a field of any of the eight types |
| `Payloads.FieldForms` | BlockchainExplorer-FrontEnd/src/components/transactionTypes.js:30-96 | the bytes of each type of field, written out; a flag is one byte, 1 or 0 |
| `Payloads.DefaultForm` | BlockchainExplorer-FrontEnd/src/components/transactionTypes.js:370-416 | a missing field is zeros of its type's width |
| `Payloads.BinaryPayloadDecoder.ReadUint32` | BlockchainExplorer-FrontEnd/src/components/transactionTypes.js:125-132 | the four bytes as a signed number |
| `Payloads.BinaryPayloadDecoder.ReadUint64` | BlockchainExplorer-FrontEnd/src/components/transactionTypes.js:134-141 | the eight bytes as a number; running out of bytes throws |
| `Payloads.BinaryPayloadDecoder.ReadFieldValue` | BlockchainExplorer-FrontEnd/src/components/transactionTypes.js:499-524 | value and new offset for a field of any of the eight types, past the end included |
| `Payloads.ReadForms` | BlockchainExplorer-FrontEnd/src/components/transactionTypes.js:115-178 | the value of each type of field that is all there |
| `Payloads.ReadPastEnd` | BlockchainExplorer-FrontEnd/src/components/transactionTypes.js:115-178 | what each type of field reads past the end |
| `Payloads.SerializePayload` | BlockchainExplorer-FrontEnd/src/components/transactionTypes.js:370-416 | the hex of all fields in schema order, defaults for missing ones |
| `Payloads.DeserializePayload` | BlockchainExplorer-FrontEnd/src/components/transactionTypes.js:424-469 | the record read field by field, or the exception |
| `Payloads.GetPayloadField` | BlockchainExplorer-FrontEnd/src/components/transactionTypes.js:478-494 | the first field of that name, read after all fields before it |
| `Payloads.DecoderOfHex` | BlockchainExplorer-FrontEnd/src/components/transactionTypes.js:107-113 | the text of some bytes decodes to them; the empty text throws; other texts are parsed as leniently as the script does |
| `Payloads.DigitTexts` | BlockchainExplorer-FrontEnd/src/components/transactionTypes.js:107-113 | the digits of hex text in order of value, either case when read, lower case when written |
| `Payloads.MatchesOf` | BlockchainExplorer-FrontEnd/src/components/transactionTypes.js:107-113 | how a payload text is cut: two characters at a time on each line, one at the end of an odd line |
| `Payloads.LinesApart` | BlockchainExplorer-FrontEnd/src/components/transactionTypes.js:107-113 | a line end separates matches and belongs to none |
| `Payloads.PairValue` | BlockchainExplorer-FrontEnd/src/components/transactionTypes.js:107-113 | the byte that any one or two characters stand for |
| `Payloads.BinaryPayloadEncoder.WriteAddress` | BlockchainExplorer-FrontEnd/src/components/transactionTypes.js:88-96 | the twenty bytes of the digits after an optional 0x |
| `Payloads.BERoundTrip` | BlockchainExplorer-FrontEnd/src/components/transactionTypes.js:49-54 | decoding the low bytes of any integer gives it modulo 2^(8 width) |
| `PayloadRoundTrip.FieldReadsBack` | BlockchainExplorer-FrontEnd/src/components/transactionTypes.js:115-178 | a field reads back as written if and only if the format can carry it |
| `PayloadRoundTrip.AddressReadsBack` | BlockchainExplorer-FrontEnd/src/components/transactionTypes.js:88-96 | an address comes back as given if and only if it is 0x and forty digits, letters in lower case |
| `PayloadRoundTrip.PayloadRoundTrips` | BlockchainExplorer-FrontEnd/src/components/transactionTypes.js:370-469 | with distinct names, decoding an encoded record gives it back (with defaults for missing fields) if and only if the schema has a field and every value can be carried |
| `PayloadRoundTrip.FieldAloneAgrees` | BlockchainExplorer-FrontEnd/src/components/transactionTypes.js:478-494 | on every payload that decodes, reading one field gives what full decoding gives for it |

## Left out

- Leader election, terms that change, log agreement across reigns, and members that
  are syncing while blocks are proposed.
- Syncing of uncommitted log entries, and how the sync target is voted: the target is
  a parameter.
- Gap-free delivery from the ordering service to commit peers.
- Blocks.NewBlockIsIntact: not stated above 1000 ids of which some are shorter than 32 bytes, because stale bytes then depend on how workers share the list.
- Merkle.ParallelLevel: workers run one after another in any order; finer interleavings are not modelled, because each worker has its own buffer and writes its own cells.
- Contracts.DiscountedDebit: rounding is exact over the reals, so floating-point error in the discount is not modelled.
- PayloadRoundTrip.PayloadRoundTrips: texts are their UTF-8 bytes and decoded UINT64 values numbers, so character decoding (which drops a leading byte-order mark) and decimal text are not modelled.
- Payloads.BinaryPayloadEncoder.WriteField: floating-point fields and the coercion of values of another type are not modelled.
- Payloads.SerializePayload: every value has its field's type, because the coercion that the script does otherwise is not modelled.
- Payloads.BinaryPayloadDecoder.ReadFieldValue: floating-point fields and character decoding are not modelled.
- CanonicalForm.CanonicalIffSameContents: about the sorted lists that are marshalled; the JSON bytes and their digest are not modelled.
- The contracts `example_asset` and `demo_inventory`.
- JSON and decimal text: stored values are integers, escrow records, rates or raw text.
- Fetches that fail or return value and version of different moments.
- Minting by admins during a run of contract calls; a run may start from any sound state.
- WASM memory, the module pool and contracts that export only a named function.
- Endorsement checks, signatures and other cryptography; UTXO state.
- Block delivery, the SQL mirror, HTTP, libp2p, LevelDB internals, timers beyond the
  order of timeout and next proposal, metrics, the explorer's screens, command-line tools.
