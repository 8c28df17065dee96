# Teale in Dafny

Teale routes inference requests from consumers to contributed machines and keeps a credit ledger of who
earned and who spent. This project models its hardest parts and proves what they promise:

- **Credit ledger** (`Credit`, `Apportionment`, `SharePools`, `Settlement`, `Wallets`, `Availability`, `Withdrawals`,
  `LedgerRuns`, `Refunds`, `Funders`, `CreditLedger`). Every operation that moves credits is a function on the tables; a run is any
  sequence of operations under a clock that does not go back, a failed operation being rolled back. `CreditLedger.Ledger`
  holds the same operations as methods that update the tables in place, each proved equal to its function.
- **Anchoring** (`Binary`, `Encoding`, `Merkle`, `Anchors`, `AnchorStore`). The ledger's binary encoding, hash chain,
  Merkle tree and anchors. Hashing is a free algebra: different inputs never collide, everything else is as in the code.
- **Model files** (`Gguf`, `GgufLayout`, `GgufDirectory`, `GgufFile`, `GgufReader`, `KvPayload`). The bounded GGUF v3
  reader, proved against a grammar given as a writer, the tensor layout check, and the checked 64-bit cache arithmetic.
- **Relay** (`Relay`). Registration, replacement and closing of sockets as a state machine over every run.
- **Private networks** (`Pins`, `PinStore`, `PinUsage`). Membership and the netmap generation; usage batches.
- **Scheduler** (`Scheduler`). The choice of a device and the report that all queues are full, over real numbers.

What turned out not to hold as one would expect, each with an input that shows it and its exact condition:

- `saturated` misses a fleet whose open devices all report a queue of `u32::MAX` (`Scheduler.LongestQueueIsOverlooked`):
  it agrees with `pick` if and only if some open device reports less, or none is open (`Scheduler.PickAndSaturatedAgree`).
- A bonus or a drip tick takes amounts of either sign as they come, and a negative one can leave a debt
  (`Wallets.OverdrawingBonus`): a run keeps every invariant, non-negative balances among them, if and only if each grant and
  tick in it is covered (`LedgerRuns.SoundExactlyIfCovered`). Amounts that are not negative always are
  (`LedgerRuns.PositiveIsCovered`).
- A drip tick with a negative credit takes it without touching the mint pool (`Availability.NegativeDrip`): the pool falls by what
  is credited if and only if the tick is skipped or no listed credit is negative (`Availability.MintPaysTheDrip`).
- An edit from no note to an empty one goes unnoticed (`Anchors.NullEditIsProved`): a row is proved after a run if and only if
  its content is the same up to null strings (`Anchors.EditsAreRefused`).
- Rows collide when a string has 2^32 bytes (`Encoding.LongStringsCollide`): hashes tell rows with strings shorter than n bytes
  apart, up to null strings, if and only if n is at most 2^32 (`Encoding.BindsExactlyBelow`).
- A socket that registered two node ids and closed still gets messages for the first (`Relay.TwoIdsLeak`): a latest register stands
  if and only if its socket is open or last registered another id (`Relay.PeersAreLatest`), and the close of a replaced socket may wait
  if and only if that socket speaks for no other id (`Relay.InsideOrLater`).

## Model

| member | source | states |
|---|---|---|
| `Apportionment.ExactApportionment` | gateway/src/ledger.rs:1653-1698 | the reductions of a pro-rata spend sum to exactly what is taken, and each lies between 0 and its contribution, so the clip at zero never acts |
| `Apportionment.QuotaRule` | gateway/src/ledger.rs:1653-1698 | each reduction is the floor of its exact quota, or one more and then only if the quota has a positive remainder |
| `Apportionment.LeftoversFollowTheOrder` | gateway/src/ledger.rs:1669-1690 | left-over credits go by larger remainder, then older contribution, then smaller id |
| `Apportionment.ReductionWithinShare` | gateway/src/ledger.rs:1659-1693 | no reduction exceeds the contribution it is taken from |
| `Apportionment.Leftover` | gateway/src/ledger.rs:1659-1690 | the floors leave over exactly the sum of the remainders divided by the total, which is fewer credits than there are contributions, so the leftover loop reaches zero |
| `Apportionment.ProRata` | gateway/src/ledger.rs:1653-1698 | the two loops of the source compute that apportionment |
| `Apportionment.GrantLeftovers` | gateway/src/ledger.rs:1669-1690 | the second loop hands out one credit each down the sorted quotas |
| `SharePools.SpendPoolExact` | gateway/src/ledger.rs:1622-1701 | a spend the pool covers lowers its contributions by exactly the spend and changes nothing else in them |
| `SharePools.SpendKeyKeeps` | gateway/src/ledger.rs:4374-4402 | a pool spend keeps every invariant and takes its amount from that pool, and from no wallet, account, provider or other key |
| `SharePools.MintKeeps` | gateway/src/ledger.rs:5150-5273 | minting a key moves the budget from the issuer's balance into the new pool, moves nothing else and creates nothing; the new key expires the asked time from now, with that budget as its one contribution |
| `SharePools.FundKeeps` | gateway/src/ledger.rs:1800-1922 | funding a key moves the amount from the sender's balance into that pool as one more contribution, moves nothing else and creates nothing |
| `SharePools.MintRefusals` | gateway/src/ledger.rs:5150-5273 | a mint is accepted if and only if the lifetime is a minute to thirty days, the budget 1 to 50 000 000 and covered by the issuer's balance, the issuer registered with fewer than fifty live keys, and the id new |
| `SharePools.FundRefusals` | gateway/src/ledger.rs:1800-1922 | a key can be funded if and only if it is funded, open and not run out, and the sender's balance covers a positive amount |
| `SharePools.RefundReturnsStakes` | gateway/src/ledger.rs:1566-1620 | a refund empties the pool, pays every funder exactly their stake, and settles the key |
| `SharePools.RevokeKeeps` | gateway/src/ledger.rs:5372-5418 | revoking pays every stake back, or nothing if the key was already settled, and marks the key revoked |
| `SharePools.RevokeRefusals` | gateway/src/ledger.rs:5372-5418 | only the issuer can revoke, and only once |
| `SharePools.RefundExpiredKeeps` | gateway/src/ledger.rs:1924-1957 | the expiry sweep keeps every invariant and the sum of credits, in whatever order keys are listed |
| `SharePools.ExpiredAreSettled` | gateway/src/ledger.rs:1924-1957 | after the sweep every listed key whose time is up is settled, and every other key is as it was |
| `SharePools.MigrateKeeps` | gateway/src/ledger.rs:5443-5589 | migrating legacy keys keeps every invariant, creates no credits and leaves every listed key funded |
| `SharePools.MigrationDebits` | gateway/src/ledger.rs:5443-5589 | a legacy key that is revoked or has run out is settled with nothing; another takes from its issuer what it still owes as far as the balance goes, into a pool of exactly that, and its budget is cut to it |
| `SharePools.MigrationRefusals` | gateway/src/ledger.rs:5443-5589 | a legacy key cannot be migrated if and only if it still owes, nothing was spent on it and its issuer has nothing |
| `Refunds.RefundedOnce` | gateway/src/ledger.rs:1566-1620 | in every run a key pays nothing back until one step settles it, and from then on the ledger shows each funder paid back once, by exactly what was left of their contributions before that step |
| `Refunds.StepRefunds` | gateway/src/ledger.rs:1566-1701 | every operation leaves settled keys alone, only ever draws contributions of other keys down, and writes refund rows only for keys it settles |
| `Refunds.PayBackRows` | gateway/src/ledger.rs:1566-1620 | the refund loop's rows give each device its stake in that key and nothing in any other |
| `Funders.EveryCreditPaidIn` | gateway/src/ledger.rs:1566-1701 | in every run, what a device paid into a key is exactly what it still has there, plus what it got back, plus what pro-rata spends took from its contributions; so nobody gets back more than they paid in |
| `Funders.StepBalanced` | gateway/src/ledger.rs:1566-1701 | every operation keeps that account of every funder of every key |
| `Settlement.PayableBounds` | gateway/src/ledger.rs:4279-4318 | a charge lies between nothing and the cost |
| `Settlement.PayableIsGreatest` | gateway/src/ledger.rs:4279-4318 | the charge is the greatest part of the cost that the payer's balance, pool, budget and key limit allow |
| `Settlement.ChargeTakes` | gateway/src/ledger.rs:4355-4405 | who pays, to the credit: a wallet for itself, a funded key's pool or else its issuer, an account together with its key's usage; with the row each leaves |
| `Settlement.ChargeKeeps` | gateway/src/ledger.rs:4355-4405 | charging wallet, share key or account takes exactly the amount and never overdraws |
| `Settlement.SplitIsExact` | gateway/src/ledger.rs:4321-4340 | the 70/25/5 split with its rounding adds up to the charge for any number of peers, and no part is negative |
| `Settlement.RecipientsArePeers` | gateway/src/ledger.rs:4326-4330 | the peers paid are exactly the online devices, as often as listed, without the provider and the payer |
| `Settlement.PayFleetMoves` | gateway/src/ledger.rs:4407-4467 | paying the fleet pays out the charge, less the provider's part when there is no provider device, and each device's balance rises by exactly its part: 70% for the provider, an equal whole part of 25% for each peer as often as it is listed, the rest for the operations wallet |
| `Settlement.FleetPays` | gateway/src/ledger.rs:4407-4467 | that part, device by device |
| `Settlement.FleetBooks` | gateway/src/ledger.rs:4407-4467 | the rows of a payout: the provider's, the peers' in order and the operations wallet's, and none of nothing |
| `Settlement.SettleFleetKeeps` | gateway/src/ledger.rs:4216-4468 | settling a request keeps every invariant and loses only the unclaimed provider part; every balance, pool, account, API key usage and ledger row afterwards is stated: the payer falls by the greatest affordable charge, and the provider, the online devices without provider and payer, and the operations wallet rise by their parts |
| `Settlement.SettleProviderKeeps` | gateway/src/ledger.rs:4480-4711 | settling with a third-party provider conserves credits: the payer falls by the greatest affordable charge, the provider's earnings rise by 95% of it and the operations wallet by the rest, and nothing else moves |
| `Settlement.SettlementRefusals` | gateway/src/ledger.rs:4216-4711 | a settlement is refused if and only if the account or its key does not exist, or an unknown provider would earn |
| `Settlement.PayoutKeeps` | gateway/src/ledger.rs:4717-4763 | a payout takes exactly its amount from that provider's earnings and no other's, and never overdraws them |
| `Wallets.GrantsKeep` | gateway/src/ledger.rs:1331-1361 | a grant of either sign creates exactly its amount, even when the mint pool bottoms out at zero, and keeps the ledger sound if and only if it leaves no debt |
| `Wallets.GrantEffects` | gateway/src/ledger.rs:1331-1457 | who is granted what: the named wallet or account and nobody else, with one ledger row for a device, and the mint pool falls by it but never below zero |
| `Wallets.OverdrawingBonus` | gateway/src/ledger.rs:1331-1361 | a negative bonus beyond the balance is granted and leaves a debt |
| `Wallets.TransferFromDeviceKeeps` | gateway/src/ledger.rs:2594-2709 | a transfer from a device wallet conserves credits and never overdraws; the sender falls by the amount, the target rises by it, and nobody else moves |
| `Wallets.TransferFromAccountKeeps` | gateway/src/ledger.rs:2750-2878 | a transfer from an account wallet conserves credits and never overdraws; the sender falls by the amount, the target rises by it, and nobody else moves |
| `Wallets.DeviceTransferEffect` | gateway/src/ledger.rs:2594-2709 | both answers of a device transfer: accepted if and only if it is positive, covered and to another known target, and then exactly that debit and credit |
| `Wallets.AccountTransferEffect` | gateway/src/ledger.rs:2750-2878 | the same for an account transfer |
| `Wallets.SweepKeeps` | gateway/src/ledger.rs:3145-3251 | a sweep leaves the device at zero and its account richer by the device's whole balance, moves nothing else and creates nothing |
| `Wallets.LinkKeeps` | gateway/src/ledger.rs:2522-2592 | linking a device to an account keeps every invariant, opening an empty wallet that agrees with its empty history, and moves nothing |
| `Wallets.UnlinkKeeps` | gateway/src/ledger.rs:3253-3293 | removing a device from an account drops that link and changes nothing else |
| `Wallets.UpsertKeeps` | gateway/src/ledger.rs:1230-1262 | registering a device moves no credits |
| `Wallets.LinkRefusals` | gateway/src/ledger.rs:3145-3293 | a device can be swept if and only if it and the requester are linked to one account with a wallet, and removed if and only if they are two devices of one account |
| `Availability.ReconcileKeeps` | gateway/src/ledger.rs:5018-5110 | a drip tick with credits of either sign creates exactly what it grants, and keeps balances in agreement with rows plus open sessions and everyone solvent if and only if it is affordable, as a tick without negative credits always is; it gives every listed device its credits, or does nothing if the mint pool cannot cover the positive ones |
| `Availability.MintPaysTheDrip` | gateway/src/ledger.rs:5042-5110 | the mint pool falls by exactly the granted credits if and only if the tick is skipped or no listed credit is negative |
| `Availability.NegativeDrip` | gateway/src/ledger.rs:5042-5110 | one negative credit is taken without touching the mint pool |
| `Availability.FinalizeStaleKeeps` | gateway/src/ledger.rs:4980-5012 | ending sessions turns their accrual into ledger rows without moving any balance |
| `Availability.SessionsEnded` | gateway/src/ledger.rs:5018-5040 | a session ends if and only if its device is listed no more or last with another model, and every other session is untouched |
| `Availability.EndingWrites` | gateway/src/ledger.rs:4980-5012 | an ended session leaves its accrual as one row, and no row for nothing |
| `Availability.SessionsAccrued` | gateway/src/ledger.rs:5067-5110 | after a tick exactly the listed devices have been given sessions, each with its last listed model |
| `Withdrawals.SubmitIsSound` | gateway/src/ledger.rs:3914-4169 | a new request is recorded as asked, pending or with its signature, and its dollars and credits are taken once, together; a held request that is signed is completed; anything else changes nothing; all dollar totals stay equal to the sums over requests and deposits |
| `Withdrawals.SubmitRefusals` | gateway/src/ledger.rs:3914-4169 | a submission is accepted if and only if it is complete, positive and in range, by an enabled account, with a signature no other request has, and new and covered or the same as the one on record |
| `Withdrawals.ResubmitIsSound` | gateway/src/ledger.rs:3981-4003 | submitting an existing request again debits nothing more, and a signature turns a pending one into a submitted one and raises the withdrawn total by it |
| `Withdrawals.CompleteIsSound` | gateway/src/ledger.rs:3682-3807 | after completion the request is submitted with that signature; a pending one raises the withdrawn total by its amount, a repeated completion changes nothing, and no signature is reused |
| `Withdrawals.RejectIsSound` | gateway/src/ledger.rs:3811-3912 | rejection makes the request rejected, for good, and returns its dollars and credits in full |
| `Withdrawals.CompletionRefusals` | gateway/src/ledger.rs:3682-3912 | a request is completed if and only if it is pending and its signature unused or it is already submitted with it, and rejected if and only if it is pending |
| `Withdrawals.DepositOnchainIsSound` | gateway/src/ledger.rs:3371-3488 | a deposit with a new signature is recorded under it and raises its account's credits, dollars and deposited total by it, at 10 000 credits a cent; a known or absent signature changes no amount; the address on file is kept |
| `Withdrawals.DepositTreasuryIsSound` | gateway/src/ledger.rs:3504-3609 | the same for deposits recorded from the treasury; a repeated one changes nothing |
| `Withdrawals.OnchainDeposits` | gateway/src/ledger.rs:3371-3488 | such a deposit is accepted if and only if the account is linked, one address fits, the amount is positive and in range, and its signature is new or on record with the same deposit |
| `Withdrawals.TreasuryDeposits` | gateway/src/ledger.rs:3504-3609 | the same for the treasury |
| `LedgerRuns.StepKeeps` | gateway/src/ledger.rs:1230-5589 | each of the 23 operations accounts for every credit, and keeps the whole invariant if and only if it is covered, which only grants and drips of negative amounts can fail to be |
| `LedgerRuns.PositiveIsCovered` | gateway/src/ledger.rs:1331-5110 | grants and drips without negative amounts are covered in every sound state |
| `LedgerRuns.SoundExactlyIfCovered` | gateway/src/ledger.rs:1230-5589 | a run is sound after every step if and only if every operation in it is covered |
| `LedgerRuns.RunsConserve` | gateway/src/ledger.rs:1230-5589 | in every run of covered operations the invariant holds, credits change only by minting, drip, payouts, unclaimed provider parts, deposits and withdrawals, and withdrawal requests only move from pending to a final status |
| `LedgerRuns.ReachableStates` | gateway/src/ledger.rs:1230-5589 | from an empty database, every reachable state: credits add up, balances are what rows and sessions say and not negative, open pools hold budget minus consumed and settled ones nothing, account debits are the pending and submitted requests, no signature serves two requests |
| `CreditLedger.Ledger.SettleRequest` | gateway/src/ledger.rs:4216-4468 | in place, leaves all tables exactly as the settlement whose every balance and row `Settlement.SettleFleetKeeps` states, or untouched on an error |
| `CreditLedger.Ledger.SettleProviderRequest` | gateway/src/ledger.rs:4480-4711 | in place, exactly the settlement of `Settlement.SettleProviderKeeps`; a failed foreign key leaves no trace |
| `CreditLedger.Ledger.ChargeConsumer` | gateway/src/ledger.rs:4355-4405 | in place, exactly the debit of `Settlement.ChargeKeeps` on wallet, pool or account |
| `CreditLedger.Ledger.ChargeAccount` | gateway/src/ledger.rs:4877-4898 | in place, an account and its API key's usage move by the charge, or neither does |
| `CreditLedger.Ledger.EffectiveCost` | gateway/src/ledger.rs:4279-4318 | the amount charged is what the payer can pay |
| `CreditLedger.Ledger.PayFleet` | gateway/src/ledger.rs:4407-4467 | the payout loop pays exactly the parts that `Settlement.PayFleetMoves` states |
| `CreditLedger.Ledger.ApplyProRataSpend` | gateway/src/ledger.rs:1622-1701 | in place, exactly the reductions of `SharePools.SpendPoolExact` |
| `CreditLedger.Ledger.RecordProviderPayout` | gateway/src/ledger.rs:4717-4763 | in place, exactly the payout of `Settlement.PayoutKeeps` |
| `CreditLedger.Ledger.MintShareKey` | gateway/src/ledger.rs:5150-5273 | in place, exactly the key, pool and refusals of `SharePools.MintKeeps` |
| `CreditLedger.Ledger.TransferToShareKey` | gateway/src/ledger.rs:1800-1922 | in place, exactly the funding of `SharePools.FundKeeps`, with each refusal in the order of the source |
| `CreditLedger.Ledger.RefundContributions` | gateway/src/ledger.rs:1566-1620 | the refund loop closes every open contribution and pays it back |
| `CreditLedger.Ledger.RevokeShareKey` | gateway/src/ledger.rs:5372-5418 | in place, exactly the revocation of `SharePools.RevokeKeeps` |
| `CreditLedger.Ledger.RefundExpiredShareKeys` | gateway/src/ledger.rs:1924-1957 | the sweep loop, after which no key whose time is up is left unsettled |
| `CreditLedger.Ledger.MigrateUnfundedShareKeys` | gateway/src/ledger.rs:5443-5589 | the migration loop, all or nothing |
| `CreditLedger.Ledger.ReconcileAvailabilitySessions` | gateway/src/ledger.rs:5018-5110 | in place, exactly the tick of `Availability.ReconcileKeeps`, over all open sessions |
| `CreditLedger.Ledger.FinalizeSessions` | gateway/src/ledger.rs:4961-5012 | the loop that ends every session no recipient continues |
| `CreditLedger.Ledger.TransferFromDeviceWallet` | gateway/src/ledger.rs:2594-2709 | in place, exactly the transfer of `Wallets.TransferFromDeviceKeeps`, or untouched tables on a refusal |
| `CreditLedger.Ledger.TransferFromAccountWallet` | gateway/src/ledger.rs:2750-2878 | in place, exactly the transfer of `Wallets.TransferFromAccountKeeps`, or untouched tables on a refusal |
| `CreditLedger.Ledger.SweepDeviceToAccount` | gateway/src/ledger.rs:3145-3251 | in place, exactly the sweep of `Wallets.SweepKeeps` |
| `CreditLedger.Ledger.LinkDeviceToAccount` | gateway/src/ledger.rs:2522-2592 | in place, exactly the link of `Wallets.LinkKeeps` |
| `CreditLedger.Ledger.RecordBonus` | gateway/src/ledger.rs:1331-1361 | in place, exactly the grant of `Wallets.GrantsKeep` to a wallet that exists |
| `CreditLedger.Ledger.AdminMint` | gateway/src/ledger.rs:1966-2005 | in place, exactly the mint of `Wallets.GrantsKeep`, refusing amounts that are not positive |
| `CreditLedger.Ledger.UpsertDevice` | gateway/src/ledger.rs:1230-1262 | in place, exactly the registration of `Wallets.UpsertKeeps` |
| `CreditLedger.Ledger.RemoveDeviceFromAccount` | gateway/src/ledger.rs:3253-3293 | in place, exactly the removal of `Wallets.UnlinkKeeps` |
| `CreditLedger.Ledger.RecordAccountBonus` | gateway/src/ledger.rs:1431-1457 | in place, exactly the grant of `Wallets.GrantsKeep` to an account that exists |
| `CreditLedger.Ledger.RecordOnchainDeposit` | gateway/src/ledger.rs:3371-3488 | in place, exactly the deposit of `Withdrawals.DepositOnchainIsSound`, with its replay and conflict answers |
| `CreditLedger.Ledger.RecordTreasuryDeposit` | gateway/src/ledger.rs:3504-3609 | in place, exactly the deposit of `Withdrawals.DepositTreasuryIsSound` |
| `CreditLedger.Ledger.SubmitAccountWithdrawal` | gateway/src/ledger.rs:3914-4169 | in place, exactly the submission, resubmission and signed submission of `Withdrawals.SubmitIsSound` |
| `CreditLedger.Ledger.CompleteFromTreasury` | gateway/src/ledger.rs:3682-3807 | in place, exactly the completion of `Withdrawals.CompleteIsSound` |
| `CreditLedger.Ledger.RejectAccountWithdrawal` | gateway/src/ledger.rs:3811-3912 | in place, exactly the rejection of `Withdrawals.RejectIsSound` |
| `Binary.Decoded` | gateway/src/anchoring.rs:79-95 | little-endian bytes of a number that fits decode to it |
| `Binary.Reencoded` | cli/src/gguf_inspect.rs:96-101 | every byte string is the little-endian form of the number it decodes to |
| `Encoding.EntryHashBindsRow` | gateway/src/anchoring.rs:79-102 | two rows with strings shorter than 2^32 bytes have one entry hash if and only if they differ at most in null versus empty strings |
| `Encoding.EncodedLayout` | gateway/src/anchoring.rs:65-95 | a verifier reads every field back at its documented offset: the tag, three little-endian numbers, four strings behind their lengths |
| `Encoding.LongStringsCollide` | gateway/src/anchoring.rs:92-95 | at 2^32 bytes two different rows have one entry hash |
| `Encoding.BindsExactlyBelow` | gateway/src/anchoring.rs:79-102 | entry hashes tell rows with strings shorter than n bytes apart if and only if n is at most 2^32 |
| `Encoding.NullIsEmpty` | gateway/src/anchoring.rs:79-95 | a null string and an empty one give the same entry hash |
| `Encoding.TipBindsHistory` | gateway/src/anchoring.rs:97-109 | equal chain tips if and only if equally many rows with equal content in the same order |
| `Merkle.RootIsTreeHash` | gateway/src/anchoring.rs:124-151 | building level by level with odd-node promotion gives the tree hash of section 2.1 of RFC 6962 on the leaf hashes |
| `Merkle.SplitIsPowerOfTwo` | gateway/src/anchoring.rs:124-143 | the reference splits at the largest power of two below the number of leaves |
| `Merkle.PathIsTreePath` | gateway/src/anchoring.rs:156-188 | the proof built level by level is the audit path of section 2.1.1 of RFC 6962 |
| `Merkle.ProofsVerify` | gateway/src/anchoring.rs:156-211 | every leaf's proof folds to the root |
| `Merkle.ProofLength` | gateway/src/anchoring.rs:156-188 | a proof has at most as many steps as the ceiling of the base-2 logarithm of the number of leaves |
| `Merkle.CeilLog2IsLeast` | gateway/src/anchoring.rs:156-188 | that ceiling is the least exponent whose power of two covers the leaves |
| `Merkle.RootBindsLeaves` | gateway/src/anchoring.rs:124-151 | leaf lists of one length with one root are equal |
| `Merkle.OnlyLeavesVerify` | gateway/src/anchoring.rs:193-211 | a proof accepted for a hash that is no inner node is the proof of a real leaf with that hash, step for step |
| `Merkle.MerkleRoot` | gateway/src/anchoring.rs:124-151 | the loop over levels computes the root |
| `Merkle.MerkleProof` | gateway/src/anchoring.rs:156-188 | the loop over levels computes the path |
| `Merkle.VerifyProof` | gateway/src/anchoring.rs:193-211 | the fold over the steps accepts exactly if it reaches the expected root, and rejects malformed siblings |
| `Anchors.RunKeeps` | gateway/src/anchoring.rs:283-450 | in every run of appends, edits, deletions, backfills, prepares, confirmations and abandonments the tables stay in order: chained hashes, sealed gap-free ranges, at most one pending anchor |
| `Anchors.RunAnchorsOrdered` | gateway/src/anchoring.rs:314-420 | no two anchors are pending, and confirmed ranges rise strictly without overlap |
| `Anchors.HistoryIsPermanent` | gateway/src/anchoring.rs:283-450 | stored hashes and confirmed anchors never change, whatever follows |
| `Anchors.BackfillHashesEveryRow` | gateway/src/anchoring.rs:283-307 | after a backfill every row has a hash; old hashes stay in front, and the new ones are those of exactly the rows that had none |
| `Anchors.PrepareIsExact` | gateway/src/anchoring.rs:314-385 | whatever is in the tables, a prepare is refused while an anchor is pending, has nothing to do if and only if no hash is past every confirmed anchor, reports a gap if and only if the ids of those hashes have a hole, and otherwise adds one pending anchor that covers exactly those ids and seals their hashes |
| `Anchors.DecidedOnce` | gateway/src/anchoring.rs:425-450 | an anchor is confirmed or abandoned if and only if it is pending, only its status changes, and it is never decided again |
| `Anchors.EveryRowIsProved` | gateway/src/anchoring.rs:283-626 | after any run without edits and deletions that leaves no anchor pending, a backfill, a prepare and a confirmation leave every ledger row proved |
| `Anchors.InclusionIsExact` | gateway/src/anchoring.rs:514-626 | whatever is in the tables, a query answers nothing without a row or a confirmed anchor over it; otherwise the row has a stored hash, and a proof that folds to the anchored root is returned if the row still hashes to it and a mismatch is reported if not |
| `Anchors.EditsAreRefused` | gateway/src/anchoring.rs:514-626 | after any run, a row once hashed is proved, by a proof that folds to the anchored root, if and only if its content is still the same up to null strings, and refused otherwise |
| `Anchors.NullEditIsProved` | gateway/src/anchoring.rs:514-626 | a row whose note is changed from null to empty after anchoring is still proved |
| `Anchors.ChainIgnoresBatching` | gateway/src/anchoring.rs:283-307 | however appends and backfills interleave, each chain hash is the fold over all rows up to its own |
| `Anchors.HonestRunsStayUntampered` | gateway/src/anchoring.rs:254-307 | without edits and deletions the stored hashes are always those of the first rows |
| `AnchorStore.Store.BackfillEntryHashes` | gateway/src/anchoring.rs:283-307 | the backfill loop, with the result that `Anchors.BackfillHashesEveryRow` states |
| `AnchorStore.Store.PrepareAnchor` | gateway/src/anchoring.rs:314-420 | in place, exactly the answers of `Anchors.PrepareIsExact` after the backfill of `Anchors.BackfillHashesEveryRow` |
| `AnchorStore.Store.ConfirmAnchor` | gateway/src/anchoring.rs:425-436 | in place, the confirmation of `Anchors.DecidedOnce` |
| `AnchorStore.Store.AbandonAnchor` | gateway/src/anchoring.rs:440-450 | in place, the abandonment of `Anchors.DecidedOnce` |
| `AnchorStore.Store.InclusionProof` | gateway/src/anchoring.rs:514-626 | the lookup returns exactly the proof that `Anchors.InclusionIsExact` is about |
| `Gguf.TextRoundTrip` | cli/src/gguf_inspect.rs:102-115 | a string is read off the front of the bytes if and only if it was written there and is within the limits for retained strings |
| `Gguf.ValueRoundTrip` | cli/src/gguf_inspect.rs:116-155 | the same for every metadata value, arrays included |
| `Gguf.ArrayRoundTrip` | cli/src/gguf_inspect.rs:126-136 | arrays are read as their items, one level deep, up to the count limit |
| `Gguf.ScalarWidths` | cli/src/gguf_inspect.rs:116-155 | which scalar types there are and how wide each is |
| `GgufDirectory.EntriesRoundTrip` | cli/src/gguf_inspect.rs:198-211 | the metadata section is read if and only if it was written from entries with distinct keys |
| `GgufDirectory.ProductPrefix` | cli/src/gguf_inspect.rs:227-235 | partial products of dimensions only grow, so checking each multiplication refuses no shape that fits |
| `GgufDirectory.DimensionsRoundTrip` | cli/src/gguf_inspect.rs:226-235 | dimensions are read if and only if they are positive and their whole product fits 64 bits |
| `GgufDirectory.TensorSound` | cli/src/gguf_inspect.rs:218-251 | a tensor record that is read was written there and is well formed |
| `GgufDirectory.TensorComplete` | cli/src/gguf_inspect.rs:218-251 | every well-formed tensor record is read back as written |
| `GgufDirectory.TensorsRoundTrip` | cli/src/gguf_inspect.rs:215-252 | the tensor section is read if and only if it was written from well-formed tensors with distinct names |
| `GgufDirectory.DocumentRoundTrip` | cli/src/gguf_inspect.rs:188-252 | the header is read as a document if and only if it is that document written out |
| `GgufLayout.NeighboursAreEnough` | cli/src/gguf_inspect.rs:283-286 | on nonempty ranges, sorting and checking neighbours finds an overlap if and only if some two ranges overlap |
| `GgufLayout.SortSorts` | cli/src/gguf_inspect.rs:283 | sorting orders the ranges and keeps them |
| `GgufLayout.DisjointRangesFit` | cli/src/gguf_inspect.rs:267-286 | ranges that do not overlap are together no longer than the space around them |
| `GgufFile.AcceptsExactly` | cli/src/gguf_inspect.rs:178-294 | a file is accepted if and only if it holds, within the header limit, a well-formed document whose tensors are aligned, inside the file and apart |
| `GgufFile.HoldsIsParsed` | cli/src/gguf_inspect.rs:178-294 | that document is unique and is what the parser reports |
| `GgufFile.AcceptedTensors` | cli/src/gguf_inspect.rs:253-286 | in every accepted file tensor ranges are nonempty, aligned, in the file and pairwise disjoint, and their bytes total at most file size minus data start |
| `GgufFile.TensorNonempty` | cli/src/gguf_inspect.rs:236-244 | a tensor's elements fill its blocks exactly and there is at least one |
| `GgufFile.RoundUpIsLeast` | cli/src/gguf_inspect.rs:261-266 | data starts at the first multiple of the alignment at or after the header |
| `GgufFile.AcceptedHeader` | cli/src/gguf_inspect.rs:178-252 | every accepted file starts with the magic and version 3 and keeps the limits: 1 to 100 000 tensors of one to four sides, at most 100 000 keys, none of a shard, all names different and at most a mebibyte of UTF-8, a header of at most 128 MiB; and its metadata is what the entries say |
| `GgufFile.ScalarsAre` | cli/src/gguf_inspect.rs:116-211 | each key is found with what is kept of its value: unsigned integers by their bytes, strings of the kept keys, nothing else |
| `GgufFile.AlignmentIs` | cli/src/gguf_inspect.rs:253-260 | the alignment is 32 if not stated, and a stated one is accepted if and only if it is a power of two up to 65 536 |
| `GgufFile.BlockSizes` | cli/src/gguf_inspect.rs:156-177 | the known encodings, each block as large as its elements' bits, scales, minima and sums |
| `GgufReader.Reader.Take` | cli/src/gguf_inspect.rs:79-95 | bytes are taken and the position advances, or the limit is reported |
| `GgufReader.Reader.Text` | cli/src/gguf_inspect.rs:102-115 | advances past the string and returns it, or nothing of it where it is not retained, as `Gguf.TextRoundTrip` describes |
| `GgufReader.Reader.Value` | cli/src/gguf_inspect.rs:116-155 | advances past the value and returns what is kept of it, as `Gguf.ValueRoundTrip` describes |
| `GgufReader.Reader.Metadata` | cli/src/gguf_inspect.rs:196-211 | the metadata loop fills the scalars and keys |
| `GgufReader.Reader.Dimensions` | cli/src/gguf_inspect.rs:226-235 | the dimension loop with its running product |
| `GgufReader.Reader.Tensors` | cli/src/gguf_inspect.rs:215-252 | the tensor loop |
| `GgufReader.PlaceTensors` | cli/src/gguf_inspect.rs:267-282 | the range loop reports the first misplaced tensor or all ranges |
| `GgufReader.ParseFile` | cli/src/gguf_inspect.rs:178-294 | the whole parser, result and error, is the specified one |
| `GgufReader.WeightBytes` | cli/src/gguf_inspect.rs:411-413 | the weight sum; for any parsed file the overflow branch is never taken |
| `KvPayload.Compute` | cli/src/gguf_inspect.rs:301-386 | a payload is reported if and only if the request and the geometry are accepted and the mathematical product fits 64 bits, and it is that product |
| `KvPayload.Arithmetic` | cli/src/gguf_inspect.rs:370-386 | on accepted geometry only rows that do not fill blocks and products of 2^64 or more are refused |
| `KvPayload.PayloadIs` | cli/src/gguf_inspect.rs:370-386 | the product is two bytes an element in f16, 34 bytes for 32 elements in q8_0 and 18 in q4_0, over every key-value head, layer, cell and sequence |
| `KvPayload.CellsAreLeast` | cli/src/gguf_inspect.rs:370-379 | cells are the least multiple of 256 that holds the context |
| `KvPayload.DefaultWidths` | cli/src/gguf_inspect.rs:330-351 | a width that is not stated divides the hidden size equally over the heads |
| `KvPayload.CheckedProduct` | cli/src/gguf_inspect.rs:380-385 | multiplying step by step fails exactly if the whole product does not fit |
| `KvPayload.CheckLayers` | cli/src/gguf_inspect.rs:352-369 | the layer loop accepts exactly if every layer has its three matrices in the right shape |
| `KvPayload.DigitsAreDecimal` | cli/src/gguf_inspect.rs:359 | layers are numbered in decimal in matrix names |
| `KvPayload.ParsedAreWords` | cli/src/gguf_inspect.rs:178-294 | every number of a parsed directory fits 64 bits |
| `Relay.RunKeeps` | relay/server.ts:124-187 | in every run the announcements say exactly who is listed, and every departure is announced after an arrival that no departure followed |
| `Relay.PeersAreLatest` | relay/server.ts:111-122 | in every run a message goes to a socket if and only if it made the latest register for the target and is open or last registered another id, and the sockets table holds exactly the open registered sockets with their last ids |
| `Relay.OneIdPeersAreOpen` | relay/server.ts:111-187 | a socket that keeps one id is listed only while it is open, and the tables map it back |
| `Relay.CloseKeeps` | relay/server.ts:271-312 | closing a socket removes exactly the peer it speaks for, never a successor, and keeps the announcements right |
| `Relay.RegisterKeeps` | relay/server.ts:124-187 | registering lists the socket, keeps the announcements right, and takes from the lists only what the socket it replaces still speaks for |
| `Relay.CloseTells` | relay/server.ts:93-101 | a close announces nothing unless the socket speaks for an id, and then tells exactly the sockets still listed that this id left |
| `Relay.RegisterTells` | relay/server.ts:93-187 | a repeated register announces nothing; any other tells exactly the sockets listed for another id that this one joined, and before that, if the socket it replaces is closed inside and speaks for another id, exactly those still listed that that one left |
| `Relay.EveryEventWasSent` | relay/server.ts:93-312 | in every run each announcement was made by one of its steps, and reached exactly the sockets listed at that moment: for another id if it was an arrival, for any id if a departure |
| `Relay.InsideOrLater` | relay/server.ts:124-187 | the close of a replaced socket may run inside the register or after any operations of other sockets with the same tables and announcements, if and only if that socket speaks for no other id |
| `Relay.CloseLeavesOtherIds` | relay/server.ts:271-312 | a closed socket stays listed exactly for ids it held besides its last one |
| `Relay.TwoIdsLeak` | relay/server.ts:271-312 | a run in which a socket registers two ids and closes, and messages for the first still go to it |
| `Relay.Server.HandleRegister` | relay/server.ts:124-187 | in place, exactly the maps of `Relay.RegisterKeeps` and the announcements of `Relay.RegisterTells` |
| `Relay.Server.HandleClose` | relay/server.ts:271-312 | in place, exactly the maps of `Relay.CloseKeeps` and the announcements of `Relay.CloseTells` |
| `Relay.Server.ForwardToTarget` | relay/server.ts:111-122 | a message goes exactly where `Relay.PeersAreLatest` says |
| `Pins.GenerationIsCacheKey` | gateway/src/pins.rs:610-651 | between any two moments of a run the generation never falls, and where it is equal the netmap lists the same members with the same key, disabled flag and roles |
| `Pins.ListedMembersAreApproved` | gateway/src/pins.rs:182-278 | in every run an active or disabled member carries an approval no earlier than its last join request |
| `Pins.NoListingWithoutApproval` | gateway/src/pins.rs:182-278 | nobody is listed without an accepted approval after their last request, in the order of the run |
| `Pins.RemovedUntilApproved` | gateway/src/pins.rs:290-312 | in every run a removed device is not listed at any later moment before an accepted approval |
| `Pins.JoinEffect` | gateway/src/pins.rs:182-224 | both answers of a knock, and the request it leaves: refused only at a network that does not exist, ignored from a device in it |
| `Pins.ApproveEffect` | gateway/src/pins.rs:226-278 | accepted if and only if the owner or an admin approves a pending request; the device is then shown, not disabled, under its key and roles |
| `Pins.DenyEffect` | gateway/src/pins.rs:280-288 | accepted if and only if a request is pending; the device is then no member, and no netmap changes |
| `Pins.RemoveEffect` | gateway/src/pins.rs:290-312 | accepted if and only if the device is active or disabled; it is then shown no more |
| `Pins.SetDisabledEffect` | gateway/src/pins.rs:314-338 | accepted if and only if the flag differs from what an active or disabled device has; it is then shown with that flag |
| `Pins.UpdateEffect` | gateway/src/pins.rs:340-373 | refused only for a rename without a row; name and serving flag become what was given, and only a changed flag raises the generation |
| `Pins.SetOffersExitEffect` | gateway/src/pins.rs:543-562 | the exit flag becomes what was given, and only a change raises the generation |
| `PinStore.Store.SubmitJoin` | gateway/src/pins.rs:182-224 | in place, the step of `Pins.JoinEffect`: a join request queues a new or removed device and leaves members alone |
| `PinStore.Store.ApproveMember` | gateway/src/pins.rs:255-278 | in place, the step of `Pins.ApproveEffect`: an administrator turns a pending request, and nothing else, into an active member |
| `PinStore.Store.DenyMember` | gateway/src/pins.rs:280-288 | in place, the step of `Pins.DenyEffect`: a pending request, and nothing else, is dropped |
| `PinStore.Store.RemoveMember` | gateway/src/pins.rs:290-312 | in place, the step of `Pins.RemoveEffect`: an active or disabled member, and nobody else, is removed |
| `PinStore.Store.SetMemberDisabled` | gateway/src/pins.rs:314-338 | in place, the step of `Pins.SetDisabledEffect`: an active member is disabled or a disabled one enabled, and any other status is refused |
| `PinStore.Store.UpdateMember` | gateway/src/pins.rs:340-373 | in place, the step of `Pins.UpdateEffect`: the name changes freely, the serving role raises the generation exactly if it changes |
| `PinStore.Store.SetMemberOffersExit` | gateway/src/pins.rs:543-562 | in place, the step of `Pins.SetOffersExitEffect`: the exit flag raises the generation exactly if it changes |
| `PinStore.Store.BuildNetmap` | gateway/src/pins.rs:610-651 | the netmap lists exactly the active and disabled members with their keys, flags and display names, at the generation it was read |
| `PinUsage.CountedExactlyOnce` | gateway/src/pins.rs:838-885 | after any sequence of reports each total is the sum over distinct accepted batches, and a row exists exactly if one of them mentions it |
| `PinUsage.OrderDoesNotMatter` | gateway/src/pins.rs:838-885 | if every batch id has fixed contents, the tables depend only on which reports arrived, not on order or repetition |
| `PinUsage.AddEntriesEffect` | gateway/src/pins.rs:855-882 | a batch adds to each total exactly the sum of its entries for it |
| `PinUsage.Store.RecordUsageBatch` | gateway/src/pins.rs:838-885 | in place, exactly the step of `PinUsage.CountedExactlyOnce`, with its replay answer and its rollback on a negative count |
| `Scheduler.PickAndSaturatedAgree` | gateway/src/scheduler.rs:48-198 | saturation is reported exactly when nothing can be picked for queue reasons alone, if and only if open devices do not all report the largest u32 |
| `Scheduler.SaturationIsReal` | gateway/src/scheduler.rs:48-95 | a report of saturation is always right |
| `Scheduler.LongestQueueIsOverlooked` | gateway/src/scheduler.rs:64-68 | one open device with a queue of u32::MAX is not reported |
| `Scheduler.ViableIsOpenBelowCap` | gateway/src/scheduler.rs:118-157 | what pick gathers is what saturated considers, less the devices at a cap, at every cap including 0 |
| `Scheduler.ScoreSign` | gateway/src/scheduler.rs:204-213 | a score is positive exactly if every factor is |
| `Scheduler.ScoreFormula` | gateway/src/scheduler.rs:200-213 | the score: throughput times the free part of the queue, the throttle in percent up to 100, 1, 0.8, 0.3 or 0 by thermal state, and the swap penalty for a model that is not loaded |
| `Scheduler.LongerQueueNoBetter` | gateway/src/scheduler.rs:204-213 | a longer queue never raises a score |
| `Scheduler.Saturated` | gateway/src/scheduler.rs:48-95 | the loop reports saturation as specified |
| `Scheduler.Gather` | gateway/src/scheduler.rs:116-157 | the filter loop lists exactly the viable devices in order |
| `Scheduler.Lane` | gateway/src/scheduler.rs:163-190 | the narrowing leaves exactly the viable devices with least in flight, loaded if any tied one is, within 0.8 of every tied score |
| `Scheduler.Pick` | gateway/src/scheduler.rs:97-198 | none is picked exactly if none is viable, otherwise the random number chooses within that lane and every device in it can be chosen |

## Left out

- Resetting the ledger (`reset_genesis`), which clears rows but keeps anchors, and the legacy backfill of contributions.
- SQL text, row mapping, identifiers, tokens, labels, notes and row timestamps; a transaction is one step, and new ids are parameters.
- Statistics kept beside balances (total earned, total spent) and the account and provider ledger rows; only device ledger rows are modelled.
- The lookup of transfer recipients by email, phone or user name: a transfer names its resolved target.
- Referral and join rewards beyond the grants they are made of.
- Overflow of credit sums beyond 64 bits; amounts are unbounded except where the source checks them.
- Floating-point pricing, demand weighting and tokens-per-second statistics; a device's throughput factor is any positive real.
- SHA-256, hexadecimal text, Ed25519 signatures and Solana calls; digests are a free algebra.
- The anchor memo text and the listing functions around anchors.
- How often an announcement reaches a socket that is listed under several ids; the model keeps which sockets it reaches.
- Relay statistics, discovery, last-seen times and the detector of mass disconnects; only register, close and forwarding change sessions.
- Deleting a network, rotating join codes, revoking roles, settings, model policy, endpoints and last-seen times of members.
- The order of members in a netmap and its signature.
- Matching of model names in the scheduler: a device states whether it has the requested model loaded or can swap it in.
- The in-flight counters are a snapshot for one decision; their updates during requests are not modelled.
- Sorting of tensor ranges and of quotas is a library call in the source and a function here.
- Hashing of the model file and binary, command-line output and the check that inputs did not change meanwhile.
- HTTP handlers, authentication, probes, dashboards, configuration and catalog loading: the modelled functions are called below them.
- Encoding.EntryHashBindsRow: requires strings shorter than 2^32 bytes, the exact bound by Encoding.BindsExactlyBelow.
- PinStore.Store.BuildNetmap: leaves out endpoints, loaded models, tunnel keys and last-seen times, which change without a new generation.
