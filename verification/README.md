# BlockMiner: placement, money, limits and locks

A Dafny model of the parts of BlockMiner whose guarantees only show across several handlers and over whole runs:
where machines may stand, what a POL balance must equal, how often a limiter or quota says yes, and what the cron
lock excludes. `dafny verify dfyconfig.toml` checks everything.

Every part has the same shape. A `...Model` module holds the tables as a value and says what each request answers and
does to them. `...Laws` say the same once more in rows, slots, times and amounts alone: when a request is granted, and
what exactly it leaves. `...Proofs`, `...Runs`, `...Window`, `...Exchange` prove what every run of requests keeps. A class
(`GridStore.Store`, `RoomStore.Store`, `RateLimiter.Limiter`, `Wallet.Ledger`, `CronRunner.Runner`,
`ActivityAccount.Account`, `BlkAccount.Account`) carries out the handlers statement by statement over mutable tables,
and each of its methods is proved to do exactly what the model says, so the run theorems hold of it.

- **Grid** (`Machines`, `GridModel`, `GridLaws`, `GridProofs`, `GridStore`): 80 slots, machines of one or two slots,
  inventory and vault. The model says with intervals what an installation or move displaces; the handlers only look at
  start indexes and one slot to the left, and are proved to agree.
- **Rooms** (`RoomModel`, `RoomLaws`, `RoomProofs`, `RoomExchange`, `RoomStore`): racks in rows of four, blocking links of
  two-slot machines, single and batch uninstallation, the two occupancy counts.
- **Rate limiter** (`RateLimitModel`, `RateLimitLaws`, `RateLimitProofs`, `RateLimitWindow`, `RateLimiter`): the
  limiter as a cache of one that never forgets, and how many requests an interval lets through.
- **Ledger** (`TxHashes`, `LedgerModel`, `LedgerLaws`, `LedgerProofs`, `LedgerRuns`, `LedgerPayments`, `CheckinModel`,
  `CheckinLaws`, `Wallet`): deposits by request, verifier, invoice and ticket, withdrawals, rooms, shop, daily
  check-ins. Amounts are whole units of 1e-8. The method of each handler keeps the tables regular and every balance
  explained.
- **Cron runner** (`CronModel`, `CronRunner`): calls interleaved at their awaits.
- **Activity** (`ActivityModel`, `ActivityLaws`, `ActivityAccount`): heartbeats, video and GPU claims. Times are
  milliseconds.
- **BLK** (`BlkModel`, `BlkLaws`, `BlkAccount`, `RewardShares`): conversion rounding, cool-down and cap; floored
  reward shares.

Each request is one atomic step (the cron runner excepted), as the transactions and their locks intend. Request ids,
the clock, the chain, BTCPay and the catalogue are parameters. Row ids come from counters, as from the database's
sequences. What the code does against what one might expect of it:

- Retrieval from the vault to the grid does not look one slot to the left, unlike installation and move. It keeps
  machines apart exactly when no two-slot machine starts just before an odd target (`RunKeepsApartIff`,
  `FetchOverlapWitness`).
- Direct deposits keep a transaction hash as typed and tickets trim it, while submitted deposits put it in lower case;
  the tables and their unique index compare texts, the chain ignores case. One payment has one deposit row, and is
  credited once, as long as no request registers the hash of a row in another spelling; rows stay one to a payment
  exactly then (`RunOneRowIff`, `PaymentCreditedOnce`, with `TwoSpellingsWitness` and `TicketSpellingWitness`). The
  same goes for the days a wallet payment confirms (`RunOneDayIff`, `OneDayWitness`).
- A balance check-in is filed under a digest of player and day, in the column where wallet payments have their hash. It is
  refused when another row was registered under that digest (`DebitedIff`, `DigestTakenIff`, `DigestTakenWitness`).
- Rejecting a ticket is not final: it can still be approved, and credits then (`ApprovalCreditsIff`,
  `RejectedTicketWitness`).
- Overflow eviction in the limiter can drop a key whose window is still open; that is visible to later requests exactly
  then (`ForgettingInvisibleIff`, `OverflowWitness`). While clean-ups forget only closed windows it never shows
  (`CacheAgrees`). One window length lets at most 2 * max - 1 requests of a key through, not 2 * max, and that bound is
  reached (`IntervalBound`, `BoundReached`).
- `updateTransactionStatus` checks no transition; `UpdateStatusConservesIff` says exactly when it keeps the books
  balanced on its own (`ReopenedWithdrawalWitness`, `FailedDepositWitness`). Behind the handlers' guards it always does.
- A cron call with `allowConcurrent` can leave another call of its action without a lock when it ends, exactly when there
  is another (`ExitKeepsLockedIff`), and a third can then run beside it (`LostLockWitness`). Calls of one action never
  overlap exactly when no concurrent one starts while the action is in progress (`RunExclusiveIff`).

## Model

| member | source | states |
|---|---|---|
| GridStore.Store.InstallInventoryItem | server/controllers/inventoryController.ts:57-171 | installing displaces exactly the machines whose interval meets the target, into the inventory; nothing else moves, no machine is lost; bad slot, missing item and odd start of a two-slot machine are refused and change nothing |
| GridStore.Store.MoveMachine | server/controllers/machinesController.ts:157-242 | moving displaces exactly the other machines whose interval meets the target and keeps the mover's row |
| GridStore.Store.RemoveMachine | server/controllers/machinesController.ts:87-129 | a removed machine becomes one inventory row with the same payload |
| GridStore.Store.RemoveInventoryItem | server/controllers/inventoryController.ts:223-253 | a discarded item is the only thing that goes |
| GridStore.Store.MoveItemsToVault | server/controllers/vaultController.ts:396-422 | the selected items all move to the vault, or none does when the selection is empty, over 120, or one is missing |
| GridStore.Store.TransferRows | server/controllers/vaultController.ts:247-339 | moving rows one by one between inventory and vault moves exactly those rows under fresh ids, catalogue check included, and reports a missing one |
| GridStore.Store.MoveMachineToVault | server/controllers/vaultController.ts:453-521 | a placed machine becomes one vault row |
| GridStore.Store.RetrieveItems | server/controllers/vaultController.ts:576-597 | the selected vault rows (of more than 120 the 120 smallest ids) all move to the inventory, or none does |
| GridStore.Store.FirstIds | server/controllers/vaultController.ts:178-196 | of the requested ids the smallest 120 are taken |
| GridStore.Store.RetrieveToGrid | server/controllers/vaultController.ts:628-726 | retrieval to a slot displaces the machines that start in the target slots, and only those |
| GridStore.Store.ClearTarget | server/controllers/inventoryController.ts:97-144 | looking at start indexes and, on an odd slot, at the slot before clears every machine in the way and no other |
| GridStore.Store.CheckSlotAvailability | server/models/machineModel.ts:50-75 | true exactly when the start is legal and the interval is disjoint from every machine |
| GridLaws.MoveLands | server/controllers/machinesController.ts:185-242 | a granted move puts the machine on its target with its payload; any other machine stays exactly when its slots are clear of it |
| GridLaws.InstallLands | server/controllers/inventoryController.ts:97-171 | a granted installation makes one new machine, on the target, with the item's payload; any other machine stays exactly when its slots are clear |
| GridLaws.FetchLands | server/controllers/vaultController.ts:667-726 | a granted retrieval makes one new machine, on the target, with the vault row's payload; any other stays exactly when it does not start there |
| GridLaws.RemovalLands | server/controllers/machinesController.ts:101-129 | a machine taken off becomes one inventory or vault row with its payload, and no other machine is touched |
| GridLaws.DiscardTakesOne | server/controllers/inventoryController.ts:223-253 | a discarded item is all that goes |
| GridLaws.TransfersLand | server/controllers/vaultController.ts:247-339 | the chosen rows, of more than 120 the 120 smallest ids, leave their table and reach the other |
| GridLaws.PlacementGrantedIff | server/controllers/machinesController.ts:159-183 | any existing machine or item may go to any slot from 0 to 79, an even one for two slots; nothing else is granted, and refusal changes nothing |
| GridLaws.RemovalGrantedIff | server/controllers/inventoryController.ts:223-253 | any existing machine or item may be taken away |
| GridLaws.TransferGrantedIff | server/controllers/vaultController.ts:396-422 | 1 to 120 existing rows may be stored; of rows to retrieve the 120 smallest ids must exist |
| GridProofs.SurvivorsByStart | server/controllers/inventoryController.ts:97-129 | in an aligned grid the start-index queries find exactly the overlapping machines |
| GridProofs.NextKeepsAligned | server/controllers/inventoryController.ts:91-95 | every request, vault retrieval included, keeps machines in the grid, two-slot machines on even slots, starts distinct |
| GridProofs.OverlapsComeFromFetch | server/controllers/vaultController.ts:673-698 | no request but a retrieval onto a covered odd slot makes two machines overlap that did not |
| GridProofs.FetchKeepsApartIff | server/controllers/vaultController.ts:667-714 | a retrieval keeps machines disjoint exactly when no two-slot machine starts just before its odd target |
| GridProofs.RunKeepsAligned | server/controllers/machinesController.ts:159-242 | alignment and distinct starts hold in every state of every run |
| GridProofs.RunKeepsApartIff | server/controllers/machinesController.ts:174-242 | machines are disjoint in all states of a run exactly when no retrieval of the run hit a covered slot |
| GridProofs.FetchOverlapWitness | server/controllers/vaultController.ts:673-714 | a concrete retrieval that makes two machines overlap |
| GridProofs.RunKeepsMachines | server/controllers/vaultController.ts:247-339 | over any run the machines owned, with level, hash rate, size and miner, are the initial ones less the discarded, given the foreign keys of the three tables |
| GridProofs.NextKeepsForeignKeys | server/prisma/schema.prisma:447-511 | every request keeps the miner ids of the three tables within the catalogue |
| GridProofs.VaultKeepsMachinesIff | server/controllers/vaultController.ts:220-229 | each of the four vault requests keeps all machines as they are exactly when the catalogue knows the miner of every machine it moves, as the foreign keys guarantee |
| RoomModel.Normalize | server/controllers/roomsController.ts:47-50 | the ids of a batch are its positive ids, each once |
| RoomStore.Store.BuyRoom | server/controllers/roomsController.ts:230-291 | a paid room gets the next number and one empty rack per position |
| RoomStore.Store.CheckInstall | server/controllers/roomsController.ts:324-381 | the checks of an installation, in their order, with the rack a two-slot machine will block |
| RoomStore.Store.InstallMiner | server/controllers/roomsController.ts:318-434 | installation seats the machine, blocks the next rack for two slots, takes the item, and keeps the rooms consistent |
| RoomStore.Store.MoveRackMinerBack | server/controllers/roomsController.ts:55-99 | emptying a rack clears its link and the blocking links of its room and returns the machine to the inventory |
| RoomStore.Store.UninstallMiner | server/controllers/roomsController.ts:471-510 | uninstallation is granted exactly on an occupied rack and changes nothing otherwise |
| RoomStore.Store.UninstallMinerBatch | server/controllers/roomsController.ts:543-592 | a batch empties all its racks when each holds a machine and none otherwise |
| RoomStore.Store.CountOccupiedRacks | server/controllers/roomsController.ts:203-209 | the rack count of listRooms is the sum of the slot sizes of the installed machines |
| RoomStore.Store.CountInstalledRacks | server/controllers/roomsController.ts:640-652 | the count of getSlotsSummary is one per machine, and misses listRooms by the number of two-slot machines |
| RoomLaws.InstallGrantedIff | server/controllers/roomsController.ts:324-381 | an installation is granted exactly when rack and item exist, the rack is free, and for two slots the rack right of it in its row of four is free too |
| RoomLaws.InstallLands | server/controllers/roomsController.ts:392-434 | the item becomes one machine on that rack under its slot index, and blocks exactly the rack right of it, for two slots |
| RoomLaws.UninstallGrantedIff | server/controllers/roomsController.ts:471-510 | uninstallation is granted exactly on a rack with a machine |
| RoomLaws.UninstallLands | server/controllers/roomsController.ts:55-99 | the machine becomes one inventory row, and exactly the links to it go |
| RoomLaws.BuyingBuilds | server/controllers/roomsController.ts:230-291 | a room is sold below the maximum when paid, with the next number and an empty rack at every position |
| RoomProofs.SlotIndexInjective | server/controllers/roomsController.ts:42-45 | a rack slot index determines room and position |
| RoomProofs.SlotIndexesDistinct | server/prisma/schema.prisma:447-468 | installed machines never share a slot index, nor one with the grid, so the unique index refuses no installation |
| RoomProofs.ReleasesInRoom | server/controllers/roomsController.ts:64-72 | clearing links within the room clears every link to the machine |
| RoomProofs.RunKeepsConsistent | server/controllers/roomsController.ts:335-434 | seats, slot indexes and blocking links stay consistent over every run |
| RoomProofs.BlockedIff | server/controllers/roomsController.ts:356-414 | a rack is blocked by m exactly when the rack before it in its row holds m and m takes two slots; never both blocked and occupied; m on one rack |
| RoomExchange.RunKeepsOwned | server/controllers/roomsController.ts:392-434 | over any run no machine appears, disappears or changes |
| RoomExchange.InstallThenUninstall | server/controllers/roomsController.ts:55-99 | uninstalling what was installed restores racks and machines, and the inventory up to one row id |
| RoomExchange.BatchGrantedIff | server/controllers/roomsController.ts:562-592 | a batch is granted exactly when it names racks and each holds a machine, and is otherwise without effect |
| RoomExchange.EachGranted | server/controllers/roomsController.ts:574-591 | a granted batch is a list of single uninstallations each of which would be granted in its turn |
| RoomExchange.EachClosed | server/controllers/roomsController.ts:585-591 | after a batch exactly the machines of its racks are gone, and every link to them |
| RoomExchange.BatchOrderIrrelevant | server/controllers/roomsController.ts:562-592 | the order of a batch affects neither racks nor machines, nor the inventory beyond row ids |
| RoomExchange.OccupancyCounts | server/controllers/roomsController.ts:203-209 | occupied racks number the slots of the installed machines, and the installed racks plus the two-slot machines |
| RateLimiter.Limiter.Cleanup | server/middleware/rateLimit.ts:41-55 | stale keys go; on overflow exactly maxKeys stay and none was last seen before a dropped one |
| RateLimiter.Limiter.KeysByLastSeen | server/middleware/rateLimit.ts:48-49 | the keys, each once, ordered by when they were last seen |
| RateLimiter.Limiter.Handle | server/middleware/rateLimit.ts:57-87 | a request is answered and recorded after a clean-up that is due, and a skipped one leaves no trace |
| RateLimitLaws.CleansWhenDue | server/middleware/rateLimit.ts:57-66 | a clean-up comes before a request exactly when the interval has passed since the last |
| RateLimitLaws.CleanupKeeps | server/middleware/rateLimit.ts:40-55 | keys seen within staleAfterMs stay, or, when more than maxKeys, exactly maxKeys of them, none last seen before one that goes |
| RateLimitProofs.CacheAgrees | server/middleware/rateLimit.ts:40-55 | in every run with a monotone clock whose clean-ups forget closed windows only, overflowing or not, every answer is that of the limiter that never deletes an entry |
| RateLimitProofs.WithoutOverflow | server/middleware/rateLimit.ts:41-46 | with staleAfterMs >= windowMs, clean-ups that do not overflow forget closed windows only |
| RateLimitProofs.SameAnswersAsForever | server/middleware/rateLimit.ts:41-46 | so in every run without overflow each request gets the answer of the limiter that never deletes an entry |
| RateLimitProofs.OverflowWitness | server/middleware/rateLimit.ts:47-54 | two keys and room for one: a request is let through that the limiter that never deletes an entry refuses |
| RateLimitProofs.ForgettingInvisibleIff | server/middleware/rateLimit.ts:47-54 | dropping entries is invisible to all later requests exactly when their windows have closed, or nobody is admitted at all |
| RateLimitWindow.EntryExplains | server/middleware/rateLimit.ts:68-75 | an open window has admitted at most max, and the window before it at most max - 1 of the requests less than a window older |
| RateLimitWindow.IntervalBound | server/middleware/rateLimit.ts:68-86 | no closed interval of one window length admits more than 2 * max - 1 requests of a key |
| RateLimitWindow.EntryCounts | server/middleware/rateLimit.ts:65-75 | an entry says when the window of its key began and how many requests came since |
| RateLimitWindow.AllowedIff | server/middleware/rateLimit.ts:65-86 | a request is let through exactly when it is among the first max of its key since its window began |
| RateLimitWindow.RunBound | server/middleware/rateLimit.ts:57-87 | the limiter with clean-up keeps that bound, and at most max in the open window |
| RateLimitWindow.BoundReached | server/middleware/rateLimit.ts:68-86 | some run admits 2 * max - 1 within one window length |
| Wallet.Ledger.CreateDepositRequest | server/models/walletModel.ts:72-156 | a verified new hash, as typed, credits once; a known one is refused |
| Wallet.Ledger.SubmitDeposit | server/modules/wallet/wallet.controller.ts:308-427 | a new well-formed hash, trimmed and in lower case, is registered to wait, without credit |
| Wallet.Ledger.VerifyOnePendingDeposit | server/services/depositVerifier.ts:22-241 | a waiting row is failed, kept, or completed with the amount of the chain |
| Wallet.Ledger.PostBtcpayInvoice | server/controllers/btcpayDepositController.ts:156-196 | one waiting row per invoice |
| Wallet.Ledger.CreditIfSettled | server/controllers/btcpayWebhookController.ts:27-121 | a settled invoice with matching metadata completes and credits its waiting row; replays do nothing |
| Wallet.Ledger.CreateTicket | server/controllers/depositTicketController.ts:104-146 | at most three unresolved tickets a player, one ticket per player and trimmed hash |
| Wallet.Ledger.AdminGetTicket | server/controllers/depositTicketController.ts:198-220 | looking at an unresolved ticket marks it and touches nothing else |
| Wallet.Ledger.AdminApproveTicket | server/controllers/depositTicketController.ts:234-374 | approval of a ticket not yet approved or credited creates, revives or only closes, as the deposit row of the hash demands |
| Wallet.Ledger.AdminRejectTicket | server/controllers/depositTicketController.ts:417-437 | rejection resolves an unresolved ticket without money |
| Wallet.Ledger.CreateWithdrawal | server/models/walletModel.ts:185-213 | a request reserves its amount, unless one is pending or the balance is short |
| Wallet.Ledger.UpdateTransactionStatus | server/models/walletModel.ts:233-275 | any row takes any status; a reserved withdrawal that newly fails is refunded unless completed |
| Wallet.Ledger.AdminApproveWithdrawal | server/controllers/adminController.ts:357-373 | only pending withdrawals are approved |
| Wallet.Ledger.AdminRejectWithdrawal | server/controllers/adminController.ts:380-393 | only pending and approved withdrawals are failed and refunded |
| Wallet.Ledger.AdminCompleteWithdrawal | server/controllers/adminController.ts:400-424 | only pending and approved withdrawals are completed, with a well-formed hash |
| Wallet.Ledger.SendApproved | server/cron/withdrawalsCron.ts:54-80 | the sender completes approved withdrawals only |
| Wallet.Ledger.PayRoom | server/controllers/roomsController.ts:230-276 | the next room costs its listed price, which the balance must cover |
| Wallet.Ledger.PurchaseMiner | server/controllers/shopController.ts:176-236 | stock, personal limit and balance are checked, then balance, log and stock move together |
| Wallet.Ledger.WriteDailyCheckin | server/controllers/checkinController.ts:140-167 | a day's row is written unless another row has its hash |
| Wallet.Ledger.ConfirmDailyCheckin | server/controllers/checkinController.ts:535-642 | a wallet payment records what the chain says unless the day is confirmed |
| Wallet.Ledger.CheckinBalance | server/controllers/checkinController.ts:735-803 | the debit and the confirmed row come together or not at all |
| Wallet.Ledger.TryFinalizeCheckin | server/controllers/checkinController.ts:208-264 | only pending wallet rows are settled, by the chain's word |
| Wallet.Ledger.SweepPending | server/controllers/checkinController.ts:326-339 | the sweep finalizes its batch row by row |
| LedgerLaws.RequestReserves | server/models/walletModel.ts:185-213 | a request reserves exactly its amount when nothing is pending and the balance covers it, and else does nothing |
| LedgerLaws.ApprovalMarks | server/controllers/adminController.ts:357-373 | only the status of a pending withdrawal changes |
| LedgerLaws.RejectionRefunds | server/controllers/adminController.ts:380-393 | a pending or approved withdrawal fails and its whole amount returns; any other is refused |
| LedgerLaws.CompletionSettles | server/controllers/adminController.ts:400-424 | a pending or approved withdrawal completes under a well-formed hash, without money moving |
| LedgerLaws.SendingSettles | server/cron/withdrawalsCron.ts:54-80 | an approved withdrawal completes under the sent hash |
| LedgerLaws.RequestApproveReject | server/models/walletModel.ts:185-275 | requested, approved and rejected: the balances are as before |
| LedgerLaws.DepositCredits | server/models/walletModel.ts:72-156 | a verified amount is credited exactly when no deposit has the hash |
| LedgerLaws.SubmissionWaits | server/modules/wallet/wallet.controller.ts:308-427 | a well-formed hash no deposit has gets a waiting row, and no credit |
| LedgerLaws.VerdictSettles | server/services/depositVerifier.ts:22-241 | a waiting deposit waits on, fails, or completes with what the chain says was paid |
| LedgerLaws.InvoiceWaits | server/controllers/btcpayDepositController.ts:156-196 | an invoice gets one waiting row |
| LedgerLaws.SettlementCredits | server/controllers/btcpayWebhookController.ts:20-121 | the row of an invoice is credited exactly when it waits, and settled metadata name its player and its amount within 1e-6 POL and a billionth |
| LedgerLaws.UnknownInvoiceIgnored | server/controllers/btcpayWebhookController.ts:56-63 | an invoice without a row is ignored |
| LedgerLaws.OpeningBounded | server/controllers/depositTicketController.ts:104-146 | a ticket is opened below three open ones and with no other about its text |
| LedgerLaws.RunKeepsOrderly | server/controllers/depositTicketController.ts:112-130 | in every reachable state a player has at most three open tickets and one per text |
| LedgerLaws.LookingMarks | server/controllers/depositTicketController.ts:198-220 | exactly an open ticket is marked, and nothing else changes |
| LedgerLaws.RejectionCloses | server/controllers/depositTicketController.ts:417-437 | exactly an open ticket can be rejected |
| LedgerLaws.ApprovalCreates | server/controllers/depositTicketController.ts:342-374 | a ticket without a deposit row becomes a completed deposit of the approved amount |
| LedgerLaws.RoomCharges | server/controllers/roomsController.ts:230-276 | the next room costs the next price of the list, which the balance must cover |
| LedgerLaws.RunChargesRooms | server/controllers/roomsController.ts:236-276 | over a run a player with n rooms has paid the first n prices |
| LedgerLaws.PurchaseCharges | server/controllers/shopController.ts:176-236 | a purchase is made exactly under the conditions listed, and costs price times quantity |
| LedgerLaws.RunChargesPerPiece | server/controllers/shopController.ts:192-235 | over a run a player has paid a miner's price for every piece bought |
| LedgerLaws.CheckInAtDesk | server/controllers/checkinController.ts:783-800 | a check-in touches check-in rows and balances only |
| CheckinLaws.WalletPaymentRecords | server/controllers/checkinController.ts:535-642 | a wallet payment is recorded as the chain sees it, exactly when day, hash and wallet allow it |
| CheckinLaws.FinalizingSettles | server/controllers/checkinController.ts:208-264 | a pending wallet row is confirmed when paid, failed when not valid, and else waits |
| CheckinLaws.BalancePaymentConfirms | server/controllers/checkinController.ts:755-803 | a balance payment takes its cost and confirms the day |
| TxHashes.TrimTakesBlanks | server/controllers/depositTicketController.ts:124-134 | trimming takes all blanks off both ends and nothing else |
| TxHashes.LowerAlphabet | server/modules/wallet/wallet.controller.ts:319 | lower case changes capital letters and nothing else |
| TxHashes.IsHashIff | server/modules/wallet/wallet.controller.ts:320-325 | a hash is 0x and 64 hexadecimal digits |
| LedgerProofs.ApplyPosts | server/models/walletModel.ts:233-275 | whatever a request that spends nothing does to the transaction table is nothing or one legal posting: a new row, or an unsettled one, with the balance moved by its effect |
| LedgerProofs.PostKeepsBooks | server/prisma/migrations/20260417130000_transactions_deposit_txhash_unique/migration.sql:1-4 | legal postings keep one deposit row per hash and one pending withdrawal per player |
| LedgerProofs.RunConserves | server/models/walletModel.ts:142-156 | over any run every balance is non-negative and equals the initial one plus completed deposits less unfailed withdrawals, rooms, purchases and balance check-ins |
| LedgerProofs.SettledIsFinal | server/controllers/adminController.ts:386-424 | completed rows and failed withdrawals never change again |
| LedgerRuns.CreditCompletesRow | server/controllers/depositTicketController.ts:320-359 | every credit completes one uncredited row of its player and hash and raises the balance by the row's amount |
| LedgerRuns.HashCreditedOnce | server/controllers/btcpayWebhookController.ts:65-121 | in any order of requests a stored text is credited at most once, and never if it was before |
| LedgerRuns.HashHasOneRow | server/models/walletModel.ts:78-85 | a stored text has at most one deposit row in every reachable state |
| LedgerPayments.KeepsOneRowIff | server/modules/wallet/wallet.controller.ts:319-392 | a request keeps one row per payment exactly when it does not register the hash of a row spelt otherwise |
| LedgerPayments.InvoiceNeverRespells | server/services/btcpayService.ts:97-99 | invoices never do that |
| LedgerPayments.RunOneRowIff | server/models/walletModel.ts:78-85 | over a run every payment has one row at most, exactly when no request of the run does that |
| LedgerPayments.PaymentCreditedOnce | server/controllers/depositTicketController.ts:249-258 | in such a run, in any order of requests, a payment is credited at most once |
| LedgerPayments.TwoSpellingsWitness | server/models/walletModel.ts:79-156 | a run in which one payment, its hash typed in two ways, is credited twice |
| LedgerPayments.TicketSpellingWitness | server/controllers/depositTicketController.ts:250-258 | a deposit submitted, verified and credited is credited again through a ticket with the submitted text |
| LedgerRuns.CreditGrounds | server/controllers/btcpayWebhookController.ts:74-92 | a credit rests on the chain, the verifier, matching settled metadata, or an administrator on a ticket neither approved nor credited |
| LedgerRuns.TicketOutcome | server/controllers/depositTicketController.ts:252-303 | approval revives a failed row, closes on a completed one, and is refused for another player's or a waiting one |
| LedgerRuns.ApprovalCreditsIff | server/controllers/depositTicketController.ts:245-298 | approval credits exactly when the ticket is neither approved nor credited and each row of its hash is the player's and failed |
| LedgerLaws.RejectedTicketWitness | server/controllers/depositTicketController.ts:245-247 | a rejected ticket is approved, and credits |
| LedgerRuns.TicketCreditsOnce | server/controllers/depositTicketController.ts:243-247 | a credited ticket stays so and never credits again |
| LedgerRuns.RefundedOnce | server/models/walletModel.ts:266-273 | a withdrawal is refunded at most once, has failed then, and never after it was settled |
| LedgerRuns.OnePendingWithdrawal | server/models/walletModel.ts:187-190 | a player has at most one pending withdrawal in every reachable state |
| LedgerRuns.UpdateStatusConservesIff | server/models/walletModel.ts:233-275 | the unguarded update keeps the books exactly for the transitions named |
| LedgerRuns.ReopenedWithdrawalWitness | server/models/walletModel.ts:240-273 | a failed withdrawal made pending breaks the books |
| LedgerRuns.FailedDepositWitness | server/models/walletModel.ts:240-259 | a completed deposit made failed breaks the books |
| LedgerRuns.NeverOversold | server/controllers/shopController.ts:196-236 | no run sells more of a miner than its stock |
| LedgerRuns.NeverBeyondLimit | server/controllers/shopController.ts:199-202 | no player buys more of a miner than the personal limit, while the machines counted include those bought |
| CheckinModel.ConfirmedIsFinal | server/controllers/checkinController.ts:610-613 | a confirmed day never changes, whatever follows |
| CheckinModel.DebitedAtMostOnce | server/controllers/checkinController.ts:770-800 | a player is debited at most once a day, and the day is then confirmed |
| CheckinModel.DebitedIff | server/controllers/checkinController.ts:763-795 | the debit happens exactly when nothing is confirmed or pending for the day, the player may and can pay, and no other row has the day's digest |
| CheckinModel.DigestTakenIff | server/controllers/checkinController.ts:64-69 | where digests differ, exactly a wallet payment registered under the digest stands in its way |
| CheckinModel.DigestTakenWitness | server/services/checkinChain.ts:145-157 | a payment the chain does not know yet is registered under another day's digest, and that day's balance payment is refused |
| CheckinModel.NoFreeCheckin | server/controllers/checkinController.ts:93-99 | a confirmed day was paid: the chain saw the payment on its row, or the balance was debited once |
| CheckinModel.KeepsOneDayIff | server/prisma/schema.prisma:848 | a request keeps one day per payment exactly when it does not write the hash of another row spelt otherwise |
| CheckinModel.RunOneDayIff | server/services/checkinChain.ts:23-30 | over a run no payment confirms or claims two days, exactly when no request does that |
| CheckinModel.OneDayWitness | server/services/checkinChain.ts:23-30 | one payment in two spellings confirms two days |
| CheckinModel.ApplyConserves | server/controllers/checkinController.ts:783-800 | balance plus the cost of balance check-ins is constant |
| CronRunner.Runner.BeginAction | server/cron/cronActionRunner.ts:135-150 | a call takes its lock, or is skipped when the lock is held and concurrency is not allowed |
| CronRunner.Runner.ResumeAction | server/cron/cronActionRunner.ts:164-275 | each stage leads to the next or ends the call with its lock released |
| CronModel.StagesInOrder | server/cron/cronActionRunner.ts:160-275 | five stages, one resumption each; a call ends with the stage that threw, or whose validate or confirm gave `false` or an object saying so, and else succeeds |
| CronModel.StartSkippedIff | server/cron/cronActionRunner.ts:135-150 | a call is skipped exactly when it is not concurrent and the lock of its action is held |
| CronModel.RunKeepsExclusive | server/cron/cronActionRunner.ts:140-150 | for every interleaving without concurrent calls no two calls of one action overlap, and the locks are the actions at work |
| CronModel.RunExclusiveIff | server/cron/cronActionRunner.ts:140-150 | for every interleaving no two calls of one action overlap exactly when no concurrent call starts while its action is in progress |
| CronModel.LostLockWitness | server/cron/cronActionRunner.ts:273-275 | a concurrent call ends, the lock is gone, and a call that is not concurrent runs beside the first |
| CronModel.ExitReleases | server/cron/cronActionRunner.ts:273-275 | every exit at any stage releases its own lock and no other |
| CronModel.ExitKeepsLockedIff | server/cron/cronActionRunner.ts:273-275 | an exit leaves the others locked exactly when no other call runs the same action |
| CronModel.ConcurrentStartExclusiveIff | server/cron/cronActionRunner.ts:140-150 | a concurrent start keeps calls exclusive exactly when its action is idle |
| CronModel.ExecutesOnlyValidated | server/cron/cronActionRunner.ts:179-220 | nothing is sanitized or executed unless the same call was resumed from validate by neither an exception nor `false` nor an object saying so |
| CronModel.EndsWithinFive | server/cron/cronActionRunner.ts:160-272 | five resumptions end a call |
| ActivityAccount.Account.ProcessHeartbeat | server/controllers/sessionController.ts:25-81 | an accepted heartbeat credits ten seconds of its kind; others change nothing |
| ActivityAccount.Account.ClaimReward | server/controllers/youtubeController.ts:79-127 | a video claim costs 60 seconds, within the 24-hour reward limit |
| ActivityAccount.Account.ClaimGpuReward | server/models/autoMiningGpuModel.ts:65-108 | a GPU claim costs 300 seconds, 24 in 24 hours |
| ActivityAccount.Account.ReleaseNewGpu | server/models/autoMiningGpuModel.ts:39-58 | a reward that is active releases one unclaimed GPU, any other none |
| ActivityAccount.Account.RemoveExpiredGpus | server/models/autoMiningGpuModel.ts:186-199 | exactly the claimed GPUs past their day are deleted, and counted |
| ActivityLaws.HeartbeatCreditsIff | server/controllers/sessionController.ts:25-81 | a heartbeat is accepted exactly when kind, bot flag, fingerprint, its time and the 8 s allow it, and credits 10 s |
| ActivityLaws.VideoClaimedIff | server/controllers/youtubeController.ts:79-127 | granted exactly with 60 s and fewer than 480 claims in 24 hours |
| ActivityLaws.GpuClaimedIff | server/models/autoMiningGpuModel.ts:65-108 | granted exactly on an unclaimed GPU with 300 s and fewer than 24 claims in 24 hours |
| ActivityLaws.ReleaseAddsOne | server/models/autoMiningGpuModel.ts:39-58 | a released GPU is new and unclaimed |
| ActivityLaws.ExpiredGo | server/models/autoMiningGpuModel.ts:186-199 | exactly the claimed GPUs past their day go |
| ActivityModel.SecondsConserved | server/controllers/sessionController.ts:71-79 | seconds left plus seconds spent are seconds earned, per kind, and never negative |
| ActivityModel.BeatsBound | server/controllers/sessionController.ts:63-69 | T milliseconds have at most floor(T / 8000) + 1 accepted heartbeats, even if the clock goes back |
| ActivityModel.CleanedTableDecidesAlike | server/models/autoMiningGpuModel.ts:72-78 | the limit counts on the cleaned table what it would count on the full history |
| ActivityModel.GpuLimit | server/models/autoMiningGpuModel.ts:72-78 | no 24 hours of any run hold more than 24 claims, deleted ones included |
| ActivityModel.VideoLimit | server/controllers/youtubeController.ts:94-104 | no 24 hours of any run grant more than 1440 of reward |
| BlkAccount.Account.ConvertPolToBlk | server/models/blkWalletModel.ts:68-115 | a conversion that breaks no rule and is covered moves both balances and is recorded; any other changes nothing |
| BlkAccount.Account.AssertConvertRules | server/models/blkWalletModel.ts:28-63 | the first broken rule, in order |
| BlkLaws.ConvertedIff | server/models/blkWalletModel.ts:28-115 | a conversion is made exactly when amount, minimum, ban, rounding, every earlier conversion, the day's total and the balance allow it, and else nothing happens |
| BlkModel.EstimateSplits | server/models/blkWalletModel.ts:7-26 | fee plus net is gross, both non-negative, each rounding within half a unit |
| BlkModel.EstimateMonotone | server/models/blkWalletModel.ts:17-26 | more POL never gives less net or less BLK |
| BlkModel.RunKeepsRules | server/models/blkWalletModel.ts:28-111 | over any run every UTC day stays within the cap, conversions keep the cool-down, balances match the history |
| RewardShares.ShareNonNegative | server/controllers/miningController.ts:48-51 | no share is negative, and none goes without a hash rate |
| RewardShares.SharesFillReward | server/controllers/miningController.ts:6-10 | floored shares sum to at most the reward and miss it by less than one unit each |

## Left out

- Names, images, expiry dates and timestamps of machines and rows: no property here depends on them.
- Owned-machine rows and their warehouse check: a second record of where a machine is.
- Ownership: each placement and activity store is one player's rows, so another player's row reads as missing.
- Moving a room-installed machine on the grid: the two placement schemes are modelled apart.
- Slot sizes other than one and two, which catalogue and shop do not admit.
- Races between a check and its transaction: each request is one atomic step.
- RoomStore.Store.BuyRoom: takes the answer to the payment as a parameter, because the ledger models the payment.
- Wallet.Ledger.PurchaseMiner: takes the number of machines owned as a parameter and creates no inventory rows.
- GridLaws.TransfersLand: says nothing about the ids under which transferred rows are filed, but that they are new.
- Wallet.Ledger.UpdateTransactionStatus: does not model the branch for BLK withdrawals, rows that no code creates.
- Which spellings of a hash the chain takes is its answer, a parameter; texts that are no hash in any case of letters
  stand for themselves.
- Wallet.Ledger.SweepPending: takes the batch as given, because its selection by age and size decides nothing proved.
- Minimum deposit amounts are folded into "positive amount", and the verifier's chain checks into its verdict.
- A failed on-chain send that marks a withdrawal failed by itself (server/src/wallet/autoWithdraw.ts:85-89): not reached
  from the handlers modelled.
- Several rows for one day under older spellings of its date, and periodic check-ins.
- Collisions of check-in digests: `DigestTakenIff` takes the digests of the days in the table to differ.
- Administrative deletion of GPUs, milestone rewards, mini-pass and daily-task hooks.
- Response headers of the limiter, and its default key.
- IEEE rounding noise: amounts are exact integers, reward shares exact reals.
- Swap, faucet, shortlinks, offer walls, authentication, uploads, notifications, sockets and logging: no state worth proving.
