# Auction subsystem: model and proofs

The auction subsystem spans two processes. The auction server owns the listings database: write
workers, chosen by key, run registrations and purchase transactions on it, and read workers
answer list requests. The game server keeps an indexed snapshot of the first hundred unexpired
listings, refreshes it on timers, hands it to clients, and refuses purchases from it without
asking. Both talk through a byte protocol and a single-writer send queue per socket.

| file | what it models |
|---|---|
| `Machine.dfy` | 32-bit and 64-bit integers and the casts between them |
| `WireFormat.dfy`, `Utf8.dfy`, `ItemMessage.dfy`, `ListMessage.dfy` | varints and records, UTF-8, `AuctionItemInfo`, the two `RES_AUCTION_LIST` messages |
| `PacketFraming.dfy` | the packet header, and the stream of packets the send queue puts on a socket |
| `AuctionTables.dfy`, `AuctionService.dfy` | the tables, each SQL statement's effect, registration, list queries, the purchase transaction with its retries |
| `AuctionRuns.dfy`, `AuctionLedgers.dfy` | the database and its write connections over whole runs: what only shrinks; gold, stock, autocommit, and what becomes of a registration |
| `AuctionTrade.dfy` | a listing from its registration through its display to its sale |
| `AuctionSnapshot.dfy`, `AuctionCache.dfy` | the snapshot and its verdicts, why refusals stay right, and the cache object |
| `RefreshScheduler.dfy`, `RefreshTiming.dfy` | the refresh callbacks as a timed state machine, and its runs |
| `Routing.dfy`, `WriteWorkers.dfy` | dealing tasks by key, FIFO order, and stopping |
| `Interleaving.dfy`, `JobRefinement.dfy` | every interleaving of the workers' statements, and a purchase that nobody interrupts |
| `WorkerPool.dfy` | starting and stopping the workers, and the connections they borrow |
| `SendQueue.dfy`, `ReplyRouting.dfy` | the per-socket send queue; session ids and where replies go |

Objects that the program updates in place are classes whose methods are proved against functions
on values; the properties are lemmas about those functions and about whole runs of them. The
varint, tag and length primitives follow the Protocol Buffers Encoding guide, sections "Base 128
Varints", "Message Structure", "Length-Delimited Records" and "Last One Wins"; UTF-8 follows
sections 3 and 4 of RFC 3629.

What the model takes from its surroundings: listing ids are handed out in increasing order and
never again (what a connection has inserted and not committed is part of the state); `NOW()`
never goes back; a statement that throws has had no effect; a commit that throws has not
committed; a rollback restores the tables, also when it reports an error. SQL errors, clock
readings, thread and connection failures, the order in which handlers run, replies with any
request id, and write completions are all arbitrary inputs.

Nothing in the repository calls `MarkDirty` (declared at GameServer/Utils/AuctionCache.h:45); the
scheduler's runs include such calls at any time.

## Where the code does less than it seems to promise

Each is a lemma with the exact condition, or with a concrete input beside the proved case.

- List rows go through 32-bit reads, purchases compare 64-bit columns, and a registration may be
  committed long after its id was handed out. A refusal of a listing is right, now and after any
  run, if its row on the page has a stock of at most INT_MAX and, where the stock read is
  positive, a seller that fits 32 bits, and if it is not left open by a connection, still
  sellable, before something on the page (`AuctionSnapshot.RefusalIsSound`). As long as ids fit
  32 bits that is exact, listing by listing (`RefusalsRightExactlyWhen`).
  `WideSellerIsRefusedWrongly` is one input.
- A stock whose low 32 bits equal the count bought is deleted with items left
  (`AuctionLedgers.StockKeptExactlyWhen`, `WideStockVanishes`). Over all runs a listing's stock
  is accounted for exactly if it is at most 2^32 and, when negative, does not read as positive;
  what else is registered and bought does not matter (`StockAlwaysKeptExactlyWhen`, and for
  interleaved statements `JobRefinement.StockKeptWhenIdleExactly`).
- The gold update is by account: an account with several rows that can pay pays several times.
  `AuctionLedgers.GoldAccountedFor` says how much vanishes over a run, `TwoRowsPayTwice` is one input.
- When restoring autocommit fails, which is only logged, the next registration on that connection
  stays open, and is lost unless the next purchase there succeeds at once
  (`AuctionLedgers.RegisteredEqualsRemainingPlusSold`, `RegistrationIsLost`).
- Two refresh requests timing out in a row can leave a stale snapshot (`RefreshTiming.TwoTimeoutsGoStale`).
- The send queue's overflow branch always breaks the single-writer state, and can lead to taking
  the front of an empty queue (`SendQueue.SafeExactlyBeforeOverflow`, `OverflowLeadsToEmptyPop`,
  `NewSessionCanOverflow`).
- Two reply handlers pass the session id through an `int`. From session 2^31 on their replies
  reach nobody (`ReplyRouting.TargetUpTo`), and from the session after 2^32 on they can reach
  another: routing is right in all runs exactly up to 2^32 sessions (`RoutingRightExactlyUpTo`).
- A packet's length goes through a `short`; a seller's own list has no limit and can outgrow it
  (`PacketFraming.FrameReadsExactlyWhen`, `OwnListBreaksFraming`, `ManyListingsBreakFraming`).
- A worker whose thread cannot be started takes its connection along (`WorkerPool.ServerLifetime`).
- The serializer writes a string that is not UTF-8, the parser refuses it (`ItemMessage.ItemRoundTrip`).

## Model

| member | source | states |
|---|---|---|
| AuctionSnapshot.RefusalIsSound | GameServer/Utils/AuctionCache.cpp:199-230 | whatever a snapshot of the public list refuses, however old, the auction server's purchase fails too, on any connection, after any later registrations, purchases and faults, for any ids and whatever the other listings hold: only the row asked for must read right, and not be open, sellable and before something on the page |
| AuctionSnapshot.RefusalsRightExactlyWhen | GameServer/Utils/AuctionCache.cpp:199-230 | for each listing, as long as ids fit 32 bits: no refusal of it is wrong, for any buyer, count, connection and character rows, if and only if that condition on it holds |
| AuctionSnapshot.RefusalIsSoundOverTheWire | GameServer/Utils/AuctionCache.cpp:72-107 | the same for a snapshot built from the bytes of the auction server's reply, which parse back to what was sent; with texts of at most 200 bytes the client packet is available |
| AuctionSnapshot.RefusalMeansHopeless | GameServer/Utils/AuctionCache.cpp:205-227 | a refusal of a listing under that condition means no row of it, committed or left open, can be sold with these arguments: gone, expired, too few, or own |
| AuctionSnapshot.StaysHopeless | AuctionServer/AuctionService.cpp:177-219 | a purchase that could not succeed on its listing cannot succeed after any run, on any connection |
| AuctionSnapshot.AbsentIsNotForSale | GameServer/Utils/AuctionCache.cpp:205-215 | an id missing from the page with something shown after it was sold, expired, or never listed, and something on the page does come after it, for any ids |
| AuctionSnapshot.IndexRefinesScan | GameServer/Utils/AuctionCache.cpp:205-229 | the verdict by index and greatest id equals the verdict of scanning the list, for any list, repeated ids included |
| AuctionSnapshot.FirstOnPage | GameServer/Utils/AuctionCache.cpp:205-217 | looking an id up in the received list finds its own row if it is on the page and fits 32 bits; what is found for an id that is not on the page is a wider one, after it |
| AuctionSnapshot.RefusedIsListedOrBehind | GameServer/Utils/AuctionCache.cpp:205-227 | what is refused is on the page under its own id, or was not for sale and comes before something on the page |
| AuctionSnapshot.VerdictOfListed | GameServer/Utils/AuctionCache.cpp:205-227 | for a listing on the page whose columns fit 32 bits: Shortage exactly for a count that is not positive or exceeds the stock, else Own exactly for the seller, else Pass |
| AuctionSnapshot.VerdictOfAbsent | GameServer/Utils/AuctionCache.cpp:205-215 | for an id not on the page: NotFound exactly if it is not positive or something on the page comes after it, else Unknown |
| AuctionSnapshot.BuildSnapshot | GameServer/Utils/AuctionCache.cpp:79-102 | the loops produce an index that sends each id to its first item, the greatest id, and the prepared packet |
| AuctionSnapshot.BuildClientPacket | GameServer/Utils/AuctionCache.cpp:129-151 | the packet holds the first hundred items, unless it would exceed SHRT_MAX bytes |
| AuctionSnapshot.PacketIsBuilt | GameServer/Utils/AuctionCache.cpp:139-143 | with expiry texts of at most 200 bytes the size refusal is never taken |
| AuctionSnapshot.PacketCarriesItems | GameServer/Utils/AuctionCache.cpp:129-151 | the prepared packet parses back to the first hundred items |
| AuctionSnapshot.WideSellerIsRefusedWrongly | GameServer/Utils/AuctionCache.cpp:223-227 | a concrete listing whose seller id exceeds 32 bits: another player is refused as its owner although the purchase would succeed |
| AuctionCache.Cache.ValidatePurchase | GameServer/Utils/AuctionCache.cpp:199-230 | a snapshot less than 180 s old gives the verdict of scanning its items, anything else Unknown; on time and with at most one timed-out request there is such a snapshot, after the two timeouts of TwoTimeoutsGoStale there is none |
| AuctionCache.Cache.TrySendList | GameServer/Utils/AuctionCache.cpp:185-197 | the prepared packet of a snapshot less than 180 s old, or nothing; on time and with at most one timed-out request there is one, after those two timeouts there is none |
| AuctionCache.Cache.Ages | GameServer/Utils/AuctionCache.cpp:40-43 | the snapshot object is at most 130 s old after an on-time run with at most one timed-out request, and exactly 180 s after the run with two |
| AuctionCache.Cache.RequestRefresh | GameServer/Utils/AuctionCache.cpp:48-70 | moves the scheduler as specified, leaves the snapshot alone |
| AuctionCache.Cache.OnRefreshResponse | GameServer/Utils/AuctionCache.cpp:72-76 | installs a snapshot of the reply exactly when it answers the request in flight |
| AuctionCache.Cache.FinishRefresh | GameServer/Utils/AuctionCache.cpp:79-120 | installs the snapshot built from the reply and rearms the timer as specified |
| AuctionCache.Cache.OnTimeout | GameServer/Utils/AuctionCache.cpp:65-69 | a cancelled wait or one of another request changes nothing |
| AuctionCache.Cache.OnRequestTimeout | GameServer/Utils/AuctionCache.cpp:122-127 | gives the request up and arms the timer as specified |
| AuctionCache.Cache.MarkDirty | GameServer/Utils/AuctionCache.cpp:153-160 | moves the scheduler as specified, leaves the snapshot alone |
| AuctionCache.Cache.ArmTimer | GameServer/Utils/AuctionCache.cpp:162-172 | moves the scheduler as specified, leaves the snapshot alone |
| AuctionCache.Cache.OnTimer | GameServer/Utils/AuctionCache.cpp:174-183 | a cancelled wait changes nothing, otherwise the scheduler moves as specified |
| AuctionCache.HandlePurchase | GameServer/Network/Handlers/AuctionPacketHandler.cpp:63-90 | an empty request is not handled; a request is refused on the spot exactly when a snapshot less than 180 s old refuses it; everything else is forwarded unchanged with the session id |
| RefreshTiming.NeverStuckNeverDoubled | GameServer/Utils/AuctionCache.cpp:48-183 | from the connect request on, in every reachable state exactly one holds: a request in flight with its timeout pending, or one live timer wait at its target |
| RefreshTiming.SnapshotStaysFresh | GameServer/Utils/AuctionCache.cpp:40-43 | with callbacks on time a snapshot's age is at most 65 s for each timed-out request since plus one more, so at most 130 s with at most one |
| RefreshTiming.TwoTimeoutsGoStale | GameServer/Utils/AuctionCache.cpp:122-127 | a concrete on-time run with two timeouts in a row reaches a snapshot exactly 180 s old |
| RefreshTiming.RequestSpacing | GameServer/Utils/AuctionCache.h:68-71 | consecutive requests are 3 s to 65 s apart, and the last is never more than 65 s back |
| RefreshTiming.NoMarkIsLost | GameServer/Utils/AuctionCache.cpp:109-160 | in any on-time run a dirty mark is followed by a request sent after it and by its due time: the 3 s gap from the last request, the mark or the reply, or 65 s after a request that times out |
| RefreshTiming.RequestsAnswerMarks | GameServer/Utils/AuctionCache.cpp:109-183 | a request answers all marks before it: from the timer's next request on and until the next mark, requests are at least 60 s apart, in any run |
| RefreshTiming.InstalledInOrder | GameServer/Utils/AuctionCache.cpp:53-76 | installed request ids strictly increase and no timed-out request is ever installed, whatever replies arrive |
| RefreshTiming.TimeoutCanLoseTheRace | GameServer/Utils/AuctionCache.cpp:65-76 | a concrete run in which a timeout is queued when its reply arrives; its handler then changes nothing |
| RefreshTiming.TimerDelivers | GameServer/Utils/AuctionCache.cpp:174-179 | an armed timer does send the next request at its target |
| RefreshTiming.RunIsSafe | GameServer/Utils/AuctionCache.cpp:48-183 | the scheduler invariant holds along every run of fewer than 2^31 requests |
| RefreshTiming.ConnectedIsSafe | GameServer/AuctionSession.cpp:54-60 | the invariant holds right after the connect request |
| RefreshTiming.RunIsTimely | GameServer/Utils/AuctionCache.cpp:162-183 | on-time runs keep the deadlines and age bounds |
| RefreshScheduler.StepIsSafe | GameServer/Utils/AuctionCache.cpp:48-183 | every callback, expiry, reply and mark keeps the invariant and only extends the histories |
| RefreshScheduler.TimerSends | GameServer/Utils/AuctionCache.cpp:174-183 | the timer's handler always finds nothing in flight and sends exactly one request |
| RefreshScheduler.NotReadyRetries | GameServer/Utils/AuctionCache.cpp:48-51 | without a connection nothing is sent, and the timer tries again after 60 s |
| RefreshScheduler.ReplyIsSafe | GameServer/Utils/AuctionCache.cpp:72-120 | a reply installs exactly when its id is the one in flight, and any other changes nothing |
| RefreshScheduler.TimeoutIsSafe | GameServer/Utils/AuctionCache.cpp:65-69 | only the timeout of the request in flight acts; one queued before its cancellation changes nothing but its own wait |
| RefreshScheduler.MarkIsSafe | GameServer/Utils/AuctionCache.cpp:153-160 | a mark in flight only sets the flag; an idle one only brings the timer forward |
| RefreshScheduler.RearmingIsSafe | GameServer/Utils/AuctionCache.cpp:162-172 | arming an armed timer keeps one live wait and replaces only one that has not expired |
| AuctionService.AllOrNothing | AuctionServer/AuctionService.cpp:131-174 | with a fault possible at any statement of any attempt: at most three attempts, only 1205 and 1213 retried, and either nothing changed or exactly one purchase is committed and totalPrice is its cost |
| AuctionService.SucceedsExactlyWhen | AuctionServer/AuctionService.cpp:131-174 | a purchase succeeds if and only if one of three attempts finds it possible and fault-free after attempts that all died of a lock error |
| AuctionService.ImpossibleFailsAtOnce | AuctionServer/AuctionService.cpp:150-160 | a purchase the service refuses by itself is not retried |
| AuctionService.FailureReportsPrice | AuctionServer/AuctionService.cpp:164-199 | a fault-free failed purchase reports price times count once the listing was read, and 0 otherwise |
| AuctionService.AttemptsTrace | AuctionServer/AuctionService.cpp:135-171 | the same facts attempt by attempt for a connection with something still pending, which a failure drops |
| AuctionService.AutoCommitIsRestored | AuctionServer/AuctionService.cpp:166-170 | after every purchase, failed or not, autocommit is on if the last restore worked, and otherwise exactly if it was on at some moment after which no attempt got as far as switching it off |
| AuctionService.CommitsExactlyWhen | AuctionServer/AuctionService.cpp:177-234 | one attempt commits if and only if the purchase is possible and no statement fails |
| AuctionService.RegistrationOutlivesFailedPurchase | AuctionServer/AuctionService.cpp:242-246 | a registration survives a following failed purchase on its connection exactly when autocommit had been restored |
| AuctionService.Connection.TryPurchase | AuctionServer/AuctionService.cpp:177-234 | throws the first failure in statement order; without one the tables are those of one purchase, committed |
| AuctionService.Connection.Purchase | AuctionServer/AuctionService.cpp:131-174 | the retry loop ends in the specified outcome |
| AuctionService.Connection.Rollback | AuctionServer/AuctionService.cpp:236-240 | restores what was last committed |
| AuctionService.Connection.Regist | AuctionServer/AuctionService.cpp:117-126 | inserts the listing with the 24 or 48 hour expiry, or throws and inserts nothing |
| AuctionService.Connection.GetListings | AuctionServer/AuctionService.cpp:76-95 | one entry per selected row in id order, integers through 32-bit reads |
| AuctionTables.PageIsPrefix | AuctionServer/AuctionService.cpp:78-80 | the public list is ascending, unexpired, at most a hundred, complete if it is shorter, and precedes every unexpired id not on it |
| AuctionTables.OwnIdsExact | AuctionServer/AuctionService.cpp:79 | a seller's own list is ascending and holds exactly that seller's unexpired listings |
| AuctionRuns.RunShrinks | AuctionServer/AuctionService.cpp:210-219 | over every run on any connections an id once gone stays gone, and each row found later is one that was there, but for less stock |
| AuctionRuns.PurchaseStep | AuctionServer/AuctionService.cpp:131-174 | a purchase event either leaves what is committed alone or does one purchase that was possible; nothing stays open on its connection |
| AuctionRuns.RunIsProper | AuctionServer/AuctionService.cpp:117-246 | over every run ids stay handed out once, what is open is open on one connection and not committed, and with autocommit on nothing is open |
| AuctionRuns.RegistrationStep | AuctionServer/AuctionService.cpp:117-126 | a registration is committed with autocommit on and stays open on its connection otherwise |
| AuctionLedgers.GoldConserved | AuctionServer/AuctionService.cpp:205-231 | with one row per account, character gold plus seller-receipt gold is constant over every run |
| AuctionLedgers.GoldAccountedFor | AuctionServer/AuctionService.cpp:205-208 | over every run and for any number of rows per account, that sum is the initial one less total times (paying rows - 1) of each successful purchase |
| AuctionLedgers.BalancesStayNonNegative | AuctionServer/AuctionService.cpp:206-208 | no balance goes negative in any run, however many rows an account has |
| AuctionLedgers.GoldKeptExactlyWhen | AuctionServer/AuctionService.cpp:205-208 | one event keeps the sum exactly when the purchase was free or one row paid |
| AuctionLedgers.TwoRowsPayTwice | AuctionServer/AuctionService.cpp:206-208 | a concrete account with two rows is charged twice for one receipt |
| AuctionLedgers.PurchaseMovesGold | AuctionServer/AuctionService.cpp:205-231 | a purchase debits its total once per paying row and puts it on one seller receipt |
| AuctionLedgers.PurchaseNamesTheParties | AuctionServer/AuctionService.cpp:226-231 | the seller earns the price, the buyer acquires the count of that listing, nobody else's sums change |
| AuctionLedgers.TotalIsExact | AuctionServer/AuctionService.cpp:199 | the wrapping product of a possible purchase is the true product for 32-bit price and stock |
| AuctionLedgers.StockKeptExactlyWhen | AuctionServer/AuctionService.cpp:210-218 | a purchase keeps stock plus sales of every listing exactly when the row it deletes held just the count bought |
| AuctionLedgers.WideStockVanishes | AuctionServer/AuctionService.cpp:210-218 | a concrete stock of 2^32 + 5 is gone after five are bought |
| AuctionLedgers.StockConserved | AuctionServer/AuctionService.cpp:117-219 | remaining stock plus sold quantity of a committed listing is constant over every run, if that one stock is never misread, whatever is registered and bought besides and whatever fails |
| AuctionLedgers.StockAlwaysKeptExactlyWhen | AuctionServer/AuctionService.cpp:185-219 | over all runs and all buyers, the stock of a listing is accounted for if and only if it is at most 2^32 and, when negative, does not read as positive |
| AuctionLedgers.RegisteredEqualsRemainingPlusSold | AuctionServer/AuctionService.cpp:117-246 | for a registered count that is never misread, after any run: remaining stock plus sold quantity is the registered count exactly if autocommit was on at the registration or the next purchase on its connection succeeded at once, and 0 otherwise; so nothing is oversold |
| AuctionLedgers.RegistrationIsLost | AuctionServer/AuctionService.cpp:242-246 | a failing restore, a successful registration and a failing purchase leave no listing |
| AuctionLedgers.AutoCommitStays | AuctionServer/AuctionService.cpp:166-170 | as long as no restore fails, a connection in autocommit stays there over every run |
| AuctionLedgers.RegistrationIsCommitted | AuctionServer/AuctionService.cpp:117-126 | then a registration is committed at once, whatever failed before, and its count is what remains plus what is sold ever after |
| AuctionTrade.OnSaleExactlyUntilExpiry | AuctionServer/AuctionService.cpp:117-126 | a listing registered for the text "24" is unexpired for exactly 24 hours, for any other text for exactly 48 |
| AuctionTrade.StaysAsRegistered | AuctionServer/AuctionService.cpp:117-126 | over every run, wherever the listing is found, seller, item, price and expiry are those registered, and its stock has only shrunk |
| AuctionTrade.ShownAsRegistered | AuctionServer/AuctionService.cpp:76-95 | until it expires, the seller's own list shows a committed listing with the id handed out and the item, price and seller registered |
| AuctionTrade.SoldAsRegistered | AuctionServer/AuctionService.cpp:185-231 | a sale of k of it takes the registered price times k from the buyer's only row and earns it to the player who registered; the buyer's receipt and the transaction name the registered item and k |
| AuctionLedgers.ListedMeansInStock | AuctionServer/AuctionService.cpp:212-217 | a listing with positive stock, committed or open, keeps positive stock for as long as it exists |
| WriteWorkers.StopRunsEverything | AuctionServer/AuctionWorkerPool.cpp:43-51 | after any run and a stop, only boundedly many steps remain under any schedule, failures and retries included, and when none is left every task posted before ran exactly once on worker key % n; each seller's registrations and each listing's purchases ran in post order |
| WriteWorkers.CanDrain | AuctionServer/AuctionWorkerPool.cpp:47-51 | from every state some schedule runs every queue dry |
| WriteWorkers.EffectiveIsProgress | AuctionServer/AuctionWorkerPool.cpp:97-121 | every task taken and every statement, failure and retry lowers a bound on the work left |
| WriteWorkers.DrainedRanEverything | AuctionServer/AuctionWorkerPool.cpp:97-145 | a drained system ran every posted task exactly once on worker key % n, tasks with one key in post order |
| WriteWorkers.RunKeepsOrder | AuctionServer/AuctionWorkerPool.cpp:97-121 | at every moment what a worker did, runs and has queued is what was posted to it, in order |
| Interleaving.NoOverlap | AuctionServer/Network/Handlers/AuctionPacketHandler.cpp:73-87 | two purchases of one listing never run at once |
| Interleaving.ReadIsStillStored | AuctionServer/AuctionService.cpp:185-219 | in every reachable interleaving, for any tables whose ids were handed out, the row read is still stored when the gold update, the DELETE or the UPDATE is next, and the latter two take exactly the count unless only the low 32 bits of the stock equal it |
| Interleaving.ConservedWhenIdle | AuctionServer/AuctionService.cpp:131-234 | after any interleaving of statements with faults, rollbacks and retries, whenever the workers are idle: the stock plus sales of each listing that is never misread is conserved, whatever the others hold, and gold for one row per account |
| Interleaving.RegisteredStaysAccountedFor | AuctionServer/AuctionService.cpp:117-234 | a listing registered in the middle of an interleaved run: whenever the workers are idle, what remains plus what has been sold since is the registered count |
| Interleaving.RunKeeps | AuctionServer/AuctionService.cpp:131-234 | at every moment the same sums, with what running purchases hold added, are constant, each under its own condition only |
| Interleaving.StatementIsSafe | AuctionServer/AuctionService.cpp:177-240 | each statement, failure and rollback keeps, separately, the stored-row invariant, the stock ledger and the gold ledger |
| Interleaving.TakeKeeps | AuctionServer/AuctionService.cpp:210-219 | the unguarded DELETE and the guarded UPDATE take exactly what is then pending |
| Interleaving.UndoKeeps | AuctionServer/AuctionService.cpp:236-240 | a rollback gives back the gold and stock its own transaction took, whatever others did |
| Interleaving.NewSystemIsSafe | AuctionServer/AuctionWorkerPool.cpp:34-38 | idle workers satisfy the invariant of each property on tables that satisfy its condition |
| JobRefinement.AloneIsAttempts | AuctionServer/AuctionService.cpp:131-240 | a purchase run statement by statement and uninterrupted, with faults anywhere, ends as the service's retry loop is specified: same tables, success and number of attempts |
| JobRefinement.AttemptAlone | AuctionServer/AuctionService.cpp:177-234 | from anywhere in an attempt on, it ends as its first failure says, or in one purchase |
| JobRefinement.RegistersAsService | AuctionServer/AuctionService.cpp:117-126 | a registration run as a task inserts the row asked for under the next id, and a fault inserts nothing |
| JobRefinement.StockKeptWhenIdleExactly | AuctionServer/AuctionService.cpp:185-219 | from idle workers, over all interleavings and buyers, the stock of a listing is accounted for if and only if it is never misread |
| JobRefinement.BuyInSystem | AuctionServer/AuctionWorkerPool.cpp:97-145 | on idle workers a possible purchase can be posted and runs to exactly one purchase |
| JobRefinement.RollbackRestores | AuctionServer/AuctionService.cpp:145-149 | alone, undoing one's own changes restores every table, wherever the attempt failed |
| Interleaving.RunningIsRouted | AuctionServer/AuctionWorkerPool.cpp:135-145 | a worker only runs posted tasks whose key leads to it |
| WorkerPool.AuctionWorkerPool.Start | AuctionServer/AuctionWorkerPool.cpp:23-41 | starts once with at least one worker each; the connections newly held are those of the workers there, also after a failure part-way; one is lost exactly when a thread could not start |
| WorkerPool.AuctionWorkerPool.Spawn | AuctionServer/AuctionWorkerPool.cpp:67-78 | a worker with a connection no one else holds, or a failure that holds nothing |
| WorkerPool.AuctionWorkerPool.Stop | AuctionServer/AuctionWorkerPool.cpp:43-65 | each worker, reader or writer, has run exactly what was posted to it since the start, in order; each connection is returned exactly once, and nothing else changes hands |
| WorkerPool.AuctionWorkerPool.PostRead | AuctionServer/AuctionWorkerPool.cpp:123-133 | appends to the next reader in turn, dropped without readers |
| WorkerPool.AuctionWorkerPool.PostWrite | AuctionServer/AuctionWorkerPool.cpp:135-145 | appends to writer key % n, dropped without writers |
| WorkerPool.PostDeals | AuctionServer/AuctionWorkerPool.cpp:135-145 | posting to worker key % n keeps every worker with exactly the tasks posted to it |
| WorkerPool.JoinAll | AuctionServer/AuctionWorkerPool.cpp:45-50 | each worker ends having run what was queued, in order |
| WorkerPool.ServerLifetime | AuctionServer/AuctionServer.cpp:63-79 | after start and a repeated stop the connections in use are those from before, except one lost exactly when a thread could not start |
| WorkerPool.ConnectionPool.Borrow | AuctionServer/AuctionWorkerPool.cpp:71-73 | a connection nobody holds, or failure when none is free and none abandoned can be replaced (borrow in ServerCore/DB/ConnectionPool.h) |
| WorkerPool.ConnectionPool.Unborrow | AuctionServer/AuctionWorkerPool.cpp:52-61 | a borrowed connection becomes free once; anything else has no effect (unborrow in ServerCore/DB/ConnectionPool.h) |
| SendQueue.SendQueueSafe | ServerCore/Session.cpp:81-173 | in every run up to an overflow no handler is undefined; at most one write outstanding, of the queue's front, exactly when writing; at most 4096 queued; delivered is a prefix of what the sends enqueued, and with the queue all of it before the first close |
| SendQueue.OverflowLeadsToEmptyPop | ServerCore/Session.cpp:87-94 | after an overflow the outstanding write's success takes the front of an empty queue |
| SendQueue.NewSessionCanOverflow | ServerCore/Session.cpp:87-94 | 4096 sends on a new session fill the queue, and one more followed by the success of the first write takes the front of an empty queue |
| SendQueue.SafeExactlyBeforeOverflow | ServerCore/Session.cpp:87-94 | from a safe state a step leads to a safe state exactly when it is not an enqueue on a full queue |
| SendQueue.OverflowCloses | ServerCore/Session.cpp:87-94 | an enqueue on a full queue closes the session and drops the queue and the new buffer |
| SendQueue.CompleteKeeps | ServerCore/Session.cpp:158-173 | a completion, good or bad, keeps the invariant |
| SendQueue.Session.EnqueueSend | ServerCore/Session.cpp:81-100 | appends the given buffer below 4096, empties the queue at 4096; moves the sender as specified and keeps the invariant below the limit |
| SendQueue.Session.DoWrite | ServerCore/Session.cpp:102-113 | hands the front of the queue to the socket |
| SendQueue.Session.OnWrite | ServerCore/Session.cpp:158-173 | moves the sender as specified |
| SendQueue.Session.Close | ServerCore/Session.cpp:18-28 | closes once and reports whether this was the first time |
| PacketFraming.DeliveredReadsAsPrefix | ServerCore/Session.cpp:40-113 | packets sent through the queue arrive whole and in order: what was delivered reads as a prefix of what was enqueued |
| PacketFraming.FrameExample | GameServer/AuctionSession.cpp:67-73 | the bytes of one packet, length and code low byte first |
| PacketFraming.StreamReads | GameServer/AuctionSession.cpp:67-73 | a stream of packets that fit reads back as those packets (PacketUtil in ServerCore/Packet.h) |
| PacketFraming.FrameReadsExactlyWhen | ServerCore/Session.cpp:115-127 | a packet reads back exactly when its message has at most SHRT_MAX bytes (the casts are in PacketUtil, ServerCore/Packet.h) |
| PacketFraming.LongOwnListBreaksFraming | AuctionServer/AuctionService.cpp:79 | a list message of 16384 entries or more does not read back |
| PacketFraming.OwnListBreaksFraming | AuctionServer/AuctionService.cpp:76-95 | nor does the reply to a seller with that many unexpired listings |
| PacketFraming.ManyListingsBreakFraming | AuctionServer/AuctionService.cpp:76-95 | a concrete table on which a seller's own list does not read back |
| PacketFraming.PublicListFitsFrame | AuctionServer/AuctionService.cpp:80 | the reply with the public list fits a frame |
| ReplyRouting.RepliesReachTheAsker | GameServer/Network/Handlers/AuctionServerPacketHandler.cpp:16-69 | with at most 2^32 sessions a reply reaches the session that asked or nobody, and the cache gets only its own |
| ReplyRouting.RoutingRightExactlyUpTo | GameServer/Network/Handlers/AuctionServerPacketHandler.cpp:16-69 | routing is right in every run of up to n sessions if and only if n is at most 2^32 |
| ReplyRouting.TargetUpTo | GameServer/Network/Handlers/AuctionServerPacketHandler.cpp:16-69 | up to 2^32 sessions, a reply that goes through an int reaches nobody from id 2^31 on, and every other the holder of its own id |
| ReplyRouting.ReceiverExactly | GameServer/Utils/GameSessionManager.cpp:26-38 | a reply goes to a session exactly if that session is entered under the id looked up and still exists |
| ReplyRouting.UnregisteredGetsNothing | GameServer/Utils/GameSessionManager.cpp:40-44 | once an id is unregistered, no reply looked up under it reaches anybody, whoever connects later |
| ReplyRouting.CacheGetsItsReplies | GameServer/Network/Handlers/AuctionServerPacketHandler.cpp:18-22 | every reply to a request of the cache goes to the cache and to no session |
| ReplyRouting.NarrowingExact | GameServer/Network/Handlers/AuctionServerPacketHandler.cpp:49-63 | the detour through an int keeps an id exactly below 2^31 |
| ReplyRouting.WideIdIsMisrouted | GameServer/Network/Handlers/AuctionServerPacketHandler.cpp:63-66 | a reply for a wider id goes to the session with its low 32 bits |
| ReplyRouting.LastReplyReachesFirst | GameServer/Network/Handlers/AuctionServerPacketHandler.cpp:63-66 | after 2^32 + 1 connects from the start, the reply to the last session reaches the first |
| ReplyRouting.HandleReply | GameServer/Network/Handlers/AuctionServerPacketHandler.cpp:16-69 | the handlers send a reply where the runs of the model send it: to the cache, to the session found, or to nobody |
| ReplyRouting.GameSessionManager.Register | GameServer/Utils/GameSessionManager.cpp:12-24 | hands out the next id and enters the session under it |
| ReplyRouting.GameSessionManager.Find | GameServer/Utils/GameSessionManager.cpp:26-38 | the session entered under the id if it still exists |
| ReplyRouting.GameSessionManager.Unregister | GameServer/Utils/GameSessionManager.cpp:40-44 | removes one id and reuses none |
| ListMessage.ListRoundTrip | AuctionServer/Network/Protocol/SS_AuctionProtocol.pb.cc:693-793 | parsing undoes serializing for all field values and any list length, exactly when every nested string is valid UTF-8 |
| ListMessage.ListTextRoundTrip | AuctionServer/Network/Protocol/SS_AuctionProtocol.pb.cc:693-793 | every list whose strings encode texts comes back |
| ListMessage.ListSkipsUnknown | AuctionServer/Network/Protocol/SS_AuctionProtocol.pb.cc:734-742 | fields with other numbers are skipped |
| ListMessage.ListExample | AuctionServer/Network/Protocol/SS_AuctionProtocol.pb.cc:755-793 | the bytes of one list and of one client list, field by field |
| ListMessage.ListConcatIsMerge | AuctionServer/Network/Protocol/SS_AuctionProtocol.pb.cc:853-870 | two encodings back to back parse as the merge, entries appended in order |
| ListMessage.ParseListBytes | AuctionServer/Network/Protocol/SS_AuctionProtocol.pb.cc:693-793 | parsing an encoding on top of a message is merging, or is refused for a string that is not UTF-8 |
| ListMessage.ListBytesLength | AuctionServer/Network/Protocol/SS_AuctionProtocol.pb.cc:795-836 | the bytes written number exactly the computed size |
| ListMessage.AuctionListMessage.InternalParse | AuctionServer/Network/Protocol/SS_AuctionProtocol.pb.cc:693-753 | the parser with its inner item loop computes what the plain record loop computes |
| ListMessage.AuctionListMessage.InternalSerialize | AuctionServer/Network/Protocol/SS_AuctionProtocol.pb.cc:755-793 | appends the encoding to the stream |
| ListMessage.AuctionListMessage.ByteSizeLong | AuctionServer/Network/Protocol/SS_AuctionProtocol.pb.cc:795-836 | returns the length of the encoding |
| ListMessage.AuctionListMessage.MergeFrom | AuctionServer/Network/Protocol/SS_AuctionProtocol.pb.cc:853-870 | merges another message into this one |
| ListMessage.ClientListSize | GameServer/Network/Protocol/AuctionProtocol.pb.cc:685-712 | returns the length of the client message's encoding |
| ListMessage.ClientRoundTrip | GameServer/Network/Protocol/AuctionProtocol.pb.cc:608-683 | the client message parses back to its items and flag |
| ListMessage.ClientPacketFits | GameServer/Network/Protocol/AuctionProtocol.pb.cc:685-712 | at most a hundred items with at most 200 bytes of expiry text each take at most SHRT_MAX bytes, whatever the numbers |
| ItemMessage.ItemRoundTrip | AuctionServer/Network/Protocol/GameStruct.pb.cc:1653-1791 | parsing undoes serializing for all 64-bit values, exactly when the string is valid UTF-8 |
| ItemMessage.ItemTextRoundTrip | AuctionServer/Network/Protocol/GameStruct.pb.cc:1701-1706 | every item whose string encodes a text comes back |
| ItemMessage.ItemAsciiRoundTrip | AuctionServer/Network/Protocol/GameStruct.pb.cc:1701-1706 | in particular every item whose string is seven-bit, such as a timestamp |
| ItemMessage.ItemSkipsUnknown | AuctionServer/Network/Protocol/GameStruct.pb.cc:1707-1718 | fields with other numbers are skipped |
| ItemMessage.ItemExample | AuctionServer/Network/Protocol/GameStruct.pb.cc:1733-1791 | the bytes of one item, fields 1 to 7 in order |
| Utf8.ValidExactlyEncodings | AuctionServer/Network/Protocol/GameStruct.pb.cc:1701-1706 | the strings the parser accepts are exactly the encodings of texts, with the encoder of section 3 of RFC 3629 defined on its own |
| ItemMessage.ItemConcatIsMerge | AuctionServer/Network/Protocol/GameStruct.pb.cc:1874-1902 | two encodings back to back parse as the merge; default fields of the second leave the first's alone |
| ItemMessage.ParseItemBytes | AuctionServer/Network/Protocol/GameStruct.pb.cc:1653-1791 | parsing an encoding on top of a message is merging, or is refused for a string that is not UTF-8 |
| ItemMessage.ItemBytesLength | AuctionServer/Network/Protocol/GameStruct.pb.cc:1793-1857 | the bytes written number exactly the computed size |
| ItemMessage.ItemSizeBound | AuctionServer/Network/Protocol/GameStruct.pb.cc:1793-1857 | an item takes at most 69 bytes beyond its string |
| ItemMessage.AuctionItemMessage.InternalParse | AuctionServer/Network/Protocol/GameStruct.pb.cc:1653-1731 | the parse loop computes what the record loop computes |
| ItemMessage.AuctionItemMessage.InternalSerialize | AuctionServer/Network/Protocol/GameStruct.pb.cc:1733-1791 | appends the encoding to the stream |
| ItemMessage.AuctionItemMessage.ByteSizeLong | AuctionServer/Network/Protocol/GameStruct.pb.cc:1793-1857 | returns the length of the encoding |
| ItemMessage.AuctionItemMessage.MergeFrom | AuctionServer/Network/Protocol/GameStruct.pb.cc:1874-1902 | merges another message into this one |
| WireFormat.ParseConcat | AuctionServer/Network/Protocol/GameStruct.pb.cc:1655-1728 | for any input that parses, parsing it followed by more is parsing the rest from its result |
| WireFormat.ReadUndoesVarint | AuctionServer/Network/Protocol/GameStruct.pb.cc:1662 | reading a varint undoes writing it, whatever follows |
| WireFormat.VarintIsBase128 | AuctionServer/Network/Protocol/GameStruct.pb.cc:1733-1791 | a varint has seven bits to a byte, least significant first, the top bit on all bytes but the last, and no byte too many |
| WireFormat.RefusesMalformed | AuctionServer/Network/Protocol/GameStruct.pb.cc:1707-1718 | field number 0, groups, undefined wire types and records cut short are refused |

## Left out

- ReadRecord: does not model records of the group wire types (it fails on a start-group tag), and the content of unknown fields is skipped and not kept for writing again.
- ReadPayload: lengths up to INT_MAX are accepted; the library that implements the primitives is not part of this model, nor is its refusal of messages above 2 GiB.
- ListRoundTrip, ItemRoundTrip: for nested sizes of at most INT_MAX, which is what a length prefix may announce.
- RefusalsRightExactlyWhen: for fewer than 2^31 listing ids; beyond, RefusedRightSuffices gives one direction, since what a wider id on the page is shown as decides which wrong refusals can arise.
- Purchase: isolation levels and lock waits appear only as error codes; a rollback that throws is taken to have restored the tables.
- ConservedWhenIdle, RunKeeps: the autocommit restore does not fail there, and a balance may be seen before its transaction commits, so non-negative balances are claimed of AuctionRuns only, where tasks run one after the other on any number of connections.
- PublicList, GetListings: the text of a timestamp is an arbitrary function of the time.
- The refresh callbacks before the first connect request, and calls of RequestRefresh from elsewhere: the repository makes none.
- The send queue after an overflow, beyond the two lemmas about that branch; sending on several threads is a sequence of strand steps.
- Threads, locks, asio internals and sockets: handlers, timers and completions are steps in any order the code allows; the snapshot lock is an atomic swap.
- Stop: posts that arrive while it is under way; the server calls it after its event loop has ended.
- AuctionWorkerPool: RunNext advances a writer's queue; a reader's queue runs when it is joined.
- The receipt list query, receipt claiming, statistics counters, logging, packet dispatch tables and server start-up.
- Login, lobby, chat and game rooms, and the other generated messages: they would only add easy members.
