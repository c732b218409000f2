# Shop backend: a verified model

A Dafny model of the stateful algorithms of a shop backend, with proofs over all inputs, all runs and all
interleavings.

- `Stock`, `Spec`: the check-and-decrement of a checkout, and the shop as a machine of atomic operations.
- `Postgres`: the tables and transactions of the PostgreSQL backend, each proved to be one atomic operation.
- `Redis`: the Redis backend as concurrent calls. Every event is one atomic command (or EXEC block) of one call;
  the event sequence fixes the interleaving, the fresh identifiers and the clock readings. A crashed call is a call
  that takes no further event. The log has one entry per event with the article keys it wrote: EXEC commits exactly
  when no watched key occurs in the log since WATCH.
- `Linearize`, `Checkout`, `Indexes`, `Settlement`, `Finality`, `Payments`, `Submits`, `Catalogue`, `Documents`:
  theorems about every run of that machine. `Runs` and `Races` build runs from given states and from the empty shop.
- `Payment`: USD to Wei on exact fractions and the acceptance of a transaction.
- `RateLimiting`, `Carts`, `Migrations`, `Search`, `Listing`, `Paths`: the token-bucket limiter, the cart store, the
  migration runner, search escaping, listings and pages, and route labels.

## Findings

- `ui.checkoutCancel` and `payment.verify` check the order status and write later without comparing again
  (internal/ui/ui.go:409-414, internal/payment/handler.go:126-148). "Paid is final" therefore fails when they overlap
  (`Races.OverlapLosesPayment`, and from the empty shop `Races.PaidCanBecomeFailed`). `Finality.SettledCanChangeIff` says
  exactly when a settled order can still change, and without overlap on the order it cannot
  (`Finality.SettledIsFinalWhenSerial`).
- One on-chain payment is meant to settle one order (internal/orders/repository_pg.go:16-19,
  internal/db/migrations/003_tx_hash_unique.sql:1). The handler decodes the hash text for its checks
  (internal/payment/handler.go:132) but reserves and records the text itself (internal/payment/handler.go:147), so two
  texts that decode alike, such as one with and one without a prefix, settle two orders (`Payments.TwoTextsTwoOrders`,
  `Payments.OptionalPrefixPaysTwice`). The promise holds exactly for sets of texts that name different transactions
  (`Payments.OnePaymentOneOrderIff`); a caller that brings every text into one canonical form is inside it.
- A verified transaction is meant to have at least `minConfirmations` confirmations (internal/payment/eth.go:73). The
  subtraction at internal/payment/eth.go:105 wraps around, so a transaction is also accepted when the tip read lies behind
  its block (`Races.PaidAboveTip`), and without the confirmations promised only then (`Payment.AcceptedUnconfirmedIff`).
- The checkout form looks for a pending order first and is meant to be safe against a double submit
  (internal/ui/ui.go:337-338). Two overlapping forms both find none and both create one
  (`Submits.DoubleSubmitCreatesTwo`); forms of a wallet that do not overlap leave it one pending order at most
  (`Submits.OnePendingPerWallet`).
- An article update writes back a document it read before (internal/articles/repository_redis.go:133-154), against the
  promise to mirror the PostgreSQL statement. It can bring back a deleted article without index entry
  (`Races.EditBringsBackDeleted`; exactly when: `Catalogue.EditKeepsIndexIff`) and, by a mere rename, put sold stock back
  (`Races.RenamePutsSoldStockBack`; exactly when: `Checkout.EditConservesIff`). What else it overwrites is exact in
  `Documents.EditMirrorsUpdateIff`.
- The comments of the article repository promise that limit 0 returns every row (internal/articles/article.go:99-100);
  without a limit PostgreSQL ignores the offset and Redis does not (`Listing.ArticleListsAgree`). A zero limit for orders
  differs too (`Listing.OrderListsAgree`).
- The comment of the route labels speaks of UUID segments, while the code replaces any segment of 36 bytes with its first
  two dashes in place (internal/metrics/middleware.go:151-153); `Paths.IdentifiersExactly` says exactly what is replaced.
- The migration runner's safety does not rest on its advisory lock but on the primary key of `schema_migrations`;
  the lock prevents spurious failures (`Migrations.LockPreventsCollisions`). The configured limiter (rate 1, burst 5,
  idle 600 s) meets the condition under which sweeping is invisible (`RateLimiting.SweepsUnobservableIff`)
  and without which the bound on allowed requests fails (`RateLimiting.WindowBoundIff`).

## Model

| member | source | states |
|---|---|---|
| Stock.TakeLines | internal/orders/repository_redis.go:81-106 | one pass over the lines computes exactly the recursive check-and-decrement and the stored items, with a total in which every single unit is paid at the price of its line, or stops at the same first line that cannot be filled |
| Stock.TotalLaws | internal/orders/repository_redis.go:99-99 | one unit costs its price, a line costs what its parts cost, and carts add up: the laws that no other total has |
| Stock.EveryUnitIsPaid | internal/orders/repository_redis.go:99-99 | the total is the sum of the prices of all single units |
| Stock.FilledStock | internal/orders/repository_redis.go:88-105 | a filled order removes exactly the summed demand of each named article and stamps it; name, price and creation time of every article, and all of every other article, stay |
| Stock.NeverOversold | internal/orders/repository_redis.go:90-93 | a filled order never takes a stock below zero |
| Stock.GreedyEqualsAggregate | internal/orders/repository_redis.go:88-105 | with repeated articles, the line-by-line loop succeeds if and only if every article exists and covers its summed demand |
| Stock.RefusalIsTrue | internal/orders/repository_redis.go:90-92 | a refusal names an article of the cart that is missing or holds less than the whole cart asks of it |
| Stock.LineOrderIrrelevant | internal/orders/repository_redis.go:88-105 | any permutation of the lines gives the same verdict, the same final stock and the same total |
| Spec.RunConserves | internal/orders/repository_pg.go:54-78 | over whole runs of atomic operations, stock plus units in all stored orders is constant per article and stock stays non-negative |
| Postgres.Database.Create | internal/orders/repository_pg.go:31-84 | the transaction performs the atomic checkout on the joined view of its tables, with a total in which every unit is paid, or rolls every table back; it succeeds exactly when the shared check does, and a failure names the same article, unknown or insufficient |
| Postgres.Database.UpdateStatus | internal/orders/repository_pg.go:212-228 | an unknown order and a reused hash are refused exactly when they are so, leaving everything as it was; otherwise only status and hash of that order change; the unique hash index is kept |
| Postgres.Database.LoadItems | internal/orders/repository_pg.go:127-152 | in whatever order the query returns the rows, grouping them hands each listed order exactly its own items, in that order and with their multiplicity |
| Postgres.InsertedView | internal/orders/repository_pg.go:43-65 | inserting the order row and one item row per line adds exactly one document to the joined view and alters no other |
| Linearize.RedisRefinesAtomicShop | internal/orders/repository_redis.go:61-164 | linearizability: every interleaving of any calls, unwatched catalogue updates included, is, on articles and orders, a run of atomic operations in event order; a checkout takes effect at its EXEC and from its cart alone |
| Linearize.EventRefines | internal/orders/repository_redis.go:75-131 | one event does to articles and orders what its atomic operation does, although the reads of a checkout or settlement happened earlier |
| Linearize.WritesAreLogged | internal/orders/repository_redis.go:133-143 | every change of an article document, by any event, is visible to WATCH |
| Linearize.WriteBackIsAtomic | internal/orders/repository_redis.go:113-120 | writing back only the documents read equals decrementing the whole catalogue atomically |
| Linearize.OrdersKeepCore | internal/orders/repository_redis.go:246-283 | no event, stale write-backs included, removes an order or changes its items, wallet, total or creation time |
| Checkout.CheckoutIsLinearizable | internal/orders/repository_redis.go:75-143 | the end of an attempt in any run: placed means the cart was covered at EXEC, exactly the atomic checkout happened, and the stored total pays every unit; refused means the atomic checkout would have refused at some instant inside the call, with that article missing or short; anything else changed nothing, and a watched article had been written |
| Checkout.SeenWasTrue | internal/orders/repository_redis.go:147-164 | each document a checkout read was the stored one at an instant since the call began |
| Checkout.OneCommitPerSuccess | internal/orders/repository_redis.go:133-143 | a call that succeeded committed exactly once, a call in any other state never |
| Checkout.AtMostFiveAttempts | internal/orders/repository_redis.go:133-143 | a checkout begins at most five attempts; a failed one is followed by another unless it was the fifth, and exactly five failed ones end in giving up |
| Checkout.ContentionMeansProgress | internal/orders/repository_redis.go:133-143 | giving up implies five different writes by other calls to the cart's articles during the call and, without catalogue writes, at least five orders placed meanwhile |
| Checkout.StockIsConserved | internal/orders/repository_redis.go:88-125 | between any two instants of any run without a catalogue write that removes the article or writes another stock than the stored one, its stock plus the units in all stored orders is constant and its stock stays non-negative; renames and price changes that write the stored stock are included |
| Checkout.EventConservesIff | internal/orders/repository_redis.go:88-125 | an event keeps stock plus sold units of a stored article if and only if it is no catalogue write that removes it or writes another stock |
| Checkout.EditConservesIff | internal/articles/repository_redis.go:133-154 | a saved update conserves stock plus sold units if and only if the quantity it writes, given or read before, is the stored one |
| Indexes.IndexesStayExact | internal/orders/repository_redis.go:113-124 | in every state of every interleaving that settles to paid or failed, orders:index is exactly the stored orders and orders:pending:<w> exactly the pending orders of w, with the scores of their creation times |
| Indexes.WriteBackKeepsExact | internal/orders/repository_redis.go:270-283 | a status write-back keeps the indexes exact if and only if it does not re-open a settled order |
| Indexes.PendingHeadAnswersQuery | internal/orders/repository_redis.go:231-237 | the head of the pending index is present exactly when the wallet has a pending order, has maximal score, and is a newest one, as the SQL query returns, exactly when no newer pending order was rounded to its score |
| Indexes.FindPendingByWallet | internal/orders/repository_redis.go:231-244 | the two commands, interleaved with anything: nothing is found if and only if the wallet had no pending order at the first; otherwise the order returned was pending then with maximal score, and it is still as it was then and pending if and only if no write-back to it came in between |
| Submits.OnePendingPerWallet | internal/ui/ui.go:334-377 | when checkout forms of a wallet do not overlap, from looking for a pending order to creating one, the wallet never has two pending orders, whatever else happens |
| Submits.DoubleSubmitCreatesTwo | internal/ui/ui.go:334-377 | a run from the empty shop in which two overlapping forms of one wallet both find no pending order and both create one |
| Indexes.OrderPagesShowAll | internal/orders/repository_redis.go:166-187 | in every state, the pages of the orders listing, cut by their inclusive stop indexes, show every stored order exactly once, newest first up to the rounding of scores |
| SortedSet.RevRangeSorted | internal/orders/repository_redis.go:178-178 | the listing of a sorted set has every member once, from the highest score down |
| Settlement.HashNeverShared | internal/orders/repository_redis.go:252-283 | over the whole history of any run, with calls stopping anywhere, a non-empty hash text is recorded on one order only |
| Settlement.ReservationIsPermanent | internal/orders/repository_redis.go:252-268 | a hash reservation never changes owner |
| Settlement.ReuseRefusalIsFinal | internal/orders/repository_redis.go:259-267 | the owner check refuses exactly when the hash is reserved for another order, and that stays so for ever; only a non-empty hash is ever refused |
| Settlement.PaidImpliesVerified | internal/payment/handler.go:117-148 | in every state of every interleaving, somebody asked to verify each paid order with the hash it carries, every check of the payment passed at some instant after the request, the confirmation count included, and the hash still names a successful transaction to the shop's own address, digit by digit, worth at least the Wei due for the stored total |
| Settlement.PaidIsConfirmed | internal/payment/eth.go:101-108 | in every run, the transaction of a paid order is confirmed now and for ever, unless each time its checks passed the tip read lay behind its block |
| Settlement.BelowTipIsConfirmed | internal/payment/eth.go:101-108 | when transactions are mined at or below the tip, the transaction of every paid order is confirmed for ever |
| Payment.AcceptedUnconfirmedIff | internal/payment/eth.go:105-108 | a transaction good in every other respect is accepted without the confirmations promised if and only if the tip read lies behind its block |
| Races.PaidAboveTip | internal/payment/eth.go:105-108 | a run from the empty shop that ends with a paid order whose transaction lies above the tip |
| Payments.OnePaymentOneOrderIff | internal/payment/handler.go:131-148 | for every set of hash texts: different orders are paid by different on-chain transactions over the whole history of every run whose verification requests use texts of the set, even when one order loses its payment before the other is paid, if and only if no two texts of the set name one transaction |
| Payments.TwoTextsTwoOrders | internal/orders/repository_pg.go:16-19 | for any two texts of one transaction, a run from the empty shop in which both orders are paid by that transaction |
| Finality.OnlyWriteBacksChangeOrders | internal/orders/repository_redis.go:270-283 | a stored order changes at an event if and only if the event is a write-back for it with another status or hash |
| Finality.SettledCanChangeIff | internal/payment/handler.go:126-148 | in every reachable state, some continuation changes a paid or failed order if and only if a call already past its status check would write another status or hash and is blocked neither by the reservation of its hash nor by a mined transaction that does not pay |
| Finality.SettledIsFinalWhenSerial | internal/payment/handler.go:126-148 | if settlement calls on one order did not overlap until it was paid or failed, it never changes again, whatever overlaps later or on other orders |
| Settlement.OnlyOwnersCancel | internal/ui/ui.go:400-414 | an order is marked failed only after its own wallet asked for the cancellation |
| Races.OverlapLosesPayment | internal/ui/ui.go:400-414 | from every state with a payable order, an overlapping cancellation turns the paid order back into a failed one without hash: finality does need calls not to overlap |
| Races.PaidCanBecomeFailed | internal/ui/ui.go:400-414 | a run from the empty shop, without direct status updates, that takes an order from paid to failed |
| Races.RetryAfterCrashSettles | internal/payment/handler.go:117-148 | when a verification died between reservation and write, a new verification of the order with the same hash, from its first command on, settles it |
| Runs.VerificationAlone | internal/payment/handler.go:106-162 | a verification that nothing interrupts ends with the one answer of six that is true of its order and hash, records the payment when that is success, and changes nothing otherwise |
| Runs.CancellationAlone | internal/ui/ui.go:400-414 | a cancellation that nothing interrupts marks its own wallet's pending order as failed; a missing one is not found, a foreign or settled one is left alone |
| Runs.AnswersAreTrue | internal/payment/handler.go:117-160 | under any interleaving, a settlement call that ends tells the truth about the instant at which it ends |
| Races.EditBringsBackDeleted | internal/articles/repository_redis.go:133-188 | a run from the empty shop in which an update stores a deleted article again, without index entry and with no call left that would repair it |
| Races.RenamePutsSoldStockBack | internal/articles/repository_redis.go:133-154 | a run from the empty shop in which an update that only renames puts a sold unit back in stock |
| Catalogue.IndexStaysExact | internal/articles/repository_redis.go:158-188 | every article document is indexed, and an index entry without document belongs to exactly one deletion between its two commands |
| Catalogue.EditKeepsIndexIff | internal/articles/repository_redis.go:133-154 | the write of an article update keeps the index exact if and only if the article was not deleted since it was read |
| Catalogue.CheckoutResurrectsNothing | internal/orders/repository_redis.go:113-120 | no checkout brings back a deleted article or removes one |
| Catalogue.ListingIsAccurate | internal/articles/repository_redis.go:40-100 | in every interleaving, every listed article existed when the documents were read, and rows come newest first by the index read; every article stored at both instants is listed, unless an update brought back a deleted article before the index was read |
| Documents.CreationTimesStay | internal/articles/repository_redis.go:156-175 | in every state of every interleaving, updates included, all documents of an article, stale ones too, agree on its creation time, and its index score is the score of that time |
| Documents.ListingNewestFirst | internal/articles/repository_redis.go:40-75 | in every interleaving, updates included, the rows of a listing are distinct and come newest first by the creation times of the documents returned, up to the rounding of scores |
| Documents.EditMirrorsUpdateIff | internal/articles/repository_redis.go:133-154 | the read-then-write update has the effect of the COALESCE/NULLIF statement of PostgreSQL if and only if the article is still stored and no field the update leaves alone changed since it was read |
| Documents.UndisturbedEditIsAtomic | internal/articles/repository_redis.go:133-154 | an update during which nobody wrote the article is the PostgreSQL statement at its write |
| Documents.DeletionAlone | internal/articles/repository_redis.go:176-188 | a deletion running alone removes document and index entry; of a missing article it says so and changes nothing |
| Documents.EditAlone | internal/articles/repository_redis.go:133-154 | an update running alone is the PostgreSQL statement; of a missing article it says so and changes nothing |
| Documents.CreationAlone | internal/articles/repository_redis.go:117-131 | a new article is stored and indexed by its creation time, and nothing else changes |
| Payment.FractionsAreExact | internal/payment/eth.go:50-67 | the conversion on reduced fractions is the floor of the exact quotient of the values |
| Payment.WeiIsExactFloor | internal/payment/eth.go:60-66 | q is the amount if and only if q * rate <= usd * 10^18 < (q + 1) * rate |
| Payment.IndependentOfFraction | internal/payment/eth.go:56-63 | equal prices and rates written as different fractions give the same amount |
| Payment.WeiMonotone | internal/payment/eth.go:50-67 | the amount grows with the price and falls with the rate |
| Payment.WeiSuperadditive | internal/payment/eth.go:50-67 | two orders settled separately never cost more than their sum, and at most one Wei less |
| Payment.OfferIsLeastAccepted | internal/payment/eth.go:119-123 | for an otherwise good transaction, the amount offered at checkout is the least value accepted, and an accepted payment misses the exact price by less than one Wei |
| Payment.VerdictIsTrue | internal/payment/eth.go:86-125 | the verdict names a fault the transaction has, and it is accepted if and only if it has none |
| Payment.SameAddressIff | internal/payment/eth.go:115-117 | two address texts are equal up to case if and only if they spell the same digits |
| Payment.StrangersAreRefused | internal/payment/eth.go:115-117 | a transaction accepted for the shop's address is a wrong recipient for every other address and accepted for every spelling of the same one |
| Payment.OneEther | internal/payment/eth.go:60-66 | an order priced like one ether costs 10^18 Wei |
| RateLimiting.RateLimiter.Request | internal/server/middleware/ratelimit.go:48-68 | the in-place bucket update and its answer are those of the specification step |
| RateLimiting.RateLimiter.Reap | internal/server/middleware/ratelimit.go:71-80 | the deleting loop keeps exactly the buckets that are not idle, unchanged |
| RateLimiting.LevelStep | internal/server/middleware/ratelimit.go:57-67 | the refilled level decides each answer; an allowed request takes one token off it; refusals, other keys and sweeps of full buckets leave it alone at every later time |
| RateLimiting.WindowBound | internal/server/middleware/ratelimit.go:48-68 | in every run without sweeps, and in every run when rate * idle >= burst: in every window and for every key, at most burst + rate * (t1 - t0) requests get through |
| RateLimiting.WindowBoundIff | internal/server/middleware/ratelimit.go:48-80 | the bound holds in all runs, sweeps included, if and only if rate * idle >= burst |
| RateLimiting.PatientNeverRefused | internal/server/middleware/ratelimit.go:57-65 | a key whose requests are at least 1/rate apart is never refused, with or without sweeps |
| RateLimiting.FreshBurst | internal/server/middleware/ratelimit.go:48-66 | a client never seen before gets exactly its burst at once: the first requests up to the burst are allowed and not one more |
| RateLimiting.RefillExactly | internal/server/middleware/ratelimit.go:57-65 | after any wait, the next request is allowed if and only if the level plus rate times the wait is a token; the level never exceeds the burst |
| RateLimiting.SweepsAndRefusalsUnobservable | internal/server/middleware/ratelimit.go:48-80 | inserting sweeps, deleting refused requests and all traffic of other keys leave every answer to a key unchanged when rate * idle >= burst |
| RateLimiting.SweepsUnobservableIff | internal/server/middleware/ratelimit.go:71-80 | sweeping is invisible in all runs if and only if rate * idle >= burst |
| Search.EscapingMeansSubstring | internal/articles/repository_pg.go:14-19 | the escaped pattern matches a name under LIKE if and only if the search text occurs in it, for every text and name |
| Search.LikeLaws | internal/articles/repository_pg.go:36-38 | what each symbol of a pattern matches: a percent sign any text, an underscore any one character, an escaped or plain character itself |
| Search.LikeOfConcat | internal/articles/repository_pg.go:36-38 | a pattern matches a text if and only if the text splits into what its parts match |
| Search.EscapeLaws | internal/articles/repository_pg.go:16-19 | escaping puts a backslash before each of the three metacharacters and changes nothing else, character by character |
| Search.PatternAccepted | internal/articles/repository_pg.go:36-38 | no search produces a pattern that ends inside an escape |
| Search.BackendsSearchAlike | internal/articles/repository_redis.go:51-58 | ILIKE on the escaped pattern and the folded substring test accept the same names |
| Search.CaseDoesNotMatter | internal/articles/repository_redis.go:53-59 | texts that differ letter by letter only in what folding removes are found alike, and every name that contains the text as typed is found |
| Listing.FilterInPlace | internal/articles/repository_redis.go:53-59 | the loop that overwrites the slice it reads leaves the order-preserving filter at the front |
| Listing.FilterLaws | internal/articles/repository_redis.go:53-59 | filtering keeps every matching row as often as it was there, nothing else, and in order: the filter of a whole is the filter of its parts |
| Listing.ListLoaded | internal/articles/repository_redis.go:51-70 | filter, offset and limit in place give the page of the pure listing; the total is the number of rows that match the search, and every row of the page was listed and matches |
| Listing.ArticleListsAgree | internal/articles/repository_pg.go:33-82 | both backends return the same total, and the same page if and only if the limit is positive, the offset zero or no row matches the search |
| Listing.PagesCover | internal/articles/repository_redis.go:62-69 | consecutive pages concatenate to exactly the filtered list, nothing repeated or skipped |
| Listing.PageIsSlice | internal/articles/repository_redis.go:62-69 | a page is the run of rows from its offset on, as many as limit and rows allow; without a positive limit, all of them |
| Listing.PagesShowMatches | internal/articles/repository_redis.go:51-70 | over the pages of a listing every row that matches the search is shown exactly as often as it was listed, and no other row ever is |
| Migrations.Connection.ApplyMigration | internal/db/migrate.go:123-147 | body and record commit together or neither does |
| Migrations.Connection.RunMigrations | internal/db/migrate.go:46-104 | the loop against the records loaded at the start is the recursive run of the files |
| Migrations.RunStopsAtFirst | internal/db/migrate.go:83-103 | a run stops at the first edited or failing file: what it changed is exactly the files before it, and the error says which and why |
| Migrations.AddedRecords | internal/db/migrate.go:91-101 | a run only adds: earlier records and bodies stay, and every file without a record gets one, with its body committed |
| Migrations.MigrationsOnceInOrder | internal/db/migrate.go:46-104 | with any number of pods, failures, crashes, restarts and even lost locks, bodies commit at most once and in file order, the records are always a prefix of the files with their checksums, no mismatch is reported, and a completed pod leaves every file applied |
| Migrations.SchemaChangesIff | internal/db/migrate.go:123-147 | the records change if and only if a running pod executes, with success, a file it did not find recorded and nobody recorded since; then exactly that file is recorded, and a failed SQL body leaves no trace |
| Migrations.FailureEndsThePod | internal/db/migrate.go:91-101 | a pod whose SQL body fails ends with that failure if and only if the file was not in what it loaded, and never changes the records |
| Migrations.OnePodIsOneRun | internal/db/migrate.go:46-104 | one pod alone, from any table and with any bodies failing, ends with the records and outcome of one sequential run |
| Migrations.RestartAfterCrash | internal/db/migrate.go:53-63 | after the holder of the lock dies, a new pod gets the lock and its run is one sequential run from what the dead one left |
| Migrations.LockMovesIff | internal/db/migrate.go:53-63 | the lock goes to a new pod exactly when it is free, and becomes free exactly when its holder releases it after its run, dies, or loses its session |
| Migrations.LockPreventsCollisions | internal/db/migrate.go:53-59 | while the lock holds, a turn whose SQL succeeds always moves its pod forward |
| Migrations.RestartEqualsOneRun | internal/db/migrate.go:83-103 | a failed run followed by a restart ends in the same records, bodies and outcome as one undisturbed run |
| Migrations.RerunIsIdle | internal/db/migrate.go:91-97 | a run over files that are all recorded changes nothing and completes |
| Carts.Store.Add | internal/cart/cart.go:80-93 | adds the quantity to the line, touches the cart, and notifies exactly when the cart is new |
| Carts.Store.Remove | internal/cart/cart.go:119-137 | reports whether the line was there, drops it, and drops an emptied cart with a notification |
| Carts.Store.Clear | internal/cart/cart.go:140-147 | drops the cart and notifies exactly when there was one |
| Carts.Store.Get | internal/cart/cart.go:103-115 | one item for each stored line, none twice, whatever the map order |
| Carts.Store.EvictExpired | internal/cart/cart.go:152-171 | removes exactly the carts older than the cutoff, counts them, and notifies once if there were any; nothing without a positive TTL |
| Carts.Store.DeleteOlder | internal/cart/cart.go:160-166 | the deleting loop removes and counts exactly the carts older than the cutoff |
| Carts.CartsTellHistory | internal/cart/cart.go:80-171 | over every run no stored cart is empty and each line is the sum of its adds since its last removal, clearing or eviction |
| Carts.ObserverFollows | internal/cart/cart.go:72-77 | over every run the observer's last value is the number of carts and no value is repeated |
| Carts.ObserverHearsEveryChange | internal/cart/cart.go:72-77 | the observer is told every change of the number of carts, once, in order, and nothing else |
| Carts.AddsAddUp | internal/cart/cart.go:80-93 | one add gives a line its quantity, and two adds give it their sum |
| Carts.EvictionIsExact | internal/cart/cart.go:152-171 | an eviction with a cutoff read earlier keeps exactly the carts last touched at or after the cutoff, loses none touched since the clock was read, and is idempotent at that clock |
| Paths.NormalizeIDs | internal/metrics/middleware.go:124-145 | the byte loop with its segment buffer equals split on slash, rewrite each segment, join |
| Paths.NormalKeepsShape | internal/metrics/middleware.go:124-160 | normalising keeps the number of slashes and changes nothing the second time |
| Paths.SameLabelIff | internal/metrics/middleware.go:124-145 | two paths normalise alike if and only if their segments agree up to identifiers |
| Paths.JoinOfSplit | internal/metrics/middleware.go:135-143 | splitting and joining a path gives it back |
| Paths.ArticlesShareLabels | internal/metrics/middleware.go:89-145 | every UUID and every decimal number is recognised: requests for any two articles share one route label, under the articles, cart and admin routes |
| Paths.IdentifiersExactly | internal/metrics/middleware.go:147-160 | a segment is replaced if and only if it is a number or has the length and first two dashes of a UUID; every other segment stays as it is |
| Paths.ArticleLabelIff | internal/metrics/middleware.go:116-145 | an article path gets the article label if and only if its last segment is such an identifier or the placeholder; any other single segment makes it unknown |
| Paths.ShopRoutes | internal/metrics/middleware.go:89-110 | the pages of the shop keep their own labels |
| Paths.OperatorRoutes | internal/metrics/middleware.go:89-110 | the pages of its operators keep their own labels |
| Paths.SanitizeIsStable | internal/metrics/middleware.go:116-122 | a label is a known route or unknown, and sanitising a normalised path or a label changes nothing |

## Left out

- HTTP routing, JSON encoding, status codes, templates, cookies, CSRF, logging, tracing and configuration.
- Go's pointers inside maps: carts, buckets and entries are values in a map field, since no caller keeps a pointer to them.
- The Redis repository is a state machine over commands, not a class: its methods interleave, so what one call does to
  the shared keyspace is stated per event. Its sequential loop over the lines is the method `Stock.TakeLines`.
- Floating point: prices, totals, rates and tokens are exact; the sorted-set score is any function of the creation time,
  and theorems that need it ask for monotonicity only.
- Time inside one operation: all stamps of one checkout attempt share one clock reading.
- Item identifiers; order and call identifiers are chosen fresh by the events, and a new article's
  identifier is one that nothing stored, under edit or being listed mentions.
- Lost replies and reconnects: each command and each SQL transaction happens once or not at all.
- Retries of the JSON layer and cart clearing after payment. `POST /orders` does not look for a pending order, so its calls
  for a wallet lie outside `Submits.OnePendingPerWallet`.
- Deleting an article that PostgreSQL order items refer to, and hash reuse after an update to no hash on that backend.
- Chain reorganisations, RPC errors and hex decoding: mined transactions never change, and the decoding of hash texts is
  any function.
- SHA-256, sorting and directory listing in the migration runner: files come sorted, with distinct names and given checksums.
- The article listing of PostgreSQL as SQL text: `Listing.PgList` is the meaning of the query built.
- Case folding of addresses beyond the letters A to Z, which no address contains.
- Visitor tracking, Prometheus gauges, health checks, wallet format and client key extraction.
