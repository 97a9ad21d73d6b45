# Elo-boost marketplace: a verified model

Dafny 4.11 models of the parts of the elo-boost marketplace that hold real state, protocols or
arithmetic, with proofs about every input, every run and every interleaving. `dafny verify dfyconfig.toml`
checks the whole project.

## What is modelled

- **Quote checkout** (`Checkout.dfy`, `CheckoutAlone.dfy`, `CheckoutInvariants.dfy`, `CheckoutRuns.dfy`,
  `CheckoutFirstOrders.dfy`, `CheckoutRevival.dfy`). Checkout, separate consumption, restoration, the two-phase
  cleanup and saves of stale orders as concurrent transactions. Each statement is one step at Postgres'
  read-committed isolation: reads see committed rows, row locks last until the transaction ends, a conditional
  write that had to wait looks at its row again, and an inserted order shares its client's user row through the
  foreign key. `Next` is one step, `Run` any sequence of them. Clients, quotes, orders, coupons and transactions
  are unbounded in number. `CheckoutAlone` says what each call does when no other transaction holds a row it
  needs, the others what holds over all interleavings.
- **Orders and their two persistence paths** (`Orders.dfy`, `OrderPersistence.dfy`). The order entity as a
  class, and its storage under stale reads, two-statement full saves and guarded partial writes.
- **Window throttler** (`Throttler.dfy`, `ThrottlerProperties.dfy`). The storage as a class with its map of
  windows and deleting sweep, against a never-pruned window per key.
- **Live notifications** (`Notifications.dfy`, `NotificationRows.dfy`, `NotificationMirror.dfy`,
  `NotificationCursor.dfy`). The server's table and the events each change emits, and the browser's list that
  applies them.
- **Pricing** (`PricingTables.dfy`, `VersionedPricing.dfy`, `PricingInPrices.dfy`, `PricingVersions.dfy`). From
  version rows in any database order to a price, what that price is in step prices, LP and PDL, and the life of
  a version.
- **Money chain** (`Money.dfy`, `Payments.dfy`, `MoneyChain.dfy`). Cents with the safe-integer guard, coupon
  discount, booster share, payment status, and the chain from a price to a wallet credit.
- **Wallet** (`Wallet.dfy`, `WalletProperties.dfy`). Two cached balances against the ledger they summarise.
- **Outbox** (`Outbox.dfy`, `OutboxRuns.dfy`, `OutboxDelivery.dfy`). Dispatcher and store as classes, draining
  at one instant, every run with failures and crashes, and that due events keep being attempted.
- **Chat paging** (`Chat.dfy`). Cursor pages of a chat that grows while it is read.

Code that changes an object or a table in place is a class whose methods are proved against specification
functions, and the lemmas are about those functions. Each main operation also has a lemma
that says what it does in the columns of the rows, without the operation's own helpers (`MarkReadExpected`,
`BelowMaster`, `ReleaseTouchesOnlyMatching`, `FetchPendingIs`, `CallOutcome`, …). Where calls interleave, in the checkout and in order
persistence, each statement is a step of a state machine over the committed rows instead. `Prelude.dfy`
holds results, options and facts about sequences that several modules share.

## What turned out not to hold

- The documentation promises boosters exactly 70% of each sale. The code rounds to whole cents, so this holds
  if and only if the sale is a multiple of ten cents (`ShareIsExactIff`); otherwise the share is the nearest cent.
- Stored credentials can outlive a cancellation (`CredentialsCanOutliveCancellation`). That happens exactly when
  another request stores credentials of the order between the two statements of a save and nobody deletes them
  before the save commits a status that may not have any (`AlwaysRightIff`).
- Stored statuses do not always follow the order entity's transitions: a stale full save can bring a cancelled
  order back (`StaleSaveRevivesCancelledOrder`). They follow exactly when each save writes a status that follows
  from the row's current one (`AlwaysFollowIff`), as they do when no other save of the order commits between a
  request's read and its save (`CurrentSavesFollow`).
- Because of such saves a client can end up with two live first-order-coupon orders
  (`StaleSaveEndsInTwoFirstOrders`). `AlwaysFirstIff` says exactly which saves are safe, counting the checkouts
  that are past their check and not committed yet.
- The browser's list equals the server's exactly as long as no notification moves down past the eleventh
  (`UpdateMirrorsIff`). Events do not carry the paging cursor; it stays right exactly as long as the last listed
  notification stays last (`CursorStaysRightIff`).
- A wallet release that would lift the withdrawable balance over the safe integers throws half way and loses
  track of an amount (`ReleaseMoves`, `OverflowReachable`). This is the entity in memory: the balance columns are
  four-byte integers, so no saved wallet comes near that bound.
- An interval as long as a throttling window can hold nearly twice the limit (`BoundIsReached`).

## Model

| member | source | states |
|---|---|---|
| CheckoutFirstOrders.AlwaysFirstIff | apps/api/src/modules/orders/infrastructure/repositories/prisma-order-checkout.repository.ts:307-340 | over every interleaving of statements and saves of stale orders: each client has at most one live order made with a first-order coupon, and no live order while such a checkout is past its check, throughout, if and only if every save on the way fits: it does not revive a cancelled order while such a checkout of its client is open or beside another live first-order-coupon order |
| CheckoutFirstOrders.OneFirstOrderPerClient | apps/api/src/modules/orders/infrastructure/repositories/prisma-order-checkout.repository.ts:307-340 | in every interleaving whose saves fit, two orders of one client that are not cancelled and were made with first-order coupons are the same order |
| CheckoutFirstOrders.FirstOrderIsTheOnlyOne | apps/api/src/modules/orders/infrastructure/repositories/prisma-order-checkout.repository.ts:325-339 | in every such interleaving an order with a first-order coupon only ever appears for a client who has no live order at all |
| CheckoutFirstOrders.NextKeepsFirstIff | apps/api/src/modules/orders/infrastructure/repositories/prisma-order-checkout.repository.ts:189-340 | every single step keeps first orders right if and only if it is not a save that does not fit |
| CheckoutFirstOrders.CancelledStaysGuards | apps/api/src/modules/orders/domain/order.entity.ts:12-24 | saves fit in every interleaving in which none brings a cancelled order back, as the transitions promise |
| CheckoutFirstOrders.OthersUnchecked | packages/database/prisma/migrations/20260306154805_add_users_profiles_wallets_coupons_chat_and_support_systems/migration.sql:259 | an inserted order shares its client's user row through the foreign key, so no other first-order-coupon checkout of that client is past its check |
| CheckoutFirstOrders.CreateOrderFirst | packages/database/prisma/migrations/20260306154805_add_users_profiles_wallets_coupons_chat_and_support_systems/migration.sql:259 | an order placed outside the checkout waits for the user row and so never lands beside a passed check |
| CheckoutFirstOrders.CheckOrdersFirst | apps/api/src/modules/orders/infrastructure/repositories/prisma-order-checkout.repository.ts:325-339 | passing the check under the user lock establishes that the client has no live order |
| CheckoutFirstOrders.RevivalBesideOpenCheck | apps/api/src/modules/orders/infrastructure/repositories/prisma-order.repository.ts:593-633 | reviving a cancelled order of the client right before such a checkout commits leaves first-order orders as they were, but the commit goes through beside a live order, and gives the client two first-order-coupon orders if the revived one has such a coupon |
| CheckoutRevival.StaleSaveEndsInTwoFirstOrders | apps/api/src/modules/orders/infrastructure/repositories/prisma-order.repository.ts:593-633 | a run from an empty database, fitting up to a single stale save, that ends in two live first-order-coupon orders of one client |
| CheckoutAlone.LoneCleanup | apps/api/src/modules/orders/infrastructure/repositories/prisma-order-quote.repository.ts:147-172 | a cleanup of rows nobody else holds deletes exactly min(limit, matching) of the quotes without consumption instant and order id that expire before the given instant, and none that expires later than one it leaves |
| CheckoutRuns.RestoreKeeps | apps/api/src/modules/orders/infrastructure/repositories/prisma-order-quote.repository.ts:129-145 | a restore whose keys match sets the quote's consumption instant and order id to null and counts as one restore, any other changes nothing; every invariant is kept |
| CheckoutRuns.ConsumptionsAccountedFor | apps/api/src/modules/orders/infrastructure/repositories/prisma-order-quote.repository.ts:110-145 | after every interleaving, a quote was consumed exactly as often as it was restored, plus one if it is consumed now, and checkouts made at most one order more from it than it was restored |
| CheckoutRuns.TalliesCountWrites | apps/api/src/modules/orders/infrastructure/repositories/prisma-order-quote.repository.ts:110-145 | in every run a step counts a consumption exactly when it sets a quote's consumption instant, and a restore exactly when it takes it back |
| CheckoutRuns.ConsumedQuoteOwnsItsOrder | apps/api/src/modules/orders/infrastructure/repositories/prisma-order-checkout.repository.ts:241-255 | consumption instant and order id are set or null together; a consumption happened before the quote expired; a consumed quote names an existing order that no other quote names |
| CheckoutRuns.OnlyDeadQuotesAreDeleted | apps/api/src/modules/orders/infrastructure/repositories/prisma-order-quote.repository.ts:147-172 | whenever a step makes a quote disappear, the quote was neither consumed nor tied to an order, and its expiry had passed |
| CheckoutRuns.OrderCarriesItsQuote | apps/api/src/modules/orders/infrastructure/repositories/prisma-order-checkout.repository.ts:206-239 | an order made from a quote that still exists belongs to the quote's client and carries its coupon |
| CheckoutAlone.LoneCheckout | apps/api/src/modules/orders/infrastructure/repositories/prisma-order-checkout.repository.ts:181-280 | a checkout whose rows nobody else holds succeeds exactly when the quote is the client's, unconsumed and unexpired, the order id is new, and a first-order-only coupon meets a client without an order that is not cancelled; then it writes the order and consumes the quote, otherwise nothing, and the locks of others are as before |
| CheckoutAlone.OrdinaryCheckoutSucceeds | apps/api/src/modules/orders/infrastructure/repositories/prisma-order-checkout.repository.ts:314-319 | a ready quote without a coupon, or with one that is not for first orders only, is checked out whatever orders the client has |
| CheckoutAlone.FirstOrderCheckoutIff | apps/api/src/modules/orders/infrastructure/repositories/prisma-order-checkout.repository.ts:319-339 | a ready quote with a first-order-only coupon is checked out if and only if every order of the client is cancelled, otherwise no row changes |
| CheckoutAlone.CheckoutRefused | apps/api/src/modules/orders/infrastructure/repositories/prisma-order-checkout.repository.ts:191-200 | a foreign, missing, consumed or expired quote, or an order id in use, leaves every row as it was |
| CheckoutAlone.CheckoutWaitsIff | apps/api/src/modules/orders/infrastructure/repositories/prisma-order-checkout.repository.ts:321-323 | a checkout's statement waits exactly while another transaction holds the user row, the order id or the quote it locks |
| CheckoutAlone.LoneConsumption | apps/api/src/modules/orders/infrastructure/repositories/prisma-order-quote.repository.ts:93-127 | a consumption of a quote nobody else holds succeeds exactly when it is the client's, unconsumed and unexpired and the existing order is named by no other quote; otherwise it changes nothing |
| CheckoutRuns.RunKeeps | apps/api/src/modules/orders/infrastructure/repositories/prisma-order-checkout.repository.ts:181-280 | the whole invariant (committed rows and every open transaction) holds after any sequence of steps |
| CheckoutRuns.NextKeeps | apps/api/src/modules/orders/infrastructure/repositories/prisma-order-checkout.repository.ts:189-279 | each single statement, wherever it falls between the statements of other transactions, keeps the invariant |
| CheckoutRuns.CommitCheckoutKeeps | apps/api/src/modules/orders/infrastructure/repositories/prisma-order-checkout.repository.ts:206-279 | publishing the inserted order and the consumed quote together keeps every row invariant, because the check made earlier still holds |
| CheckoutRuns.ConsumeQuoteKeeps | apps/api/src/modules/orders/infrastructure/repositories/prisma-order-checkout.repository.ts:241-255 | the conditional update re-evaluated on the current row leaves the quote locked and consumable until commit |
| CheckoutRuns.AdvanceConsumeKeeps | apps/api/src/modules/orders/infrastructure/repositories/prisma-order-quote.repository.ts:93-127 | reading a quote and then consuming it conditionally on its own keeps every invariant, whatever ran in between |
| CheckoutRuns.DeleteOneKeeps | apps/api/src/modules/orders/infrastructure/repositories/prisma-order-quote.repository.ts:163-169 | the second phase of the cleanup only marks rows that are still unused when it reaches them |
| CheckoutRuns.CommitCleanupKeeps | apps/api/src/modules/orders/infrastructure/repositories/prisma-order-quote.repository.ts:152-171 | the deletions of a cleanup commit without touching a consumed quote |
| CheckoutInvariants.StepCombines | apps/api/src/modules/orders/infrastructure/repositories/prisma-order-checkout.repository.ts:189-279 | non-interference: a step that touches nothing another transaction holds keeps all of their obligations |
| Checkout.AdvanceCheckout | apps/api/src/modules/orders/infrastructure/repositories/prisma-order-checkout.repository.ts:189-279 | before its commit a checkout changes no row anyone else can see, and it never deletes a quote |
| Checkout.AdvanceConsume | apps/api/src/modules/orders/infrastructure/repositories/prisma-order-quote.repository.ts:93-127 | consuming on its own never deletes a quote and never changes an order |
| OrderPersistence.AlwaysRightIff | apps/api/src/modules/orders/infrastructure/repositories/prisma-order.repository.ts:544-633 | over every interleaving of statements, no order awaiting payment, completed or cancelled has stored credentials if and only if no save commits such a status after another request stored credentials of the order past the save's delete and nobody deleted them again |
| OrderPersistence.NextStoresRightlyIff | apps/api/src/modules/orders/infrastructure/repositories/prisma-order.repository.ts:544-633 | a statement keeps the store right if and only if it is not the commit of a save overtaken in that way |
| OrderPersistence.NextTracked | apps/api/src/modules/orders/infrastructure/repositories/prisma-order.repository.ts:598-632 | the saves that are overtaken, told from the statements alone, are those whose commit will find credentials they did not delete |
| OrderPersistence.NoWriteBetweenStoresRightly | apps/api/src/modules/orders/infrastructure/repositories/prisma-order.repository.ts:544-633 | without a credential write between the two statements of a save that leaves the order without any, the store is right throughout |
| OrderPersistence.AtomicSavesStoreRightly | apps/api/src/modules/orders/infrastructure/repositories/prisma-order.repository.ts:544-568 | with each save taken as one step, no interleaving of stale orders, full saves and guarded partial writes stores credentials for such an order |
| OrderPersistence.AlwaysFollowIff | apps/api/src/modules/orders/infrastructure/repositories/prisma-order.repository.ts:604-632 | over every run, stored statuses change only by the allowed transitions, one or several at a time, if and only if each committing save writes a status that follows from the row's current one |
| OrderPersistence.CurrentSavesFollow | apps/api/src/modules/orders/infrastructure/repositories/prisma-order.repository.ts:544-633 | if no other save of an order commits between a request's read and its own save, stored statuses follow the entity's transitions over the whole run |
| OrderPersistence.CurrentSavesFollowDirectly | apps/api/src/modules/orders/infrastructure/repositories/prisma-order.repository.ts:544-633 | if moreover no request moves an order twice before it saves, every stored change is a single transition |
| OrderPersistence.StoredFinalStatusStays | apps/api/src/modules/orders/domain/order.entity.ts:12-24 | an order stored as completed or cancelled then stays so |
| OrderPersistence.StaleSaveRevivesCancelledOrder | apps/api/src/modules/orders/infrastructure/repositories/prisma-order.repository.ts:604-632 | a concrete pair of stale full saves after which a cancelled order is pending again |
| OrderStatuses.ReachesIsTransitions | apps/api/src/modules/orders/domain/order.entity.ts:12-24 | what a status can become is nothing else, or one allowed transition and then the rest |
| OrderPersistence.SaveThenRead | apps/api/src/modules/orders/infrastructure/repositories/prisma-order.repository.ts:544-548 | saving an order and reading it back gives the same order, its pending credentials now stored |
| OrderPersistence.SaveWrites | apps/api/src/modules/orders/infrastructure/repositories/prisma-order.repository.ts:550-633 | a save with nothing beside it writes exactly the order's row, its credentials and the rejection it carries |
| OrderPersistence.RowRoundTrip | apps/api/src/modules/orders/infrastructure/repositories/prisma-order.repository.ts:643-661 | mapping an order to its row and back loses only the pending credentials |
| OrderPersistence.RowColumns | apps/api/src/modules/orders/infrastructure/repositories/prisma-order.repository.ts:852-880 | the columns an order is stored in, an empty summoner name as null |
| OrderPersistence.ReadOrder | apps/api/src/modules/orders/infrastructure/repositories/prisma-order.repository.ts:643-661 | a read takes every column as stored now, holds no credentials in memory and knows whether some are stored |
| OrderPersistence.DeleteStatement | apps/api/src/modules/orders/infrastructure/repositories/prisma-order.repository.ts:593-602 | the first statement of a save locks the stored credentials for deletion exactly when the order in memory has none, and changes nothing else |
| OrderPersistence.CommitStatement | apps/api/src/modules/orders/infrastructure/repositories/prisma-order.repository.ts:604-632 | the second writes the row, stores pending credentials or drops the locked ones, records the rejection and ends the save |
| OrderPersistence.StatementsWait | apps/api/src/modules/orders/infrastructure/repositories/prisma-order.repository.ts:593-632 | while another save has the credentials locked each statement of a save, and the partial write, waits |
| OrderPersistence.CreatedOrder | apps/api/src/modules/orders/domain/order.entity.ts:92-120 | a new order awaits its payment, without booster or credentials |
| OrderPersistence.PartialWriteKeepsRow | apps/api/src/modules/orders/infrastructure/repositories/prisma-order.repository.ts:570-591 | the partial write stores the pending credentials and the summoner name of the order in memory, null when empty, exactly when the stored status is pending or in progress; status, booster, deadline and completion are never written back |
| OrderPersistence.SaveIsGuarded | apps/api/src/modules/orders/infrastructure/repositories/prisma-order.repository.ts:593-633 | a whole save, run without a partial write inside it, always meets the guard |
| OrderPersistence.NextKeepsSessions | apps/api/src/modules/orders/domain/order.entity.ts:178-271 | orders in memory hold credentials rightly and locks belong to deleting saves, after every statement |
| OrderPersistence.CredentialsCanOutliveCancellation | apps/api/src/modules/orders/infrastructure/repositories/prisma-order.repository.ts:598-632 | a concrete interleaving of statements after which a cancelled order has stored credentials |
| Orders.RunKeepsFinalStatus | apps/api/src/modules/orders/domain/order.entity.ts:12-24 | over every run of entity calls completed and cancelled are final, the completion instant moves only into completed, and credentials are held only while pending or in progress |
| Orders.HandleHoldsRightly | apps/api/src/modules/orders/domain/order.entity.ts:236-271 | no accepted entity call leaves credentials on an order whose status may not hold them |
| Orders.CallOutcome | apps/api/src/modules/orders/domain/order.entity.ts:210-279 | for every call and every status: accepted or refused with which error, and the whole order afterwards |
| Orders.Order.Confirm | apps/api/src/modules/orders/domain/order.entity.ts:210-212 | confirming succeeds exactly while awaiting payment and makes the order wait for a booster; otherwise it throws and changes nothing |
| Orders.Order.Reject | apps/api/src/modules/orders/domain/order.entity.ts:214-220 | a booster rejection is accepted exactly in the pending status and changes nothing |
| Orders.Order.Accept | apps/api/src/modules/orders/domain/order.entity.ts:222-226 | accepting succeeds exactly while waiting for a booster, starts the order and sets the deadline when there are request details |
| Orders.Order.Assign | apps/api/src/modules/orders/domain/order.entity.ts:228-230 | assignment changes the booster and nothing else |
| Orders.Order.ClearAssignment | apps/api/src/modules/orders/domain/order.entity.ts:232-234 | clearing the assignment changes the booster and nothing else |
| Orders.Order.Finish | apps/api/src/modules/orders/domain/order.entity.ts:236-240 | completing succeeds exactly in progress, clears the credentials and stamps the instant; otherwise it throws and changes nothing |
| Orders.Order.CancelOrder | apps/api/src/modules/orders/domain/order.entity.ts:242-251 | cancelling succeeds exactly while awaiting payment or a booster and clears the credentials; otherwise it throws and changes nothing |
| Orders.Order.Hold | apps/api/src/modules/orders/domain/order.entity.ts:253-266 | credentials are taken only while pending or in progress and mirror the summoner name |
| Orders.Order.Clear | apps/api/src/modules/orders/domain/order.entity.ts:268-271 | both the pending and the stored credentials are forgotten |
| Orders.Order.TransitionTo | apps/api/src/modules/orders/domain/order.entity.ts:273-279 | the status moves exactly along the allowed transitions |
| ThrottlerProperties.PruningIsInvisible | apps/api/src/common/http/window-throttler.storage.ts:13-76 | for every call sequence with a non-decreasing clock, each record equals the one a never-pruned window fed only that key's calls returns |
| ThrottlerProperties.StateAgreesWithReplay | apps/api/src/common/http/window-throttler.storage.ts:47-75 | the stored map agrees, key by key, with replaying that key alone, up to windows that are already dead |
| ThrottlerProperties.AtMostTwiceTheLimit | apps/api/src/common/http/window-throttler.storage.ts:29-35 | under the guard's settings any half-open interval as long as the window lets through at most 2 * limit - 1 calls of a key (none for limit 0) |
| ThrottlerProperties.BoundIsReached | apps/api/src/common/http/window-throttler.storage.ts:29-65 | that bound is reached for every limit of at least one and every window of at least two milliseconds |
| ThrottlerProperties.BlockHolds | apps/api/src/common/http/window-throttler.storage.ts:32-35 | after the first blocked call at t no call of the key is let through before t + ttl |
| ThrottlerProperties.BlockBegins | apps/api/src/common/http/window-throttler.storage.ts:34 | a block starts with an expiry exactly one block duration after the call that caused it |
| ThrottlerProperties.PoliteKeysPass | apps/api/src/common/http/window-throttler.storage.ts:29-65 | a guarded key that never calls more than the limit within a window length is never blocked |
| ThrottlerProperties.RecordMeans | apps/api/src/common/http/window-throttler.storage.ts:37-44 | the record's times are the remaining milliseconds in whole seconds rounded up, and a block is reported exactly while it has time left |
| ThrottlerProperties.WindowShape | apps/api/src/common/http/window-throttler.storage.ts:47-66 | what every reachable window of a guarded key looks like |
| ThrottlerProperties.StorageMatchesPrivate | apps/api/src/common/http/window-throttler.storage.ts:22-45 | the calls the shared storage lets through for a key are those a private window lets through |
| ThrottlerProperties.StorageLimitsEveryKey | apps/api/src/common/http/configurable-throttler.guard.ts:39-47 | the 2 * limit - 1 bound holds for each guarded key of the shared, pruned storage whatever the other keys do |
| Throttler.WindowThrottlerStorage.Increment | apps/api/src/common/http/window-throttler.storage.ts:22-45 | the stored windows and the returned record are exactly those of the specified step |
| Throttler.WindowThrottlerStorage.ResolveWindow | apps/api/src/common/http/window-throttler.storage.ts:47-66 | a live window is returned as it is; otherwise dead windows may be swept and a fresh one is stored |
| Throttler.WindowThrottlerStorage.Prune | apps/api/src/common/http/window-throttler.storage.ts:71-75 | the deleting loop removes exactly the windows that neither count nor block any more |
| Throttler.WindowThrottlerStorage.Register | apps/api/src/common/http/window-throttler.storage.ts:58-63 | a fresh window replaces whatever the key had and no other key changes |
| Throttler.ThrottleWindow.CountHit | apps/api/src/common/http/window-throttler.storage.ts:32-35 | a hit counts unless a block runs, and one over the limit starts a block |
| Throttler.CallOutcome | apps/api/src/common/http/window-throttler.storage.ts:22-66 | a key's window after a call: fresh with one hit when none is alive, untouched while blocked, one hit more below the limit, blocked for the block duration from the call on otherwise |
| Throttler.OthersKept | apps/api/src/common/http/window-throttler.storage.ts:56-75 | another key's window stays as it is unless the call opens a fresh window among ten thousand keys or more and the other's has expired and blocks no longer |
| NotificationMirror.BrowserMirrorsServer | apps/web/src/modules/notifications/presentation/notification-live-state.ts:8-42 | from a fresh listing on, after any run of upserts, read marks and read-alls delivered in order the browser shows the server's first ten: same order, read flags and unread count |
| NotificationMirror.UpdateMirrorsIff | apps/web/src/modules/notifications/presentation/notification-live-state.ts:8-23 | one update event keeps the browser equal to the server if and only if the moved notification stays listed; the browser cannot know the eleventh |
| NotificationMirror.TopPutIff | apps/web/src/modules/notifications/presentation/notification-live-state.ts:13-21 | re-sorting only the listed ten after one change gives the server's first ten exactly when that notification stays listed |
| NotificationMirror.ForwardActivityStaysListed | apps/api/src/modules/notifications/infrastructure/repositories/prisma-notification.repository.ts:224-228 | new notifications, and ones whose activity instant does not move backwards, stay listed |
| NotificationMirror.ReadAllMirrors | apps/web/src/modules/notifications/presentation/notification-live-state.ts:25-42 | a read-all event marks locally exactly what the server's guarded update marked |
| NotificationMirror.StepMirrors | apps/api/src/modules/notifications/infrastructure/repositories/prisma-notification.repository.ts:102-235 | each committed change and its event keep the browser equal to the server |
| NotificationMirror.RedeliveryIsInvisible | apps/web/src/modules/notifications/presentation/notification-live-state.ts:8-42 | applying the latest event a second time changes nothing |
| NotificationCursor.CursorStaysRightIff | apps/web/src/modules/notifications/presentation/notification-live-state.ts:16-22 | a live list whose cursor is right has the right one after an event if and only if the change leaves the server's last listed notification last; read marks and read-alls always do |
| NotificationCursor.PutCursorIff | apps/api/src/modules/notifications/infrastructure/repositories/prisma-notification.repository.ts:90-97 | the server's cursor is the same after a change exactly when everything still fits one page, a new notification comes in below the last listed one, one listed above it stays above, one below stays below, or the last listed itself stays between its neighbours |
| NotificationCursor.LatestActivityCursorIff | apps/api/src/modules/notifications/infrastructure/repositories/prisma-notification.repository.ts:224-228 | when nothing was active later, an upsert leaves the cursor right exactly when everything fits one page afterwards or the notification was already listed above the last place |
| NotificationMirror.NextEventRestoresCount | apps/api/src/modules/notifications/infrastructure/repositories/prisma-notification.repository.ts:65-77 | whatever unread count the browser shows, the next event whose count is right makes its list equal to the server's again |
| NotificationMirror.FreshListingMirrors | apps/api/src/modules/notifications/infrastructure/repositories/prisma-notification.repository.ts:79-100 | replacing the live list by a fresh first page makes it equal to the server |
| LiveNotifications.PutReinserts | apps/web/src/modules/notifications/presentation/notification-live-state.ts:13-20 | setting an entry by id and sorting is removing that id and inserting the new value in order |
| LiveNotifications.OrderedIs | apps/web/src/modules/notifications/presentation/notification-live-state.ts:49-58 | with unique ids the comparator has exactly one sorted arrangement |
| NotificationServer.UpsertMakesUnread | apps/api/src/modules/notifications/infrastructure/repositories/prisma-notification.repository.ts:207-228 | an upsert leaves one row per aggregate key: the key's is unread, active now and carries the payload, every other is as it was |
| NotificationServer.MarkReadKeepsFirst | apps/api/src/modules/notifications/infrastructure/repositories/prisma-notification.repository.ts:154-169 | without an expected activity a second read mark keeps the first read instant |
| NotificationServer.MarkAllReadLeavesNewer | apps/api/src/modules/notifications/infrastructure/repositories/prisma-notification.repository.ts:178-190 | after a read-all exactly the rows active after the cutoff that were unread are unread, and read rows keep their instant |
| NotificationServer.NotificationTable.UpsertRow | apps/api/src/modules/notifications/infrastructure/repositories/prisma-notification.repository.ts:207-235 | an upsert by aggregate key inserts or makes unread and active again, and emits one update event with the new unread count |
| NotificationServer.NotificationTable.MarkReadRow | apps/api/src/modules/notifications/infrastructure/repositories/prisma-notification.repository.ts:102-170 | missing exactly when no row has the id; under a matching expected activity the read instant is overwritten, without one an earlier instant is kept; changed and missing rows write and emit nothing |
| NotificationRows.MarkReadExpected | apps/api/src/modules/notifications/infrastructure/repositories/prisma-notification.repository.ts:126-152 | with the row's own activity expected, its read instant becomes the given one, the unread count falls by one if it was unread, every other row is as it was, and the event carries the row and that count |
| NotificationRows.MarkReadOvertaken | apps/api/src/modules/notifications/infrastructure/repositories/prisma-notification.repository.ts:126-145 | with another activity expected the answer is changed, nothing is written and nothing emitted |
| NotificationRows.MarkReadUnconditional | apps/api/src/modules/notifications/infrastructure/repositories/prisma-notification.repository.ts:154-169 | with no activity expected an unread row gets the instant and a read one keeps its own |
| NotificationRows.MarkReadMissing | apps/api/src/modules/notifications/infrastructure/repositories/prisma-notification.repository.ts:135-160 | an id of no row is answered as missing, nothing is written and nothing emitted |
| NotificationRows.UpsertRefreshes | apps/api/src/modules/notifications/infrastructure/repositories/prisma-notification.repository.ts:224-232 | an upsert of a key that exists gives its row the payload, makes it unread and active now, and counts one unread more if it was read |
| NotificationRows.UpsertAdds | apps/api/src/modules/notifications/infrastructure/repositories/prisma-notification.repository.ts:209-223 | an upsert of a new key adds one unread row, created and active now |
| NotificationRows.MarkAllReadMarks | apps/api/src/modules/notifications/infrastructure/repositories/prisma-notification.repository.ts:172-205 | exactly the unread rows active by the cutoff get the read instant, and the event carries how many stay unread |
| NotificationRows.CountUnreadCounts | apps/api/src/modules/notifications/infrastructure/repositories/prisma-notification.repository.ts:47-63 | the unread count is the number of rows without a read instant |
| NotificationRows.FirstPageIs | apps/api/src/modules/notifications/infrastructure/repositories/prisma-notification.repository.ts:79-100 | a first page is the start of the rows by activity and then id, newest first; its cursor is its last id exactly when rows are left over |
| NotificationRows.OrderedIsNewestFirst | apps/api/src/modules/notifications/infrastructure/repositories/prisma-notification.repository.ts:85-86 | the listing order of rows with unique ids is by activity and then id, strictly descending |
| NotificationRows.ApplyUpdatedIs | apps/web/src/modules/notifications/presentation/notification-live-state.ts:8-23 | an update leaves the ten newest of the listed notifications with the updated one in place of its older self, and keeps the cursor |
| NotificationRows.ApplyReadAllIs | apps/web/src/modules/notifications/presentation/notification-live-state.ts:25-42 | a read-all event marks exactly the listed unread notifications active by its cutoff |
| NotificationServer.NotificationTable.MarkAllReadRows | apps/api/src/modules/notifications/infrastructure/repositories/prisma-notification.repository.ts:172-205 | exactly the unread rows up to the cutoff are marked; the answered count is how many fewer are unread, and the unread count is that of the rows active later |
| PriceTables.LadderPrefix | apps/api/src/modules/orders/infrastructure/repositories/prisma-order-pricing-version.repository.ts:278-320 | a complete, duplicate-free version read back in any database order prices exactly the ladder, rank by rank, in the first positions of each service's table |
| PriceTables.TableInRankOrder | apps/api/src/modules/orders/infrastructure/repositories/prisma-order-pricing-version.repository.ts:302-314 | sorting and then keeping one service puts ladder ranks strictly upwards and unknown ranks last |
| PriceTables.LadderPartPermutation | apps/api/src/modules/orders/infrastructure/repositories/prisma-order-pricing-version.repository.ts:295-314 | two database orders of the same rows give tables that differ at most in the order of their unknown ranks |
| VersionedPricing.RowOrderIrrelevant | apps/api/src/modules/orders/infrastructure/repositories/prisma-order-pricing-version.repository.ts:278-320 | every calculation between ladder ranks is the same for every order in which the database returns steps and extras |
| VersionedPricing.CompleteVersionPrices | apps/api/src/modules/orders/application/order-pricing-version.rules.ts:27-47 | on a complete, duplicate-free version a ladder request with known extras is never refused as unpriced or incomplete |
| VersionedPricing.AcceptsOnlyHigher | apps/api/src/modules/orders/infrastructure/pricing/versioned-order-pricing.service.ts:57-78 | only a desired rank strictly above the current one, comparing PDL inside Master, is ever priced |
| VersionedPricing.AcceptsEveryHigher | apps/api/src/modules/orders/infrastructure/pricing/versioned-order-pricing.service.ts:57-78 | from a rank below Master at 99 LP or less every higher priced rank is accepted when the current step costs at least 51 cents |
| VersionedPricing.NextRankAlwaysAcceptedIff | apps/api/src/modules/orders/infrastructure/pricing/versioned-order-pricing.service.ts:64-78 | a request for the next rank is accepted at every LP from 0 to 99 if and only if the current step costs at least 51 cents |
| VersionedPricing.PricingTelescopes | apps/api/src/modules/orders/infrastructure/pricing/versioned-order-pricing.service.ts:62-78 | once a to b is accepted, a to c costs a to b plus b at 0 LP to c, for every c above b, Master included |
| VersionedPricing.AcceptedBase | apps/api/src/modules/orders/infrastructure/pricing/versioned-order-pricing.service.ts:57-78 | an accepted base is the value standing at the desired rank less the value standing at the current one, and positive; what the values are in prices and LP is said by the PricingInPrices rows |
| PricingInPrices.BelowMaster | apps/api/src/modules/orders/infrastructure/pricing/versioned-order-pricing.service.ts:57-78 | between divisions an accepted base is the sum of the prices from the current entry up to the desired one less the LP's share of the first price, within half a cent, and the exact half in the client's favour |
| PricingInPrices.InsideMaster | apps/api/src/modules/orders/infrastructure/pricing/versioned-order-pricing.service.ts:160-193 | inside Master an accepted base is the price of the PDL aimed at less that of the PDL won, each to the nearest cent |
| PricingInPrices.AcceptedBaseInCents | apps/api/src/modules/orders/infrastructure/pricing/versioned-order-pricing.service.ts:57-78 | every accepted base, to the cent: the steps climbed, the PDL aimed at in Master, less the part already earned |
| PricingInPrices.BaseInCents | apps/api/src/modules/orders/infrastructure/pricing/versioned-order-pricing.service.ts:57-78 | with amounts that fit, a request between priced places is accepted if and only if that difference is positive |
| PricingInPrices.PartIsNearest | packages/shared/src/money/money.ts:44-48 | a part of a step's price is the nearest whole cent, and exactly half a cent counts as one |
| PricingInPrices.PriceFromRows | apps/api/src/modules/orders/infrastructure/pricing/versioned-order-pricing.service.ts:35-106 | a calculation on a complete version from its stored rows: the prices of the ranks passed, the PDL aimed at, less the part earned; each extra at the nearest cent to its own rate of that base; the subtotal is the sum |
| PricingInPrices.ExtrasPricedByRate | apps/api/src/modules/orders/infrastructure/pricing/versioned-order-pricing.service.ts:80-93 | each extra is priced in the order asked for, at the nearest cent to the rate of its own row |
| PricingInPrices.UnpricedRefused | apps/api/src/modules/orders/infrastructure/pricing/versioned-order-pricing.service.ts:143-182 | a rank without an entry is refused as unpriced, unless Master is aimed at |
| PricingInPrices.CalculationRefused | apps/api/src/modules/orders/infrastructure/pricing/versioned-order-pricing.service.ts:38-42 | other services, a missing active version and a version without steps for the service are refused, each with its error |
| PricingInPrices.UnknownExtraRefused | apps/api/src/modules/orders/infrastructure/pricing/versioned-order-pricing.service.ts:80-87 | one extra that the shared list or the version does not know refuses the whole calculation |
| VersionedPricing.SubtotalNearRates | apps/api/src/modules/orders/infrastructure/pricing/versioned-order-pricing.service.ts:80-97 | with n extras the subtotal is at least the base and within n/2 cents of base * (1 + their rates) |
| VersionedPricing.ExtrasOrderIrrelevant | apps/api/src/modules/orders/infrastructure/pricing/versioned-order-pricing.service.ts:80-97 | the subtotal, or its refusal, does not depend on the order of the extras |
| VersionedPricing.RatesPermutation | apps/api/src/modules/orders/infrastructure/pricing/versioned-order-pricing.service.ts:84-87 | the extras' prices do not depend on the order of the version's extra rows |
| MoneyChain.PricesOnlyHigherRanks | apps/api/src/modules/orders/infrastructure/pricing/versioned-order-pricing.service.ts:35-106 | on stored rows in any order a calculated price implies a rank strictly above the current one |
| MoneyChain.PricesEveryHigherRank | apps/api/src/modules/orders/infrastructure/pricing/versioned-order-pricing.service.ts:35-106 | on a complete version every higher rank is priced from 99 LP or less when the current step costs at least 51 cents, unless an amount leaves the safe integers |
| MoneyChain.DiscountHonoured | apps/api/src/modules/orders/application/services/order-coupon.service.ts:185-206 | what a price of at least one cent promises client, booster and wallet survives any accepted coupon |
| MoneyChain.CalculatedPricePositive | apps/api/src/modules/orders/infrastructure/pricing/versioned-order-pricing.service.ts:94-105 | a calculated price is at least one cent, with no discount yet |
| MoneyChain.QuoteCanBePaidAndCredited | apps/api/src/modules/orders/application/services/order-coupon.service.ts:185-206 | for every calculated price, with or without an accepted coupon: discount and total make up the subtotal, the total is between min(50, subtotal) and the subtotal, the payment accepts it, the booster share is between one cent and the total, and the wallet refuses the credit only when its own balance would overflow |
| RankLadder.LadderIndex | packages/shared/src/orders/order-rank-progression.ts:11-41 | the sort position used in proofs is the index of a rank in the shared table, and only ladder ranks have one |
| PricingVersionRules.HasDuplicateSteps | apps/api/src/modules/orders/presentation/orders-pricing-admin.request-schemas.ts:17-36 | true exactly when two steps share service and rank |
| PricingVersionRules.HasDuplicateExtras | apps/api/src/modules/orders/presentation/orders-pricing-admin.request-schemas.ts:38-46 | true exactly when two extras share their type |
| PricingVersions.RunKeepsValid | apps/api/src/modules/orders/infrastructure/repositories/prisma-order-pricing-version.repository.ts:120-268 | over every run of create, replace, activate and quote calls at most one version is active and every past quote is reproducible from the version it names |
| PricingVersions.StepRowsEvolve | apps/api/src/modules/orders/infrastructure/repositories/prisma-order-pricing-version.repository.ts:188-268 | a version leaves draft once, keeps its prices from then on and never leaves archived |
| PricingVersions.StepKeepsOneActive | apps/api/src/modules/orders/infrastructure/repositories/prisma-order-pricing-version.repository.ts:243-255 | each call keeps at most one version active |
| PricingVersions.NeverConflicts | apps/api/src/modules/orders/infrastructure/repositories/prisma-order-pricing-version.repository.ts:120-130 | after every run reading the active version finds one or none, never a conflict |
| PricingVersions.EvolutionKeepsQuote | apps/api/src/modules/orders/infrastructure/repositories/prisma-order-pricing-version.repository.ts:188-200 | a calculation on a version named by a past quote gives the same price after any further calls |
| PricingVersions.NewQuoteReproducible | apps/api/src/modules/orders/infrastructure/pricing/versioned-order-pricing.service.ts:41-105 | a new quote names a version that reproduces its price |
| PricingVersions.PricingVersionRepository.CreateDraftVersion | apps/api/src/modules/orders/infrastructure/repositories/prisma-order-pricing-version.repository.ts:150-186 | adds one draft row and answers its sorted snapshot |
| PricingVersions.PricingVersionRepository.ReplaceDraftVersion | apps/api/src/modules/orders/infrastructure/repositories/prisma-order-pricing-version.repository.ts:188-227 | replaces prices of an existing draft only; otherwise the right error and no change |
| PricingVersions.PricingVersionRepository.ActivateVersion | apps/api/src/modules/orders/infrastructure/repositories/prisma-order-pricing-version.repository.ts:229-268 | archives the active version, activates a draft and answers its sorted snapshot; otherwise the right error and no change |
| PricingVersions.ActivateWrites | apps/api/src/modules/orders/infrastructure/repositories/prisma-order-pricing-version.repository.ts:229-268 | activating a draft makes it active from the given instant, archives the active one, leaves the rest, and it is what the active lookup then answers; anything else is immutable |
| PricingVersions.ReplaceWrites | apps/api/src/modules/orders/infrastructure/repositories/prisma-order-pricing-version.repository.ts:188-227 | replacing changes a draft's steps and extras and nothing else; anything else is immutable |
| PricingVersions.UnknownVersionRefused | apps/api/src/modules/orders/infrastructure/repositories/prisma-order-pricing-version.repository.ts:198-239 | an id of no version is refused as not found |
| PricingVersions.OneActive | apps/api/src/modules/orders/infrastructure/repositories/prisma-order-pricing-version.repository.ts:120-130 | the lookup answers the one active version with its own steps and extras |
| PricingVersions.NoneActive | apps/api/src/modules/orders/infrastructure/repositories/prisma-order-pricing-version.repository.ts:120-130 | it answers nothing exactly when no version is active |
| PricingVersions.TwoActive | apps/api/src/modules/orders/infrastructure/repositories/prisma-order-pricing-version.repository.ts:127 | it reports a conflict when two versions are active |
| MoneyCents.RoundNearest | packages/shared/src/money/money.ts:74-76 | rounding moves a value by at most half a cent, an exact half away from zero, keeps its sign and is odd |
| MoneyCents.RoundMonotone | packages/shared/src/money/money.ts:74-76 | rounding keeps order |
| MoneyCents.PercentageNear | packages/shared/src/money/money.ts:44-48 | an accepted percentage is within half a cent of the exact product and of its sign |
| MoneyCents.PartOfAmount | packages/shared/src/money/money.ts:44-48 | a rate between zero and one is never refused and never yields more than the amount |
| MoneyCents.GuardIs | packages/shared/src/money/money.ts:11-16 | amounts up to 2^53 - 1 either way are accepted, all others refused |
| Coupons.DiscountSplitsSubtotal | apps/api/src/modules/orders/application/services/order-coupon.service.ts:185-206 | discount and total make up the subtotal, the discount is not negative and the total is not below min(50, subtotal) |
| Coupons.DiscountIsNominalUnlessClamped | apps/api/src/modules/orders/application/services/order-coupon.service.ts:189-203 | the client gets the named percentage or amount to the nearest cent, unless that would take the total below min(50, subtotal), where it stops |
| Coupons.DiscountAccepted | apps/api/src/modules/orders/application/services/order-coupon.service.ts:185-206 | a valid coupon within the schema's limits is never refused by the money guards |
| Coupons.CouponApplied | apps/api/src/modules/orders/application/services/order-coupon.service.ts:185-206 | without a coupon the pricing stays, a coupon that names no real discount is refused, any other takes off its nominal discount in cents but leaves 50 cents, or the whole subtotal if it is smaller |
| Payments.ShareIsNearest | apps/api/src/modules/payments/domain/payment.entity.ts:43-55 | the share exists for every positive safe amount and is the nearest whole cent to 70%, halves up |
| Payments.ShareIsExactIff | docs/requirements.md:192 | the documented "exactly 70%" holds if and only if the amount is a multiple of ten cents |
| Payments.ShareRefused | apps/api/src/modules/payments/domain/payment.entity.ts:43-55 | an amount that is not positive, or not a safe integer, has no share |
| Payments.SharesNearSeventyPercent | apps/api/src/modules/payments/domain/payment.entity.ts:52-54 | over any list of payments the booster totals stay within half a cent per payment of 70% |
| Payments.ReleasedOnlyAfterHold | apps/api/src/modules/payments/domain/payment.entity.ts:163-194 | money is released only by a release for a completed order that follows a confirmation |
| Payments.Payment.Create | apps/api/src/modules/payments/domain/payment.entity.ts:43-71 | creates an awaiting payment with exactly the specified booster share and nothing from the gateway, or refuses the amount |
| Payments.Payment.AttachGatewayDetails | apps/api/src/modules/payments/domain/payment.entity.ts:139-161 | id and status are always written, each of the five optional fields is kept when absent and overwritten when given, also by null |
| Payments.Payment.Apply | apps/api/src/modules/payments/domain/payment.entity.ts:163-186 | confirm, fail and release change the status exactly as specified or change nothing |
| Payments.EventOutcome | apps/api/src/modules/payments/domain/payment.entity.ts:163-194 | for every event and every status: the status afterwards, or which error |
| Payments.Payment.MoveTo | apps/api/src/modules/payments/domain/payment.entity.ts:188-194 | the status moves exactly along the allowed transitions |
| WalletProperties.RunConserves | apps/api/src/modules/wallet/domain/wallet.entity.ts:71-183 | over every run of credits, releases, withdrawals and reloads within the safe total both balances match the ledger and stay non-negative, locked + withdrawable + withdrawn is everything credited, and no call answers with a money overflow |
| WalletProperties.ApplyKeeps | apps/api/src/modules/wallet/domain/wallet.entity.ts:71-178 | each call keeps balances and ledger consistent and adds exactly what it credits |
| WalletProperties.ReleaseMoves | apps/api/src/modules/wallet/domain/wallet.entity.ts:122-155 | a release keeps the ledger consistent and moves the sum of the credits it stamps; it overflows if and only if the withdrawable balance has no room for them, and then loses track of an amount |
| WalletProperties.ReleaseTouchesOnlyMatching | apps/api/src/modules/wallet/domain/wallet.entity.ts:133-141 | a release stamps exactly the unreleased credits of its order that are mature, or all of them when maturity is ignored; rows of other orders, debits and released credits are as they were |
| WalletProperties.ReleaseAnswersStamped | apps/api/src/modules/wallet/domain/wallet.entity.ts:127-152 | the released amount and count, and what moves between the balances, are the total and the number of exactly the rows that got their release instant |
| WalletProperties.ReleaseTwice | apps/api/src/modules/wallet/domain/wallet.entity.ts:136 | repeating a release moves and returns nothing |
| WalletProperties.CreditKeeps | apps/api/src/modules/wallet/domain/wallet.entity.ts:71-89 | a credit is refused exactly when its amount is not positive or the locked balance would overflow |
| WalletProperties.WithdrawKeeps | apps/api/src/modules/wallet/domain/wallet.entity.ts:157-178 | a withdrawal is refused exactly when its amount is not positive or exceeds the withdrawable balance |
| WalletProperties.CreditAndWithdrawWrite | apps/api/src/modules/wallet/domain/wallet.entity.ts:71-178 | a credit adds its amount to the locked balance and its row at the end, a withdrawal takes it off the withdrawable balance and puts its row in front; each refusal has its error |
| WalletProperties.RecordRoundTrip | apps/api/src/modules/wallet/infrastructure/repositories/prisma-wallet.repository.ts:168-180 | mapping a transaction to a record and back is the identity |
| WalletProperties.ReloadReorders | apps/api/src/modules/wallet/infrastructure/repositories/prisma-wallet.repository.ts:97-105 | a reload after a save is a permutation of the ledger, ascending by creation instant |
| WalletProperties.ReleasedStays | apps/api/src/modules/wallet/domain/wallet.entity.ts:133-152 | each credit is released at most once: over every run, reloads and overflows included, a released row is still there at the end with the instant and source of its release |
| WalletProperties.NewWalletConserves | apps/api/src/modules/wallet/domain/wallet.entity.ts:71-183 | for a new wallet everything requested is locked, withdrawable or withdrawn after every run within the safe total |
| WalletProperties.OverflowReachable | apps/api/src/modules/wallet/domain/wallet.entity.ts:140-150 | a run of the entity from an empty wallet whose last release throws half way and leaves one cent in neither balance |
| WalletProperties.ReleaseIgnoresOrder | apps/api/src/modules/wallet/domain/wallet.entity.ts:133-152 | results and balances of a release do not depend on the order of the ledger |
| WalletProperties.ApplyIgnoresOrder | apps/api/src/modules/wallet/infrastructure/repositories/prisma-wallet.repository.ts:138-223 | every call answers the same on ledgers that differ only in order |
| WalletProperties.SavesAreInvisible | apps/api/src/modules/wallet/infrastructure/repositories/prisma-wallet.repository.ts:97-223 | saving and reloading at any points of a run changes neither answers nor balances |
| WalletLedger.Wallet.Credit | apps/api/src/modules/wallet/domain/wallet.entity.ts:71-89 | an accepted credit adds its amount to the locked balance and one credit row of its order, unreleased, to the end; a refused one changes nothing |
| WalletLedger.Wallet.ReleaseCredits | apps/api/src/modules/wallet/domain/wallet.entity.ts:122-155 | the mutating loop stamps exactly the order's unreleased credits that are mature, or all of them when maturity is ignored, and leaves exactly the specified ledger and result, also when a guard throws half way |
| WalletLedger.Wallet.WithdrawFunds | apps/api/src/modules/wallet/domain/wallet.entity.ts:157-178 | an accepted withdrawal takes its amount off the withdrawable balance and puts one released debit row in front; a refused one changes nothing |
| Outbox.DrainedIff | apps/api/src/common/outbox/outbox-dispatcher.service.ts:49-58 | the n rows that are pending and available are drained by ceil(n/50) passes at one instant, each dispatched once and in order, and by no fewer |
| Outbox.Dispatched | apps/api/src/common/outbox/outbox-dispatcher.service.ts:53-54 | k passes dispatch the first 50 * k rows that are pending and available, in order |
| Outbox.Passes | apps/api/src/common/outbox/outbox-dispatcher.service.ts:49-58 | k passes leave exactly the pending and available rows after the first 50 * k |
| Outbox.RecordedOutcome | apps/api/src/common/outbox/outbox-dispatcher.service.ts:60-109 | the whole row after a recorded dispatch: published at the pass's instant after a success, failed without a handler or at the tenth failure, otherwise put off by 5000 ms times its attempts, with the error kept |
| Outbox.DispatchedIsNotDue | apps/api/src/common/outbox/outbox-dispatcher.service.ts:60-109 | after its dispatch an event has left PENDING or waits until after the pass's instant |
| Outbox.DispatchTakesHead | apps/api/src/common/outbox/prisma-outbox.store.ts:25-71 | dispatching the oldest due event takes exactly it off the due list |
| Outbox.PassTakesBatch | apps/api/src/common/outbox/outbox-dispatcher.service.ts:53-54 | one pass takes the first fifty rows that are pending and available, whatever their attempts, and no others |
| Outbox.FetchPendingIs | apps/api/src/common/outbox/prisma-outbox.store.ts:25-33 | up to 50 rows that are pending and available are all fetched, whatever their attempts; of more, the 50 created first |
| Outbox.AvailableIsDispatched | apps/api/src/common/outbox/outbox-dispatcher.service.ts:49-58 | every pending event that has become available is dispatched by ceil(n/50) passes at that instant or any later one |
| Outbox.PassWrites | apps/api/src/common/outbox/outbox-dispatcher.service.ts:49-58 | a pass records the outcome of each fetched event in its own row and leaves every other row as it was |
| Outbox.PassStopsAtAbort | apps/api/src/common/outbox/outbox-dispatcher.service.ts:54-109 | a failure that cannot be recorded ends the pass: the events before it are recorded, it and the rest are left as they were |
| OutboxDelivery.DueIsAttempted | apps/api/src/common/outbox/outbox-dispatcher.service.ts:49-109 | in every run a pending event has failed fewer than ten times, and once it is available and among the first fifty the next pass that gets through records an attempt at it |
| OutboxDelivery.BatchRunsOut | apps/api/src/common/outbox/outbox-dispatcher.service.ts:53-54 | from any reachable state, attempts that can be recorded finish the batch with every event's outcome in its row |
| OutboxDelivery.InterruptedIsStillDue | apps/api/src/common/outbox/outbox-dispatcher.service.ts:49-58 | a crash or an abort in the middle of a batch loses none of its events: each is fetched again by the next tick |
| OutboxDelivery.RetriedUntilTenth | apps/api/src/common/outbox/outbox-dispatcher.service.ts:82-109 | an event whose handler keeps throwing is tried at every pass from its next instant on, stays pending up to nine failures and has failed after the tenth |
| OutboxDelivery.PublishedAfterFailures | apps/api/src/common/outbox/outbox-dispatcher.service.ts:68-80 | an event that gets through after fewer than ten failures is published at that pass |
| Outbox.OutboxDispatcher.DispatchEvent | apps/api/src/common/outbox/outbox-dispatcher.service.ts:60-80 | writes exactly the mark for what happened: no handler, success, failure |
| Outbox.OutboxDispatcher.HandleFailure | apps/api/src/common/outbox/outbox-dispatcher.service.ts:82-109 | the tenth failure marks failed, an earlier one retries after 5000 ms times its number |
| OutboxRuns.DeliveryGuarantees | apps/api/src/common/outbox/outbox-dispatcher.service.ts:60-109 | over every run with ticks, failures, crashes and new events: attempts counts recorded failures and never exceeds 10, the k-th failure comes at least 2500 * k * (k - 1) ms after the first, published implies a successful handling |
| OutboxRuns.NextAbsorbs | apps/api/src/common/outbox/prisma-outbox.store.ts:35-71 | published and failed rows never change again |
| OutboxRuns.RunKeepsValid | apps/api/src/common/outbox/outbox-dispatcher.service.ts:49-109 | the invariant relating rows, batch in flight and history holds after every run |
| OutboxRuns.NextKeepsValid | apps/api/src/common/outbox/outbox-dispatcher.service.ts:49-109 | each tick, dispatch, crash and new event keeps the invariant |
| OutboxRuns.BackoffAddsUp | apps/api/src/common/outbox/outbox-dispatcher.service.ts:100-105 | spaced failures add up to the quadratic bound |
| Outbox.FirstSettlingMarkWins | apps/api/src/common/outbox/prisma-outbox.store.ts:35-71 | once a row is published or failed no later mark of any kind changes it |
| Outbox.OutboxStore.MarkPublished | apps/api/src/common/outbox/prisma-outbox.store.ts:35-40 | the named row, and only while pending, becomes published at the given instant; no other row changes |
| Outbox.OutboxStore.MarkRetry | apps/api/src/common/outbox/prisma-outbox.store.ts:42-56 | the named row, and only while pending, gets its attempts, next instant and error and stays pending; no other row changes |
| Outbox.OutboxStore.MarkFailed | apps/api/src/common/outbox/prisma-outbox.store.ts:58-71 | the named row, and only while pending, becomes failed with its attempts and error; no other row changes |
| Outbox.OutboxDispatcher.ProcessPendingBatch | apps/api/src/common/outbox/outbox-dispatcher.service.ts:49-58 | does nothing while running; otherwise leaves the rows that a pass leaves (`PassWrites`, `PassStopsAtAbort`) and resets the flag; throws exactly when the fetch fails or a failure of one of the first fifty pending and available events cannot be recorded |
| Chat.PagesReassembleChat | apps/api/src/modules/chat/infrastructure/repositories/prisma-chat.repository.ts:133-178 | following the cursor to the end terminates and the pages, oldest first, are the whole chat as of the first call, each message once, for every page size of at least one and whatever arrives meanwhile |
| Chat.UnknownCursorRefused | apps/api/src/modules/chat/infrastructure/repositories/prisma-chat.repository.ts:136-145 | a call is refused exactly when its cursor is no message of the chat |
| Chat.Follow | apps/api/src/modules/chat/infrastructure/repositories/prisma-chat.repository.ts:169-177 | a reader at any known cursor gets exactly what lies below it, in order |
| Chat.PageIs | apps/api/src/modules/chat/infrastructure/repositories/prisma-chat.repository.ts:147-177 | a call answers with the next messages below its cursor and offers a cursor exactly when there are more |
| Chat.NextBelow | apps/api/src/modules/chat/infrastructure/repositories/prisma-chat.repository.ts:173-176 | below the cursor a full page offers lies exactly the rest of the list |
| Chat.ArrivalsStayAbove | apps/api/src/modules/chat/infrastructure/repositories/prisma-chat.repository.ts:147-152 | messages that arrive later never show up below a cursor into the chat as it was |
| Chat.EmptyPages | apps/api/src/modules/chat/infrastructure/repositories/prisma-chat.repository.ts:169-176 | a page size of zero, which the repository does not refuse, reads nothing and offers no cursor |

## Left out

Abstractions the whole project shares:

- Binary floating point: rates and percentages are exact rationals, rounded half away from zero.
- Text handling: trimming, case folding and locale collation. Leagues, divisions and extras are normalized
  keys with a case for any other text; ids and instants are integers with their order.
- Loggers, HTTP, queues, gateways, mail and sockets: a handler call is an arbitrary success or failure, an
  event reaches the browser in commit order.
- Prisma: rows, row locks and atomic commit stand in for it. Of the shares that foreign keys take on referenced
  rows only the client's user row is modelled, where a lock conflicts with it; the booster's share of an order
  that names one, and deadlock aborts other than an explicit rollback, are not. Both only remove interleavings.

Contracts that are deliberately weaker, or rest on an assumption:

- OneFirstOrderPerClient: assumes that coupons are not edited and that orders placed outside the checkout carry no first-order-only coupon; for saves of stale orders `AlwaysFirstIff` gives the exact condition.
- OnlyDeadQuotesAreDeleted: for cleanups whose `expiresBefore` is not after the clock.
- CommitCheckoutKeeps: the payment row is written in the same commit and has no state of its own here; its insertion failing is the rollback step.
- LoneCleanup: among quotes that expire at the same instant any may be selected first, and the delete may look at its rows at different moments.
- PruningIsInvisible: for a clock that does not go back; with one that does, a swept window could have come alive again.
- AtMostTwiceTheLimit: for a positive window and a block as long as the window, as the guard configures it.
- BrowserMirrorsServer: for in-order delivery and activity instants that do not move backwards per notification; the storage layer's `updatedAt` is not compared. Each server transaction is one step: at read committed two overlapping ones can both miss the other's row, so the unread counts in their events can be off until the next event (`NextEventRestoresCount`).
- CursorStaysRightIff: for a cursor that was right before; whether a wrong one becomes right by chance is not said.
- RowOrderIrrelevant: for requests between ladder ranks; unknown ranks keep the order in which the sort met them.
- AcceptsEveryHigher: for tables whose total leaves room for the guard on safe integers.
- ReplaceDraftVersion: its check and its update are one step, so a race with an activation is not shown.
- ActivateVersion: one step; the unique-index conflict it translates cannot occur then.
- RunConserves: for totals within the safe integers; `ReleaseMoves` says what happens beyond.
- ReleaseCredits: transactions are values in a sequence, so the sharing of entries with the array a wallet was rehydrated from is not captured.
- SavesAreInvisible: a save is one step; the balances are really written before the ledger's transaction.
- RetriedUntilTenth: for tables with at most fifty pending events, so that none is crowded out of a pass; `DrainedIff` says how many passes a fuller table takes. `PublishedAfterFailures` likewise.
- DrainedIff: for a store that does not fail in the middle of a pass, unchanged rows otherwise, and ties in creation order broken by table order.
- DeliveryGuarantees: for one dispatcher; two instances sharing the table are not modelled.
- NextStoresRightlyIff: a failed partial write (no matching row) leaves the store as it is; the error it raises is not shown.
- PagesReassembleChat: assumes that what arrives during the reading is newer than everything the first call could see.

Not modelled because it would only add easy members:

- `resolveWindow`'s reset of a window that is neither counting nor blocking: its guard contradicts the one around it.
- Later pages of the notification list, dashboard listings, chat message creation and read marks.
- Coupon eligibility, usage limits and coupon administration; quote snapshots and their mappings.
- Booster rejections beyond the row a save records; deletion of orders, which no repository does.
- Ticket, rating, user and admin entities, controllers, guards, schemas beyond the duplicate checks, user interface.
- Sealing of credentials, tokens, password hashing and webhook signatures.
