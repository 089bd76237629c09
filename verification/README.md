# Verified model of the Notify Server

This Dafny project models the parts of the Notify Server in which state, time and ordering meet, and proves what they
are meant to guarantee. `dafny verify dfyconfig.toml` checks all of it.

| Files | What they model |
|---|---|
| `Queue`, `LeaseProtocol`, `QueueWork`, `Progress`, `Retries`, `Publisher`, `WorkerPool` | the delivery queue: rows picked by up to 50 workers under a lease of 300 s, a sweeper, unconditional outcome writes, the worker loop and why it ends, how long failures are retried, and the worker counter |
| `TokenBucket`, `TokenBounds`, `RateLimiter` | the rate limiter's Lua script, with keys that expire |
| `Pagination` | keyset pagination of notifications while rows arrive and are marked as read |
| `Watchers`, `Access`, `SubscriptionHandlers` | clients that watch an account's subscriptions, who may change them, and the handlers that do |
| `Recap`, `Ambiguity`, `StatementBuilder`, `SignedStatement`, `Authorization`, `TwoApps` | ReCap statements (the "ReCap Translation Algorithm" section of ERC-5573) and what a signed one authorizes |
| `Notify`, `NotifyHandler` | `POST /v1/notify` |
| `Batcher` | the batching loop of the mailbox clearing service |
| `AccountId` | CAIP-10 accounts, the ERC-55 checksum, and the two notions of the same address |
| `Ordering`, `Arithmetic`, `Wrappers` | sorted listings, division facts, `Option` and `Result` |

How the model is put together:

* Every SQL statement and every run of the Lua script is one atomic step. The worker loop is split at every statement,
  and others may act before each of them. In `/v1/notify` subscribers may leave before the query and before the insert
  of each notification. The statements of one relay handler form one step. There is one clock in milliseconds that
  never goes back.
* Code that changes tables, maps or buffers is modelled by classes and methods with loops. Each method is proved
  against a function or a relation on states, and the theorems are about all runs of those.
* A query without `ORDER BY`, and the iteration of a hash map, may give any order.
* Keccak, base64, JSON decoding, content validation and statements without a recap are function parameters: the
  theorems hold for every such function.

## What the proofs found

* `LeaseSafety` assumes that every outcome is written within the lease. The timeout path does not meet this: it ends
  when the lease has run out and then writes (src/services/publisher_service/mod.rs:220-259), and a success can be
  written late too. Either way a row can be published twice (`LateOutcomePublishesTwice`). Lateness alone is not what
  does the harm: a run is safe in all its states exactly when no write hits a published row or a row on which another
  unexpired attempt is (`RunSafeExactly`), and its published and failed rows stay as they are exactly when, besides, no
  write turns a failed row into something else (`RunFinalExactly`). `OverwritePublishesAgain` says what a write over a
  published row leads to.
* Lateness cannot keep the worker loop from ending (`ProcessQueuedMessages`): until every notification is too old to be
  retried, time passes, and then each turn leaves fewer open rows or fewer attempts that can still requeue one
  (`StepAsFar`). It does take away any bound on the number of outcomes: a queued row can be written any number of times
  (`OutcomesPileUp`), while on time the outcomes are bounded by the work in the queue (`OutcomesAreBounded`).
* The worker loop can end well with rows left in the queue: when the row it picked is deleted before it is read, it
  takes this for an empty queue (`TurnEndsEarly`, in states like the one of `ReachStranded`, and `GoneRowLeavesQueue` for every state).
* A request to `/v1/notify` fails when a subscriber leaves between the query and the insert, after it has stored the
  notification, spent the tokens of everyone it is for and queued the notifications before it (`HandlerImpl`, with
  `LeaverFails` as an instance).
* With `unread_first`, marking the cursor row between two pages can hide rows (`MarkedCursorCanSkip`);
  `MarkedCursorSkipsExactly` says which ones a client that pages on to the end is not returned.
* The asserts of the batcher hold exactly when the maximum is at least two (`AssertsHoldExactly`).
* Statements do not escape the quotes in URIs. For any two apps there are two recaps whose one statement is accepted for
  the first app with the one and for the second app with the other (`TwoAppsOneStatement`). In fact every recap with
  two clauses or more shares its statement with another one (`SharedExactly`), whose URI spells a clause: that is
  exactly when the text does not decide where a URI ends (`UndecidedExactly`). Among recaps whose URIs spell no clause,
  equal statements mean equal grants (`StatementInjective`). A URI without `'. (` spells none.
* A statement can also end with the statement of another recap: exactly when a URI begins a statement (`BeginsExactly`,
  `HidesExactly`). Among recaps whose URIs do neither, a signed text fixes what is granted (`SignedStatementDecides`).
  URIs without single quotes do neither (`ReadableIsSignable`).
* A recap built for a domain spelled "all-apps" authorizes all apps (`RoundTrip`).
* The consistency check that `/v1/notify` logs as an error fails on every single notification that names an account
  twice, and only then (`CountMatchesExactly`). The response sets are shared by all notifications of a body, as a
  comment in the code says, so they are a partition for one notification only.
* The watcher limit counts the watcher that is being renewed and the expired ones, so one of 25 watchers of an app
  cannot renew (`RenewalRefused`): a renewal is accepted exactly when at most 23 others watch the same
  (`RenewsExactly`).

## Model

| member | source | states |
|---|---|---|
| LeaseProtocol.LeaseSafety | src/services/publisher_service/helpers.rs:129-143 | in every interleaving of picks, outcomes written within the lease, crashes, sweeps and repeated notify calls, unexpired attempts never share a row, each still holds its row, and each (project, notification id, subscriber) is recorded published at most once |
| LeaseProtocol.TerminalIsFinal | src/services/publisher_service/helpers.rs:208-213 | over the rest of any such run a published or failed row keeps its status |
| LeaseProtocol.StaleOutcomeBreaksLeaseExactly | src/services/publisher_service/helpers.rs:208-213 | a write after the lease keeps all leases if and only if its row is gone or no unexpired attempt is on it |
| LeaseProtocol.RecordSafeExactly | src/services/publisher_service/helpers.rs:202-229 | a write, late or not, keeps every publication counted once if and only if its row is gone or not published, and keeps everything safe if and only if, besides, no other unexpired attempt is on the row |
| LeaseProtocol.RunSafeExactly | src/services/publisher_service/helpers.rs:202-229 | a run from the empty system is safe in all its states if and only if each of its writes is harmless in this sense |
| LeaseProtocol.RunFinalExactly | src/services/publisher_service/helpers.rs:202-229 | it is safe and never changes a published or failed row if and only if, besides, no write changes a failed row |
| LeaseProtocol.OverwritePublishesAgain | src/services/publisher_service/helpers.rs:202-229 | from every safe state, a write over a published row records it published twice, at once or within a lease, or turns it into a failed row |
| LeaseProtocol.LateOutcomePublishesTwice | src/services/publisher_service/mod.rs:220-259 | runs from the empty system in which an attempt writes late, after a failure or after a success, and the row is recorded published twice |
| LeaseProtocol.UnconditionalSafety | src/services/publisher_service/mod.rs:214-265 | in every interleaving, late writes included, the table constraints hold, a published row had an attempt that ended well, and a failed row had one that failed after the give-up time |
| LeaseProtocol.SweepClears | src/services/publisher_service/helpers.rs:287-297 | a sweep requeues exactly the processing rows stamped before its cutoff and changes nothing else |
| Retries.SweptAfterFiveMinutes | src/services/publisher_service/helpers.rs:282-297 | some sweep requeues a row if and only if it has been processing for more than five minutes since its last stamp |
| Retries.RetriedForADay | src/services/publisher_service/mod.rs:386-403 | over every run, from the first call with a key: an attempt that fails at most a day after that call leaves its row queued, one that fails later leaves it failed, and one that ends well leaves it published, whatever others do before the write |
| Retries.FirstCallStores | migrations/20231025145134_add_notification.sql:1-11 | a call that finds no row under its key stores one with its content and the time of the call |
| LeaseProtocol.NotifyIdempotent | src/services/publisher_service/helpers.rs:35-41 | after any run, a second call with the same key and any content changes nothing and finds the first content |
| LeaseProtocol.EnqueueIdempotent | src/services/publisher_service/helpers.rs:74-78 | after any run without their unsubscribing, enqueueing the same targets again adds no row and resets no status |
| Queue.UpsertDeliveriesAdds | src/services/publisher_service/helpers.rs:74-78 | an enqueueing statement adds queued rows for its targets only, with new ids, and keeps the unique pairs |
| Queue.UpsertDeliveriesCovers | src/services/publisher_service/helpers.rs:74-78 | afterwards every target has a row |
| Queue.PublisherKeepsRows | src/services/publisher_service/mod.rs:386-403 | picks, outcomes and sweeps never add or drop a row, and never change what a row is about |
| Queue.StepConsistent | migrations/20231025145134_add_notification.sql:13-30 | every step keeps the unique and foreign keys, and no (notification, subscriber) pair ever gets a second row |
| QueueWork.OutcomesAreBounded | src/services/publisher_service/mod.rs:213-265 | with no new rows, outcomes written within the lease and failures that take time, a run of any length lands at most as many outcomes as the queue held work, even with crashes and requeueing |
| Progress.OutcomesPileUp | src/services/publisher_service/helpers.rs:202-229 | without the lease there is no such bound: from every state with a queued row, and for every n, a run with no new rows in which n outcomes are written to that row |
| Progress.StepAsFar | src/services/publisher_service/mod.rs:205-267 | no step that adds no rows leads back, late writes included: the time left until nothing is retried gets less, or stays and the open rows and the attempts that can requeue do not become more; a step that closes a row leads on |
| Publisher.PublisherService.ProcessQueuedMessages | src/services/publisher_service/mod.rs:205-267 | the loop terminates whatever the others do before each of its statements, as long as they add no rows, and however late anyone writes an outcome, this worker included; it ends well in a turn that found nothing queued or whose row was deleted before it was read, as the state at the beginning of that turn and the steps of the others decide, and otherwise in the first statement that fails; what it did is a run of the queue, and if that was timely and began safe, the leases hold after it and there is no more work than before |
| Publisher.PublisherService.PickSubscriberNotificationForProcessing | src/services/publisher_service/helpers.rs:121-199 | two statements with others between them: nothing is picked if and only if no row was queued for the first, or the row it took was gone for the second; an error if and only if one of them is reached and fails |
| Publisher.PublisherService.PickRow | src/services/publisher_service/helpers.rs:129-147 | the first statement marks some queued row, and none exactly when none is queued |
| Publisher.GoneRowLeavesQueue | src/services/publisher_service/helpers.rs:181-191 | from every state with two queued rows for different subscribers, one can be picked and deleted before it is read, and the other is queued as before when the worker stops |
| Publisher.PublisherService.TurnEndsEarly | src/services/publisher_service/mod.rs:213-265 | a turn of the loop in which the only queued row is picked, its subscriber leaves and another row is requeued before the row is read: it ends the loop as if nothing were queued, with that other row queued |
| Publisher.ReachStranded | src/services/publisher_service/helpers.rs:282-302 | a run from the empty system to such a state: one row queued, and one left processing by a worker that crashed, longer than its lease |
| Publisher.LoopCanEndEarly | src/services/publisher_service/helpers.rs:181-191 | a run from the empty system to two queued rows, and from there the pick of one, the departure of its subscriber and the end of the attempt: the other row is still queued |
| Publisher.PublisherService.Process | src/services/publisher_service/mod.rs:220-259 | from a picked row to its outcome with others before each move, however long it takes: the row says published, failed after the give-up time, or queued, as the attempt ended, and the turn was a step towards the end of the loop; if the write fails the outcome is lost |
| Publisher.PublisherService.DeadLettersCheck | src/services/publisher_service/helpers.rs:282-302 | afterwards no processing row is stamped before the cutoff, and no stamp has changed |
| Publisher.PublisherService.UpsertNotification | src/services/publisher_service/helpers.rs:19-66 | returns the notification stored under the key: the one that was there, and then nothing changes, or else a new one with this content and the present time |
| Publisher.PublisherService.UpsertSubscriberNotifications | src/services/publisher_service/helpers.rs:68-90 | the loop of conflict-free inserts is the enqueueing step, and every target has a row afterwards |
| WorkerPool.CounterExact | src/services/publisher_service/mod.rs:100-200 | in every interleaving the counter is the running and reserved workers plus those that panicked, never above 50, and the decrement never underflows |
| WorkerPool.WakeUpSpawns | src/services/publisher_service/mod.rs:132-175 | after any run, a wake-up leads to one more counted and spawned worker if and only if fewer than 50 run or have panicked, whatever the workers do meanwhile |
| WorkerPool.StartsFifty | src/services/publisher_service/mod.rs:101-127 | exactly 50 workers are spawned at the start |
| TokenBucket.RunBound | src/rate_limit/token_bucket.lua:16-40 | a key that starts absent and sees any calls and expiries admits, in any window, at most the maximum plus what the refill marks since the mark in force put back |
| TokenBucket.LazyEqualsEager | src/rate_limit/token_bucket.lua:24-29 | the closed-form refill is the bucket that was ticked at every interval mark |
| TokenBucket.RefillCompose | src/rate_limit/token_bucket.lua:24-29 | refilling at t1 and then at t2 is refilling at t2 |
| TokenBucket.FullWhenExpirable | src/rate_limit/token_bucket.lua:35-38 | a bucket that Redis may drop has all its tokens due |
| TokenBucket.StepKeepsCellInv | src/rate_limit/token_bucket.lua:34-38 | every call and expiry keeps the tokens in range and the deadline no earlier than the bucket is full |
| TokenBucket.ResetExact | src/rate_limit/token_bucket.lua:31-39 | after a rejection every call before the promised reset is rejected and changes nothing, and the first call from it on is admitted, whether the key has expired or not, unless the limit is zero |
| TokenBounds.BurstExact | src/rate_limit/token_bucket.lua:31-40 | from every reachable bucket, of any number of calls at one moment the k-th is admitted if and only if there were k tokens, and is told how many are left |
| TokenBounds.AbsentBurst | src/rate_limit/token_bucket.lua:14-40 | a key that is not there admits exactly its maximum of calls at once |
| TokenBounds.RunFloor | src/rate_limit/token_bucket.lua:16-40 | the counterpart of the upper bound: when a call is rejected at the end of a window, the window has admitted at least all the tokens of its start and all that the marks put back, up to the maximum |
| TokenBounds.BoundReached | src/rate_limit/token_bucket.lua:16-40 | from every reachable bucket some window admits all its tokens and all that the marks put back, so the upper bound cannot be improved |
| TokenBounds.KeptUntilFull | src/rate_limit/token_bucket.lua:35-38 | after an admission the key is kept for the least number of intervals in which the bucket becomes full |
| RateLimiter.DistinctKeysAreIndependent | src/rate_limit/token_bucket.lua:10-41 | with distinct keys each key makes one attempt on its own bucket |
| RateLimiter.RateLimiter.ScriptKey | src/rate_limit/token_bucket.lua:10-41 | the body of the loop changes one key, by the attempt whose verdicts and costs `BurstExact`, `ResetExact` and `LazyEqualsEager` state |
| RateLimiter.RateLimiter.Script | src/rate_limit/token_bucket.lua:10-44 | a key listed n times makes n attempts and its last verdict is reported; other keys keep their buckets |
| RateLimiter.RateLimiter.TokenBucketMany | src/rate_limit/token_bucket.rs:94-122 | exactly one verdict for every key asked about |
| RateLimiter.RateLimiter.TokenBucketOne | src/rate_limit/token_bucket.rs:57-83 | an error, with the reset in seconds, exactly when the call is rejected |
| Pagination.KeysetAgreesWithOrder | src/model/helpers.rs:923-961 | the row comparison of the `after` clause and the ORDER BY are one relation, at every moment and in both modes |
| Pagination.PageExact | src/model/helpers.rs:913-1037 | a page is the next `limit` remaining rows, both flags are exact, and more unread rows imply more rows |
| Pagination.PageInOrder | src/model/helpers.rs:962-992 | on a page newer rows stand first, of two rows of one time the one with the smaller identifier, and with unread first every unread row before every read one |
| Pagination.FullTraversal | src/model/helpers.rs:962-1001 | following the cursor to the end lists every remaining row once, in order, with only the last page not full |
| Pagination.TraversalEnds | src/model/helpers.rs:1000-1003 | such a traversal exists and needs at most one page more than there are rows |
| Pagination.DefaultOrderStable | src/model/helpers.rs:923-992 | in default order, newer rows and marks between pages change nothing: exactly the rows after the first cursor come back, once each and in order |
| Pagination.UnreadFirstNeverSkips | src/model/helpers.rs:923-992 | with unread first, every wanted row is returned by the end, as long as no mark hides one that is still to come |
| Pagination.MarkedCursorSkipsExactly | src/model/helpers.rs:1218-1228 | a client that pages to the end after a mark is returned a row that was after its cursor if and only if the mark spared the cursor, or the row is older than it and read or marked too |
| Pagination.MarkedCursorCanSkip | src/model/helpers.rs:923-949 | two unread rows of which the second is never returned |
| Pagination.NotificationStore.MarkNotificationsAsRead | src/model/helpers.rs:1205-1245 | marks and returns exactly the unread rows of this subscriber that were asked for |
| Watchers.WatchersCoherent | src/services/public_http_server/handlers/relay_webhook/handlers/notify_watch_subscriptions.rs:352-418 | over any history of watch, subscribe, update and delete requests, clean-ups and passing time, every unexpired watcher last received what a fresh query finds for it, and no account has more than 25 watchers of one app |
| Watchers.CoherentFromEmpty | src/services/public_http_server/handlers/relay_webhook/handlers/notify_watch_subscriptions.rs:352-418 | in particular over any history from empty tables |
| Watchers.ViewsStayInScope | src/services/public_http_server/handlers/relay_webhook/handlers/notify_watch_subscriptions.rs:374-412 | a list holds subscriptions of the watcher's address only, and of its app only |
| Watchers.FilterIsQuery | src/services/public_http_server/handlers/relay_webhook/handlers/notify_watch_subscriptions.rs:357-361 | filtering the list of all apps in memory gives what the query for one app gives |
| Watchers.OneEntryPerApp | src/model/helpers.rs:666-711 | a list has one entry for each app |
| Watchers.ChangeKeepsCoherent | src/services/public_http_server/handlers/relay_webhook/handlers/notify_subscribe.rs:189-296 | subscribe, update and delete keep the invariants, for mjv "0" and newer: the fan-out reaches every watcher whose list the change can affect |
| Watchers.WatchKeepsCoherent | src/services/public_http_server/handlers/relay_webhook/handlers/notify_watch_subscriptions.rs:130-205 | registering or replacing a watcher keeps the invariants, and its first list is current |
| Watchers.CapKept | src/model/helpers.rs:746-767 | the conditional upsert keeps every (address, app) at 25 watchers or fewer |
| Watchers.RenewsExactly | src/model/helpers.rs:746-767 | a watcher of an app can renew if and only if at most 23 others, expired ones included, watch it for the same address |
| Watchers.RenewalRefused | src/model/helpers.rs:746-767 | one of 25 watchers is refused, even if all of them have expired |
| Access.RowsChangeOnRequest | src/services/public_http_server/handlers/relay_webhook/handlers/notify_update.rs:116-166 | over every history from empty tables, a row appears, changes or goes only in the handling of a request of its own address, by a client authorized for its app |
| Access.RefusedFor | src/services/public_http_server/handlers/relay_webhook/handlers/notify_update.rs:112-166 | a change is refused for the first of four reasons that holds: no such project, another app, no authorization for the app, another address |
| Access.ChangeTakesEffect | src/model/helpers.rs:340-389 | after an accepted change the account's list for the app is empty if it was a deletion, and else has one entry, with the new scope and thirty more days, and with the key and account it had if it is not new |
| Access.ChangeWritesRow | src/model/helpers.rs:340-440 | an accepted change rewrites the scope and expiry of the one row, or inserts a row with the fields of the request, or deletes the row, and touches no watcher |
| Access.WatchShowsOnly | src/services/public_http_server/handlers/relay_webhook/handlers/notify_watch_subscriptions.rs:120-151 | a client authorized for one app is shown only entries of this app, under its account, when it begins to watch |
| Access.WatchRegisters | src/model/helpers.rs:737-794 | an accepted watch registers the client with its account and key, for a project of the app it named or for all apps, and no other watcher changes |
| Access.SentOnlyToWatchers | src/model/helpers.rs:796-834 | a change sends nothing to watchers that have expired, or watch another address or another app |
| Access.WatchesForADay | src/services/public_http_server/handlers/relay_webhook/handlers/notify_watch_subscriptions.rs:172-192 | over every history in which it does not watch again, a client is an unexpired watcher exactly until 24 hours after its request |
| SubscriptionHandlers.ListsFor | src/services/public_http_server/handlers/relay_webhook/handlers/notify_watch_subscriptions.rs:371-413 | one message, with the right list, for each selected watcher but a source under the newer protocol; the duplicate assertion never fails |
| SubscriptionHandlers.NotifyServer.CollectSubscriptions | src/services/public_http_server/handlers/relay_webhook/handlers/notify_watch_subscriptions.rs:270-320 | the list has one entry for each row of the query, whatever their order |
| SubscriptionHandlers.NotifyServer.PrepareSubscriptionWatchers | src/services/public_http_server/handlers/relay_webhook/handlers/notify_watch_subscriptions.rs:333-419 | the response is the source's own list when it watches this app or all apps, else the app's; the pushes are those of the selected watchers; each list has one entry for each row of its query |
| SubscriptionHandlers.NotifyServer.UpsertSubscriber | src/model/helpers.rs:340-389 | one row per project and address: an existing row keeps its keys and gets the scope and a new expiry, otherwise a row is inserted, and the flag says which |
| SubscriptionHandlers.NotifyServer.UpsertSubscriptionWatcher | src/model/helpers.rs:737-794 | writes the watcher of this key exactly when there is room |
| SubscriptionHandlers.NotifyServer.DeleteExpiredSubscriptionWatchers | src/model/helpers.rs:836-861 | exactly the unexpired watchers stay |
| SubscriptionHandlers.NotifyServer.HandleWatchSubscriptions | src/services/public_http_server/handlers/relay_webhook/handlers/notify_watch_subscriptions.rs:128-205 | the handler is the watch step, and succeeds if and only if the client may act for the app, or for all apps if it names none, some project has it and fewer than 25 watch the same; it changes nothing otherwise, and answers with the list the client is now taken to have, one entry for each row |
| SubscriptionHandlers.NotifyServer.HandleChange | src/services/public_http_server/handlers/relay_webhook/handlers/notify_update.rs:116-200 | subscribe, update and delete are the change step, whichever of response and pushes arrives first, and succeed if and only if the project exists and has the app of the request, the client is authorized for it, and, but for a subscribe, the row has the client's address; tables and lists stay as they are otherwise; the response has one entry for each row |
| Recap.CanonicalUnique | src/siwx/erc5573.rs:105-134 | a recap has one canonical list of clauses: each granted (URI, namespace) once, in order, with its names in order |
| Recap.DictionaryOrder | src/siwx/erc5573.rs:110-131 | clauses stand in the dictionary order of their URIs, then of their namespaces, and names in theirs |
| Recap.ClausesNameGrants | src/siwx/erc5573.rs:110-120 | an ability is granted if and only if a clause names it |
| Recap.StatementReadsBack | src/siwx/erc5573.rs:121-134 | without single quotes in URIs, the clauses can be read back from the text |
| Ambiguity.StatementInjective | src/siwx/erc5573.rs:33-134 | for URIs that spell no clause, two recaps have one statement if and only if they grant the same |
| Ambiguity.UndecidedExactly | src/siwx/erc5573.rs:121-134 | a URI spells a clause if and only if some text of clauses can be read with this URI in its first clause, and also with a shorter one |
| Ambiguity.SharedExactly | src/siwx/erc5573.rs:105-136 | another recap has the statement of a recap if and only if that has two clauses or more, the last two of which can be read as one, or one clause whose URI splits into two clauses in order |
| Ambiguity.SeamFreeSpellsNothing | src/siwx/erc5573.rs:127-129 | a URI without `'. (` spells no clause |
| Ambiguity.QuotedUriCollides | src/siwx/erc5573.rs:127-129 | for any two URIs, a third one with quotes whose recap has their statement |
| Recap.AbilityRoundTrip | src/siwx/erc5573.rs:22-52 | parsing an ability accepts exactly the formatted valid abilities and undoes the formatting |
| Recap.NamespaceChars | src/siwx/erc5573.rs:31-34 | the characters of the namespace of an ability |
| Recap.NameChars | src/siwx/erc5573.rs:22-33 | the characters of a name are those of a namespace, and the six that the class `A-z` adds: five of punctuation besides the underscore |
| Recap.DecimalValue | src/siwx/erc5573.rs:108-133 | the number of a clause is written in decimal without leading zeros |
| StatementBuilder.BuildStatement | src/siwx/erc5573.rs:105-136 | for every order of iteration of the maps the result is the text of the canonical clauses, numbered from 1 |
| StatementBuilder.GroupByNamespace | src/siwx/erc5573.rs:111-117 | each ability is in the group of its namespace, and nothing else is |
| StatementBuilder.SortedByKeySpec | src/siwx/erc5573.rs:110-121 | sorting by distinct keys gives the same members in strict order |
| SignedStatement.SignedStatementDecides | src/auth.rs:876-880 | one signed text ends with the statement of at most one recap whose URIs neither spell a clause nor begin a statement, whatever stands before |
| SignedStatement.BeginsExactly | src/auth.rs:876-880 | a URI begins a statement if and only if there is a recap with this URI in its first clause whose statement is, from within this URI, that of another recap |
| SignedStatement.HidesExactly | src/auth.rs:876-880 | the statement of a recap ends with another statement if and only if a URI of it begins one and the URI for that follows, in the same URI or in a later clause |
| SignedStatement.BuriedStatement | src/auth.rs:876-880 | a URI in which a statement begins lets one statement end with another, for any text and any URI |
| SignedStatement.ReadableIsSignable | src/siwx/erc5573.rs:121-134 | URIs without single quotes do neither |
| Authorization.AcceptsExactly | src/auth.rs:876-936 | a recap is accepted for an app if and only if the statement ends with its statement and it grants, on this service's URI, the one ability that names the app, with one empty object |
| Authorization.AuthorizeExactly | src/auth.rs:852-990 | a message authorizes an app if and only if it has a statement, at most one recap among its resources, and either a readable recap as the last one that is accepted for the app, or a statement that is read as the app |
| Authorization.RefusedFor | src/auth.rs:883-936 | each refusal of the one ability, by the first reason that holds |
| Authorization.DomainChars | src/auth.rs:920-936 | the characters of a domain are those of a namespace without `*`, `_` and `+` |
| Authorization.WhatIsSigned | src/siwx/notify_recap.rs:7-31 | the whole statement of a recap built for a domain or for all apps |
| Authorization.AcceptedStatementNamesApp | src/auth.rs:876-936 | then the signed text has a numbered clause naming the app on this service's URI, and no other clause on that URI |
| Authorization.SameStatementSameApp | src/auth.rs:852-940 | two messages with one statement are never accepted by recaps for two apps, if their URIs neither spell a clause nor begin a statement |
| TwoApps.TwoAppsOneStatement | src/auth.rs:852-940 | otherwise they can be: for any two apps, two messages with one statement and two recaps that are read and accepted, one for each app |
| Authorization.RoundTrip | src/siwx/notify_recap.rs:7-31 | what a recap built for a domain authorizes, for every domain, errors included |
| Authorization.DeserializeExactly | src/siwx/erc5573.rs:35-58 | the recap read from JSON is the one whose ability strings these are, and every string must parse |
| Authorization.BuildFor | src/auth.rs:876-877 | the statement built from the entries of the recap, in any order, is the one it is checked against |
| Notify.ResponsePartition | src/services/public_http_server/handlers/notify_v1.rs:132-213 | for one notification, sent, failed and not found are disjoint and together the requested accounts |
| Notify.CountMatchesExactly | src/services/public_http_server/handlers/notify_v1.rs:230-233 | the sizes add up to the number of requested accounts if and only if none is repeated |
| Notify.StaysCovered | src/services/public_http_server/handlers/notify_v1.rs:117-213 | over a whole body no requested account falls out of the response |
| Notify.MatchIsInTable | src/services/public_http_server/handlers/notify_v1.rs:135-158 | every row that SQL finds by its lower-case address is in the lookup table under its exact address, so the `unwrap` never panics |
| Notify.FoundOncePerAccount | migrations/20240111200929_unique_account_address.sql:23 | no two rows of a project answer for one requested account |
| Notify.LookupTable | src/services/public_http_server/handlers/notify_v1.rs:135-143 | every requested address leads to the last account requested with it |
| Notify.CheckScopes | src/services/public_http_server/handlers/notify_v1.rs:161-175 | every found account leaves `not_found`, and those not subscribed to the type fail, and no others |
| Notify.FilterLimited | src/services/public_http_server/handlers/notify_v1.rs:189-204 | those rejected by the rate limiter fail, and no others; every verdict is there to be read |
| Notify.MarkSent | src/services/public_http_server/handlers/notify_v1.rs:209-213 | the rest are sent, under their subscriber ids |
| NotifyHandler.VerdictsAreTokens | src/services/public_http_server/handlers/notify_v1.rs:287-298 | the answer for each subscriber key says whether its own bucket had a token |
| NotifyHandler.NotifyHandler.NotifyOne | src/services/public_http_server/handlers/notify_v1.rs:117-222 | one notification while subscribers leave: stored under its key, with its content and the present time if it is new, sent to exactly the subscribers found with this type and a token, each with a row, no row for anyone else, and one call on the bucket of each subscriber of this type; it fails, without rows, if and only if one of those it would be sent to left before the insert |
| NotifyHandler.SentExactlyTo | src/services/public_http_server/handlers/notify_v1.rs:161-213 | sent to are exactly the subscribers of the project with a requested address who have the type in their scope and, if there are limits, a token left |
| NotifyHandler.NotifyHandler.LeaverFails | src/services/public_http_server/handlers/notify_v1.rs:117-222 | such a failure: a subscriber of the type who leaves before the insert makes it fail after the notification has been stored, with no new row |
| NotifyHandler.NotifyHandler.Admit | src/services/public_http_server/handlers/notify_v1.rs:78-108 | the refusals, in their order |
| NotifyHandler.RefusedExactly | src/services/public_http_server/handlers/notify_v1.rs:78-108 | when each refusal is given: over the limit, a notification not valid, more than 500 accounts, no such project, the earlier reason first |
| NotifyHandler.SubscriberLimits | src/services/public_http_server/handlers/notify_v1.rs:287-298 | a subscriber can be sent exactly 50 notifications at once, and in any window no more than 50 and two an hour |
| NotifyHandler.ProjectLimits | src/services/public_http_server/handlers/notify_v1.rs:257-272 | a project can call exactly 20 times at once, and in any window no more than 20 times and twice a second |
| NotifyHandler.ProjectKeysDiffer | src/services/public_http_server/handlers/notify_v1.rs:257-272 | two projects never share a bucket |
| NotifyHandler.SubscriberKeysDiffer | src/services/public_http_server/handlers/notify_v1.rs:275-282 | two subscribers, or one in two projects, never share a bucket |
| NotifyHandler.KeysMeetExactly | src/services/public_http_server/handlers/notify_v1.rs:257-282 | the bucket of a project is that of a subscriber only for a project id that contains a colon |
| NotifyHandler.NotifyHandler.HandlerImpl | src/services/public_http_server/handlers/notify_v1.rs:71-243 | a refused request writes no row and no subscriber bucket; an accepted one queues rows for exactly those it reports as sent, fails the others for the right reason, reports every requested account, and for one notification reports a partition; one that breaks off has served the notifications before, and stored this one and called its buckets |
| Batcher.Batch | src/services/relay_mailbox_clearing_service.rs:44-107 | batches of 1 to MAX items; batches, dropped batch and buffer are the received items in order; closing the input loses fewer than MAX of them; a batch that is not full leaves only on a timeout |
| Batcher.FullBatches | src/services/relay_mailbox_clearing_service.rs:76-101 | of n items without a timeout, n / MAX batches of MAX items are sent, which are the items in order, and the rest waits |
| Batcher.NoItemWaitsLong | src/services/relay_mailbox_clearing_service.rs:76-101 | while the input stays open and sends are instant, no item waits longer than (MAX - 1) timeouts |
| Batcher.AssertsHoldExactly | src/services/relay_mailbox_clearing_service.rs:43-56 | the asserts hold on every trace if and only if MAX is at least 2 |
| AccountId.CapturesExact | src/model/types/account_id/caip10.rs:21-37 | the CAIP-10 pattern matches exactly the formatted triples, in one way |
| AccountId.Caip10Chars | src/model/types/account_id/caip10.rs:21-24 | the characters of a namespace, of a chain reference and of an address |
| AccountId.AddressOfAccount | src/utils.rs:18-25 | on every accepted account the slice does not panic and is SQL's third field |
| AccountId.AddressAgreement | src/utils.rs:18-29 | for accepted accounts `is_same_address`, equal `get_address_lower` and equal addresses are one relation |
| AccountId.ChecksumDetermined | src/model/types/account_id/eip155.rs:56-69 | a checksummed address is determined by its lower-case form |
| AccountId.OneSpellingPerChain | src/model/types/account_id/erc55.rs:7-16 | a lower-case address has exactly one accepted spelling on a chain: letters are capitals exactly where the digest has a digit of 8 or more |
| AccountId.AccountExactly | src/model/types/account_id/caip10.rs:21-37 | exactly these strings are accepted: `eip155:`, up to 32 decimal digits, `:0x` and 40 hexadecimal digits, capitals exactly where the digest of the lower-case address has a digit of 8 or more |
| AccountId.RejectedFor | src/model/types/account_id/eip155.rs:26-69 | which error a string gets: no CAIP-10 form, another namespace, a chain that is not a number, an address that is not hexadecimal, and else its capitals |

## Left out

- TokenBucket.RunBound: one limit per key for its whole life; changing the arguments for a key that exists is not modelled, and Lua's numbers are exact integers.
- LeaseProtocol.LeaseSafety: assumes outcomes written within the lease; the code does not ensure it; `RunSafeExactly` says which runs are safe without it.
- QueueWork.OutcomesAreBounded: assumes outcomes written within the lease, which the code does not ensure; without it the bound is false (`OutcomesPileUp`), since picks and sweeps can pile up attempts that all write later.
- Publisher.PublisherService.ProcessQueuedMessages: assumes that no rows are added while the loop runs and that a failed attempt takes at least one millisecond, without either of which it need not end; lateness needs no assumption; since statements run one at a time, no row is ever skipped for being locked.
- Watchers.CapKept: for statements that run one at a time; the code allows concurrent ones to exceed the limit (src/model/helpers.rs:770-775).
- Watchers.WatchersCoherent: its limit of 25 watchers likewise; a relay handler is one atomic step, all its messages are delivered, apps keep their domains, and unread counts are not part of a list.
- SubscriptionHandlers.NotifyServer.HandleChange: a response counts as a list for the client only when it watches this account and app; parsing of scopes, topics and keys, welcome notifications and webhooks are not part of this step.
- NotifyHandler.NotifyHandler.HandlerImpl: of what others do during one request only leaving is modelled, since nothing else can make it fail; the rate limits of projects and of subscribers are two stores, since no project id has a colon (`KeysMeetExactly`).
- Statements of foreign-key violations change nothing and are not steps of the queue.
- Database, Redis, relay and HTTP failures other than the error results named above.
- Cryptography, JWTs with their time window, envelopes, base64 and JSON syntax.
- Clock skew between application servers, Postgres and Redis.
- Liveness of the queue: a wake-up while 50 workers are counted but on their last pick spawns nothing, so no claim is made that every row is served.
- Statements without a recap (src/auth.rs:970-988), checks of the account and of the validity period of a signed message.
- `mark_all_notifications_as_read_for_project`, whose filter compares ids of two different tables.
- The two queries of one page are taken on one snapshot.
- The watcher limit for all apps, which the query never counts.
- Retry delays, scope codecs, welcome notifications, metrics, analytics and the commented-out webhook handlers.
