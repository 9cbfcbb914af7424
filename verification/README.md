# notifyd, verified

A Dafny model of the parts of notifyd whose correctness cannot be seen by reading one function: the
delivery lifecycle shared by two handlers, the status events it gives rise to, the message quota under
concurrent requests, the per-tenant caps, the Slack text converter, the SDKs' duration parser and token
cache, nightly maintenance, and retry backoff. `dafny verify dfyconfig.toml` checks the whole project.

| file | component | main results |
|---|---|---|
| `Delivery.dfy` | dispatcher, error handler, queue | one event per run, with the true status and attempt count, whatever writes are lost; lawful status changes |
| `Emission.dfy` | status events and their fan-out | stable event ids over crashes and redelivery; exactly when both ends are reported; a deduplicating receiver; from attempts to endpoints |
| `Quota.dfy` | quota middleware and send handlers, between two nights | grants within the limit in every interleaving; conservation of the counter; by how much queued tasks can exceed it |
| `QuotaPeriod.dfy` | the quota over a billing period with nightly purge and reconcile | exactly when the limit holds over a whole period, for which plans, and by how much it is exceeded otherwise |
| `QuotaAlerts.dfy` | quota service, one caller at a time | how often each alert fires over a whole run |
| `Caps.dfy` | endpoint and API-key creation | caps hold in every interleaving of transactions |
| `SlackMarkdown.dfy` | CommonMark to mrkdwn | exactly which documents are translated correctly; no text lost on any input; exactly which inputs pass through unchanged |
| `Duration.dfy` | Go duration parser | unique tokenisation, additivity, round trip with Go's printer |
| `TokenCache.dfy` | SDK token cache | one exchange at a time, shared by all callers |
| `Retention.dfy` | paging, purge, reconcile | every tenant once; no orphans; the counter after a whole night and when it is exact |
| `Backoff.dfy` | retry delays | int64 doubling is the ideal one until the first overflow; range, order and sum of delays |

## How the model is built

- Code that updates things in place is a class whose methods are proved against functions on values:
  `Delivery.Worker`, `Emission.Emitter`, `QuotaAlerts.Service`, `Retention.Store`, and the loops
  `Duration.ParseGoDuration` and `Retention.ForEachTenant`. Protocols between concurrent parties (quota,
  caps, token cache) are step machines: `Enabled` and `Next` give the atomic steps, `Exec` runs an
  arbitrary interleaving, and the theorems are about every run.
- The outside world is a parameter. A provider's answers are a function from the attempt number, lost
  database writes a function from the operation number, random draws an argument, and the name-based
  hash a function that is assumed free of collisions only on the names actually hashed.
- asynq is assumed to call the error handler after every failed attempt, and then to archive the task if
  the error wraps `SkipRetry` or `retried >= maxRetry`, and otherwise to run it again with `retried + 1`.
  A task that a worker died on is handed out again, with the same retry counter or one higher. Redis
  commands and SQL statements are atomic, and a row lock is held until commit or rollback.

## Where the code and its documentation differ

- The documentation speaks of "up to 8 attempts" for a webhook event. `MaxRetry(8)` allows nine
  (`Delivery.BudgetIsUsedUp`), with eight delays between them (`Backoff.WebhookEventsSpanSixHours`).
- `Reserve` is described as claiming slots atomically. It is a check-and-add only for reservations that
  do not overlap (`Quota.LoneReserveIsCheckAndAdd`); `Quota.DeniedExactlyWhen` says exactly what an
  overlapping one is judged by, and `Quota.OverlapCanDenyWhatFits` shows the difference.
- The middleware counts channels with `json.Unmarshal`, which rejects a body that goes on after its JSON
  object, and the handler reads it with a `Decoder`, which does not. A body such as
  `{"channels":[...]} x` with 2 to 50 decodable channels reserves one slot and queues a task per channel
  (`Quota.UndercountedExactlyWhen`, `Quota.CoverageIsNecessary`); no other body is undercounted.
- An enqueueing that took effect and was reported as an error is answered 500 and refunded, so a request
  answered 400 or above may have queued a task and the quota can be overrun by one task for each such
  single send (`Quota.LostReplyOverruns`). Send-multi answers 202 and stays charged.
- The nightly purge deletes rows of the running period once they are older than the retention window, and
  deleting a channel deletes its rows at once. The reconcile counts what is left, so the tenant gets those
  slots back. In the model, the limit holds in all periods with given numbers of lost replies and of rows
  gone either way exactly when these are zero (`QuotaPeriod.LimitHoldsExactlyWhen`). For a tenant that
  deletes no channel, that is a plan whose retention is at least as long as its period
  (`QuotaPeriod.PlanHoldsExactlyWhen`, `QuotaPeriod.DaysHoldExactlyWhen`). The Free defaults are not such a
  plan and let four times the limit through (`QuotaPeriod.FreePlanOverruns`). A tenant that does delete
  channels gets the limit again every night on any plan (`QuotaPeriod.ChannelDeletionOverruns`).
- The nightly reconcile counts rows, not grants. A refunded send that had stored its row is charged after
  all, and slots of send-multi calls that stored none are given back (`Quota.ReconcileDrift`).
- A crash between an accepted enqueueing and the acknowledgement can lead to a delivered and a failed event
  for one notification; as long as executions of one task do not overlap, nothing else does
  (`Emission.BothEndsExactlyWhen`, `Emission.CrashCanReportBothEnds`); a receiver still keeps one of each kind at most
  (`Emission.ReceiverSeesEachEventOnce`).
- The notification queue's delay panics as soon as min * 2^n leaves the int64 range, with the default
  delays at retry counter 30; `max_retries` has no upper bound
  (`Backoff.RetriesServedExactlyWhen`, `Backoff.DefaultsPanicAtThirty`).
- Touching emphasis is mistranslated in one family of documents
  (`SlackMarkdown.TranslatesExactlyWhen`): `*a***b**`, and `*a**b* **c**` but not `*a**b*`.
- The reconciled counter loses the period's rows that the purge removed
  (`Retention.ReconcileIsExactWhen`).

## Model

| member | source | states |
|---|---|---|
| `Delivery.Worker.HandleNotificationDeliver` | internal/worker/dispatcher.go:54-110 | the handler performs exactly the listed operations for each outcome and returns the error class asynq acts on; an undecodable payload touches nothing |
| `Delivery.Worker.HandleRetryableFailure` | internal/worker/dispatcher.go:137-193 | attempt row, retry increment, status Retrying, and a retryable error |
| `Delivery.Worker.HandlePermanentFailure` | internal/worker/dispatcher.go:205-234 | attempt row, retry increment, status Failed, one failed event, and a SkipRetry error |
| `Delivery.Worker.RecordSuccessfulDelivery` | internal/worker/dispatcher.go:236-268 | attempt row, delivered mark, message id and metric if there is one, one delivered event |
| `Delivery.Worker.HandleError` | internal/worker/error_handler.go:24-123 | nothing before the budget is used up; then, for a delivery task only, status Failed, and a failed event unless the error wraps SkipRetry |
| `Delivery.Worker.UpdateStatus` | internal/repository/pg_notification.go:48-58 | sets status and last error if the write succeeds, and changes nothing else in any table |
| `Delivery.Worker.MarkDelivered` | internal/repository/pg_notification.go:84-95 | sets status and delivery time, leaving the last error and retry counter alone |
| `Delivery.Worker.IncrementRetry` | internal/repository/pg_notification.go:97-107 | adds one to the retry counter and records the error |
| `Delivery.Worker.Process` | internal/worker/error_handler.go:68-123 | driving the two handlers by asynq's contract ends within maxRetry + 1 attempts with the events and tables of the theorems below |
| `Delivery.BudgetIsUsedUp` | internal/worker/retry_exhaustion_integration_test.go:355-360 | a task that keeps failing retryably is attempted exactly maxRetry + 1 times |
| `Delivery.WritesDoNotAffectEvents` | internal/worker/dispatcher.go:270-295 | whatever subset of database writes is lost, the emitted events are the same |
| `Delivery.PermanentAttemptEvents` | internal/worker/error_handler.go:96-101 | a permanent failure on the last permitted attempt passes both handlers and still emits one event |
| `Delivery.RunEmitsOnce` | internal/worker/dispatcher.go:195-268 | a run emits one event if and only if its last attempt reached the provider, of the right kind and with the true attempt count, and otherwise none |
| `Delivery.RunSettles` | internal/worker/dispatcher.go:54-268 | how every run leaves the tables, determined by its last attempt: status (Processing when a lookup failed with budget left), retry counter, attempt rows, message id, metric, events |
| `Delivery.OneTrueEvent` | internal/worker/webhook_event_emitter.go:34-43 | the event's kind is the final status and its attempts equal the attempt rows, numbered 1..k, only the last of which may be a success; retry_count is the number of failures |
| `Delivery.StatusesAreLawful` | internal/worker/dispatcher.go:69-268 | at every point of every run each status write follows an allowed change, and Delivered and Failed are absorbing |
| `Delivery.RowWhileWaiting` | internal/worker/dispatcher.go:137-193 | while a task waits for its next attempt the row says Retrying, holds the last error and counts the attempts made, each of which has its row |
| `Delivery.TablesStayInStep` | internal/worker/dispatcher.go:137-268 | at every point of every run, wherever a worker may die: every retry counted has its attempt row, every delivery its successful one, every event the status it reports |
| `Emission.Emitter.Emit` | internal/worker/webhook_event_emitter.go:67-88 | one enqueue per listed endpoint, in order, whatever subset fails; the first failure is returned |
| `Emission.EmitReachesExactlySubscribers` | internal/repository/pg_webhook_endpoint.go:91-102 | the containment query agrees with SubscribesTo, in the words endpoints list: exactly one task for each subscribing endpoint of the tenant, none for any other |
| `Emission.HashedNameIsInjective` | internal/worker/webhook_event_emitter.go:142-145 | the hashed name determines the notification and the event type |
| `Emission.TaskIdsCollideExactly` | internal/worker/webhook_event_task.go:86-100 | queue task ids coincide exactly when event id and endpoint both do |
| `Emission.ReemissionKeepsIdentity` | internal/worker/webhook_event_emitter.go:120-145 | over every history of crashes at any step and redeliveries, equal event id means same notification and kind, and conversely; likewise task ids and endpoints |
| `Emission.ReceiverSeesEachEventOnce` | internal/worker/webhook_event_emitter.go:127-145 | a receiver that deduplicates on the id keeps at most one event of each kind per notification and loses none, for every order and number of deliveries |
| `Emission.TellsExactlyWhen` | internal/worker/dispatcher.go:195-268 | which kind of event an execution gets onto the queue, read off its outcome, its retry budget, the step at which it dies and the enqueueings refused |
| `Emission.BothEndsExactlyWhen` | internal/worker/webhook_event_emitter.go:127-141 | over every history of crashes and redeliveries of one task, both kinds are queued if and only if a worker dies between an accepted enqueueing and the acknowledgement and a later execution gets as far with the opposite answer |
| `Emission.EarlyCrashesAreHarmless` | internal/worker/webhook_event_emitter.go:130-133 | if every crash comes before the first enqueueing, only one execution queues anything, of one kind |
| `Emission.CrashCanReportBothEnds` | internal/worker/webhook_event_emitter.go:130-133 | such a history exists: a worker dies after enqueueing the delivered event and before acknowledging, and the second execution queues a failed one |
| `Emission.NamedTasksCoincideExactly` | internal/worker/webhook_event_emitter.go:139-145 | two tasks share an event id exactly when notification and event kind coincide, and a queue task id exactly when the endpoint coincides too |
| `Emission.SubscribersLearnTheTruth` | internal/worker/webhook_event_emitter.go:67-156 | after a crash-free run, exactly one task is offered for each active endpoint of the tenant that lists "notification.delivered" or "notification.failed" as the row ended, and is queued exactly if accepted; it says "delivered" or "failed" accordingly, with the recorded attempts, the notification's data and the promised ids; none for others |
| `Quota.GrantsNeverExceedLimit` | internal/quota/quota.go:56-119 | in every interleaving, with lost commands and crashes, slots granted and not refunded stay within what the counter left at the start |
| `Quota.CounterIsConserved` | internal/quota/quota.go:69-118 | the counter is its starting value plus granted, in-flight and leaked slots; no refund reaches the negative-value correction |
| `Quota.LoneReserveIsCheckAndAdd` | internal/quota/quota.go:69-96 | a non-overlapping reservation is granted exactly when granted + n fits, and a denied one leaves the counter unchanged |
| `Quota.DeniedExactlyWhen` | internal/quota/quota.go:79-87 | an overlapping reservation is denied exactly when granted, in-flight and leaked slots plus n exceed the limit |
| `Quota.OverlapCanDenyWhatFits` | internal/quota/quota.go:69-87 | a reachable state in which a request that would fit alone is turned down |
| `Quota.QueuedTasksNeverExceedLimit` | internal/quota/middleware.go:46-103 | from one reconcile to the next, over all overlapping requests, queued tasks exceed the room there was by at most the single sends whose enqueue reply was lost plus what undercounted requests did not reserve; a request answered 400 or above has queued a task exactly if it is such a send |
| `Quota.AgreementCoversCalls` | internal/quota/middleware.go:56-70 | if both decodings see the same channel list, the reservation covers every call the handler makes |
| `Quota.UndercountedExactlyWhen` | internal/quota/middleware.go:62-69 | the reservation falls short of the calls exactly for a body of 2 to 50 decodable channels followed by further non-blank bytes |
| `Quota.CoverageIsNecessary` | internal/handler/notification_handler.go:70-86 | at every limit of at least one, copies of a send-multi request stay within it in every world they reach if and only if the body is not such a one |
| `Quota.LostReplyOverruns` | internal/service/notification_service.go:108-111 | a send whose task was queued but whose enqueueing was reported as an error is answered 500 and refunded; at limit 1 two tasks end up on the queue |
| `Quota.AnsweredSendIsCharged` | internal/service/notification_service.go:46-123 | a send answered below 400 stored exactly one row, queued exactly one task and keeps its slot |
| `Quota.RefusedRequestsArePaidBack` | internal/quota/middleware.go:72-99 | over every run, a request closed with 400 or above is still charged exactly if its refund was lost, and leaves a leak exactly if its rollback was lost or its reservation misreported; any other holds nothing; 429 over the limit, 500 on a failed reservation |
| `Quota.TalliesAreTrue` | internal/service/notification_service.go:46-123 | over every run, a request's rows, tasks and misreported tasks are as many as the calls made for it whose conditions bring them about |
| `Quota.SendMultiIsAnsweredBySize` | internal/handler/notification_handler.go:70-104 | a send-multi request that got its slots is answered 202 exactly if it lists 1 to 50 channels that decode, and otherwise 400 |
| `Quota.NeverStuck` | internal/quota/middleware.go:72-99 | until it is closed every request has a next step, without any command failing |
| `Quota.ReconcileDrift` | internal/worker/retention.go:87-99 | stored rows, which the reconcile counts as far as no purge or channel deletion has taken them, differ from the granted slots by the rows of refunded sends less the rowless slots of failed send-multi calls, unrefunded failures and crashes |
| `Quota.QueuedIsStored` | internal/service/notification_service.go:82-108 | in every interleaving stored rows cover queued tasks |
| `QuotaPeriod.NightWritesRowsLeft` | internal/worker/retention.go:71-99 | a night writes to the counter the period's rows there were less those that its purge removed |
| `QuotaPeriod.ReconcileWritesBase` | internal/worker/retention.go:71-99 | on a table that holds the rows stored before a stretch, the purge at that night's cutoff and the reconcile after it write exactly the counter the stretch begins with |
| `QuotaPeriod.QueuedInPeriod` | cmd/worker/main.go:141-145 | over a whole period with any nights of maintenance, queued tasks exceed the limit by at most lost single sends, unreserved calls, and period rows that went before a reconcile, in a purge or with a deleted channel; a reconcile alone breaks nothing |
| `QuotaPeriod.LimitHoldsExactlyWhen` | internal/worker/retention.go:85-99 | of the periods with given numbers of lost sends, purged rows and rows gone with a channel, all stay within the limit if and only if these are zero; the excess allowed is reached for every limit and numbers |
| `QuotaPeriod.PurgeOverruns` | internal/worker/retention.go:71-99 | at limit 1, one send, a purge of its row and a reconcile, then another send: two tasks with nothing lost |
| `QuotaPeriod.ChannelDeletionOverruns` | internal/repository/pg_channel.go:94-104 | at every limit and whatever the retention, deleting the channel every evening gives the limit again after each of any number of nights |
| `QuotaPeriod.ExpiresExactlyWhen` | internal/worker/retention.go:73-74 | which rows a purge finds expired: those of stretches more than retention + 1 back, and of that stretch itself those stored before its own purge |
| `QuotaPeriod.PlanHoldsExactlyWhen` | internal/domain/entitlement.go:44-57 | with nightly maintenance, no lost reply and no deleted channel, the limit holds in every history of a period if and only if no purge whose reconcile falls in the period takes its cutoff past the period's start |
| `QuotaPeriod.DaysHoldExactlyWhen` | internal/domain/entitlement.go:44-57 | for a period of whole days that does not begin during maintenance: if and only if days <= retention |
| `QuotaPeriod.MostThatIsQueued` | internal/worker/retention.go:71-99 | otherwise n stretches admit exactly the limit times the ceiling of n / (retention + 1) tasks: never more, and that many are reached |
| `QuotaPeriod.RecentWithinLimit` | internal/worker/retention.go:85-99 | any retention + 1 stretches in a row queue no more than the limit |
| `QuotaPeriod.FreePlanOverruns` | internal/domain/entitlement.go:44-57 | the Free defaults, 1000 messages a calendar month, 7 days of retention and maintenance at 03:00 and 03:30, admit 4000 tasks in a month and no more |
| `QuotaAlerts.Service.Reserve` | internal/quota/quota.go:56-97 | IncrBy, compare and DecrBy amount to check-and-add plus alerts; with a lost rollback only the counter differs; no decision without entitlements, after the period or on an IncrBy error |
| `QuotaAlerts.Service.Refund` | internal/quota/quota.go:102-119 | the counter falls by n and never below zero |
| `QuotaAlerts.Service.NotifyThreshold` | internal/quota/quota.go:126-160 | one alert if the key was newly set, none if it exists or SET NX errs |
| `QuotaAlerts.AlertsNeverRepeat` | internal/quota/quota.go:126-137 | whatever SET NX answers and whatever else moves the counter, each percentage is reported at most once, and never without a webhook |
| `QuotaAlerts.AlertsFireExactlyOnce` | internal/quota/quota.go:89-137 | in a refund-free serial run the 80 % alert fires once iff usage reaches a positive threshold, the 100 % alert once iff the limit is hit or a request denied; there is no other alert, and each reports a usage really reached |
| `QuotaAlerts.AlertsReportWhatHappened` | internal/quota/quota.go:79-96 | every alert of such a run was called for by one of its requests: the 80 % alert reports the usage that crossed, the 100 % alert the limit when it is hit and the counter as left when a request is denied |
| `QuotaAlerts.ThresholdIsFloor` | internal/quota/quota.go:121-124 | the int64 threshold is floor(limit * 80 / 100) wherever the product fits |
| `Caps.CapsHold` | internal/repository/pg_webhook_endpoint.go:37-67 | in every interleaving of creates of both kinds, deletes, revocations, aborts and crashes, each tenant's count of each kind ends within its cap, or no higher than it started if it started above; no condition on other tenants |
| `Caps.CommitKeeps` | internal/repository/pg_apikey_repo.go:77-109 | a commit disturbs no other transaction's count, because it holds the tenant's lock |
| `Caps.ShrinkKeeps` | internal/repository/pg_apikey_repo.go:64-75 | lock-free deletes and revocations keep every count read so far an upper bound |
| `Caps.OneHolderPerTenant` | internal/repository/pg_webhook_endpoint.go:28-36 | in every run, endpoint and key creation for one tenant are never both between lock and commit |
| `Caps.TenantsAreIsolated` | internal/repository/pg_webhook_endpoint.go:129-138 | whatever other tenants do, in any interleaving, no row of this tenant is added, removed or revoked |
| `Caps.CreateAloneIsExact` | internal/repository/pg_webhook_endpoint.go:44-66 | uncontended, a create adds exactly its row if there is room and otherwise leaves no trace |
| `Caps.RemovalIsExact` | internal/repository/pg_apikey_repo.go:64-75 | deleting an endpoint or revoking a key takes exactly that one off its owner's count and leaves every other row alone; by anyone else, or a second time, nothing happens |
| `SlackMarkdown.BoldEnd` | internal/provider/slack.go:139-139 | finds the leftmost lazy match: the shortest group, or none if there is none |
| `SlackMarkdown.ItalicEnd` | internal/provider/slack.go:140-140 | the same for the italic pattern |
| `SlackMarkdown.TextEnd` | internal/provider/slack.go:141-141 | the shortest link text for which a URL group can follow, or none |
| `SlackMarkdown.LinkPass` | internal/provider/slack.go:166-168 | the link pass rewrites every link of a document and nothing else |
| `SlackMarkdown.BoldPass` | internal/provider/slack.go:170-174 | on every document that is not torn the bold pass fences every bold span and nothing else |
| `SlackMarkdown.ItalicPass` | internal/provider/slack.go:175-175 | the italic pass rewrites every italic span and leaves fenced bold alone |
| `SlackMarkdown.TranslatesExactlyWhen` | internal/provider/slack.go:153-179 | for every document of well-formed spans in any order, converting the CommonMark rendering gives exactly the mrkdwn rendering if and only if the document is nowhere torn: no italic span touches further emphasis with another pair of asterisks to follow on that line |
| `SlackMarkdown.ConverterTranslates` | internal/provider/slack.go:153-179 | in particular it does so on every document that keeps italic text apart from other emphasis |
| `SlackMarkdown.PairsTranslateExactlyWhen` | internal/provider/slack.go:170-176 | two touching spans translate correctly if and only if they are not italic followed by bold |
| `SlackMarkdown.ConverterKeepsText` | internal/provider/slack.go:157-179 | for every input, apart from markup characters the output is what the link pass alone gives; without a link match it is the input |
| `SlackMarkdown.BoldsUnchangedExactlyWhen` | internal/provider/slack.go:139-139 | the bold pass leaves a text alone if and only if it holds no two pairs of asterisks around a non-empty text of one line |
| `SlackMarkdown.ItalicsUnchangedExactlyWhen` | internal/provider/slack.go:140-140 | likewise the italic pass and single asterisks |
| `SlackMarkdown.UnchangedExactlyWhen` | internal/provider/slack.go:153-179 | for every input, the text passes through unchanged if and only if it holds no sentinel, no bracketed link and no two asterisks around text of one line |
| `SlackMarkdown.ConvertsByLine` | internal/provider/slack.go:139-179 | for all texts, converting a + newline + b is converting a, newline, converting b |
| `SlackMarkdown.SentinelNeverShows` | internal/provider/slack.go:143-178 | a text's own sentinels are dropped before anything else, and none is left in the result |
| `SlackMarkdown.MessageOfDocument` | internal/provider/slack.go:117-132 | in markdown mode the message is the bold subject line above the translated body, for every document that is not torn |
| `SlackMarkdown.MessageInOtherModes` | internal/provider/slack.go:117-132 | in any other mode subject and text are left as they are; without a subject there is no subject line |
| `Duration.TokenIsRead` | sdks/typescript/src/duration.ts:1-6 | wherever a unit fits the pattern matches, every fitting unit has the same number, and ms is preferred to m |
| `Duration.TokenisationIsUnique` | sdks/typescript/src/duration.ts:8-13 | a string is a sequence of units in at most one way |
| `Duration.NextIsHere` | sdks/typescript/src/duration.ts:46-49 | successive global matches leave no gap and end exactly at the end |
| `Duration.ParseGoDuration` | sdks/typescript/src/duration.ts:38-51 | accepts exactly the anchored language and returns the sum of the unique tokenisation |
| `Duration.ParsingIsAdditive` | sdks/typescript/src/duration.ts:46-50 | the concatenation of two accepted durations is accepted and parses to their sum |
| `Duration.ParseInvertsGoString` | sdks/typescript/src/duration.ts:26-31 | parsing what Go prints gives back the duration, for every number of nanoseconds |
| `Duration.OneTokenParses` | sdks/typescript/src/duration.ts:44-51 | a number and a unit parse to the number, read alike whatever the unit, times the unit |
| `Duration.UnitTable` | sdks/typescript/src/duration.ts:15-24 | the spellings of the units, and how many of each make one of the next |
| `Duration.SpellingsParseAlike` | sdks/typescript/src/duration.ts:20-22 | units of the same worth, such as the three spellings of a microsecond, are read alike |
| `TokenCache.OneExchangeAtATime` | sdks/go/client.go:126-239 | in every interleaving one exchange at most is in flight, cached tokens are handed out only more than 30 s before expiry, two sends and two exchanges per request at most |
| `TokenCache.CallersShareOneExchange` | sdks/go/client.go:116-135 | once a usable token is cached, without 401 or expiry no further exchange is made and every caller gets that token |
| `TokenCache.CalmRunExchangesOnce` | sdks/go/client_test.go:426-428 | however many callers start on a fresh client, a run without 401, failure or expiry makes at most one exchange |
| `TokenCache.UnauthorizedIsRetriedOnce` | sdks/go/client.go:203-235 | over every run, a request that met a 401 is sent a second time, with a token from an exchange of its own, unless that exchange fails; it is sent twice only after a 401 |
| `TokenCache.RefreshDropsToken` | sdks/go/client.go:126-190 | while a refresh is under way, and after it fails, no refused token is left in the cache |
| `TokenCache.CacheHoldsAnExchange` | sdks/go/client.go:126-190 | whatever is cached came from an exchange and is kept for exactly the lifetime it was given then |
| `TokenCache.NeverStuck` | sdks/go/client.go:126-239 | until it is done a request can take a step, or another holds the mutex and can |
| `Retention.ForEachTenant` | internal/worker/retention.go:47-67 | terminates and hands each loadable tenant to the callback once, in order; a failing page query ends it there with an error, everything before it done |
| `Retention.LoadedMembers` | internal/worker/retention.go:54-61 | exactly the loadable tenants are visited, and distinct tenants are visited once each |
| `Retention.Store.DeleteChannel` | migrations/000003_create_notifications.up.sql:3-6 | deleting an owned channel takes exactly its notifications along, of whatever age, and their children; a foreign or missing channel changes nothing |
| `Retention.RemovalLowersUsage` | internal/repository/pg_notification.go:172-181 | however rows come to be deleted, the period count falls by those of them it covered |
| `Retention.UsageCounts` | internal/repository/pg_notification.go:172-181 | the count of an empty table is zero, and a new row raises it by one exactly if it is the tenant's and in the interval |
| `Retention.Store.DeleteOlderThan` | internal/repository/pg_notification.go:211-234 | removes exactly the tenant's expired rows and their children, and leaves no orphan; on an error nothing changes |
| `Retention.Store.Purge` | internal/worker/retention.go:71-83 | every tenant reached whose deletion works loses exactly its rows before its own cutoff, nobody else loses any; attempt and metric rows survive exactly with their notification |
| `Retention.Store.Reconcile` | internal/worker/retention.go:87-99 | each tenant reached whose count and write work gets its row count for the period; other counters are untouched |
| `Retention.Store.Night` | internal/worker/retention.go:71-99 | purge then reconcile: the counter is the count of the rows as they were before the night, from max(periodStart, cutoff) if the tenant's purge worked and from periodStart if not |
| `Retention.PurgedUsage` | internal/repository/pg_notification.go:172-184 | after a purge the period count is that of the rows in [max(periodStart, cutoff), periodEnd) |
| `Retention.ReconcileIsExactWhen` | internal/worker/retention.go:85-99 | that equals the pre-purge count if and only if no row of the period predates the cutoff |
| `Backoff.BaseIsIdeal` | internal/worker/webhook_event_retry_delay.go:18-22 | the int64 capped doubling equals the ideal one whenever the product fits below 2^63 |
| `Backoff.WebhookDelayInRange` | internal/worker/webhook_event_retry_delay.go:18-42 | for every draw the delay lies between its base and 1.2 times it, within 2 minutes and 2 hours |
| `Backoff.WebhookDelayIsBaseAndDraw` | internal/worker/webhook_event_retry_delay.go:18-42 | below the cap the delay is exactly the base plus what was drawn |
| `Backoff.WebhookDelaysNeverShrink` | internal/worker/webhook_event_retry_delay.go:18-28 | for every pair of draws a later retry waits at least as long |
| `Backoff.WebhookEventsSpanSixHours` | internal/worker/webhook_event_task.go:12-39 | the eight delays sum to between 366 and 391.2 minutes |
| `Backoff.NotificationDelayInRange` | cmd/worker/main.go:96-103 | the draw panics if and only if the base is below 5 ns; otherwise the delay is in [base, 1.2 base) if and only if base plus draw fits in an int64, and negative if not |
| `Backoff.RetriesServedExactlyWhen` | cmd/worker/main.go:96-103 | every retry counter up to n gets a delay if and only if both configured delays are at least 5 ns and min * 2^n fits in an int64 |
| `Backoff.FirstOverflowPanics` | cmd/worker/main.go:97-101 | the first retry counter whose product does not fit panics |
| `Backoff.DefaultsPanicAtThirty` | internal/config/config.go:32-33 | with the default 15 s and 30 min the first panic is at retry counter 30 |
| `Backoff.TooManyDoublingsPanic` | cmd/worker/main.go:96-102 | from retry counter 64 on the shifted factor is zero and the draw panics, whatever is configured |

## Left out

- asynq, Redis and Postgres themselves, key expiry, and asynq's handling of duplicate task ids beyond when they collide.
- `Emission.BothEndsExactlyWhen`: executions of one task follow each other; one that overlaps another, after a lease ran out under a worker that is still alive, is not modelled.
- Providers' HTTP, SMTP and MIME code: an attempt's outcome is one of success, transport error, transient failure, permanent failure, or a failed lookup.
- Error texts and timestamps: rows record only whether an error and a delivery time are present, and event payloads have no creation time.
- Quota, caps and the token cache are modelled on values as step machines, because the point is their interleaving; aliasing of Go objects is not captured there.
- Quota across a change of limit or period, and maintenance that races with requests in flight: the limit and the counter key are fixed, and a night falls between requests.
- The status recorder's first-write-wins rule and the 401 and 402 answers before a reservation appear only as "turned away" and as the handler's one answer.
- The unguarded first API key written when a tenant is created: it may put a tenant above its cap, from which `Caps.CapsHold` says it does not climb.
- `SlackMarkdown.TranslatesExactlyWhen` and `SlackMarkdown.ConverterTranslates`: asterisks or opening brackets in running text and asterisks in URLs are outside the document class; invalid UTF-8 is not modelled.
- `QuotaPeriod.PlanHoldsExactlyWhen`: days are 24 hours and maintenance runs at its scheduled time every night; a late or failed job is covered by `QuotaPeriod.QueuedInPeriod` but not by the plan theorems.
- Floating-point rounding in the duration parser: amounts are exact; the Python twin is not modelled.
- `Caps.CapsHold`: the cap is fixed for the run, so a plan change in between is not covered.
- Validation of webhook event lists and retry-delay dispatch by task type: single-function checks with no state, which no theorem here depends on.
- The admin bot, routing, configuration loading, authentication, signatures and URL guards: they rest on libraries that are not part of this model.
