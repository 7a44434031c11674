# Penshort: a model and proofs

Penshort is a URL shortener over PostgreSQL and Redis. This project models the stateful protocols
under its handlers in Dafny and proves what they keep. Tables, streams and caches are in-memory state;
lost requests, lost replies, crashes, retries, interleavings and clock readings are nondeterministic.

`dafny verify dfyconfig.toml` checks everything.

## How it is organised

| concern | files |
|---|---|
| click ingestion: at-least-once stream, idempotent insert, daily aggregates | `Clicks`, `DailyStats`, `ClickEventRepository`, `ClickStream`, `IngestionProtocol`, `IngestionTheorems`, `IngestionMeaning`, `IngestionVetting`, `IngestionSharedBucket`, `IngestionPaths`, `IngestionWorker` |
| analytics report | `TopEntries`, `AnalyticsReport`, `ReportTheorems`, `ReportMeaning` |
| webhook outbox | `Backoff`, `DeliveryProtocol`, `DeliveryTheorems`, `DeliveryNulls`, `DeliveryWaits`, `WebhookOutbox`, `WebhookWorker` |
| rate limiter | `TokenBucket`, `RateLimits` |
| redirects through the cache | `Links`, `LinkCache`, `LinkService`, `RedirectRaces`, `RedirectTheorems`, `RedirectRefinement`, `StaleEntries`, `MixedEntries` |
| clicks published by redirects | `RedirectClicks` |
| link listing | `Pagination`, `LinkListing` |
| shared | `Util`, `Environment` |

Each protocol is modelled twice. A state machine (`...Protocol`, `RedirectRaces`) has steps at which
processes may interleave or die; its theorems are about every run. A class has the code's own methods, loops
and branches; the two worker classes keep a ghost history `run`, and every method proves that the
history remains a run of the machine, so that what holds of all runs holds of the code. Of the link service each
operation is shown to be a path of the interleaved model (`RedirectRefinement`). What the shared definitions mean is
stated once more without them, in numbers and fields: `IngestionMeaning`, `ReportMeaning`, `RateLimits`, the
lemmas `...InPlainTerms`, and the contracts of the operations.

Failures come from one place, `Environment`, which counts them. A contract can therefore say both what a
call leaves behind however it fails and that it does not fail without a fault.

## What was found

- **Daily stats are exact for one consumer, not for several.** The design record calls the aggregates
  accurate across retries and allows horizontal scaling. `ExactOrAwaiting` proves the first as long as no two
  consumers hold entries of one link and day at the same time; `StaleStats` shows a run of two consumers that ends
  with everything acknowledged and a stale row; `StatsRowIsSnapshot` states exactly when a row is exact.
- **No webhook is ever delivered.** A new delivery has no `last_error`, and the fetch reads that column into a
  plain string, which fails the whole fetch. So every delivery stays pending with no attempts
  (`NothingIsEverAttempted`, `NothingIsEverDelivered`). Everything else said of the outbox's worker is about the protocol
  with the column read as nullable, of which the code's runs are the ones in which nothing is fetched;
  there the rows concerned are exactly those never attempted (`UnscannableIffFresh`).
- **A delivered webhook can become failed again** when two workers fetched it (`SharedDelivery`,
  `SuccessUndoneIff`): the select's row locks end with its statement and the updates do not look at the status.
- **The first retry comes after five minutes, not one.** The documentation and the comment over the delays
  count from one minute; the worker passes the incremented count, so the first delay is never used
  (`FirstDelayIsNeverUsed`).
- **Clicks on cached links are not counted.** The cached form has no link id, the handler publishes the id it
  was given, and the worker rejects a click without one: a redirect's click is accepted exactly when the redirect
  was answered from the table (`Redirect`, `AnonymousClickIsLost`).
- **An entry of which some statement is bound to be refused blocks its batch for good.** Validation admits NUL
  characters, also in the owner, times out of range or on the last day in range, and link ids too long for an
  index; such an entry is never acknowledged (`UnsoundStaysPending`). A time after the year 9999 blocks it for as long
  as its owner has an endpoint, since the payload cannot express it. Without any of these the backlog
  drains (`Drain`).
- **A failed read is taken for an empty one**, as the reply without streams is looked at before the error
  (`ReadBatch`), so the loop does not pause when Redis is down.
- **A reclaimed click may be delivered twice**, because a re-parse draws a new click id, which is the
  delivery's event id (`RepublishIsNoOpIff`).
- **A cache entry may outlive a change, or mix two rows,** without any failure (`StaleRedirect`, `MixedSnapshot`):
  the first exactly when a request had read the row and not yet written it (`StaleEntryIff`), the second
  because a hash written without an expiry keeps the old one, exactly when both are at hand (`MixedEntryIff`). A
  write cut short may leave an entry that never lapses (`Everlasting`).
- **A link may be reported as not found for five minutes after creation**, because creating it does not
  clear the negative entry (`AskedTooEarly`).
- **Visitor figures count hashes, not persons.** The summary adds daily figures; that is the number of distinct
  hashes of the period exactly when no hash occurs on two days (`QuietReportIsExact`), which the daily salt
  ensures (`RotatingHashesAddUp`). A person who comes back on another day is another visitor in both.
- The tiers in `docs/rate-limiting.md` differ from those in `internal/model/apikey.go`; the model follows the code.

## Model

| member | source | states |
|---|---|---|
| `IngestionTheorems.AckedIsProcessed` | internal/analytics/worker.go:211-231 | In every run, with any number of consumers, crashes and failing steps, an acknowledged entry has its row or was malformed and handed to `deadLetterMessage`; `StoredFieldByField` says what is in the row. |
| `IngestionMeaning.StoredFieldByField` | internal/analytics/worker.go:367-378 | In every run, an acknowledged entry has a row with its short code, link, referrer, user agent, visitor hash, country and time, each under its own name, if and only if it meets the conditions of validation, spelled out; otherwise it has none and was handed to `deadLetterMessage`. |
| `IngestionMeaning.EveryRowIsSent` | internal/analytics/worker.go:367-378 | In every run each row has the fields of the entry it is named after, and no entry has two rows. |
| `IngestionTheorems.RowsAreEntries` | internal/repository/click_event.go:24-65 | In every run `click_events` has at most one row per stream id, each row is the one its entry leads to, and belongs to an entry that was delivered. |
| `IngestionTheorems.Confluence` | internal/analytics/worker.go:343-383 | Two runs with nothing pending that acknowledged the same entries hold the same rows up to order, however entries were batched, retried, reclaimed or shared. |
| `IngestionTheorems.StatsRowIsSnapshot` | internal/repository/click_event.go:118-154 | In every run with any number of consumers a stats row is the aggregate of its window in an earlier state, never over-counts in any figure, and is exact now if and only if no click has landed in the window since. |
| `IngestionTheorems.ExactOrAwaiting` | internal/analytics/worker.go:451-494 | When no two consumers hold one bucket at once (a single consumer in particular), every stats row equals the aggregate of its window or an unacknowledged entry belongs to that bucket. |
| `IngestionTheorems.ExactlyOnce` | internal/analytics/worker.go:195-232 | Two such runs with nothing pending that acknowledged the same entries end with the same `daily_link_stats`, whatever was redelivered and re-counted on the way. |
| `IngestionTheorems.QuietTotals` | internal/repository/click_event.go:68-85 | With nothing pending, the stored totals of a link over any range of days add up to the number of its clicks in those days. |
| `IngestionSharedBucket.StaleStats` | docs/adr/0003-click-event-ingestion.md:32-38 | Counterexample to accuracy under horizontal scaling: for any two valid, sound entries of one bucket there is a run of two consumers after which all is acknowledged, nothing is pending, two clicks are stored and the row says one. |
| `IngestionProtocol.InvStep` | internal/analytics/worker.go:195-232 | Every protocol step of any consumer keeps the invariant: the index matches the rows, rows match entries, batches are parsed and inserted prefixes, acknowledged entries are processed. |
| `IngestionProtocol.InvRun` | internal/analytics/worker.go:195-232 | The invariant holds in every state of every run. |
| `IngestionWorker.Worker.ProcessOnce` | internal/analytics/worker.go:195-232 | One turn: which entries it takes and, as `Effects`, exactly what it leaves in both tables, the dead letters and the acknowledgements; how the backlog shrinks; without a fault or cancellation it succeeds if every entry taken is sound and announceable, and it acknowledges only sound ones. The worker's history stays a run of the protocol. |
| `IngestionWorker.Worker.Take` | internal/analytics/worker.go:195-213 | Idle entries are claimed if a claim is due, or else new ones read; without a fault nothing taken means nothing new, and after a due claim of idle entries a cursor back at the start. |
| `IngestionWorker.Worker.Drain` | internal/analytics/worker.go:105-149 | From every state the worker can be in, at turns as close together as one likes: once faults have stopped and what is pending is idle, as many turns finding a claim due as `TurnsLeft` says acknowledge every entry that has arrived, if all are sound and announceable. |
| `IngestionWorker.Worker.Turn` | internal/analytics/worker.go:195-232 | A turn that finds a claim due lowers the turns still needed or leaves no backlog; any other turn never raises them. |
| `IngestionWorker.Worker.Restart` | internal/analytics/worker.go:79-97 | A process that takes over after a crash continues the same run without the lost batch, so whatever holds of the worker holds across restarts. |
| `IngestionWorker.Worker.Process` | internal/analytics/worker.go:211-231 | Acknowledgement only after all events are inserted, all their buckets recomputed and all events published; otherwise nothing leaves the pending list. |
| `IngestionWorker.Worker.ProcessBatchWithRetry` | internal/analytics/worker.go:420-448 | However the attempts fail, the database holds a prefix of the events, each once, with recomputed buckets only behind a complete insert; it succeeds only if every event is sound, and does if all are announceable too, with fewer faults than attempts and no cancellation. |
| `IngestionWorker.Worker.ProcessBatch` | internal/analytics/worker.go:451-494 | Insert, recompute, publish in this order, stopping at the first failure; success means all three are complete; failing on sound, announceable events takes a fault. |
| `IngestionWorker.Worker.PublishWebhooks` | internal/analytics/worker.go:496-509 | Publishes a prefix of the events, all on success; without a fault it fails only on an owner with a NUL, and then always, or a time beyond what JSON can express. |
| `IngestionWorker.WroteTwice` | internal/analytics/worker.go:420-448 | Two attempts at a batch together write what the one that got further would have written alone. |
| `IngestionWorker.Worker.ParseMessages` | internal/analytics/worker.go:343-383 | The events are the valid messages in order, each with the fields of its payload and its owner, none left out; all ids are kept for acknowledgement, exactly the malformed ones are handed to the dead-letter step, each with the reason that fits it. |
| `IngestionWorker.Worker.DeadLetterMessage` | internal/analytics/worker.go:386-417 | The id counts as handed over although the dead-letter write may be lost; without a fault it is written. |
| `IngestionWorker.Worker.MaybeClaimPending` | internal/analytics/worker.go:235-262 | At most one claim in ten seconds; exactly the entries idle for thirty, from the old cursor up to the new one, are taken over, and none leaves the pending list. |
| `IngestionWorker.Worker.ReadBatch` | internal/analytics/worker.go:322-339 | Without a fault the next undelivered entries, up to the batch size; with one possibly nothing, and never an error. |
| `IngestionWorker.Worker.AckMessages` | internal/analytics/worker.go:512-523 | The ids leave the pending list together or not at all; a lost reply reads as a failure. |
| `IngestionWorker.Worker.QuietStatsAreExact` | internal/analytics/worker.go:195-232 | Of the code itself: after any number of turns, when nothing is pending, every stats row is exact. |
| `IngestionPaths.InsertPath` | internal/repository/click_event.go:24-65 | A bulk insert that stops after n events is n insertion steps of the protocol, so its partial effects are states of the run. |
| `IngestionPaths.RefreshPath` | internal/repository/click_event.go:68-85 | Updating some buckets is a recompute step and an upsert step for each. |
| `ClickStreams.ClickStream.XReadGroup` | internal/analytics/worker.go:322-339 | Delivers exactly the next entries and adds them to the pending list, even if the reply is lost. |
| `ClickStreams.ClickStream.XAutoClaim` | internal/analytics/worker.go:235-262 | Returns every idle entry between start and the returned cursor and no other; resets only their idle time. |
| `ClickStreams.ClickStream.XAck` | internal/analytics/worker.go:512-523 | Removes exactly the given entries from the pending list, or nothing. |
| `ClickEvents.RetryInsertsOnce` | internal/repository/click_event.go:24-65 | Inserting a prefix of a batch and then a prefix again equals inserting the longer prefix once. |
| `ClickEvents.KnownEventsSkipped` | internal/repository/click_event.go:24-65 | Events whose stream ids are stored leave the table untouched. |
| `ClickEvents.InsertKeepsTable` | migrations/000005_analytics.up.sql:8-11 | An insert keeps the stream id unique and the index equal to the ids of the rows. |
| `ClickEvents.ClickEventRepository.BulkInsert` | internal/repository/click_event.go:24-65 | Inserts all events or, failing, some prefix of them: rows are only added, each the click of an event, no id twice, on success one for every event. It fails only on a fault, a taken primary key or an event with a NUL, a time out of range or an id that fits no index, and always on the latter. |
| `IngestionVetting.UnsoundStaysPending` | internal/analytics/worker.go:216-231 | In every run with any number of consumers, a valid entry of which some statement is bound to be refused (its row, the recount of its day, the lookup of its owner) is never acknowledged and stays pending for good; if it is its row, it is never stored. |
| `IngestionVetting.VettingStep` | internal/analytics/worker.go:451-494 | Every protocol step keeps: batches carry their entries' owners, what was recomputed and published could be, and acknowledged entries are sound. |
| `IngestionVetting.PublishedIsStored` | internal/analytics/worker.go:451-494 | In every run, when an event of a batch is published, the rows of all valid entries of the batch are stored and the event's day has been recounted. |
| `IngestionMeaning.TurnOn` | internal/analytics/worker.go:195-232 | A turn succeeds only if no valid entry it takes has a NUL in a text, a day that ends beyond the timestamps or a link id that fits no index; without a fault or cancellation it does if they also fall before the year 10000 or have no owner. |
| `Clicks.LastDayIsStoredNotCounted` | internal/repository/click_event.go:118-121 | The input between the two bounds: a click on the last day of the timestamps passes the insert and fails the recount. |
| `ClickEvents.ClickEventRepository.UniqueDailyKeys` | internal/repository/click_event.go:103-116 | The buckets of the events, each exactly once: a link and a day for every event, the day being the one between whose UTC midnights the click falls. |
| `IngestionMeaning.WindowIsTheDay` | internal/repository/click_event.go:118-128 | A window holds exactly the clicks of one link from one UTC midnight up to the next, in milliseconds. |
| `IngestionMeaning.TotalOfDay` | internal/repository/click_event.go:156-184 | A day's total is the number of clicks of the link between the day's two midnights. |
| `IngestionMeaning.VisitorsOfDay` | internal/repository/click_event.go:166-169 | A day's unique visitors are the different non-empty visitor hashes of those clicks. |
| `IngestionMeaning.ReferrersOfDay` | internal/repository/click_event.go:171-177 | Each referrer counts those clicks that carry its domain; "(direct)" counts those without a referrer. |
| `IngestionMeaning.CountriesOfDay` | internal/repository/click_event.go:178-180 | Each country counts those clicks that carry it. |
| `ClickEvents.ClickEventRepository.RecalculateDailyStat` | internal/repository/click_event.go:118-154 | Whatever order the rows come back in, the result is the aggregate of the window; but for faults it fails exactly when the window ends beyond the timestamps. |
| `ClickEvents.ClickEventRepository.UpdateDailyStats` | internal/repository/click_event.go:68-85 | The rows of the buckets reached are recomputed from `click_events`, all others untouched; success reaches every bucket of the events; failing on buckets that can all be recounted takes a fault. |
| `ClickEvents.RefreshedMeaning` | internal/repository/click_event.go:187-216 | After upserts of some buckets: those have the aggregate of their window, every other row is as before. |
| `DailyStats.AccumulateDailyStats` | internal/repository/click_event.go:156-184 | The loop computes the aggregate: number of rows, number of distinct non-empty visitor hashes, occurrences per referrer label and per country. |
| `DailyStats.CountsMeaning` | internal/repository/click_event.go:171-180 | A breakdown maps each label to its number of occurrences, and nothing else. |
| `DailyStats.VisitorsMeaning` | internal/repository/click_event.go:166-169 | The visitors counted are the non-empty hashes that occur. |
| `DailyStats.ClicksConserved` | internal/repository/click_event.go:156-184 | Total = number of clicks = sum over referrers; countries sum to the clicks with a country; visitors never exceed clicks. |
| `DailyStats.AggregatePermutation` | internal/repository/click_event.go:118-154 | The aggregate does not depend on the order of the rows. |
| `DailyStats.AggregateGrows` | internal/repository/click_event.go:156-184 | More clicks never lower any figure. |
| `DailyStats.SnapshotExactIff` | internal/repository/click_event.go:118-154 | The aggregates of a window in an earlier and a later table agree if and only if no click of the bucket was added in between. |
| `DailyStats.DaysPartition` | internal/repository/click_event.go:118-121 | Day windows partition time: a link's exact daily totals over a range sum to its clicks in the range. |
| `DailyStats.ExtractDomain` | internal/repository/click_event.go:387-411 | The text between the first "://" (or the start) and the next slash, "(unknown)" when short or empty. |
| `IngestionMeaning.DomainInPlainTerms` | internal/repository/click_event.go:387-411 | The domain is the slash-free text behind the first "://", or from the start if there is none; "(unknown)" if that is empty or the referrer has fewer than ten characters. |
| `ReportTheorems.QuietReportIsExact` | internal/handler/analytics.go:121-171 | With nothing pending the report of a period equals counting the period's raw clicks directly, in total, referrers and countries; summed daily visitors are never fewer than the period's and equal exactly when no visitor hash occurs on two days. |
| `ReportMeaning.QuietReport` | internal/handler/analytics.go:121-171 | Of the code itself, with nothing pending: the total is the number of the link's clicks from the first midnight to the last, each daily entry counts that day's clicks and different visitor hashes, the latest day first and none with a click missing, and each listed referrer and country the clicks that carry it, all of them if fewer than ten are listed. |
| `ReportTheorems.RotatingHashesAddUp` | internal/analytics/publisher.go:114-123 | As hashes are salted with the day, short of a collision the summed daily visitors are the period's distinct hashes, in every quiet state. |
| `ReportTheorems.ReportAddsUp` | internal/handler/analytics.go:121-171 | In every reachable state the summary total equals the sum of the daily rows and of the merged referrers, and the listed referrers account for it exactly when there are at most ten. |
| `ReportTheorems.MergedIsAggregate` | internal/handler/analytics.go:148-168 | Merging daily rows gives the aggregate of all their clicks taken together, up to hashes that occur on several days. |
| `AnalyticsReports.GetAnalyticsSummary` | internal/repository/click_event.go:248-276 | Totals and visitors are summed over the rows in range; the average times the number of days is the total, and zero if there are no days. |
| `ReportTheorems.SummaryIsSumOfDays` | internal/repository/click_event.go:219-276 | The summary's sums and the sums over the daily listing agree. |
| `ReportTheorems.PeriodIsTheDays` | internal/repository/click_event.go:219-232 | The period of a report holds exactly the link's clicks from the first day's midnight up to the one after the last day. |
| `ReportTheorems.DailyRowsAre` | internal/repository/click_event.go:219-245 | The daily listing holds stored rows of the link with days in range, the last day first. |
| `ReportTheorems.NoDailyRowMissing` | internal/repository/click_event.go:219-245 | No stored row of the link in range is left out of it. |
| `AnalyticsReports.SumAdded` | internal/handler/analytics.go:150-155 | Adding one breakdown to another adds their sums: no click is lost or doubled in the merge. |
| `AnalyticsReports.AddBreakdown` | internal/handler/analytics.go:152-154 | Accumulating one row's entries in any order gives the pointwise sum. |
| `AnalyticsReports.BuildAnalyticsResponse` | internal/handler/analytics.go:121-171 | One daily entry per row, and the top ten of the merged referrers and countries, each only if included. |
| `TopEntries.ExchangeSort` | internal/handler/analytics.go:193-199 | In place: the result is a descending permutation. |
| `TopEntries.SortedBreakdown` | internal/handler/analytics.go:182-205 | The kept entries are distinct entries of the map, descending, as many as the limit allows, and no dropped one has more clicks than any kept one. |
| `TopEntries.ListedClicks` | internal/handler/analytics.go:201-204 | With positive counts the kept entries sum to the whole exactly when nothing was cut. |
| `DeliveryTheorems.AttemptsAreBounded` | internal/webhook/worker.go:170-191 | In every run with exclusive batches (one worker in particular): attempt_count <= max_attempts + manual resets, and a failed row has attempts left. |
| `DeliveryTheorems.SuccessAbsorbs` | internal/webhook/repository.go:329-347 | A delivered row stays exactly as it is for the rest of the run. |
| `DeliveryTheorems.ExhaustedUntilReset` | internal/webhook/repository.go:481-501 | An exhausted row changes only through a manual reset. |
| `DeliveryTheorems.ResetAtLimitBuysOne` | internal/webhook/repository.go:481-501 | A reset does not clear attempt_count, so at the limit it buys exactly one attempt. |
| `DeliveryTheorems.CopyMatchesRow` | internal/webhook/worker.go:85-103 | In every state of every run with exclusive batches, everything a worker still holds equals the stored row, is not terminal and is due: the count it decides from is the stored count. |
| `DeliveryTheorems.UpdatesAreBounded` | internal/webhook/worker.go:106-191 | Without resets a delivery is updated at most max_attempts times in any run. |
| `DeliveryTheorems.AttemptDecreases` | internal/webhook/worker.go:106-191 | Every attempt that updates its row strictly lowers the attempts left over all open deliveries, whatever the receiver answers. |
| `DeliveryTheorems.AttemptsAreSpaced` | internal/webhook/repository.go:302-326 | After a recorded failure the next attempt comes no earlier than 0.8 of the delay its count selects. |
| `DeliveryTheorems.PublishedForGood` | internal/webhook/repository.go:272-299 | Once a click has a delivery to an endpoint, publishing it there again changes nothing at any later point of any run, whatever workers, resets and edits did in between. |
| `DeliveryTheorems.AtMostOneRow` | migrations/000006_webhooks.up.sql:78-79 | At no point of any run, with any number of workers on the same deliveries, do two rows have the same event and endpoint. |
| `DeliveryTheorems.SuccessUndoneIff` | internal/webhook/repository.go:350-379 | Without exclusiveness: a delivered row can lose its status in the next step exactly when some worker is about to attempt it. |
| `DeliveryTheorems.SharedDelivery` | internal/webhook/repository.go:302-326 | Counterexample for two workers, with `last_error` read as nullable: both fetch a delivery, the receiver accepts it from one, and the other turns it back into a failed one. |
| `DeliveryProtocol.InvStep` | internal/webhook/worker.go:85-191 | Every step by workers, publishers, editors and manual resets keeps the invariant, if no two workers hold the same delivery. |
| `DeliveryProtocol.InvRun` | internal/webhook/worker.go:85-191 | The invariant holds in every state of every such run. |
| `WebhookWorker.Worker.ProcessOnce` | internal/webhook/worker.go:85-103 | With `last_error` read as nullable: the most overdue deliveries, up to the batch size and all of them below it, each attempted once on the row as it was fetched, none skipped without a fault. As the code reads it: none, ever. The history stays a run of the protocol. |
| `WebhookWorker.Worker.FetchDeliveries` | internal/webhook/worker.go:85-91 | What is fetched is due, as stored, each once; success without a free place in the batch missing none. |
| `WebhookWorker.Worker.NothingIsEverDelivered` | internal/webhook/repository.go:518-550 | Of the code itself: after any number of turns, publishes, edits and resets every delivery is pending with no attempts. |
| `DeliveryNulls.NothingIsEverAttempted` | internal/webhook/repository.go:518-550 | In every run of the outbox as written, with any number of workers, every delivery stays pending with no attempts and no worker ever holds one, because a fetch fails on a row without `last_error` and every new row is one. |
| `DeliveryNulls.UnscannableIffFresh` | internal/webhook/repository.go:272-299 | With the column read as nullable, the due rows that the code could not scan are, in every run, exactly those never attempted. |
| `DeliveryNulls.AsWrittenIsRun` | internal/webhook/repository.go:302-326 | The runs as written are runs of the protocol, so its theorems hold of them too. |
| `WebhookWorker.Worker.Deliver` | internal/webhook/worker.go:106-167 | The stored row afterwards is what the outcome makes of the fetched copy, field by field; endpoint and answer decide the outcome; without a fault there is one. |
| `WebhookWorker.Worker.HandleDeliveryError` | internal/webhook/worker.go:170-191 | Exhausted or failed by the fetched count plus one, with a delay selected by that count. |
| `WebhookOutbox.Repository.GetPendingDeliveries` | internal/webhook/repository.go:302-326 | Selects only due deliveries of active endpoints, each once, in order of schedule, and leaves out none more overdue than any selected; but for faults it succeeds if and only if every selected row has a `last_error` or the column is read as nullable, which the code does not do. |
| `WebhookOutbox.Repository.ScanDeliveries` | internal/webhook/repository.go:518-550 | One row that cannot be read fails them all. |
| `WebhookOutbox.Repository.ResetDeliveryForRetry` | internal/webhook/repository.go:481-501 | Exactly the exhausted rows can be reset: pending, due now, same attempt count; a failed statement has done all of it or nothing. |
| `WebhookOutbox.Repository.CreateDelivery` | internal/webhook/repository.go:272-299 | A row for a new (event, endpoint), nothing for a known one. |
| `WebhookOutbox.Repository.UpdateDeliverySuccess` | internal/webhook/repository.go:329-347 | Status, count and attempt time of the one row; nothing else changes. |
| `WebhookOutbox.Repository.UpdateDeliveryFailure` | internal/webhook/repository.go:350-379 | Status, count, schedule and attempt time of the one row; nothing else changes. |
| `WebhookOutbox.PublishClickEvent` | internal/webhook/publisher.go:29-93 | Every row added goes to an enabled, not deleted, subscribed endpoint of the click's owner, pending and due at once; without a fault each such endpoint has a row for the click afterwards. But for faults it fails if and only if the owner has a NUL, or there is an endpoint and the time is beyond what JSON can express. |
| `WebhookOutbox.PublishedMeaning` | internal/webhook/publisher.go:29-93 | Publishing leaves existing rows alone and adds one fresh row per endpoint that had none for the event. |
| `WebhookOutbox.PublishKnown` | internal/webhook/repository.go:272-286 | Publishing again under the same click id changes nothing. |
| `WebhookOutbox.RepublishIsNoOpIff` | internal/analytics/worker.go:367-380 | Publishing a click a second time to at least one endpoint changes nothing if and only if it carries the same click id: a retried batch does, while a reclaimed entry is re-parsed under a new id and delivered again. |
| `Backoff.NextRetryDelay` | internal/webhook/retry.go:29-44 | One, five, thirty, 120 or 720 minutes by the clamped count, times 0.8 plus 0.4 times the random number drawn, rounded down to nanoseconds. |
| `DeliveryWaits.RefusalsWaitLonger` | internal/webhook/worker.go:170-191 | In every run with exclusive batches each refusal of a delivery nobody reset schedules a longer wait than every refusal before it, whatever the jitter. |
| `DeliveryWaits.FirstDelayIsNeverUsed` | internal/webhook/worker.go:170-191 | In every such run a failed delivery waits for longer than the first delay of the table can ever be. |
| `Backoff.EstimatedMaxDeliveryWindow` | internal/webhook/retry.go:63-70 | The sum of all delays and a fifth. |
| `DeliveryWaits.FullRunFitsWindow` | internal/webhook/retry.go:63-70 | Over every run with exclusive batches the waits scheduled for a delivery nobody reset sum to at most the estimated window less the unused first delay. |
| `TokenBucket.WindowBound` | internal/cache/ratelimit.go:33-66 | Over any consecutive requests on a live key up to an allowed one, for any clock readings, at most burst + rate * (last - first) are allowed; `Requests` states it with the minute written out. |
| `TokenBucket.PotentialPays` | internal/cache/ratelimit.go:45-65 | Each allowed request is paid for by the potential tokens - rate * last_update, which refilling never raises. |
| `TokenBucket.TokensInRange` | internal/cache/ratelimit.go:45-65 | On a clock that does not go back tokens stay within [0, burst]. |
| `TokenBucket.RetryAfterIsExact` | internal/cache/ratelimit.go:56-59 | After a denial under a positive burst, waiting retry_after seconds succeeds and one second less fails, whatever denied probes are made in between. |
| `TokenBucket.EmptyBurstNeverAllows` | internal/cache/ratelimit.go:45-59 | The one exception to the above: with a burst of zero no request is ever allowed, whatever retry_after says. |
| `TokenBucket.RemainingIsExact` | internal/cache/ratelimit.go:65-65 | Exactly `remaining` further requests in the same second are allowed. |
| `TokenBucket.ExpiryInvisibleIff` | internal/cache/ratelimit.go:61-63 | Dropping the key after its time to live changes no answer in any run on a forward clock, if and only if a bucket refills within that time. |
| `TokenBucket.ShippedLimitsForgetSafely` | internal/model/apikey.go:34-38 | The free and pro tiers, 60 and 600 a minute with bursts of 10 and 50, and the default redirect limit, 100 a second with a burst of 20, meet that condition. |
| `TokenBucket.RateLimiter.Script` | internal/cache/ratelimit.go:33-66 | The stored hash and the reply are those of the bucket; no other key changes. |
| `TokenBucket.RateLimiter.CheckRateLimit` | internal/cache/ratelimit.go:97-124 | The bucket's answer; let through only when the script could not be run or answered. |
| `TokenBucket.RateLimiter.CheckAPIRateLimit` | internal/cache/ratelimit.go:70-84 | Rate 0 is unlimited and touches nothing; otherwise the bucket's answer under the key's own entry, or an open gate on a fault. |
| `RateLimits.Requests` | internal/cache/ratelimit.go:70-84 | Any run of API requests with one key, its entry not lapsing in between: sixty times those let through up to one let through is at most sixty times the burst plus the rate a minute times the seconds it took. |
| `RateLimits.BurstThenWait` | internal/cache/ratelimit.go:45-65 | An unused key lets exactly the burst through at once, and n seconds later exactly the lesser of the burst and rate * n / 60. |
| `TokenBucket.RateLimiter.CheckIPRateLimit` | internal/cache/ratelimit.go:86-95 | The same for an address, at a rate a second and with a lifetime of ten seconds. |
| `LinkServices.LinkService.ResolveRedirect` | internal/service/link.go:313-365 | Resolving through the cache answers as the table would, except if and only if a hit falls in the final sub-second of the link's life (then: expired) or a live negative entry hides an existing link (then: not found, and the link is younger than five minutes). What each answer says of the row, in numbers; what is left in the cache; entries of other codes are untouched. |
| `LinkServices.LinkService.CreateLink` | internal/service/link.go:75-142 | Exactly which error for which input, in order, with lengths, types and characters spelled out; otherwise one new row under the requested or the first free generated code; the cache is not touched. |
| `LinkServices.LinkService.UpdateLink` | internal/service/link.go:225-283 | Exactly which error for which row and input, in order; otherwise each field is the one asked for or the one it had, clearing the expiry wins over setting it, and the cache entries of this code and no other are gone. |
| `LinkServices.LinkService.DeleteLink` | internal/service/link.go:286-309 | The row is gone from every query, and from the cache the entries of its code and no other. |
| `LinkServices.LinkService.ValidateRedirectLink` | internal/service/link.go:381-400 | Disabled before expired before redirect; exactly an expired entry is evicted. |
| `LinkServices.LinkService.ResolveMiss` | internal/service/link.go:345-364 | A miss is answered by the table and remembered: a row whose expiry is ahead as its cached form, a missing row as a negative entry, an expired one not at all. |
| `LinkServices.LinkService.Tick` | internal/cache/link.go:20-24 | Lapsing entries keep the cache coherent. |
| `LinkServices.LinkService.GenerateUniqueAlias` | internal/service/link.go:431-443 | The first of the three drawn codes that is free; which error when a query fails or all are taken. |
| `LinkServices.LinkService.InsertLink` | internal/repository/link.go:38-66 | Refused exactly when the code or the primary key is taken. |
| `LinkServices.AskedTooEarly` | internal/service/link.go:345-354 | A code asked for before it is created is not found for exactly five minutes from then, although the table has it. |
| `Links.CacheRoundTrip` | internal/model/link.go:83-141 | Through the cached form and back, a link keeps destination, type and enabled flag, and its expiry up to the fraction of a second; id and owner are lost. |
| `RedirectClicks.Redirect` | internal/handler/redirect.go:33-66 | The click a redirect publishes has the visit's fields under their names, and is accepted by the worker if and only if the redirect was answered from the table (and the visit is well-formed). |
| `RedirectClicks.AnonymousClickIsLost` | internal/analytics/validation.go:21-23 | In no run does a click without a link id become a row; once acknowledged it was handed to the dead-letter step. |
| `MixedEntries.MixedEntryIff` | internal/cache/link.go:76-93 | While the row does not change, a live hash with an `expires_at` its row does not have can come about if and only if there is one already, or both an expiry (live, about to be written, or in the row) and a row without one (about to be written, or current) are at hand. |
| `LinkCaches.LinkCache.SetLink` | internal/cache/link.go:60-104 | What the hash holds, text by text, the merged expiry, and the lifetime: whole seconds, a day or up to the expiry; an expired link is deleted instead; the negative entry goes. |
| `LinkCaches.WriteThenRead` | internal/cache/link.go:35-104 | What is written over nothing is read back as the link's cached form exactly until its lifetime ends, which is within a day and, but for the one second granted at least, within the link's expiry. |
| `RedirectTheorems.TableAnswersAreFresh` | internal/service/link.go:345-364 | With every access a step of its own: an answer that went to the table is what the table said at a moment during the request. |
| `RedirectTheorems.ServedTripleIsReal` | internal/service/link.go:322-331 | A redirect from the cache carries the destination, type and enabled flag of one version of the row, and is not past the expiry of one version; unless its entry lost its EXPIRE it was written less than a day before it was read. |
| `StaleEntries.StaleEntryIff` | internal/service/link.go:269-280 | After a change whose invalidation succeeded, a live cache entry can come to show an older version if and only if some request had read the row before the change and had still to write it. |
| `StaleEntries.Everlasting` | internal/cache/link.go:91-98 | Counterexample to the one-day bound: a write cut between HSET and EXPIRE is served however much later. |
| `RedirectTheorems.NegativeAnswersAreRecent` | internal/service/link.go:337-351 | A not-found from a negative entry: the code was free when the writer looked, and the entry is less than five minutes old. |
| `RedirectTheorems.UnchangedExpiryIsKept` | internal/cache/link.go:76-93 | A link whose expiry never changes is never redirected after it, nor reported as expired before the second it falls in. |
| `RedirectTheorems.UnchangedLinkIsServedExactly` | internal/service/link.go:313-365 | A link that never changes is redirected as it says, if at all. |
| `RedirectTheorems.StaleRedirect` | internal/service/link.go:269-279 | Counterexample with no failures: a write of an old row after the invalidation makes later requests redirect as before the change, whatever the change was. |
| `RedirectTheorems.MixedSnapshot` | internal/cache/link.go:76-93 | Counterexample with no failures: a hash made of two rows, by which a link that never expires is reported as expired. |
| `RedirectRaces.InvStep` | internal/service/link.go:313-400 | Every cache and table access, change, deletion or eviction keeps the invariant, and never takes an answer back. |
| `RedirectRaces.InvRun` | internal/service/link.go:313-400 | The invariant holds in every state of every run. |
| `RedirectRefinement.Resolve` | internal/service/link.go:313-365 | A redirect of the service is a request of the interleaved model that nothing comes between: from any state that shows the service's clock, table and cache there is a path to one that shows them afterwards, with the same answer. |
| `RedirectRefinement.Update` | internal/service/link.go:225-283 | An update is a change of the row and a deletion of its cache entries, in this order; a refused one is no step. |
| `RedirectRefinement.Create` | internal/service/link.go:75-142 | A creation is a change of the row and nothing else. |
| `RedirectRefinement.Delete` | internal/service/link.go:286-309 | A deletion is a removal of the row and of its cache entries. |
| `Pagination.NothingListedTwice` | internal/repository/link.go:114-189 | Whatever is inserted, updated and soft-deleted between the calls, no link is listed twice in a session. |
| `Pagination.EverythingListed` | internal/repository/link.go:114-189 | A link in scope that is there throughout has been listed when the last page has come. |
| `Pagination.PagesAreTheListing` | internal/repository/link.go:114-189 | On a fixed table the pages, put together, are the sorted filtered table; the rows past the cursor decrease with every call. |
| `Pagination.PageCount` | internal/repository/link.go:178-186 | Every page but the last is full and the last of several is not empty. |
| `Pagination.ListingMeaning` | internal/repository/link.go:126-157 | The query returns the rows selected, strictly descending by (created_at, id). |
| `Pagination.ListingInPlainTerms` | internal/repository/link.go:126-157 | The rows listed are the owner's, not deleted, within both date bounds and beyond the cursor, and each is newer than the next, or of the same moment with a larger id. |
| `Pagination.PageInPlainTerms` | internal/repository/link.go:178-186 | What is on a page and what its cursor says, in numbers: a page after a cursor holds older rows only, or ones of the same moment with a smaller id. |
| `Pagination.ResumeIsSuffix` | internal/repository/link.go:135-139 | Resuming from a row of the listing gives exactly what comes after it. |
| `Pagination.PageMeaning` | internal/repository/link.go:176-186 | A page's rows are selected and not past the next cursor; what is selected and not on the page is past it. |
| `LinkListing.LinkRepository.ListLinks` | internal/repository/link.go:114-189 | Fetching one row more than asked for and truncating gives the page of the query; a garbled cursor is refused. |
| `LinkListing.ListLinks` | internal/service/link.go:175-212 | Limit and owner defaults, then the page filtered by status, with its cursor kept. |
| `LinkListing.WithStatusKeeps` | internal/service/link.go:194-205 | A filter by status keeps exactly the rows that have it: deleted, else disabled, else past the expiry, else active. |
| `LinkListing.StatusPagesAreTheFilteredListing` | internal/service/link.go:194-205 | Filtering every page by status and putting the pages together is filtering the whole listing. |
| `LinkListing.LinkRepository.CreateLink` | internal/repository/link.go:38-66 | Adds one row exactly if the primary key is new and no live link has the code; the table evolves as paging assumes. |
| `LinkListing.LinkRepository.UpdateLink` | internal/repository/link.go:192-216 | Changes only mutable columns of the one live row; the table evolves as paging assumes. |
| `LinkListing.LinkRepository.DeleteLink` | internal/repository/link.go:219-236 | Soft-deletes the one live row, once; the table evolves as paging assumes. |

## Left out

- Metrics, logging, health checks, HTTP handlers, routing, middleware: plumbing.
- The polling loops, start-up and shutdown of the workers: the theorems are about any number of turns.
- Resizing of batch size, intervals and idle times: the defaults are used.
- SQL text, pgx, go-redis, JSON and base64: tables and commands are modelled by their effect; a cursor is what it decodes to.
- Ordering of ids and timestamps inside the database: ids are integers in the database's order, stream ids are positions in the stream, a delivery's id is its row's position.
- Which long link ids fit the indexes, a matter of compression: it is an input; one that fits one index and not the other counts as refused by the first.
- The server's time zone in webhook payloads: it is taken to be UTC where the year 9999 ends.
- The driver's arithmetic on click times beyond the database's range: such clicks count as refused.
- Truncation of a header inside a multi-byte character, and letters whose upper case has another length: what the worker decodes is the input.
- Attempts whose row update was lost: they leave no trace in the table, so `DeliveryTheorems.AttemptsAreSpaced` is about recorded attempts.
- Stream trimming: an entry that was trimmed before it was read is outside every claim.
- The click publisher's sampling, hashing and sanitising of referrers: entries are arbitrary messages.
- URL parsing: whether a destination parses as a web URL is an input.
- Random codes, ULIDs and their collisions: a candidate or id is an input, and a taken primary key is an ordinary insert failure.
- Webhook payloads, signatures, headers and the HTTP exchange: the receiver's answer is an input.
- Failure to build the webhook request: it leaves the row as it was, like a failing endpoint query.
- Webhook publishing inside the ingestion worker: there each event is published or not, and whether its owner has endpoints is open; what it does to the outbox is proved of `PublishClickEvent`.
- The one clock reading per webhook step: scheduling and updating use the same reading.
- The rate limiter's reset time and the hashing of IP addresses: one-line computations.
- Floating point: tokens are sixtieths and delays are nanoseconds; the decimal text Redis keeps of a token count is not modelled.
- One clock for the rate limiter: the caller's seconds and Redis's expiry read the same clock.
- Other clients' commands between HSET and EXPIRE of one pipeline: the two are one step, which may be cut after the first.
- Redis and database errors in the atomic link service, but for the alias query: they appear in the interleaved model, where every access may fail.
- LinkServices.LinkService.ResolveRedirect: states the refinement for calls taken as a whole with Redis answering; `RedirectTheorems` has what survives interleaving.
- IngestionTheorems.ExactOrAwaiting: requires that no two consumers hold one bucket at once, because the property fails otherwise (`StaleStats`).
- DeliveryTheorems.SuccessAbsorbs: requires that no two workers hold one delivery, because the property fails otherwise (`SharedDelivery`).
- DeliveryProtocol.InvStep: is about the protocol with `last_error` read as nullable, as are the theorems built on it; `DeliveryNulls` has the code as it stands.
- Columns no redirect or listing depends on (owner in the redirect model, click counts, update times): they would only be carried along.
- The Redis click counters: nothing shown reads them back.
- Top referrers and countries as separate SQL queries, country names: the handler does not use the queries, and the names are a lookup.
- Parsing of the report's date range and include list: one-branch input handling.
