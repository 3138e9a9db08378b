# Domain checker core, modelled in Dafny

A model of the decision logic of a Cloudflare-worker domain checker:

- the per-client rate limiter (`checkRateLimit`);
- the stats accumulator (`incrementStats`, `getStats`);
- the `POST /check` handler;
- the scheduled outbox flush that batches results to a Discord webhook;
- the upstream result mapping (`checkBatch`) and the single-batch webhook composer (`sendDiscordWebhookBatch`).

The store, the clock, the HTTP calls and the id generator are not part of the model. Each one becomes a parameter:

- The store is three immutable tables held in `CheckHandler.Store`: the rate-limit rows as a map from client id to `(count, timestamp)`, the global and daily stats rows, and the `pending_webhook` rows as a sequence in insertion order.
- The clock is a `now` argument. Today's UTC date is a `today` argument.
- The fresh row id is a `freshId` argument.
- The upstream reply to the k-th slice is `upstream(k)`.
- The outcome of the webhook POST is a `SendOutcome`.
- Every store failure is an explicit fault argument that says which statement raises.

Modules, one per concern:

| module | file | models |
|---|---|---|
| `Wrappers` | wrappers.dfy | `Option` |
| `Text` | text.dfy | `String(n)` for integers, `join`/`split` on one character, each with its inverse |
| `Checker` | checker.dfy | src/checker.ts |
| `RateLimiter` | rate_limiter.dfy | `checkRateLimit` in src/db.ts |
| `QuotaWindow` | quota_window.dfy | runs of sequential limiter calls: the sliding-window quota |
| `Stats` | stats.dfy | `incrementStats`, `getStats`, `resetStats` in src/db.ts |
| `Webhook` | webhook.dfy | src/webhook.ts, and the message vocabulary the flush shares |
| `Outbox` | outbox.dfy | the `pending_webhook` table: insert, pending selection, mark-as-sent |
| `CheckHandler` | handler.dfy | the `POST /check` route of src/index.ts |
| `Flush` | flush.dfy | `scheduled` in src/worker.ts |
| `System` | system.dfy | store invariants across handled requests and flushes |

Three points of the code's behaviour are easy to misread:

- **Window expiry.** A window expires only when `timestamp < now - window`. This is strict: at exactly one window's age the row still counts.
- **Admitted in-window requests.** Such a request moves the row's `timestamp` to `now`, so the window slides with every admitted request.
- **The CSV flag order.** The flush's CSV flag tests `blocked` before `error`, while the handler's counts test `error` first. The two orders agree on every result `checkBatch` produces, because no result is both (`System.FlagsAgreeWithTally`).

## Model

| member | source | states |
|---|---|---|
| Checker.Resolve | src/checker.ts:30-46 | A domain that is absent from the reply or not an object yields an error result with status 'Error: Invalid response'. A present verdict yields `error = false`, takes `blocked` from the reply, and its status is 'Blocked' exactly when blocked. An entry that cannot be read has status 'Error: Processing failed'. No result is both an error and blocked. |
| Checker.CheckBatch | src/checker.ts:10-66 | One result per input domain, in input order, with `originalUrl = domains[i]`. A failed call makes every entry an error ('Error: API request failed', not blocked). Otherwise an entry is an error exactly when its domain has no object verdict, and a non-error entry carries the reply's `blocked`. Each entry of a parsed reply is exactly `Checker.Resolve` of its domain, with the statuses stated there. |
| Checker.CheckBatchSplits | src/checker.ts:30-31 | Checking `a + b` against one reply equals checking `a` and `b` separately and concatenating. |
| RateLimiter.CheckRateLimit | src/db.ts:436-539 | The call is admitted exactly when the read failed or `used + domainCount <= maxDomains`, where `used` is 0 for a missing or strictly expired row. A denial writes nothing; it reports `maxDomains - used`, and the reset time is `now + window` for a fresh window or `timestamp + window` otherwise. A fault-free admission stores `count = used + domainCount` and `timestamp = now`, and reports `maxDomains - count`. On a store fault the call fails open: nothing is written and `remaining = maxDomains - domainCount`. |
| RateLimiter.AdmissionKeys | src/db.ts:461-529 | A call adds the caller to the clients with a row exactly when it admits and the INSERT/UPDATE goes through; otherwise the set of clients is unchanged. |
| RateLimiter.QuotaInvariant | src/db.ts:461-529 | If every stored count lies in `[0, maxDomains]`, it still does after any call, and no row other than the caller's changes. |
| RateLimiter.QuotaResetsAfterWindow | src/db.ts:484-506 | Once the row has expired, a request for exactly `maxDomains` is admitted and leaves 0. |
| RateLimiter.QuotaScenario | src/db.ts:461-517 | Quota 10: a new client's 4 domains are admitted with 6 left. Its next 7 domains are denied, 6 are still left, the reset time is the first call's plus the window, and the table is unchanged. |
| QuotaWindow.SlidingWindowQuota | src/db.ts:484-529 | A client starts without a row and makes sequential fault-free calls on a clock that does not go back. In every closed interval one window long, the units admitted add up to at most the quota. |
| Stats.ApplySparse | src/db.ts:347-399 | Adding only the non-zero fields of an increment gives the same counters as adding the whole increment. |
| Stats.IncrementStats | src/db.ts:332-433 | An all-zero increment changes nothing and cannot fail. A completed increment creates a missing global row zeroed, with `unique_users` set to '[]'. It then adds the delta to the global counters and to today's daily row (inserted if absent), and changes no other row or field. A failed increment never changes the daily rows. Which global row it leaves depends on the failing statement: a failed SELECT or INSERT changes nothing, a failed global UPDATE leaves the row only created, and a failed daily upsert leaves the global row incremented while the daily rows stay behind. It throws exactly when the delta is non-zero and a statement fails. |
| Stats.IncrementKeepsBalance | src/db.ts:396-426 | With a balanced delta (`domainsChecked = blocked + notBlocked + errors`), every global and daily row stays balanced, whichever statement fails. |
| Stats.IncrementIsMonotone | src/db.ts:396-426 | A non-negative delta never lowers any counter of the global row or of any daily row. |
| Stats.GetStats | src/db.ts:192-257 | `uniqueUsers` is the count of distinct client ids other than 'unknown', as decimal text that parses back to that count, and it is also written to the row. A healthy row is reported with its counters unchanged; a stored `last_reset` of 0 reads as now. A missing row, or one with empty `unique_users`, is replaced by a zeroed row reset now. The daily rows are untouched. A failure changes nothing. |
| Stats.UniqueUsersAdd | src/db.ts:209-213 | Adding a client id to the counted set raises `COUNT(DISTINCT ip) ... WHERE ip != "unknown"` by one exactly when the id is new and not 'unknown'; otherwise the count is unchanged. |
| Stats.GetStatsKeepsBalance | src/db.ts:259-301 | Reading the stats, including the reset path, leaves every row balanced and reports balanced counters. |
| Stats.GetStatsKeepsNonNegative | src/db.ts:259-301 | Reading the stats, including the reset path, leaves every counter non-negative. |
| Webhook.SeverityColor | src/webhook.ts:37 | The colour is 0xEAB308 exactly when errors > 0, 0xEF4444 exactly when there are no errors but blocked > 0, and 0x22C55E otherwise. |
| Webhook.SendBatch | src/webhook.ts:20-74 | Nothing is posted exactly when the URL is empty. Otherwise the post has the severity colour, the footer of meta counts and the requesting IP. With at most 5 results there is one field per result, in order, named by `originalUrl` with the status as value, and no file. With more than 5 there are no fields and a file that joins the `url: status` lines with newlines. |
| Webhook.AttachmentListsResults | src/webhook.ts:56-64 | With more than 5 results and no line breaks in domains or statuses, the attachment splits back into exactly one `url: status` line per result, in order. |
| Outbox.Insert | src/index.ts:164-178 | The row is appended exactly when the insert does not fail and the id is new. Otherwise the table is unchanged, and the primary key stays unique. |
| Outbox.Pending | src/worker.ts:17-21 | Every row read is an unsent row of the table. |
| Outbox.PendingComplete | src/worker.ts:17-21 | Every unsent row is read. |
| Outbox.PendingAscending | src/worker.ts:18 | If rows were inserted in `created_at` order, the pending rows are read oldest first. |
| Outbox.MarkSent | src/worker.ts:104-110 | Marking changes only the `sent` flag. A row becomes sent exactly when it was sent or its id is in the marked set. |
| Outbox.MarkingClearsPending | src/worker.ts:104-111 | Marking the ids just read leaves nothing pending and leaves every other row unchanged. |
| CheckHandler.ClientId | src/index.ts:99 | A missing or empty client header gives 'unknown'; any other header is the client id. |
| CheckHandler.TallyOf | src/index.ts:133-142 | Each result increments exactly one of errors, blocked or not-blocked, so `processed = blocked + notBlocked + errors = results.length`. |
| CheckHandler.TallyOfAppend | src/index.ts:129-145 | Counting is additive over concatenated slice results. |
| CheckHandler.CheckSlices | src/index.ts:121-145 | Slicing by 30 and concatenating gives one consistent result per domain, in domain order. |
| CheckHandler.SlicingIsTransparent | src/index.ts:129-145 | When every slice gets the same reply, the sliced results equal checking the whole list at once. |
| CheckHandler.CountResults | src/index.ts:133-142 | The inner loop adds the slice's counts to the counts so far. |
| CheckHandler.ProcessDomains | src/index.ts:121-145 | The `i += 30` loop yields the concatenated slice results and their counts. |
| CheckHandler.Delta | src/index.ts:148-154 | The stats delta has `requests = 1`, is non-negative, and is balanced exactly when the counts partition `processed`. |
| CheckHandler.MetaOf | src/index.ts:157-163 | The outbox meta has `total = results.length = blocked + notBlocked + errors`. |
| CheckHandler.MetaAgreesWithDelta | src/index.ts:147-163 | The outbox row's meta and the stats increment carry the same counts: `total` is `domainsChecked`, and blocked, notBlocked and errors are equal. |
| CheckHandler.MetaScenario | src/index.ts:133-163 | Results a.com (not blocked), b.com (blocked) and c.com (error) give meta total 3, blocked 1, notBlocked 1, errors 1. |
| CheckHandler.HandleCheck | src/index.ts:96-189 | Validation comes first. A 400 happens exactly for a non-array `domains` or more than 100 domains, and it changes nothing. A 429 changes nothing. Stats and the outbox change only for admitted requests. A stats failure (500) writes no outbox row. A 200 returns one result per domain, in order; the outbox gains exactly the row with `total = results.length` and the same counts, and only when its insert succeeds. The HTTP status is 400 exactly for the two validation failures, a 429 writes nothing, and a 200 carries one result per domain. |
| CheckHandler.LimiterDecides | src/index.ts:110-119 | For a valid request, the response is 429 exactly when the limiter denies, and it then carries the limiter's `remaining` and `resetTime`. A 200 carries the same numbers. The limiter's table is what is stored. |
| CheckHandler.AdmittedIncrement | src/index.ts:147-154 | An admitted request's increment is one request plus `domains.length` checked domains, and it is balanced. The stored stats are exactly the increment's effect. The response is 500 exactly when a stats statement fails. An appended outbox row is the one built from these results, and its meta carries the increment's counts. |
| Flush.Flag | src/worker.ts:63 | The flag is BLOCKED exactly when blocked, ERROR exactly when not blocked but an error, and NOT_BLOCKED otherwise. |
| Flush.CsvLines | src/worker.ts:57-66 | There is one CSV line per stored result over all rows read. |
| Flush.CsvLinesAppend | src/worker.ts:49-66 | The lines of two row lists are the lines of each, in row order. |
| Flush.Summarize | src/worker.ts:33-56 | `totalBatches` is the number of rows read. |
| Flush.SummarizeAppend | src/worker.ts:49-56 | The summary fold is a homomorphism: summarising two parts and merging them is summarising the whole, with missing meta fields counting 0. |
| Flush.Compose | src/worker.ts:68-93 | The posted colour follows the summary's severity. The fields are Blocked, Not Blocked and Errors with the summary's counts. The description reports the batch and domain totals, and so does the content line. The attachment is the CSV header followed by the lines. |
| Flush.FileReadsBack | src/worker.ts:68-72 | When no client id, domain or status holds a line break, the CSV file splits back into the header plus one line per stored result. |
| Flush.ScheduledAsWritten | src/worker.ts:5-116 | As written, nothing is posted without a URL, after a failed read, or with no pending rows. Otherwise it posts the fold of the pending rows. Rows are marked whenever the POST did not raise and the marking did not fail. |
| Flush.AsWrittenDropsRejectedBatch | src/worker.ts:94-104 | As written, a POST answered with an error status still marks every pending row sent. |
| Flush.Scheduled | src/worker.ts:5-116 | The same as the as-written flush, except that rows are marked only when the POST was accepted and the marking did not fail, and then exactly the rows read are marked and nothing stays pending. In every other case the outbox is unchanged (at-least-once delivery). |
| Flush.RejectedBatchStaysPending | src/worker.ts:94-102 | With the intended send check, a rejected POST leaves every pending row pending. |
| Flush.FlushIsIdempotent | src/worker.ts:17-29 | After a flush that read, posted and marked successfully, a second flush posts nothing. |
| System.HandlePreservesInvariant | src/index.ts:96-189 | Every handled request keeps the store invariant, whatever its outcome and faults: counts within quota, balanced and non-negative stats, unique outbox ids in `created_at` order, and each row's meta equal to the tally of its results. |
| System.FlushStoreAsWritten | src/worker.ts:94-114 | The flush as written, applied to the store, changes nothing but the `sent` flags of outbox rows. |
| System.FlushAsWrittenPreservesInvariant | src/worker.ts:94-114 | The flush as written keeps the store invariant, whatever its faults, including a rejected POST that still marks the rows. |
| System.FlushStore | src/worker.ts:94-114 | The corrected flush (marking only after an accepted POST), applied to the store, changes nothing but the `sent` flags of outbox rows. |
| System.FlushPreservesInvariant | src/worker.ts:104-114 | The corrected flush, whatever its faults, keeps the store invariant. |
| System.ReadStats | src/db.ts:192-257 | getStats over the whole store counts the clients that own a `rate_limits` row, leaving out 'unknown'. It changes neither the limiter table nor the outbox, and a failure changes nothing. |
| System.ReadStatsPreservesInvariant | src/db.ts:192-301 | Reading the stats, including the reset path, keeps the store invariant. |
| System.AdmissionRegistersClient | src/db.ts:461-529 | A fault-free limiter call raises the users a later stats read reports by one exactly when it admits a new client other than 'unknown'. |
| System.FlagsAgreeWithTally | src/worker.ts:63 | On consistent results, the blocked-first flag counts equal the handler's error-first counts. |
| System.SummaryMatchesLines | src/worker.ts:49-66 | For rows the handler wrote, `totalDomains` equals the number of CSV lines. The blocked, error and not-blocked totals equal the numbers of lines with those flags. |
| System.FlushReportsPending | src/worker.ts:17-56 | For a store that satisfies the invariant, the rows read are oldest first. A posted summary counts them as batches; its domain total is the number of attached lines, and its blocked, error and not-blocked totals are the numbers of lines with those flags. |
| Text.DecimalRoundTrip | src/db.ts:251 | `String(n)` for an integer parses back to `n`. |
| Text.SplitJoin | src/worker.ts:69-72 | Joining lines with a separator that none of them contains, then splitting, gives back the lines. |

## Left out

- Connection setup is not modelled. This covers `initializeDbClient`, `initializeTables`, `checkRateLimitsTable`, and the DROP/CREATE statements of `resetStats`. A reset is modelled as replacing the global row with a zeroed one.
- `getDailyStats` and the `/stats/data` route are not modelled. They are SQL date arithmetic and JSON shaping with no decision logic.
- The HTML templates, Hono routing, CORS and the logger are not modelled.
- Concurrency is not modelled. The limiter's read-then-write race and overlapping flushes are outside the model; all calls are sequential.
- JSON serialisation is not modelled. `results_json` is a structured `Payload`. Malformed stored JSON cannot arise from the modelled handler.
- `toSafeString` coercions are left out, and so is the string-built `IN (...)` list; marking is by a set of ids.
- The upstream request URL (`domains.join(',')`) is not modelled, and the reply is abstract.
- `Number(...)` coercion of non-numeric column values to NaN is not modelled. All stored numbers are integers.
- The embed `timestamp` (an ISO date string of the current time) and the JSON/FormData encoding of posts are not modelled.
- Each request uses one `now` for all of its `Date.now()` calls. These are the limiter's clock, the lazy creation of the global row, and the outbox row's `created_at`. In the source they are separate reads of a clock that does not go back.
- A request body that is not valid JSON, or is `null`, raises before the handler's `try` block. It is modelled only as the `Unhandled` response, whose status is the framework's default 500. Any other non-object body (a number, a string, a boolean, an array) has no `domains` member and is modelled as `Falsy`: it is handled as a request for zero domains, which still writes a limiter row, a stats increment and an outbox row.
- Array items are modelled as strings. The source checks only `Array.isArray`, so numbers, `null` or objects in `domains` reach `checkBatch` and come back as the raw `originalUrl`; the model has no such items.
- `Checker.Resolve`: `blocked` is modelled as the truthiness of the reply's `blocked` member. The source copies the raw value, and the 200 response returns it as is, so a truthy non-boolean value reaches the client unchanged where the model returns `true`. The counts, the flag and the colour only test its truthiness.
- `Outbox.Pending`: rows are read in table order, not by `ORDER BY created_at ASC`. The two agree only on tables whose `created_at` values do not decrease, which holds because every request reads a clock that does not go back (`System.Invariant` keeps `Ascending`, given `NotBefore`).
- `Stats.GetStats`: a failure part-way through the reset (table dropped but not recreated) is modelled as a failure before any write.
- `Stats.GetStats`: one `now` stands for both clock reads. In the source, the reported `last_reset` of a reset comes from the `Date.now()` at src/db.ts:203 and the stored one from a separate `Date.now()` inside `resetStats` (src/db.ts:261), so the two may differ by the time between the reads; the model reports and stores the same value.
- `Webhook.SendBatch`: the model yields the message rather than performing the POST. A failed POST is swallowed in the source, so it has no other effect. The function is imported but never called by the handler.
- `QuotaWindow.SlidingWindowQuota`: the property is stated for a client that starts without a row and for fault-free calls. Fail-open admissions are not charged to the row, so they fall outside the quota by design.

## Findings

| source | as written | input that shows it | evidently intended | confidence | as-written member | corrected member |
|---|---|---|---|---|---|---|
| src/worker.ts:94-104 | Only a `fetch` that raises stops the marking. A webhook response with an error status (4xx/5xx) resolves normally, so every row read is marked sent although the channel refused the message. | At least one pending row, a webhook URL, and a POST answered with a non-ok status | Mark the rows only when the channel accepted the post, so that they are retried next run (at-least-once delivery) | medium, not executed | Flush.ScheduledAsWritten, Flush.AsWrittenDropsRejectedBatch | Flush.Scheduled, Flush.RejectedBatchStaysPending |
