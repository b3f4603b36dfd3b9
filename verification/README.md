# Shopper bot core, modelled in Dafny

This project models the core of the Cornershop shopper Telegram bot: a chat bot
that logs in to a shopper's Cornershop account, scrapes the shopper's
deliveries and commissions from the shopper centre tables, and answers "how
much did I earn today / yesterday / this week / last week".

The model covers:

- **Date-gap repair** (`DateFill`). In the delivery table, only the first row of
  each same-day group shows a date. The in-page script repeatedly repairs the
  first row that has no date. Row 0 takes row 1's date, and any other row takes
  the date of the row to its left. `FillDates` is that loop. `InferAll` is an
  independent reference column, and `FillOutcome` says what happens on every
  input, including the two inputs where the loop crashes or never ends.
- **Amount parsing** (`Amount`). `cleanNumber` deletes every non-digit and reads
  what is left as a decimal number. `Show` is its partner: the round trip is proved.
- **Cursor pagination** (`Pagination`). Both page loops share one generic loop.
  It evaluates a page, cuts the page just before the row whose id is the stored
  cursor, and moves on unless the cursor was found or the page was the last one.
  The commission loop also stops once three distinct payment dates have been seen.
  The browser is replaced by the sequence of pages the table would show.
- **Merging and grouping** (`Merge`). A ledger has one entry per delivery id,
  holding the sum of that id's commissions. The ledger is then filed into day
  buckets.
- **Calendar and presets** (`Calendar`, `Presets`). These model `getDates`, the
  Monday-start weeks, and the four answers as bucket sums.
- **Order sync** (`Sync`). This is `updateOrders`: the 30-minute throttle, the
  cursors taken from the heads of the stored lists, and the prepending of new
  rows, including the partial update left behind when the second fetch fails.
- **Conversation** (`Conversation`). This covers the four-phase state machine,
  the dispatcher (which hands each handler only the first line of a message),
  and the shallow metadata merge of `setStateFor`.

Outside effects are parameters: the clock, the login, the email validator, the
two remote tables, the day text of a date, and the state left after signing
out. Dates are opaque strings, as the in-page script emits them. Days are whole
integers, with day 0 = 1970-01-01, a Thursday. Times are whole minutes.

### Where the code departs from its evident intent

The model follows the code as written:

- The date repair (src/scrapper.ts:136-141) is evidently meant to give every
  row a date. On a one-row table whose row has no date, it reads row 1, which
  does not exist, and throws (`MissingRowDate`). On a table whose first two
  rows have no date, it copies a null into row 0 forever and never finishes
  (`FillNeverEnds`). A query turn whose sync meets such a page hangs, and
  nothing is saved.
- The throttle (src/index.ts:178) is evidently meant to sync at most every 30
  minutes. It calls `differenceInMinutes(lastUpdatedDate, now)`, which computes
  `last - now`. So every stored timestamp that is not in the future skips the
  sync, and a session that has synced once is never synced again
  (`Sync.SyncedSessionStaysThrottled`).
- The commission loop (src/scrapper.ts:105-113) is evidently meant to read
  about three payment dates back. The count is compared with the quota only after a whole page
  has been pushed, so the last page read is kept whole, even when it brings
  the count well past three.
- `updateOrders` (src/index.ts:188-190) mutates the session in place. When the
  commission fetch fails after the delivery fetch succeeded, the new
  deliveries stay prepended and the timestamp is not advanced.
- Signing out (src/index.ts:72-74) calls `us.remove` and returns
  `us.defaultValue`. The storage class (src/usersStorage.ts:4-28) defines
  neither, so the state left after signing out is a parameter
  (`World.signedOut`).

## Model

| member | source | states |
|---|---|---|
| DateFill.FillDates | src/scrapper.ts:133-143 | On a table where the repair loop finishes, every row gets a date. A printed date is kept. A missing row takes the date of the row above it, and a missing row 0 takes row 1's date. The result equals the reference column `InferAll`. |
| DateFill.FillOutcome | src/scrapper.ts:136-141 | The loop finishes exactly on the `Fillable` inputs, and then yields the reference column. It fails with `MissingRowDate` exactly on a one-row table without a date. It fails with `FillNeverEnds` exactly when the first two rows lack a date. |
| DateFill.LoneMissingRowReadsPastEnd | src/scrapper.ts:138-140 | On a lone row without a date, the first missing row is row 0, and repairing it reads a row that does not exist. |
| DateFill.LeadingMissingRunNeverEnds | src/scrapper.ts:138-140 | When rows 0 and 1 both lack a date, one pass of the loop body leaves the column unchanged, while a date is still missing. |
| DateFill.FirstMissing | src/scrapper.ts:138 | `findIndex` of the first row without a date: -1 exactly when every row has one, otherwise a missing row with every earlier row dated. |
| DateFill.NearestLeftIsNearest | src/scrapper.ts:139-140 | The date that repair copies into a row comes from the closest dated row at or above it, and every row in between is missing its date. |
| DateFill.Inferred | src/scrapper.ts:139-140 | A row's repaired date is its own date if it has one, row 1's date for a missing row 0, and otherwise the nearest date above it. |
| DateFill.InferredFromLeft | src/scrapper.ts:140 | Below row 0, a missing row gets the same date as the row above it. |
| DateFill.RepairWrites | src/scrapper.ts:138-140 | Once the rows before the first missing one are repaired, one pass writes the reference date into that row and changes nothing else. |
| DateFill.RepairStep | src/scrapper.ts:138-141 | One pass keeps the loop invariant. The first missing row moves strictly right, which is why the loop terminates on `Fillable` input. |
| DateFill.InferAllMeaning | src/scrapper.ts:133-143 | The reference column keeps printed dates, gives a missing row the date above it, and gives a missing row 0 row 1's date. |
| DateFill.FillTrichotomy | src/scrapper.ts:136-141 | Every table either fills, or fails in one of the two ways above. |
| Amount.CleanNumberShow | src/scrapper.ts:149 | Reading back the plain decimal rendering of any amount gives that amount. |
| Amount.CleanNumberIgnoresNonDigits | src/scrapper.ts:149 | Inserting characters that are not digits anywhere in a cell never changes the amount. |
| Amount.NoDigitsReadsZero | src/scrapper.ts:149 | A cell without any digit reads as 0. |
| Amount.CleanNumberAppend | src/scrapper.ts:149 | A cell split anywhere reads as the left part's value shifted past the right part's digits, plus the right part's value. |
| Amount.CleanNumberExample | src/scrapper.ts:149-150 | The cell "$1.234" (Chilean thousands separator) reads as 1234. |
| Amount.DigitsAppend | src/scrapper.ts:149 | Deleting the non-digits of a concatenation gives the concatenation of the digits of each part. |
| Amount.DecimalValueAppend | src/scrapper.ts:149 | Reading a concatenation of digit strings shifts the left value by the length of the right part. |
| Amount.Digits | src/scrapper.ts:149 | The replace yields only digits, is no longer than the cell, and leaves an all-digit cell unchanged. |
| Pagination.CursorIndexFinds | src/scrapper.ts:66 | `findIndex` is -1 exactly when the cursor is null or no row has its id. Otherwise it points at the first row with that id. |
| Pagination.KeepBeforeAvoids | src/scrapper.ts:66-67 | The rows kept from a page never include the cursor row. |
| Pagination.PaginateExcludesCursor | src/scrapper.ts:63-77 | Whatever the loop returns contains no row with the cursor's id. |
| Pagination.PaginateReadsSome | src/scrapper.ts:63-77 | A successful loop reads at least one page and no more pages than exist. |
| Pagination.PaginateStopsOn | src/scrapper.ts:97-113 | If page j is the first page that stops the loop, the result is the earlier pages whole, then page j cut at the cursor. Exactly j-i+1 pages are read. A page stops the loop if it is the last page, holds the cursor, or fills the date quota. |
| Pagination.PaginateFailsOn | src/scrapper.ts:63-64 | If a page that the loop reaches cannot be evaluated, the whole loop fails with that page's error. |
| Pagination.DatesSeenAreDates | src/scrapper.ts:105 | Under the quota rule, the dates counted are exactly the payment dates of the kept rows. |
| Pagination.EvaluateDeliveryPage | src/scrapper.ts:122-144 | A delivery page evaluates exactly when its date column can be repaired. Each row keeps its id and gets its repaired date. Otherwise the result is the repair's fault. |
| Pagination.FetchDeliveries | src/scrapper.ts:53-84 | The delivery fetch reads between one page and all pages, and never returns the cursor row. |
| Pagination.FetchDeliveriesReadsThroughCursorPage | src/scrapper.ts:63-77 | The deliveries are the pages before the first page that is last or holds the cursor, then that page up to the cursor row. Exactly that many pages are evaluated, and later pages are never evaluated, repairable or not. |
| Pagination.DeliveryCursorFound | src/scrapper.ts:64-66 | `findIndex` finds the cursor on a repaired delivery page exactly when the raw page has a row with the cursor's id; a missing cursor is never found. |
| Pagination.DeliveryStopsOn | src/scrapper.ts:66-77 | On a repaired page, the generic stop rule is exactly "last page, or a raw row carries the cursor's id". |
| Pagination.FetchDeliveriesFailsOnUnfillablePage | src/scrapper.ts:64 | The first reached page whose dates cannot be repaired makes the whole fetch fail with that page's fault. |
| Pagination.ParseCommissionPage | src/scrapper.ts:159-161 | Each commission row keeps its id and payment date, and its amount is read by `cleanNumber`. |
| Pagination.FetchCommissions | src/scrapper.ts:86-120 | The commission fetch always succeeds, reads between one page and all pages, and never returns the cursor row. |
| Pagination.CommissionsNeverFail | src/scrapper.ts:97-113 | Parsing a commission page never fails, so the commission loop never fails. |
| Pagination.FetchCommissionsKeepsWholeFirstPage | src/scrapper.ts:105-113 | A first page without the cursor that already shows three or more payment dates is returned whole, and it is the only page read. |
| Pagination.QuotaStopsFirstPage | src/scrapper.ts:105-113 | For any page loop: a first page that evaluates, holds no cursor row and reaches the quota on its own is returned whole, and it is the only page read. |
| Pagination.CommissionCursorAbsent | src/scrapper.ts:100-101 | A commission page with no row carrying the cursor id, or a missing cursor, leaves `findIndex` at -1, so nothing is cut. |
| Pagination.CommissionQuotaReached | src/scrapper.ts:105-113 | A commission page that shows three or more distinct payment dates ends the loop's quota condition. |
| Merge.Seed | src/scrapper.ts:28-33 | The first reduce has one entry per delivery id, under its own id, with amount 0. |
| Merge.SeedKeepsLastDate | src/scrapper.ts:30-32 | When an id occurs more than once, its entry carries the date of its last row. |
| Merge.AmountForSnoc | src/scrapper.ts:34-39 | The reference commission total of an id grows by a row's amount exactly when the row has that id. |
| Merge.Credit | src/scrapper.ts:34-39 | Crediting commissions keeps the keys, ids and dates. Each amount grows by exactly the commissions with its id, and rows without a delivery are dropped. |
| Merge.Ledger | src/scrapper.ts:28-39 | The ledger has one entry per distinct delivery id, and its amount is the total of that id's commissions. |
| Merge.KeyOrder | src/scrapper.ts:41 | The listing of the ledger's keys that `Object.entries` walks names each delivery id exactly once and nothing else. |
| Merge.Entries | src/scrapper.ts:41 | `Object.entries` yields the ledger's entry for each listed key, in the listing's order. |
| Merge.GroupBucketsNonEmpty | src/scrapper.ts:42-49 | No day bucket is opened without an entry filed in it. |
| Merge.GroupMembersAreEntries | src/scrapper.ts:42-49 | Every bucket member is one of the entries, filed under its own id, in the bucket of its own day. |
| Merge.GroupFilesEveryEntry | src/scrapper.ts:42-49 | With distinct ids, every entry is filed in the bucket of its day, under its id. |
| Merge.GroupFilesOnce | src/scrapper.ts:42-49 | With distinct ids, an entry is filed in exactly one bucket. |
| Merge.GroupFilesLedger | src/scrapper.ts:41-49 | Grouping the ledger's entries, in the order of any duplicate-free listing of its keys, files every ledger entry under its day. |
| Merge.GroupLedger | src/scrapper.ts:41-49 | Grouping the ledger's entries, in the order of any duplicate-free listing of its keys, files the ledger by day: no empty buckets, no strangers, nothing missing. |
| Merge.MergeOrdersInfo | src/scrapper.ts:27-51 | The result files the ledger by day. Buckets are the ledger's days. Each member is the ledger entry of its id, and every ledger entry is in its day's bucket. |
| Merge.ExampleLedger | src/scrapper.ts:28-39 | Deliveries A and B, with commissions 100 and 50 for A and 70 for C, give A 150, B 0, and no C. |
| Merge.FiledBucketHasEntry | src/scrapper.ts:42-49 | Every bucket holds some ledger entry of its day. |
| Merge.FiledOneDay | src/scrapper.ts:42-49 | When all entries share one day, the grouping is a single bucket holding the whole ledger. |
| Merge.MergeExample | src/scrapper.ts:27-51 | For the example above, with both deliveries on one day, the result is a single bucket with A at 150 and B at 0. |
| Calendar.DayOf | src/index.ts:102 | The day of a minute is the day whose midnight-to-midnight span contains it, negative minutes included. |
| Calendar.StartOfWeek | src/index.ts:122 | `startOfWeek` with Monday first is a Monday on or before the day, less than a week earlier. |
| Calendar.StartOfWeekIsWeekly | src/index.ts:122 | Every day of a Monday-to-Sunday week has the same start of week. |
| Calendar.StartOfWeekOfWeekBefore | src/index.ts:133 | Going back seven days lands on the previous week's Monday. |
| Calendar.DaysFrom | src/index.ts:148-153 | The loop lists consecutive days from the start through the final day. |
| Calendar.GetDates | src/index.ts:143-155 | After ordering its arguments, `getDates` lists every day from the earlier to the later one, both included, consecutively. |
| Calendar.GetDatesCovers | src/index.ts:143-155 | A day is listed exactly when it lies between the two dates, both included. |
| Calendar.ThisWeek | src/index.ts:122-124 | This week runs from this week's Monday through today, which is weekday+1 days. |
| Calendar.LastWeek | src/index.ts:133-135 | Last week is seven days, from last week's Monday through the day before this week's Monday. |
| Presets.BucketTotalPeel | src/index.ts:107 | Any entry may be added first: a bucket's total is that entry's amount plus the total of the rest. So the key order of `Object.entries` does not matter. |
| Presets.BucketTotalSingle | src/index.ts:107 | A bucket with one entry totals that entry's amount. |
| Presets.SumOverAppend | src/index.ts:124-128 | Summing over two runs of days is the sum of the two sums. |
| Presets.SumOverNothing | src/index.ts:124-128 | With no buckets, every run of days sums to 0. |
| Presets.PresentDays | src/index.ts:125-126 | The filter keeps only day texts that have a bucket. |
| Presets.RangeTotalIsSumOver | src/index.ts:124-128 | Dropping the days without a bucket and summing the rest equals summing every day, counting absent days as 0. |
| Presets.OnTodayText | src/index.ts:101-109 | The reply is "nothing" exactly when today has no bucket. Otherwise it is that bucket's total. |
| Presets.OnYesterdayText | src/index.ts:111-119 | The reply is "nothing" exactly when yesterday has no bucket. Otherwise it is that bucket's total. |
| Presets.OnWeekText | src/index.ts:121-130 | The weekly reply is the sum of the buckets from this week's Monday through today. |
| Presets.OnLastWeekText | src/index.ts:132-141 | The reply is the sum of the buckets of last week's seven days. |
| Presets.ThisWeekFollowsLastWeek | src/index.ts:122-134 | Last week ends on the day before this week begins. |
| Sync.PastTimestampThrottles | src/index.ts:176-179 | Any stored timestamp that is not in the future skips the sync. |
| Sync.ThrottleLetsThrough | src/index.ts:176-179 | The sync runs exactly when the timestamp is missing, or lies at least 30 minutes after now. |
| Sync.HeadId | src/index.ts:182-185 | The cursor passed to a fetch is null exactly when the stored list is empty, and otherwise is the id of its newest row. |
| Sync.NewDeliveries | src/index.ts:183 | An unreachable table fails with `PageUnavailable`, and new deliveries never include the cursor row. |
| Sync.NewCommissions | src/index.ts:186 | The commission fetch fails exactly when the table is unreachable, and new commissions never include the cursor row. |
| Sync.UpdateOrders | src/index.ts:174-191 | A throttled sync changes nothing. Every outcome keeps the other metadata and keeps the old lists as suffixes. A completed sync prepends the new rows and sets the timestamp to now. An aborted one leaves the timestamp and commissions untouched. |
| Sync.CommissionFailureKeepsDeliveries | src/index.ts:188-190 | If the commission table fails after a successful delivery fetch, the new deliveries are already prepended and nothing else changes. |
| Sync.DeliveryFailureChangesNothing | src/index.ts:183-188 | A failing delivery fetch leaves the metadata exactly as it was. |
| Sync.ReturnedSyncThrottles | src/index.ts:178-190 | The timestamp a completed sync leaves throttles a sync at the same minute. |
| Sync.SyncedSessionStaysThrottled | src/index.ts:178-190 | After a completed sync, every sync at that time or later is skipped. |
| Conversation.ShallowMerge | src/index.ts:169 | The saved metadata takes every field of the returned metadata, and keeps keys that only the cached metadata has. |
| Conversation.ShallowMergeSelf | src/index.ts:167-171 | Merging metadata with itself changes nothing. |
| Conversation.QueryOf | src/index.ts:83-94 | A text asks for the first of /hoy, /ayer, /estaSemana, /semanaPasada, in that order, that occurs anywhere in it. Both directions are stated for each. |
| Conversation.OnGreeting | src/index.ts:27-38 | Any text moves the session to asking for the email, with the metadata unchanged. |
| Conversation.OnAskEmail | src/index.ts:40-48 | An invalid email returns null. A valid one is recorded under `email`, and the session moves to asking for the password. |
| Conversation.OnAskPass | src/index.ts:50-67 | Empty text returns null. A rejected login throws. After a login, the cookies are recorded in place and the orders are synced over that session. A completed sync returns the synced metadata in the query phase; a failing sync throws, leaving the cached session with the cookies and whatever the sync had already written. The phase of the cached session itself never changes. |
| Conversation.OnAnswerQueries | src/index.ts:69-99 | The sign-out command returns the signed-out state. A sync that hangs on an endless date repair ends the turn with the session untouched. Any other text returns null in the same phase. A sync that fails in any other way is caught: the apology is sent and the session keeps what the sync had already written. After a completed sync the session holds the synced metadata, and the answer is that of the first query named in the text, over that metadata's ledger grouped by the same day text the queries use. |
| Conversation.OrderFiledUnderItsDay | src/scrapper.ts:43-47 | Orders are grouped by the same day text the queries look up: every ledger entry sits, under its id, in the bucket of the day it fell on. |
| Conversation.Handle | src/index.ts:15-23 | The handler chosen for the cached phase never changes that cached phase itself. A handler that returns moves only to the same phase, the next phase, or the signed-out phase. |
| Conversation.Dispatch | src/index.ts:12-25 | A crashed turn leaves the cached phase unchanged. A saved turn moves only to the same phase, the next phase, or the signed-out phase. |
| Conversation.NullKeepsCurrent | src/index.ts:23-24 | A handler returning null saves the session exactly as the handler mutated it. |
| Conversation.GreetingAsksForEmail | src/index.ts:27-38 | Greeting saves the asking-for-email phase with the metadata unchanged. |
| Conversation.AskEmailStep | src/index.ts:40-48 | An invalid email saves the session unchanged. A valid one saves it with the email recorded, in the asking-for-password phase. |
| Conversation.AskPassStep | src/index.ts:50-67 | Empty text saves the session unchanged. A rejected login crashes the turn with nothing saved. After a login, a completed sync saves the synced metadata (cookies included) in the query phase, and a failing sync crashes the turn, leaving the cache with the cookies and the partial sync. Reaching the query phase implies the login succeeded and its cookies were stored. |
| Conversation.QueryPhaseStays | src/index.ts:69-99 | In the query phase a turn saves exactly when it is the sign-out command or its sync does not hang. A hanging turn saves nothing and leaves the cache as it was. Only the sign-out command leaves the phase, saving the signed-out state merged over the cached metadata. Otherwise a completed sync saves the synced metadata, with an answer exactly when the text names a query, and a failed sync saves what it had already written, with the apology. |
| Conversation.FirstLine | src/index.ts:12-22 | The text a handler receives is the longest prefix of the message without a line break, as `match[0]` of `.*` is. |
| Conversation.FirstLineIs | src/index.ts:12-22 | That prefix is the only one with no line break that ends at the message's end or at a line break. |
| Conversation.OnMessage | src/index.ts:12-25 | A turn on a whole message crashes only with the cached phase unchanged, and saves only the same phase, the next phase, or the signed-out phase. |
| Conversation.LaterLinesIgnored | src/index.ts:12-22 | Everything after a message's first line break is ignored: a command or the rest of a password on a later line has no effect on the turn. |

## Left out

- Telegram, Firestore and puppeteer I/O are not modelled. Chat messages, storage reads and writes, and browser navigation are left out, and the remote tables are given as sequences of pages.
- The in-memory session cache (`getStateFor`) and concurrent turns for the same chat are not modelled. The model assumes each turn starts from the state last saved. The code does not do that: `setStateFor` caches the result of `us.set` (src/index.ts:170), which is Firestore's write result and not the session (src/usersStorage.ts:25-27). So after a chat's first turn in a process, the next turn finds no phase, `allStatesHandlers[state.state]` is undefined (src/index.ts:21), and the call at src/index.ts:23 throws; nothing is saved.
- A new user's stored state is `{}`, which has no phase, and the dispatcher would find no handler for it. The model starts every session from a `UserState` with a phase.
- `strToDate` is not modelled. Each row's date arrives already parsed, or as `None` when the cell was blank or unparsable.
- `dateToText` and `validateEmail` are parameters of the model; their bodies are not in the modelled files. `login` (src/scrapper.ts:15-25) is a parameter too: its puppeteer body is not modelled. `dateToText` is one function of the model (`World.dayText` applied to `World.dayOf`), used both to group orders and to look up the queried days.
- `us.remove` and `us.defaultValue` are not defined by the storage class. The state after signing out is the parameter `World.signedOut`.
- date-fns time zones and daylight-saving shifts are not modelled. Days are whole integers and times are whole minutes. An invalid timestamp (NaN) is modelled as a missing one.
- `formatMoney` and the wording of the replies are not modelled. A reply is a tag carrying its sum.
- Amounts are unbounded naturals. JavaScript numbers lose precision above 2^53, and a cell that long is not modelled.
- A page's failure covers any exception thrown while fetching it. A table is either reachable for all its pages (`Table`) or not reachable at all (`Unreachable`). A failure midway through the pages is not modelled separately. That includes the navigation to the next page, which the code awaits (src/scrapper.ts:74-76) even after the page that holds the cursor, before the loop test stops it.
- Sync.UpdateOrders: the two fetches run one after the other, the commission fetch only once the delivery fetch has succeeded. The code starts both before awaiting either (src/index.ts:183-186). The metadata comes out the same either way. But when the delivery fetch rejects, the code's commission fetch still runs, and a rejection from it is never handled; that unhandled rejection is not modelled.
- The repair loop's non-termination is modelled as the fault `FillNeverEnds`, not as divergence. A turn that meets it ends as `Crashed(FillNeverEnds, …)` with nothing saved, which is what a hang leaves behind.
- Conversation.OnAnswerQueries: the answer is modelled as the value the query computes. The messages sent by the fire-and-forget `bot.sendMessage` calls are not followed.
- Presets and the query dispatch (`BucketTotal`, `OnTodayText`, `OnAnswerQueries`, `Handle`, `Dispatch`) are ghost functions, because a sum over a dictionary picks its entries with `:|`.
- The key order of JavaScript objects is not modelled. `Object.entries` lists integer-like keys first, in ascending order; the model walks the ledger in an arbitrary duplicate-free listing of its keys (`Merge.KeyOrder`). No result depends on the order: the grouping holds for any listing (`Merge.GroupLedger`), and a bucket's total holds for any entry order (`Presets.BucketTotalPeel`).
