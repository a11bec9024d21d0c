# Order logistics sync — a Dafny model

This project models the core of a Next.js service. The service keeps a local
mirror of an external order system and moves each order to a terminal status
once a parcel tracker says the parcel was delivered or failed. The model
covers these parts:

- **Tracking client** (`lib/logistics.ts`):
  - It validates the waybill number and carrier code.
  - It maps the system carrier code (`SF`, `YTO`, …) to the tracker's code.
  - It asks the tracker once.
  - It classifies the tracker's free-text last status by ordered substring
    rules, on the lower-cased text: first *delivered*, then *failure*, then
    *transit*, else *unknown*.
- **Order store** (`lib/order.ts`):
  - The pending-order fetch from the order API.
  - The guarded status transition, which updates the row only while it still
    holds the expected old status and writes a log row in the same
    transaction.
  - The per-order failure ledger upsert, which never throws.
- **Scheduled reconciliation** (`app/api/sync-order-status/route.ts`):
  - The bearer-token check.
  - The fetch.
  - A sequential pass over the orders. The pass mirrors each order, tracks
    it, applies terminal results, and files a ledger row for every order
    whose processing threw. The pass never stops early.
- **Manual sync** of one order (`app/api/manual-sync/route.ts`).
- **Single-waybill query endpoint** and its Chinese display texts
  (`app/api/logistics/query/route.ts`).
- **Pure list logic of the batch query page**
  (`app/api/logistics/page.tsx`):
  - The normalisation of the pasted text.
  - The initial rows.
  - Carrier labels.
  - The history capped at 20.
  - Per-row carrier change.
  - Per-row re-query.

The model has no I/O. Four things are parameters, so every contract holds
for all of their values:

- The database is an immutable `Store` value.
- The tracker is a function `Tracker` from carrier code and waybill to a
  reply.
- Database faults are a `Faults` oracle, or a boolean per call. Each says
  whether that call threw.
- The order API's answer and each page fetch are `ApiReply` and
  `FetchOutcome` values.

Files:

| file | module | what |
|---|---|---|
| `wrappers.dfy` | `Wrappers` | `Option`, `Result` |
| `strings.dfy` | `Strings` | `includes`, ASCII `toLowerCase`, `trim`, `split`/`join` as used by the source |
| `logistics.dfy` | `Logistics` | tracking client and classifier |
| `classifier_examples.dfy` | `ClassifierExamples` | the classifier on the notable texts |
| `order.dfy` | `OrderStore` | order store |
| `sync_order_status.dfy` | `SyncOrderStatus` | reconciliation endpoint |
| `manual_sync.dfy` | `ManualSync` | manual sync endpoint |
| `query_route.dfy` | `QueryRoute` | query endpoint |
| `query_page.dfy` | `QueryPage` | page list logic |

Notable behaviour of the code:

- "In transit to destination, exception noted" classifies as *in transit*,
  not as a failure. The failure vocabulary is the English `fail` and the
  Chinese terms for "exception" and "rejected"; the English word
  "exception" is not in it, and the word `transit` matches. A status of
  just "exception noted" matches no term and is *unknown*.
- The reconciliation pass is strictly sequential. Each order starts from the
  store the previous order left.
- The guarded update compares against the status the order API reported,
  not the local mirror's. If the mirror differs, the update finds no row and
  throws. The order then counts as failed and gets a ledger row
  (`SyncOrderStatus.StaleMirrorBlocksTransition`).
- With `CRON_SECRET` unset, the expected header is the text
  `Bearer undefined`, and a caller sending exactly that is let in
  (`SyncOrderStatus.UnsetSecretAcceptsUndefined`).
- The page rewrites the waybill text box on every change event, so a line
  break typed at the end is removed at once
  (`QueryPage.TrailingBreakIsDroppedAsWritten`). A break typed between
  two different waybills is kept (`QueryPage.BreakInsideLineSurvives`), so
  a new line can be started only inside the text, not at its end.

## Model

| member | source | states |
|---|---|---|
| Strings.Contains | lib/logistics.ts:68-82 | `includes`: true exactly when the needle occurs at some position of the text |
| Strings.Lower | lib/logistics.ts:65 | `toLowerCase` keeps the length and lower-cases each ASCII letter |
| Strings.LowerIdempotent | lib/logistics.ts:65 | lower-casing twice is lower-casing once |
| Strings.Trim | app/api/logistics/page.tsx:99 | `trim` gives a string with no white space at either end, no longer than its input |
| Strings.TrimStrips | app/api/logistics/page.tsx:99 | `trim` removes only white space, and only from the two ends: the result is a contiguous slice of the input |
| Strings.TrimIdempotent | app/api/logistics/page.tsx:99 | trimming twice is trimming once |
| Strings.BlankIsWhiteSpace | app/api/logistics/page.tsx:151 | a text that trims to nothing is all white space |
| Strings.WhiteSpaceTrimsAway | app/api/logistics/page.tsx:151 | an all-white-space text trims to nothing |
| Strings.Split | app/api/logistics/page.tsx:98 | `split('\n')` gives at least one field, and no field holds the separator |
| Strings.Join | app/api/logistics/page.tsx:101 | `join('\n')` of no fields is empty; otherwise its length is the fields' total length plus one separator between each two neighbours, and every other character of the result comes from some field and vice versa |
| Strings.JoinSplit | app/api/logistics/page.tsx:98-101 | joining the fields of a split gives back the text |
| Strings.SplitJoin | app/api/logistics/page.tsx:101-106 | splitting joined separator-free fields (at least one) gives back the fields |
| Strings.CharInSomeField | app/api/logistics/page.tsx:106 | every non-separator character of the text lands in some field |
| Strings.FieldCharInText | app/api/logistics/page.tsx:106 | every character of a field comes from the text |
| Logistics.Classify | lib/logistics.ts:65-82 | on the lower-cased text: Delivered iff a delivered term occurs; DeliveryFailed iff none does and a failure term does; InTransit iff neither does and a transit term does; Unknown iff no term occurs |
| Logistics.ClassifyLowered | lib/logistics.ts:68-82 | Delivered iff a delivered term occurs. DeliveryFailed iff none does and a failure term does. InTransit iff neither does and a transit term does. Unknown iff no term occurs. |
| Logistics.ClassifyCaseInsensitive | lib/logistics.ts:65 | classification is the same for a text and its lower-cased form |
| Logistics.ErrorMessage | lib/logistics.ts:41-101 | the three thrown texts: "运单号和快递公司编码不能为空" for an empty argument, "不支持的快递公司：" followed by the rejected code, and "Failed to query logistics status" for a failed query |
| Logistics.ResolveCarrier | lib/logistics.ts:41-49 | The argument error happens iff a field is empty. The unsupported-carrier error happens iff both are given and the code is not in the table. Success yields the table's tracker code. |
| Logistics.QueryLogisticsStatus | lib/logistics.ts:36-103 | Validation errors happen without a tracker call. A reply with a last status succeeds with its classification and time. A thrown or malformed reply becomes the generic query error. |
| Logistics.RejectedQueryIgnoresTracker | lib/logistics.ts:41-49 | a rejected argument pair fails the same way whatever the tracker would say |
| Logistics.QuerySuccessIsTrackerStatus | lib/logistics.ts:59-94 | a success always carries the classification of the tracker's own last status; there is no default result |
| ClassifierExamples.UndeliveredIsDelivered | lib/logistics.ts:65-69 | "UNDELIVERED" is Delivered: lower-cased it contains "delivered", and that rule runs first |
| ClassifierExamples.FailureBeatsTransit | lib/logistics.ts:65-81 | "In transit, FAILED" is DeliveryFailed: the failure rule outranks transit |
| ClassifierExamples.SignedDeliveredExample | lib/logistics.ts:65-69 | "Signed, delivered by courier" is Delivered |
| ClassifierExamples.EnglishExceptionIsInTransit | lib/logistics.ts:68-82 | "in transit to destination, exception noted" is InTransit: "exception" is not a failure term |
| ClassifierExamples.UnrecognisedIsUnknown | lib/logistics.ts:66-82 | "unrecognized code 7", matching no vocabulary, is Unknown |
| ClassifierExamples.EmptyIsUnknown | lib/logistics.ts:66-82 | the empty status is Unknown |
| OrderStore.GetPendingOrders | lib/order.ts:18-46 | Orders are returned iff the API answered code 200 with a list, and they are exactly that list. Every other outcome is the one generic error. |
| OrderStore.UpdateOrderStatus | lib/order.ts:49-88 | It completes iff there is no fault, the order exists and it still holds the old status. Completing changes only that order's status, appends exactly one log row and leaves the ledger alone. Throwing changes nothing. |
| OrderStore.UpdatePreservesWellKeyed | lib/order.ts:56-83 | every row stays filed under its own order id |
| OrderStore.GuardedUpdateAppliesOnce | lib/order.ts:58-66 | of two writers that read the same old status, the second fails and the log gains one row |
| OrderStore.SaveLogisticsFailRecord | lib/order.ts:91-123 | Increments an existing row's count or creates a row with the initial count. Other rows, orders and logs are unchanged. A fault changes nothing and is swallowed. |
| OrderStore.SavePreservesWellKeyed | lib/order.ts:98-118 | at most one ledger row per order, under its own id |
| OrderStore.SaveKeepsFirstWaybill | lib/order.ts:102-109 | a later save only raises the count; the first waybill and carrier stay |
| SyncOrderStatus.EnsureMirror | app/api/sync-order-status/route.ts:52-66 | an existing mirror is kept as is; a missing one is created with the API's fields; either call throwing aborts the order |
| SyncOrderStatus.TargetStatus | app/api/sync-order-status/route.ts:75-89 | only Delivered and DeliveryFailed tracking results move an order, each to its matching terminal status |
| SyncOrderStatus.AttemptOrder | app/api/sync-order-status/route.ts:52-91 | A transition happens iff the mirror step completed, the tracking query succeeded with a terminal result, the order is on file with the API's status and the update does not throw; its target is the status that result maps to, and it logs exactly one row from the API's status. "Unchanged" means the mirror exists and the query succeeded with a non-terminal result. The ledger is untouched. At most the order's own mirror is added, and every other order's row stays as it was. If the mirror step throws the store is unchanged; a created mirror stays committed when the order then fails or is unchanged; a transition is exactly the guarded update applied to the mirrored store. |
| SyncOrderStatus.StaleMirrorBlocksTransition | app/api/sync-order-status/route.ts:75-87 | a mirror whose status differs from the API's blocks the transition |
| SyncOrderStatus.ProcessOrder | app/api/sync-order-status/route.ts:49-101 | Each order adds one to success or to fail. Fail happens iff the attempt threw, and then a ledger save follows. The delivered counter grows by one exactly when the attempt moved the order to DELIVERED, and the failed-delivery counter exactly when it moved it to DELIVERY_FAILED. |
| SyncOrderStatus.DeliveredCountedExactlyWhenApplied | app/api/sync-order-status/route.ts:52-91 | an order adds one to the delivered count iff its mirror step completed, the tracker said Delivered, the order is on file with the API's status and the update does not throw |
| SyncOrderStatus.Run | app/api/sync-order-status/route.ts:49-102 | success + fail grows by the number of orders. Counters only grow. Each delivered or failed-delivery count has one new terminal log row. Rows are added only for the processed orders, and the order and ledger rows of every order outside the list stay as they were. |
| SyncOrderStatus.RunAppend | app/api/sync-order-status/route.ts:49-102 | the pass over a + b is the pass over a followed by the pass over b |
| SyncOrderStatus.TrackingFailureIsIsolated | app/api/sync-order-status/route.ts:92-101 | a failed tracking query adds one failure and files or bumps the ledger row, and the pass goes on with the next order |
| SyncOrderStatus.ExpectedAuth | app/api/sync-order-status/route.ts:14 | the accepted header is "Bearer " then the secret, or "undefined" when it is unset |
| SyncOrderStatus.Get | app/api/sync-order-status/route.ts:11-122 | 401 with nothing touched on a wrong header. 500 with zero stats if the fetch fails. 200 with zero stats for no orders. Otherwise 200 with the stats and the store of the sequential pass over the fetched orders, so total = number of orders, success + fail = total, and one log row per delivered or failed-delivery count. |
| SyncOrderStatus.UnauthorisedIgnoresEverything | app/api/sync-order-status/route.ts:13-21 | a rejected caller gets the same answer whatever the order API, tracker and database would do |
| SyncOrderStatus.UnsetSecretAcceptsUndefined | app/api/sync-order-status/route.ts:14-17 | with the secret unset, "Bearer undefined" is accepted |
| SyncOrderStatus.TwoOrderScenario | app/api/sync-order-status/route.ts:36-109 | On an empty database, a shipped order reported delivered and a pending order whose query throws give stats (2,1,1,1,0). They leave one log row and one ledger row with count 1. |
| ManualSync.RequestedId | app/api/manual-sync/route.ts:13-21 | an id is taken iff the body parses and holds a non-empty `orderId` |
| ManualSync.Handle | app/api/manual-sync/route.ts:10-80 | Cases, in order: 400 for no id; 404 for an unknown order; a 200 with success false for a terminal order; 500 for a failed query or a thrown update; 200 with the store unchanged for a non-terminal result. Otherwise the guarded update is applied. |
| ManualSync.PostAsWritten | app/api/manual-sync/route.ts:64-73 | the reported `currentStatus` is always the status read before the update |
| ManualSync.StaleCurrentStatus | app/api/manual-sync/route.ts:49-73 | a shipped order reported delivered is stored as DELIVERED while the response as written says SHIPPED |
| ManualSync.Post | app/api/manual-sync/route.ts:64-73 | the reported `currentStatus` is the order's stored status after the call |
| ManualSync.ManualSyncMovesOnlyForward | app/api/manual-sync/route.ts:36-62 | a store change happens only for a named non-terminal order, to the terminal status of a successful query, with exactly one log row |
| ManualSync.ManualSyncApplies | app/api/manual-sync/route.ts:44-62 | without faults, a known non-terminal order with a terminal tracking result is always moved, with one log row |
| QueryRoute.GetStatusText | app/api/logistics/query/route.ts:45-53 | Delivered iff "已送达", InTransit iff "运输中", DeliveryFailed iff "配送失败", Unknown iff "状态未知" |
| QueryRoute.StatusTextInjective | app/api/logistics/query/route.ts:45-53 | different statuses have different display texts |
| QueryRoute.Post | app/api/logistics/query/route.ts:6-42 | Unparsable body gives 500 with the parser's message. A missing or empty field gives 400. A thrown query gives 500 with its message. Otherwise 200 with the status and its text. success iff 200 iff data present, and a failure always has a message. |
| QueryRoute.ServerErrorIsCarrierOrTracker | app/api/logistics/query/route.ts:12-41 | a 500 for a parsed body is an unsupported carrier or a failed query, never the client's argument error |
| QueryRoute.SuccessTextIsClassification | app/api/logistics/query/route.ts:20-33 | a success's text is the text of the classification of the tracker's last status for the mapped carrier |
| QueryPage.Dedup | app/api/logistics/page.tsx:98 | `Array.from(new Set(..))`: same elements, each once, in order of first occurrence |
| QueryPage.Filter | app/api/logistics/page.tsx:100 | `filter`: only elements that pass, and every element of the input that passes |
| QueryPage.FilterSelects | app/api/logistics/page.tsx:100 | the filtered list is the subsequence of the input at exactly the positions whose element passes, in order |
| QueryPage.NormaliseAsWritten | app/api/logistics/page.tsx:98-100 | the kept lines are exactly the non-empty trimmed lines, each clean (non-empty, trimmed, no line break); in order, they are the trimmed first copies of the raw lines, every first copy that trims to something appears once, and no later copy of a raw line appears; duplicates after trimming are possible |
| QueryPage.HandleWaybillChangeAsWritten | app/api/logistics/page.tsx:95-102 | the new text box splits back into the as-written normalised lines |
| QueryPage.TrimmedDuplicateSurvives | app/api/logistics/page.tsx:98-100 | "w", " w" gives "w\nw", a duplicate that the next change event removes; the corrected normalisation keeps one copy |
| QueryPage.Normalise | app/api/logistics/page.tsx:97-100 | the non-empty trimmed lines, clean, each exactly once, in the order of their first trimmed occurrence (corrected normalisation) |
| QueryPage.HandleWaybillChange | app/api/logistics/page.tsx:95-102 | corrected handler: the new text box splits back into the normalised lines |
| QueryPage.HandleWaybillChangeIdempotent | app/api/logistics/page.tsx:95-102 | corrected handler: a normalised text box is left unchanged by the next change event |
| QueryPage.TrailingBreakIsDropped | app/api/logistics/page.tsx:95-102 | corrected handler: a line break typed at the end of the text box is removed at once |
| QueryPage.TrailingBreakIsDroppedAsWritten | app/api/logistics/page.tsx:95-102 | handler as written: a line break typed at the end of the text box is removed at once |
| QueryPage.BreakInsideLineSurvives | app/api/logistics/page.tsx:95-102 | handler as written: a line break typed between two different waybills is kept, so the text box then holds both |
| QueryPage.FindLabel | app/api/logistics/page.tsx:110 | `find` gives a label iff some option has the code, and that option's label |
| QueryPage.FindLabelFirstMatch | app/api/logistics/page.tsx:110 | the label found is that of the first option with the code: no earlier option has it |
| QueryPage.CourierLabel | app/api/logistics/page.tsx:10-18 | the label is "未知" iff the code is not one the tracking client maps; otherwise it is that carrier's option name |
| QueryPage.OptionsMatchMapping | app/api/logistics/page.tsx:10-18 | the drop-down offers exactly the carriers of the tracking client's table |
| QueryPage.BuildRequestList | app/api/logistics/page.tsx:105-112 | one row per non-blank line, trimmed, in order, on the default carrier with its label, status "查询中" |
| QueryPage.StartQuery | app/api/logistics/page.tsx:150-157 | refused iff the text trims to nothing; otherwise the built rows |
| QueryPage.StartedExactlyWithRows | app/api/logistics/page.tsx:150-157 | a query starts iff it has at least one row to ask about |
| QueryPage.RowsFollowTextBox | app/api/logistics/page.tsx:95-112 | corrected handler: the rows built from the normalised text box are its waybills, each once, trimmed, in order of first appearance |
| QueryPage.RowsFollowTextBoxAsWritten | app/api/logistics/page.tsx:95-112 | handler as written: the rows built from the text box are exactly the as-written normalised lines, in order |
| QueryPage.RowsRepeatAsWritten | app/api/logistics/page.tsx:95-112 | handler as written: after typing "w" and " w", the query asks about w twice |
| QueryPage.ItemAfterQuery | app/api/logistics/page.tsx:125-143 | A success with data is the row with the data's status text and time and nothing else changed. A failure is the row with "查询失败" and the endpoint's message. A fetch error, or a success without data, is the row with "查询失败" and "网络异常". In every failure case the other fields, the earlier time among them, stay as they were. |
| QueryPage.RowShowsEndpointAnswer | app/api/logistics/page.tsx:115-143 | against the real endpoint a row never stays "查询中", and shows a status text iff the endpoint succeeded |
| QueryPage.MergeHistory | app/api/logistics/page.tsx:168 | the new rows then the old history, cut to at most 20 |
| QueryPage.MergeKeepsNewest | app/api/logistics/page.tsx:168 | a batch of at most 20 stays whole in front; an old entry survives iff its new position is below 20 |
| QueryPage.HandleCourierChange | app/api/logistics/page.tsx:191-203 | every row with the waybill gets the new carrier and its label; other rows and all waybills are unchanged |
| QueryPage.CourierChangeKeepsLabels | app/api/logistics/page.tsx:191-203 | rows whose labels match their carriers keep matching |
| QueryPage.CourierChangeLastWins | app/api/logistics/page.tsx:191-203 | changing a waybill's carrier twice is changing it once to the last choice |
| QueryPage.ReQueryItem | app/api/logistics/page.tsx:206-252 | When the answer is read, the waybill's rows in the table and in the history become the updated row. When the fetch or read throws, only the table's rows turn "查询失败"/"网络异常" and the history is untouched. Other rows and all waybills are unchanged. |
| QueryPage.ReQueryAgainstEndpoint | app/api/logistics/page.tsx:206-242 | against the real endpoint no row of the waybill stays "查询中", the table and history rows agree, and the status is "查询失败" iff the endpoint failed |

## Left out

- `concurrentRequest` (app/api/logistics/page.tsx:44-67) is not modelled.
  The page's results come back in completion order, not in the order of the
  rows. The model states results row by row (`QueryPage.ItemAfterQuery`) and
  takes the result list `MergeHistory` receives as given.
- React state, `useEffect`, `localStorage` persistence and reload, `fetch`
  and `alert` are not modelled. Each fetch is a `FetchOutcome` parameter,
  and the alert is the `Refused` case of `QueryPage.StartQuery`.
- The progress percentage is left out, because it is display only.
- Dates, `formattedTime` and the `lastFailTime` timestamp are left out. A
  time is an opaque `Instant` integer passed through unchanged.
- Prisma, axios and the tracker library's internals are left out. The
  database is a `Store` value with fault oracles. The order API's HTTP
  request, including its `status` query parameter and timeout, is reduced to
  its `ApiReply`. The tracker is a function from carrier code and waybill to
  a reply. The `rawResult` field is kept as the reply and never inspected.
- The logger, Tailwind styles, the status colour map and the layout are left
  out, because none of them affects behaviour.
- Text encoding: a JavaScript string is a sequence of UTF-16 code units, and can
  hold a lone surrogate; the model uses Unicode scalar values, so a
  character outside the Basic Multilingual Plane is one element here and
  two units there, and a lone surrogate has no counterpart (the operations
  treat it like any other character that is neither white space nor a
  separator). The results are the same: every separator, white-space character and classifier term
  is a single unit outside the surrogate range, so it can never match half
  of a pair, and `includes`, `trim`, `split` and `join` never cut a pair.
  No string length reaches an observable result.
- Strings.Lower: lower-cases ASCII letters only. The JavaScript
  `toLowerCase` also maps non-ASCII letters. Only two of them lower-case
  into ASCII: U+0130 becomes "i" followed by U+0307, and U+212A (the Kelvin
  sign) becomes "k". No classifier term has "i" followed by U+0307 or
  contains "k", and the Chinese terms have no case, so the classification
  is the same either way.
- OrderStore.GetPendingOrders: a code-200 answer whose `data` is not a
  list (an object or a string) is treated as the generic error. The code
  returns such a value unchanged, since the cast checks nothing; only a
  missing or `null` `data` makes the length read throw. Bodies are modelled as either
  a list of orders or nothing.
- OrderStore.SaveLogisticsFailRecord: the initial `failCount` of a new
  ledger row is the column default. The database schema is not part of this
  model, so it is taken to be 1 (`InitialFailCount`).
- JSON request fields that are present but not strings (numbers, objects)
  are not modelled. A body field is absent or a string.
- Carrier codes that are inherited `Object.prototype` keys (such as
  `"toString"`) are not modelled. The table is a plain map, so they are
  unsupported carriers here.

## Findings

| source | as written | input that shows it | evidently intended | confidence | as-written member | corrected member |
|---|---|---|---|---|---|---|
| app/api/manual-sync/route.ts:49-69 | `updateResult` comes from `updateOrderStatus`, which resolves to nothing, so `currentStatus` is always `order.status` from before the update | a SHIPPED order whose tracker reports "delivered": the store says DELIVERED, the response says SHIPPED | `currentStatus` reports the status after the update | not executed | ManualSync.PostAsWritten, ManualSync.StaleCurrentStatus | ManualSync.Post |
| app/api/logistics/page.tsx:98-100 | duplicates are removed before the lines are trimmed | the text "w\n w" becomes "w\nw", the same waybill twice; the next change event rewrites it to "w" | remove duplicate waybills after trimming, so the text box holds each once and is a fixed point | not executed | QueryPage.NormaliseAsWritten, QueryPage.TrimmedDuplicateSurvives | QueryPage.Normalise, QueryPage.HandleWaybillChangeIdempotent |
