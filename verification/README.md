# Verified model of the crmwhatsapp state machines

This project models the parts of the repository that keep state over many calls, and proves what they
promise over every run. Code that works step by step is a class or a method with a loop, proved against a
specification function; the claims about runs are lemmas about those specifications.

| file | what it covers |
|---|---|
| `InflightBodyBudget.dfy`, `InflightBodyRuns.dfy`, `InflightBodyFates.dfy` | the admission controller for request bodies: conservation of the byte counter, the memory bound, the stall reaper's timing, the default budget, and what lets a request in and takes its reservation away |
| `Retry.dfy` | the Go SDK's retry middleware against an arbitrary server: at most one send, bounded attempts, each response disposed of once, backoff and total wait |
| `DocumentNumbers.dfy`, `Totals.dfy`, `Ledger.dfy`, `LedgerRuns.dfy`, `LedgerRows.dfy`, `LedgerHistory.dfy` | quotes, invoices and payments: number allocation, rounding, rows against totals, reconciliation, and what the tables hold after a history |
| `Templates.dfy`, `TemplateBodies.dfy`, `Campaigns.dfy` | message templates and the cached status of a campaign |
| `WebVersion.dfy` | the single-flight resolver of the WhatsApp Web build and the choice of a settled build |
| `PathEscape.dfy` | path-segment escaping (sections 2.1 and 3.3 of RFC 3986) |
| `Webhook.dfy`, `WebhookRaces.dfy` | webhook ingestion, one delivery at a time and overlapping |
| `Options.dfy`, `Tables.dfy` | shared types: options and tables with an auto-incremented key |

`dafny verify dfyconfig.toml` checks everything. Clocks, sockets, HTTP replies, parsed dates and SQL
errors are parameters or events.

## Where the code and what is said about it differ

The model follows the code in each case.

- Body budget: the comments at lines 18-22 and 69-74 say that an undeclared body is under-reported for one
  poll interval at most. `UnderReportedIff` says when that is so: once a poll interval has passed since the last
  byte, a live body larger than the opening placeholder is under-reported if and only if bytes of it were read
  before the middleware ran, or it came to its end before a poll had looked at its last bytes. No later poll
  makes up for either (`FinishedBodyStaysUnderReported` is an instance), so the memory bound carries them as a
  term of its own.
- Retry: `backoff` documents `BaseDelay * 2^attempt`. Without a cap that holds exactly as long as the product
  fits in 63 bits (`UncappedBackoffIff`).
- Document numbers: a kind other than `quote` and `invoice` prints the quote prefix but is counted apart, and
  `update` takes any kind, so numbers can repeat. `AlwaysDistinctIff` gives the exact condition on the kinds in
  use and on the changes of kind allowed.
- Document totals include lines without a label, which are not stored (`UnlabelledLineIsCharged`).
  `RecomputedFromRowsIff` says when `computeTotals` of the lines that were stored gives the totals again.
- Payments: only payment operations reconcile, and a new document is a draft even if its total is not positive, or
  already paid under its id. `RunSettledIff` gives the condition, operation by operation, under which the
  statuses stay right.
- Templates: the chained replaces equal one simultaneous substitution only for some values and bodies.
  `NameDecides`, `StatusDecides` and, for any order, `OneFreeValueIff` give the exact condition on a value,
  `BodyDecides` the one on a body.
- Campaigns: the INSERT of `create` has three placeholders and two values. The third, the recipient's status,
  is then NULL, which the schema forbids, so `create` fails for every segment that is not empty and leaves an
  empty campaign behind; no such campaign ever gets past preparation (`CreatedCampaignsStayEmpty`). The agreement results therefore start from any agreeing
  database and also cover a `create` that binds a status.
- Web version: a fetcher that throws before it suspends leaves a dead promise in place for good. `FrozenIff`:
  that is the only way to a resolver that never fetches again. The built-in fetch never does it, and the other
  results hold with such fetchers too.
- Path escaping: Go's escaper already leaves `@`, `:` and `+` alone in a segment, so the rewrite pass changes
  nothing (`RestorerIsIdleOnGo`). The round trip is also proved for every escaper for which the pass would matter.
- Webhook: the handler treats a unique violation on insert as a duplicate, but the schema has a unique index on
  `idempotency_key` only. Overlapping deliveries store a message at most once if and only if all its copies
  carry the same key (`SafeIff`), and exactly once if and only if, besides, no other message carries that key
  (`ExactlyOnceIff`). Deliveries that do not overlap need only the second (`StoredOnceIff`).
- Acknowledgements are applied in the order in which they come. `RepeatedAckIff` says when a repeated one is
  harmless.

## Model

| member | source | states |
|---|---|---|
| BodyBudget.InflightBodyBudget.Middleware | openwa/src/config/inflight-body-budget.ts:155-273 | admission decided from the running counter is admission decided from the sum of what is held; a refused request (415 or 503, or a dropped socket) leaves the counter alone; the counter equals that sum and is within the budget afterwards |
| BodyBudget.InflightBodyBudget.Release | openwa/src/config/inflight-body-budget.ts:204-217 | the first terminal event gives back exactly what was held, every later one nothing |
| BodyBudget.InflightBodyBudget.OnEnd | openwa/src/config/inflight-body-budget.ts:198-269 | the reaper is disarmed and nothing is released |
| BodyBudget.InflightBodyBudget.ReconcileUndeclared | openwa/src/config/inflight-body-budget.ts:230-243 | the reservation follows the bytes read; the request is destroyed exactly when that would carry the sum over the budget, and the counter is within it again on return |
| BodyBudget.InflightBodyBudget.OnPoll | openwa/src/config/inflight-body-budget.ts:245-267 | one firing of the timer does what the counter-free specification says, and reports the requests it destroys |
| BodyBudget.SumUpdate | openwa/src/config/inflight-body-budget.ts:189-243 | changing one request's closure changes the sum of held bytes by that request alone |
| BodyBudgetRuns.RunConserves | openwa/src/config/inflight-body-budget.ts:187-217 | over every sequence of events, in any order and number, held bytes stay within the budget and are zero once everything is released |
| BodyBudgetRuns.MemoryBound | openwa/src/config/inflight-body-budget.ts:16-24 | the body bytes of live requests never exceed the budget by more than what polled requests brought in during the last poll interval (and the timer's lateness), and the bytes no poll will ever count |
| BodyBudgetRuns.ReservationsOnlyGrow | openwa/src/config/inflight-body-budget.ts:234-238 | no event makes a reservation smaller |
| BodyBudgetRuns.UnderReportedIff | openwa/src/config/inflight-body-budget.ts:69-75 | one poll interval after its last byte, a live undeclared body outweighs its reservation if and only if it is larger than the opening placeholder and either had bytes read before the middleware ran or ended before a poll had looked at its last bytes |
| BodyBudgetRuns.FinishedBodyStaysUnderReported | openwa/src/config/inflight-body-budget.ts:245-253 | a 25 MiB chunked body that is complete at its first poll is held at 1 MiB for as long as its handler runs |
| BodyBudgetRuns.StalledBodyIsReleased | openwa/src/config/inflight-body-budget.ts:57-67 | with a timer at most L ms late, an incomplete body is released within 15 s + 5 s + 4 L of its last byte; with an exact timer, within the timeout plus one poll |
| BodyBudgetRuns.ReapedOnlyAfterSilence | openwa/src/config/inflight-body-budget.ts:263-266 | the stall branch destroys a request only when its last byte is at least the whole timeout old |
| BodyBudgetRuns.MovingBodyIsNeverReaped | openwa/src/config/inflight-body-budget.ts:254-262 | over the events alone: a request that, until its message is complete, gets a byte before its first poll and between every two is never destroyed by the stall branch |
| BodyBudgetRuns.FourUploadsFit | openwa/src/config/inflight-body-budget.ts:38-43 | with the default budget a declared upload within the cap is admitted in every run that holds fewer than four others |
| BodyBudgetRuns.FifthUploadIsRefused | openwa/src/config/inflight-body-budget.ts:187-194 | four uploads of the full cap leave no room for any further body |
| BodyBudgetFates.CompressedIsRefused | openwa/src/config/inflight-body-budget.ts:162-185 | after any run a body said to be compressed is refused with 415 and leaves no trace, whatever there is room for |
| BodyBudgetFates.BodilessPasses | openwa/src/config/inflight-body-budget.ts:157-160 | a request that says nothing of a body holds nothing and always passes |
| BodyBudgetFates.DeclaredAdmittedIff | openwa/src/config/inflight-body-budget.ts:156-194 | a declared body is let in at its declared length exactly if that fits beside what is held, and is refused with 503 otherwise |
| BodyBudgetFates.ChunkedAdmittedIff | openwa/src/config/inflight-body-budget.ts:117-194 | a chunked body is let in at a mebibyte, or the whole of a smaller budget, exactly if that fits |
| BodyBudgetFates.BudgetResolved | openwa/src/config/inflight-body-budget.ts:88-101 | a positive whole number from the operator is the budget, anything else gives four times the cap |
| BodyBudgetFates.ReleasedIff | openwa/src/config/inflight-body-budget.ts:204-267 | over every run a live request loses its reservation exactly at a terminal event, or at a poll of its incomplete message that finds it outgrowing the budget or, with no new bytes, 15 seconds past its last progress |
| BodyBudgetFates.SilentWhenReaped | openwa/src/config/inflight-body-budget.ts:263-266 | a request destroyed without new bytes had not had one for 15 seconds |
| BodyBudgetFates.CompleteStaysLive | openwa/src/config/inflight-body-budget.ts:246-253 | a request whose message is complete stays live until a terminal event, however many polls and however much time go by |
| Retry.Backoff | openwa/sdk/go/retry.go:112-128 | the loop computes the wrapping, capped doubling |
| Retry.BackoffIsCappedDoubling | openwa/sdk/go/retry.go:110-128 | with a cap the delay is the minimum of base times 2^attempt and the cap, and nothing overflows when base and cap fit in 62 bits |
| Retry.BackoffMonotone | openwa/sdk/go/retry.go:110-128 | delays are positive, never shrink and never pass the cap |
| Retry.UncappedBackoffIff | openwa/sdk/go/retry.go:112-128 | without a cap the delay is base times 2^attempt if and only if that is below 2^63 |
| Retry.RoundTrip | openwa/sdk/go/retry.go:151-217 | the loop produces a log that is a run: which attempts were retried, what was waited, what was closed, and how it ended |
| Retry.RunIsDetermined | openwa/sdk/go/retry.go:151-217 | policy, verb and server determine the whole log, so the description of a run leaves nothing open |
| Retry.AttemptsBounded | openwa/sdk/go/retry.go:153-188 | a run makes at most max(0, MaxRetries) + 1 attempts |
| Retry.EveryResponseDisposedOnce | openwa/sdk/go/retry.go:153-214 | on every exit each response received was either returned or closed once, never both or neither |
| Retry.AtMostOneSend | openwa/sdk/go/retry.go:153-189 | a non-idempotent request is acted on at most once, by no attempt that was retried |
| Retry.SendsAtMostOnceIff | openwa/sdk/go/retry.go:12-52 | with a retry allowed, all verbs but GET, HEAD, OPTIONS, PUT and DELETE, and only those, are never acted on twice, by a server that never acts on what it answers with 429 or 503 |
| Retry.PostIsSentAtMostOnce | openwa/sdk/go/retry.go:12-52 | under every policy a POST is acted on at most once |
| Retry.WaitsIff | openwa/sdk/go/retry.go:158-182 | in every run an attempt is followed by a wait exactly if a retry is left and its outcome may be repeated: a network error for the five safe verbs, a listed status for them, and of those only 429 and 503 for others |
| Retry.WaitIs | openwa/sdk/go/retry.go:184-194 | each wait is the backoff, or an honoured Retry-After in seconds or until a date if that is longer |
| Retry.TotalWaitBounded | openwa/sdk/go/retry.go:186-214 | against any server a run waits at most the smaller of MaxRetries times the cap and base times (2^MaxRetries - 1), and what the Retry-After headers honoured on its own attempts ask for beyond the backoff |
| DocumentNumbers.SuffixOfNumber | mobile/src/store/invoicesStore.js:49-54 | the regular expression reads back the printed number, for every natural number |
| DocumentNumbers.NumberFormat | mobile/src/store/invoicesStore.js:41-55 | FAC for an invoice and DEV otherwise, the year, and at least four digits that read as the number, padded but never cut |
| LedgerHistory.NumbersAreConsecutive | mobile/src/store/invoicesStore.js:41-127 | while nothing is removed and no kind changed, the documents of a kind and year are numbered 1, 2, 3 and so on |
| LedgerRuns.NextNumberIsFresh | mobile/src/store/invoicesStore.js:41-55 | the number after the highest in a series is on no document of any kind |
| LedgerRuns.AlwaysDistinctIff | mobile/src/store/invoicesStore.js:41-197 | numbers stay distinct over every history with given kinds and permitted changes of kind, if and only if no two of those kinds print the same prefix and no permitted change alters one of them |
| LedgerRuns.QuotesAndInvoicesStayDistinct | mobile/src/store/invoicesStore.js:18-197 | with quotes and invoices only, and no change between them, numbers are always distinct |
| LedgerRuns.ChangedKindRepeatsNumber | mobile/src/store/invoicesStore.js:148-167 | whenever a kind in use may be changed into another, there is a history that issues a number twice |
| Totals.ComputeTotals | mobile/src/store/invoicesStore.js:21-30 | the loop computes both totals, rounded to cents |
| Totals.TotalsAreExactRounded | mobile/src/store/invoicesStore.js:21-30 | both totals are the exact sums of quantity, price and tax rate, to the nearest cent, halves upwards |
| Totals.RowsAreLabelledLines | mobile/src/store/invoicesStore.js:129-146 | the rows are the labelled lines, in order and as they are, each with its own amount to the nearest cent |
| Totals.TotalNearRows | mobile/src/store/invoicesStore.js:21-146 | total and stored rows differ by the value of the unlabelled lines, within half a cent per row and half a cent more |
| Totals.ShownVatNearExact | mobile/src/store/invoicesStore.js:21-30 | total with tax minus total without is within one cent of the exact VAT |
| Totals.UnlabelledLineIsCharged | mobile/src/store/invoicesStore.js:24-133 | an unlabelled line anywhere in a list adds its whole value to both totals and changes no row |
| LedgerRows.RunMatches | mobile/src/store/invoicesStore.js:98-197 | in every reachable state a document's totals and its rows are those of the lines last submitted for it, and no row outlives its document |
| LedgerRows.TotalsTrackRows | mobile/src/store/invoicesStore.js:98-197 | over every history a total, less the value of the unlabelled lines last submitted, is within half a cent per row and half a cent more of the sum of its rows |
| LedgerRows.RecomputedFromRowsIff | mobile/src/store/invoicesStore.js:21-171 | over every history, totalling the stored lines again gives the stored totals if and only if the unlabelled ones among the lines last submitted make no difference of a cent |
| LedgerRows.LabelledTotalsAreOfRows | mobile/src/store/invoicesStore.js:21-171 | with every line labelled, a document's totals are the totals of its rows, after any history |
| Ledger.Database.Next | mobile/src/store/invoicesStore.js:41-55 | the loop finds the highest suffix of the series and prints the next number |
| Ledger.Database.Create | mobile/src/store/invoicesStore.js:98-127 | one draft document with the next number and its totals is added, with exactly its labelled lines |
| Ledger.Database.ReplaceItems | mobile/src/store/invoicesStore.js:129-146 | the rows of one document are replaced by its labelled lines, other documents' rows stay |
| Ledger.Database.Update | mobile/src/store/invoicesStore.js:148-171 | kind and totals change for one document only, and its number stays |
| Ledger.Database.SetStatus | mobile/src/store/invoicesStore.js:173-187 | one document's status changes |
| Ledger.Database.RemoveInvoice | mobile/src/store/invoicesStore.js:189-197 | the document and its rows go, payments stay |
| Ledger.Database.ReconcileInvoice | mobile/src/store/paymentsStore.js:10-25 | the two branches make an existing invoice paid exactly when its payments reach the total |
| Ledger.Database.Record | mobile/src/store/paymentsStore.js:28-55 | a payment of at least a cent is stored and its invoice reconciled; a smaller one is refused |
| Ledger.Database.RemovePayment | mobile/src/store/paymentsStore.js:139-145 | the payment goes and the invoice it was for is reconciled |
| Ledger.Database.ListOpenInvoices | mobile/src/store/invoicesStore.js:68-85 | lists exactly the open invoices, each once, with total minus payments |
| LedgerRuns.PaymentSettlesInvoice | mobile/src/store/paymentsStore.js:10-145 | after a payment is recorded or removed in any books, its invoice is paid if and only if its payments reach the total, and no other invoice changed |
| LedgerRuns.OpenAfterPaymentOwes | mobile/src/store/invoicesStore.js:68-85 | an invoice still open after its payment owes at least one cent |
| LedgerRuns.RunSettledIff | mobile/src/store/invoicesStore.js:98-197 | over every history of all operations: each document is marked paid exactly when its payments reach its total, after every step, if and only if every creation has a total not reached by earlier payments on its id, every edit stays on its side of what was paid, and every manual status is right |
| LedgerRuns.ApplySettledIff | mobile/src/store/paymentsStore.js:10-145 | from books with the right statuses, one operation leaves all statuses right exactly when it meets its condition; recording and removing payments and removing documents always do |
| LedgerHistory.PaidIsWhatWasRecorded | mobile/src/store/paymentsStore.js:28-145 | after any history, what is paid on a document is the sum of the amounts accepted for it and not removed since, told from the operations alone |
| LedgerHistory.DocumentsAreThoseKept | mobile/src/store/invoicesStore.js:98-197 | after any history the table holds exactly the documents created and not removed since |
| LedgerHistory.DocumentAfter | mobile/src/store/invoicesStore.js:98-197 | one operation changes of any document nothing but what it is there for; a payment makes it paid, back to sent, or leaves its status |
| TemplateBodies.RenderIsSimultaneous | mobile/src/store/campaignsStore.js:8-13 | with a body that cannot join, and no value that holds an instruction, a later variable or the beginning of one at its end, rendering is one simultaneous substitution |
| TemplateBodies.RenderedPieceByPiece | mobile/src/store/campaignsStore.js:8-13 | a body written as texts and variables is sent as the texts with the name, the phone behind a plus sign (or nothing) and the status in their places |
| TemplateBodies.BodyDecides | mobile/src/store/campaignsStore.js:8-13 | a body renders as one simultaneous substitution for every client with tame values, if and only if no brace that does not begin a later variable is followed by part of that variable and then `{name}`, or by all of `status}`, where `{phone}` in between is skipped in the case of the status |
| TemplateBodies.UnnestedIsUnjoinable | mobile/src/store/campaignsStore.js:8-13 | every body without nested braces is such a body |
| Templates.AnyOrderIsSimultaneous | mobile/src/store/campaignsStore.js:8-13 | with no opening brace and no instruction in any value, the three replaces may be chained in any order |
| Templates.OneFreeValueIff | mobile/src/store/campaignsStore.js:8-13 | for any order and any one variable, the others being tame: the chain is one simultaneous substitution on all un-nested bodies if and only if that value holds no `$` instruction, no variable replaced later, and no beginning of one at its end |
| Templates.NameDecides | mobile/src/store/campaignsStore.js:8-13 | in the program's order, with tame phone and status, rendering is right on all un-nested bodies if and only if the name holds no `$` instruction, neither later variable, and no beginning of one at its end |
| Templates.StatusDecides | mobile/src/store/campaignsStore.js:8-13 | the status, replaced last, may hold anything but a `$` instruction, and nothing else is needed of it |
| Templates.InstructionsMean | mobile/src/store/campaignsStore.js:10-12 | what the four `$` instructions put in the place of a variable |
| Templates.BraceInNameIsRescanned | mobile/src/store/campaignsStore.js:8-13 | a name that spells a variable is substituted again |
| Templates.DollarInNameIsExpanded | mobile/src/store/campaignsStore.js:10 | a name holding `$&` puts the variable back |
| Templates.NestedBraceIsRescanned | mobile/src/store/campaignsStore.js:8-13 | an outer brace can join a value into a new variable |
| Campaigns.CountedIsDerived | mobile/src/store/campaignsStore.js:114-123 | the three counts and the branches after them give the status derived from the recipients |
| Campaigns.CampaignsStore.Create | mobile/src/store/campaignsStore.js:75-101 | adds a campaign in preparation; succeeds only for an empty segment |
| Campaigns.CampaignsStore.SetRecipientStatus | mobile/src/store/campaignsStore.js:103-130 | marks one recipient, with a sending time exactly if sent, and stores the derived status of its campaign |
| Campaigns.CampaignsStore.Remove | mobile/src/store/campaignsStore.js:159-163 | the campaign and its recipients go, others stay |
| Campaigns.CreatedCampaignsStayEmpty | mobile/src/store/campaignsStore.js:75-163 | as the program stands no campaign it creates ever has a recipient or gets past preparation, over every history |
| Campaigns.CreatedAgreesIff | mobile/src/store/campaignsStore.js:75-101 | creation keeps all cached statuses right unless it stores recipients that start out finished |
| Campaigns.MarkedAgrees | mobile/src/store/campaignsStore.js:103-130 | marking a recipient keeps every cached status and sending time right |
| Campaigns.RemovedAgrees | mobile/src/store/campaignsStore.js:159-163 | so does removing a campaign |
| Campaigns.RunAgrees | mobile/src/store/campaignsStore.js:75-163 | over every history each cached status is the derived one and sending times are there exactly for what was sent |
| Campaigns.CachedStatusMeans | mobile/src/store/campaignsStore.js:114-128 | in every state of every history a campaign is done if it has recipients and each is sent or skipped, else in progress if one is sent, else prepared |
| Campaigns.RecipientAfter | mobile/src/store/campaignsStore.js:103-163 | after every history a recipient is gone if its campaign was removed, and else is as last marked, with a time exactly if marked sent |
| Campaigns.CreatedRows | mobile/src/store/campaignsStore.js:75-101 | with a status bound, creation adds a prepared campaign and one recipient per client, in order, and nothing else |
| WebVersion.Newest | openwa/src/engine/wa-web-version.ts:85-101 | the chosen entry qualifies, is as new as any that does and the first of its date; none is chosen only if none qualifies |
| WebVersion.PickSettledWebVersion | openwa/src/engine/wa-web-version.ts:85-101 | the loop returns that entry's version, or the fallback |
| WebVersion.PickedIsSettled | openwa/src/engine/wa-web-version.ts:85-101 | the answer is the fallback exactly if no entry is a numbered, stable build released at least 43200000 ms ago and not expired, and otherwise the first of the newest of those |
| WebVersion.UnsettledIsIgnored | openwa/src/engine/wa-web-version.ts:89-97 | a beta, a build less than twelve hours old or an expired one can be put anywhere in the list without changing the answer |
| WebVersion.UsableReply | openwa/src/engine/wa-web-version.ts:121-133 | no reply and an error status are of no use; otherwise a settled build, or the current version if it begins with a digit |
| WebVersion.ChosenDateInvariant | openwa/src/engine/wa-web-version.ts:78-101 | the chosen date depends only on which entries qualify |
| WebVersion.PermutedOrPadded | openwa/src/engine/wa-web-version.ts:89-97 | reordering the list, or adding an entry that does not qualify, changes nothing that matters |
| WebVersion.WebVersionResolver.ResolveCurrentWebVersion | openwa/src/engine/wa-web-version.ts:110-144 | a caller gets the cached build, the outstanding fetch, nothing during back-off, or a new fetch |
| WebVersion.WebVersionResolver.Resume | openwa/src/engine/wa-web-version.ts:121-141 | a reply is cached only if a build could be chosen from it, otherwise back-off begins |
| WebVersion.SingleFlight | openwa/src/engine/wa-web-version.ts:110-144 | in every interleaving, throwing fetchers included, at most one fetch is outstanding, the one new callers join |
| WebVersion.OneVersionForAll | openwa/src/engine/wa-web-version.ts:103-109 | no two callers are ever given different versions |
| WebVersion.SuccessIsFinal | openwa/src/engine/wa-web-version.ts:110-128 | after a success no fetch starts and the answer stays |
| WebVersion.FetchRateBounded | openwa/src/engine/wa-web-version.ts:110-144 | a window of length T holds at most T / 60000 + 1 fetch starts |
| WebVersion.FrozenIff | openwa/src/engine/wa-web-version.ts:110-144 | a resolver without a build is frozen for good if and only if some fetcher threw before it suspended; in every other run the next call after the back-off starts a fetch |
| WebVersion.SynchronousThrowWedges | openwa/src/engine/wa-web-version.ts:116-143 | after such a throw every caller, whatever else happens, is handed the flight that has already failed |
| PathEscape.RestoreIsWiderEscape | openwa/sdk/go/client.go:291-296 | the rewrite after the escaper is the escaper with three more bytes left alone |
| PathEscape.PathEscapeRoundTrip | openwa/sdk/go/client.go:288-296 | decoding gives the segment back, and the result holds no `/`, `?` or `#` |
| PathEscape.RoundTripForAnyEscaper | openwa/sdk/go/client.go:291-296 | the same for every escaper that escapes `%` and those three |
| PathEscape.PathEscapeInjective | openwa/sdk/go/client.go:288-294 | different segments give different paths |
| PathEscape.ByteEscaped | openwa/sdk/go/client.go:285-296 | letters, digits and ten marks stand for themselves, any other byte becomes a percent sign and two capital hexadecimal digits |
| PathEscape.EscapedPiecewise | openwa/sdk/go/client.go:285-296 | a segment is escaped byte by byte |
| PathEscape.ReadableUnchanged | openwa/sdk/go/client.go:285-296 | a WhatsApp id, like any segment of those bytes, stays as it is |
| PathEscape.RestorerIsIdleOnGo | openwa/sdk/go/client.go:291-296 | on Go's escaper the rewrite pass is the identity |
| Webhook.WebhookRoutes.IsDuplicate | backend/src/routes/webhook.js:10-14 | true exactly for a key that is stored |
| Webhook.WebhookRoutes.UpsertContact | backend/src/routes/webhook.js:16-29 | adds the sender unless it has no number, is an unnamed group member or is known |
| Webhook.WebhookRoutes.HandleMessage | backend/src/routes/webhook.js:31-71 | stores one row, or nothing if the message is unusable or its id or key is stored |
| Webhook.WebhookRoutes.HandleAck | backend/src/routes/webhook.js:73-80 | sets the status of the message's rows that are not read |
| Webhook.WebhookRoutes.Post | backend/src/routes/webhook.js:82-102 | dispatch by event after the key check, with the reply |
| Webhook.OneRowPerMessage | backend/src/routes/webhook.js:51-71 | over every sequence of deliveries there is at most one row per message and per key, and one contact per account |
| Webhook.RowsAreAsDelivered | backend/src/routes/webhook.js:31-67 | every row of every run was filed by one of its deliveries, with the chat at the other end of the conversation and that delivery's fields, and has changed in nothing but its status since |
| Webhook.ContactsAreSenders | backend/src/routes/webhook.js:16-29 | every contact is the sender of an incoming message, and no unnamed group member |
| Webhook.SenderIsKnown | backend/src/routes/webhook.js:16-71 | when an incoming message is stored its sender is known from then on |
| Webhook.StoredOnceIff | backend/src/routes/webhook.js:10-89 | over every sequence of deliveries of given payloads each delivered message has exactly one row, if and only if no two messages share a key |
| Webhook.RedeliveryChangesNothing | backend/src/routes/webhook.js:31-89 | a message event delivered again, at any later point, changes nothing |
| Webhook.RunExtends | backend/src/routes/webhook.js:73-80 | stored rows keep everything but their status, and a read row keeps that too |
| Webhook.StatusAfter | backend/src/routes/webhook.js:73-80 | after any deliveries a message is read if it ever was or was said to be, and otherwise has the status of its last acknowledgement |
| Webhook.RepeatedAckIff | backend/src/routes/webhook.js:73-89 | an acknowledgement delivered again after any others changes nothing if and only if its key is stored, the message has been read, or the last acknowledgement said the same |
| Webhook.PhoneRoundTrip | backend/src/utils/phone.js:1-15 | a phone number survives being made into a chat id and back |
| Webhook.NormalizedPhone | backend/src/utils/phone.js:1-6 | digits stay, leading zeros go, and anything else makes no difference wherever it stands |
| WebhookRaces.SafeIff | backend/src/routes/webhook.js:10-71 | overlapping deliveries store each message at most once under every schedule if and only if all copies of a message carry one key |
| WebhookRaces.ExactlyOnceIff | backend/src/routes/webhook.js:10-89 | once all deliveries have ended, each message has exactly one row under every schedule if and only if all its copies carry one key and no two messages carry the same one |
| WebhookRaces.RaceStoresTwice | backend/src/db/schema.sql:19-34 | two copies with different keys, or none, can both be stored |
| WebhookRaces.UndisturbedDelivery | backend/src/routes/webhook.js:31-71 | a delivery nothing interrupts stores its row exactly when neither key nor message is stored |
| WebhookRaces.UndisturbedIsDelivered | backend/src/routes/webhook.js:10-89 | the three steps of a delivery nothing interrupts do to ids and keys what the whole handler does to the messages table |

## Left out

- Numbers: money is whole cents and quantities are exact reals, where the program uses IEEE doubles; byte counts and document numbers are unbounded.
- BodyBudgetRuns.MemoryBound: bytes are wire bytes, as in the program; a request whose Content-Length is not a safe integer reserves nothing and is never polled, so all its bytes are among those no poll will ever count.
- InflightBodyBudget: the text of the limits (`parseBodyLimitBytes`, the trimming of headers) and the responses' bodies and Retry-After value.
- Retry.TotalWaitBounded: how long Retry-After headers ask for; the code puts no cap on them, so neither does the bound.
- Retry: logging, draining of bodies and the transport below the middleware.
- Ledger: client, dates, notes, currency, payment method and timeline entries, which are stored and not read back by anything modelled; years are natural numbers; the LIKE pattern is matched with case, as all numbers are printed in capitals.
- Ledger.Database.ListOpenInvoices: the order of the list (by issue date), as dates are not modelled.
- Campaigns: names, filters and the choice of recipients (`computeRecipients`, `campaignBody`, `measureReplies`) are simple filters; `create` receives the chosen clients.
- Templates: a client's phone is the stored digits; the other fields are any strings.
- WebVersion: the five-second abort is one of the ways a fetch can fail; the clock does not run backwards; the operator's environment variables and the trust warning are single branches.
- PathEscape.PathEscapeRoundTrip: Go's table of bytes to escape is taken from its standard library, which is not part of this model; `RoundTripForAnyEscaper` does not depend on it.
- Webhook: database errors other than the unique violation, the limits on column lengths, and the signature check in front of the route.
- WebhookRaces: acknowledgements and contacts in overlapping deliveries.
- Screens, HTTP wrappers, wiring, configuration checks and the patch scripts.
