# A payment gateway, proved

This project models the core of a payment gateway that sits between merchants and Stripe: payment
intents, the double-entry ledger, hosted-checkout sessions, webhook deliveries, the reconciliation
worker, the balance views, Stripe's paged lists and the API-key index. `dafny verify dfyconfig.toml`
checks all of it.

## What is modelled

**State.** `Books` holds the rows of `payment_intents`, `ledger_entries` and `checkout_sessions`; `Db`
adds the time stamps of the intents and the rows of `webhook_events`. Local ids are row positions, and a
generated transaction id is the ledger position of its first leg, so fresh ids are fresh by construction.

**Operations.** `Operations` says, request by request, where the committed database goes. `Gateway` holds
the handlers as they run: a `Session` with a `committed` and a `working` snapshot, changed in place,
committed and rolled back; each handler is proved to take the committed snapshot where its function in
`Operations` says. `Runs` reduces every request to a list of *sound changes* of the books, so that each
law is proved once per kind of change and then holds over all runs. `Effects` says of each request what it
does and answers, by the fields of its inputs, the names of the accounts and the texts of the statuses.

**Faults.** Stripe's replies are arbitrary. A request carries the number of commits that go through
before the process dies; dying anywhere between two commits has the same durable effect, so this covers a
crash at every point, and `complete_session`'s commit in the middle of the webhook handler in particular.
A webhook delivery may in addition suffer an exception that is nobody's doing, before that commit or
after it.

**Stripe.** For retries and for the end-to-end result, `StripePeer` gives Stripe a state: an idempotency
map, charges, refunds and balance transactions. `EndToEnd` lets the two run against each other.

## Main results

- The ledger positions of every intent in closed form, in every reachable state (`Runs.BooksInClosedForm`).
- Exactly-once capture, replay insensitivity and convergence of webhook deliveries
  (`Runs.CapturedAtMostOnce`, `Webhooks.DeliveriesActOnce`, `Webhooks.BrokenDeliveriesConverge`), with
  requests of any kind in between (`Replay.EventsActOnceUnlessAgain`).
- Retries after a crash converge with Stripe, at any later time (`StripePeer.LateCreateRetry`,
  `StripePeer.LateRefundRetry`), and retries alone settle a day (`CatchUp.RetriesSettleTheDay`).
- Reconciling a day reports nothing if and only if everything is settled, whatever Stripe did that the
  gateway knows nothing of (`EndToEnd.ReconciliationIsCleanIffSettled`); reconciling any other window of any
  run reports a payment under an exact condition (`EndToEnd.WindowReports`).
- The report conserves, is exact and is canonical on any input at all (`Reconciliation`).
- Grouped balances refine direct ones, and every `net` is zero (`Balances`).
- Paging finds every item once; the prefix index answers what a full scan answers (`Paging`, `ApiKeys`).

## Where the code is not what one would expect

The model follows the code.

- The repository's README.md:57 says that the status advances past `requires_action` only in the webhook
  handler. `create_intent`, `confirm_intent` and `cancel_intent` copy whatever status Stripe replies
  (app/services/payment.py:91, 153, 189). A reply of `succeeded` makes the row SUCCEEDED with nothing
  received, and no later event captures it (`Lifecycle.SucceededByReplyIsNeverCaptured`). After any run
  SUCCEEDED implies captured if and only if no such reply reached a row:
  `Lifecycle.CapturesComeFromWebhooks`.
- The repository's README.md:56 says that a replayed key returns the same row for every mutation. Refund
  keys are not stored locally, so replaying one that is already booked books it again exactly when as much
  is still refundable: `StripePeer.RefundReplayBooksAgain`.
- A refund retried without an amount, after another refund of the intent, asks Stripe for another amount
  under the same key and is refused. A retry is booked if and only if the checks pass and it comes to the
  amount Stripe has on record: `StripePeer.LateRefundRetry`.
- A cancellation books the reversal whatever status Stripe returns, so it can be booked twice:
  `Cancellation.CancelBooksTwice`. Throughout a run an intent has one cancellation booked exactly when it is
  CANCELED, if and only if no reply says otherwise and no cancelled intent is captured:
  `Cancellation.CancelledOnceIffDisciplined`.
- An acknowledged success need not be booked. One that arrives before the gateway has a row for the intent
  is marked as processed and so lost; so is one for a row that a reply made SUCCEEDED with nothing
  received. It is booked if and only if the row existed and was not of that kind:
  `Webhooks.WhenAcknowledgedIsBooked`.
- A payment that is settled on both sides can still be reported, because the worker compares the
  transactions of a day with the whole net amount of the rows updated that day. A refund booked the day
  after the charge does it: `Midnight.SettledYetReported` is such a run, `EndToEnd.SettledPaymentIsReported`
  the exact condition for every settled payment and every window.
- `obj.get("amount_received", obj["amount"])` evaluates its default first, so an event without `amount`
  fails even when it has `amount_received`, and a null `amount_received` fails even when there is an
  `amount`: `Webhooks.WhenDispatchRefuses`.
- A success without money is refused while its row waits, and completes the session later if a reply has
  made the row SUCCEEDED by then (`Replay.WithoutMoneyEventsActLater`). That is the only way an event acts
  again: a run and the run with each event delivered once agree throughout if and only if it does not
  happen (`Replay.EventsActOnceUnlessAgain`).
- CANCELED is left by a capture and by nothing else (`Cancellation.CanceledIsLeftByCapture`); only SUCCEEDED
  is never left (`Lifecycle.RunAdvances`).
- Create keys are global. A merchant that reuses another's key with the same terms gets the other's row,
  and exactly then a row that is not its own (`Ownership.AnswerIsOwnUnlessKeyIsUsed`). After any run every
  session belongs to the merchant of its intent if and only if no request opened one that way:
  `Ownership.SessionsOwnedIffNoneForeign`.

## Assumptions

- Requests are serialised. The code takes no row locks between reading a row, calling Stripe and writing
  the row back, so two requests interleaved on one intent are outside this model.
- Times are integers, currencies are ASCII, and `amount >= 1` (app/schemas/payment.py:11) is not even
  needed: smaller amounts are refused by the ledger and roll back.
- In `EndToEnd` and `CatchUp` the environment is restricted by `Allowed`, to this: succeeded events report
  charges that were made, with their amounts; the ids of balance transactions are new; a payment intent is
  paid once; and everything happens within some span of time. Replies are arbitrary, keys may be used over,
  and Stripe may charge and refund what the gateway has no row for. The span may be as long as one likes and
  the window that is reconciled any other; only `ReconciliationIsCleanIffSettled` and its consequences
  reconcile the span itself.
- In `Replay` an event id stands for one payload.
- In `ApiKeys` the hash is injective and generated keys are fresh.

## Model

| member | source | states |
|---|---|---|
| Ledger.ZeroAtEveryScope | app/services/ledger.py:45-75 | after any calls, accepted or refused, with reused transaction ids, the signed sum is zero at every scope made of transaction id, currency and intent |
| Ledger.RecordKeepsScope | app/services/ledger.py:48-72 | one accepted call adds zero to every scope |
| Ledger.RecordedScope | app/services/ledger.py:45-75 | any ledger written only through `record_transaction` nets to zero at every scope |
| Ledger.RowsArePositive | app/services/ledger.py:54-55 | every row on the ledger has a positive amount, whatever calls were made |
| Ledger.TransferRecords | app/services/ledger.py:45-75 | a two-leg booking is refused exactly for a non-positive amount and otherwise appends exactly its two rows |
| Ledger.WhenRecorded | app/services/ledger.py:45-55 | a call is accepted if and only if it has two legs or more, they balance and all are positive; the first of these that fails is the error |
| Ledger.RecordedRows | app/services/ledger.py:57-75 | an accepted call appends one row per leg, in order, with the leg's columns and the call's, under one transaction id: the supplied one, or one no row has yet |
| Common.LowerMeans | app/services/ledger.py:58 | lower-casing takes each capital to its small letter and leaves every other character |
| Books.AccountsDiffer | app/services/payment.py:106-111 | the four accounts of an intent are different whatever the customer is called |
| Books.Names | app/services/payment.py:106-118 | the accounts and descriptions by name, `anon` where there is no customer |
| Books.StatusIsItsText | app/models/payment_intent.py:20-27 | each status is read from its own text and no other text is read as one |
| Books.AddIntentInv | app/services/payment.py:86-121 | a creation keeps the invariant of all books: closed form, unique keys and Stripe ids, linked sessions, recorded ledger |
| Books.SetStatusInv | app/services/payment.py:136-154 | a status copied from Stripe keeps the invariant |
| Books.BookCancelInv | app/services/payment.py:189-209 | a cancellation keeps the invariant and is one more cancellation of that intent |
| Books.BookCaptureInv | app/services/payment.py:241-262 | a capture of an intent that has not succeeded keeps the invariant, whatever status it had |
| Books.BookRefundInv | app/services/payment.py:299-342 | a refund within what is refundable keeps the invariant |
| Books.AddSessionInv | app/services/checkout_session.py:82-92 | a session for an intent without one, on its terms, keeps the invariant |
| Books.SetSessionInv | app/services/checkout_session.py:117-122 | a session that moves up keeps the invariant, COMPLETED only where the intent has succeeded |
| Runs.IntentLookup | app/services/payment.py:230-235 | the lookup by Stripe id finds the row that has it and never two |
| Runs.SessionLookup | app/services/checkout_session.py:43-52 | `find_by_payment_intent` never sees two rows |
| Runs.CreateAnswers | app/services/payment.py:62-75 | the row a create answers with has the key and the terms of the request, new or replayed |
| Runs.StepIsItsChanges | app/services/payment.py:49-346 | every request, in every outcome, amounts to a list of sound changes of the books |
| Runs.StepInv | app/services/payment.py:49-346 | every request keeps the invariant |
| Runs.RunInv | app/api/webhooks.py:63-95 | every run of requests and deliveries keeps the invariant |
| Runs.BooksInClosedForm | app/services/payment.py:101-344 | in every reachable state captured = R-F, customer = F, authorised = A-cA-R, pending = cA-A, 0 <= F <= R, and R = F = 0 unless SUCCEEDED |
| Runs.CapturedAtMostOnce | app/services/payment.py:238-262 | in every reachable state an intent has one capture booking if it has received money and none otherwise |
| Runs.OneIntentPerKey | app/services/payment.py:62-75 | in every reachable state one row per key and per Stripe id, with one creation booked |
| Runs.GatewayLedgerIsZeroSum | app/services/ledger.py:45-75 | the gateway's own ledger is zero-sum at every scope in every reachable state |
| Effects.CreateEffect | app/services/payment.py:77-123 | a create under a new key adds a row with the request's terms and customer, the caller's merchant and Stripe's id and status, and books the amount from that customer's pending account to the authorised one, in two rows of a new transaction |
| Effects.CreateFails | app/services/payment.py:77-121 | a create under a new key is answered if and only if Stripe's status is known, its id is new, the amount is positive and the commit goes through; otherwise nothing changes and the answer says which failed |
| Effects.CreatedRowStays | app/services/payment.py:86-119 | after any run the row has the terms, customer, merchant and Stripe id of its creation, and its bookings are on that customer's accounts |
| Effects.ConfirmEffect | app/services/payment.py:131-156 | every outcome of a confirm: the row gets exactly the replied status, whichever it is, or nothing changes, with the answer for each case |
| Effects.CancelEffect | app/services/payment.py:164-213 | every outcome of a cancel: the row gets the replied status and its amount is booked back, or nothing changes; a succeeded row is an invalid state |
| Effects.RefundEffect | app/services/payment.py:282-346 | every outcome of a refund: accepted for exactly 1 to what is left of a succeeded row, it raises the refunded total and books the amount to the customer, or nothing changes, with the answer for each case |
| Effects.CaptureEffect | app/api/webhooks.py:102-114 | a clean delivery of a new success to a row not SUCCEEDED receives and books the event's `amount_received`, or its `amount` where that is missing, and completes the session |
| Effects.OtherEventsDoNothing | app/api/webhooks.py:115-120 | an event of any other type is processed and changes no books |
| Effects.EventRowAfter | app/api/webhooks.py:63-95 | what a delivery leaves in the event table, by its answer: processed now, an error noted, or nothing; payloads and other events are kept, and the books never change without the event's row |
| Effects.OpenEffect | app/services/checkout_session.py:67-94 | a session request under a new key makes the merchant's intent without a customer and an open session for it on the same terms, for 24 hours |
| Effects.ViewEffect | app/services/checkout_session.py:106-124 | every outcome of a view |
| Gateway.Session.Commit | app/core/db.py:27-42 | a commit makes the working rows durable with their stamps, or the process dies and nothing changes |
| Gateway.Session.Rollback | app/core/db.py:35-42 | a rollback restores the committed rows |
| Gateway.Session.RecordTransaction | app/services/ledger.py:30-75 | adds all rows of a transaction to the working ledger or none |
| Gateway.CreateIntent | app/services/payment.py:49-123 | the handler takes the committed database and the answer where `Operations.CreateIntent` says, over every reply and crash |
| Gateway.ConfirmIntent | app/services/payment.py:126-156 | the same for a confirmation |
| Gateway.CancelIntent | app/services/payment.py:159-213 | the same for a cancellation |
| Gateway.RefundIntent | app/services/payment.py:267-346 | the same for a refund |
| Gateway.CreateSession | app/services/checkout_session.py:55-94 | the same for a session, with its two commits |
| Gateway.GetOpenSession | app/services/checkout_session.py:97-124 | the same for a view, which may expire the session |
| Gateway.ApplySucceededEvent | app/services/payment.py:223-264 | the working rows get the capture, or nothing, or the booking is refused; nothing is committed |
| Gateway.CompleteSession | app/services/checkout_session.py:127-146 | completing a session commits everything pending; a completed session is left alone |
| Gateway.DispatchEvent | app/api/webhooks.py:98-120 | the dispatch either refuses, leaves its changes pending, or has committed them midway |
| Gateway.HandleFailure | app/api/webhooks.py:80-89 | after the rollback the error is noted exactly if the event row had been committed before |
| Gateway.StripeWebhook | app/api/webhooks.py:63-95 | the handler takes the committed database and the answer where `Operations.Deliver` says, over every exception and crash |
| Webhooks.DeliverBooks | app/api/webhooks.py:63-95 | a delivery changes the books exactly as its dispatch does if it gets past its first commit and the event is not processed, and not at all otherwise |
| Webhooks.CaptureDispatches | app/services/payment.py:238-262 | a positive amount reported for an intent in any status but SUCCEEDED is captured, cancelled and failed ones included |
| Webhooks.DispatchTwice | app/api/webhooks.py:102-114 | dispatching an event twice is dispatching it once |
| Webhooks.StaysAbsorbed | app/api/webhooks.py:102-114 | an event without further effect stays so whatever other events are dispatched |
| Webhooks.DeliveriesActOnce | app/api/webhooks.py:63-95 | any list of repeated, failed and crashed deliveries leaves the books of one clean delivery of each event that got through |
| Webhooks.BrokenDeliveriesConverge | app/api/webhooks.py:78-95 | any number of broken deliveries and then a complete one leave the books of a single clean one |
| Webhooks.ProcessedIsFinal | app/api/webhooks.py:63-65 | once processed, an event is answered as a duplicate for ever and changes nothing |
| Replay.EventsActOnceUnlessAgain | app/api/webhooks.py:63-95 | a run of any requests and deliveries and the run with each event delivered cleanly where it first got through agree on the books in every state, if and only if no delivery acts again: of an event seen and not processed, without money, whose intent has succeeded and has a session not completed |
| Replay.EventsActOnce | app/api/webhooks.py:63-95 | if no event acts again, and so if every readable success reports money, the two runs end with the same books |
| Replay.MoneylessActs | app/services/payment.py:238-255 | a success without money changes the books if and only if its intent has succeeded and has a session not completed |
| Replay.WithoutMoneyEventsActLater | app/services/payment.py:238-255 | a success without money is refused and later completes the session, once a reply has made the row SUCCEEDED |
| Replay.EffectiveIsOver | app/api/webhooks.py:78-95 | after a delivery that gets through, its event is processed, cannot be read, has nothing left to do, or reports no money |
| Webhooks.WhenAcknowledgedIsBooked | app/api/webhooks.py:98-114 | a clean delivery of a new success with money is answered; afterwards the intent has succeeded if and only if it had a row, and has received money if and only if it had a row that was not SUCCEEDED with nothing received; such a row never receives any; and no later delivery of the event does more |
| Webhooks.WhenDispatchRefuses | app/api/webhooks.py:102-107 | a succeeded event is refused if and only if it lacks an id or an amount, the amount read is null, or it reports nothing received for a waiting intent |
| Lifecycle.StepAdvances | app/services/payment.py:287-321 | every step keeps an intent's terms, SUCCEEDED and the amount received, and moves the refunded total exactly by the accepted refund |
| Lifecycle.RunAdvances | app/services/payment.py:238-241 | the same over whole runs: only SUCCEEDED is never left, nothing received or refunded is undone |
| Lifecycle.RefundsAreBounded | app/services/payment.py:299-321 | a run accepts at most as many refunds as there is money left to refund |
| Lifecycle.FullRefundIsFinal | app/services/payment.py:299-309 | a refund without an amount reaches F = R, and every later refund, after any run, is rejected as an invalid amount |
| Lifecycle.CapturesComeFromWebhooks | app/services/payment.py:126-264 | after any run every succeeded intent is captured if and only if no reply of `succeeded` reached a row during it: a new key, or a row in a status that lets Stripe be called, and a commit that went through |
| Lifecycle.SucceededByReplyIsNeverCaptured | app/services/payment.py:238-239 | a row SUCCEEDED with nothing received is never captured afterwards |
| Cancellation.StepKeepsCount | app/services/payment.py:126-264 | a step keeps that an intent has one cancellation booked exactly when CANCELED, if and only if no reply that reaches a row and no capture says otherwise |
| Cancellation.CancelledOnceIffDisciplined | app/services/payment.py:126-264 | the same over whole runs, in every state they go through |
| Cancellation.CancellationClearsAuthorisation | app/services/payment.py:169-209 | then pending and authorised are zero for a CANCELED intent; otherwise authorised is A-R and pending -A |
| Cancellation.CanceledIsLeftByCapture | app/services/payment.py:238-262 | a CANCELED intent changes status in a step if and only if a delivery captures it |
| Cancellation.CancelBooksTwice | app/services/payment.py:169-209 | a second cancel books a second reversal exactly when the first reply was neither `canceled` nor `succeeded` |
| Lifecycle.StepSessions | app/services/checkout_session.py:117-146 | a step keeps a session's terms and its status only rises OPEN < EXPIRED < COMPLETED |
| Lifecycle.SessionsChangeAtMostTwice | app/services/checkout_session.py:117-146 | a session changes at most twice in any run |
| Links.StepStatus | app/services/checkout_session.py:97-146 | in any step a session is completed exactly by a delivery that pays for it, expires exactly when open and viewed after its time, and otherwise stays |
| Links.RunStatus | app/services/checkout_session.py:97-146 | after any run a session is completed if and only if it was or something paid for it, and open if and only if it was, nothing paid for it and nobody viewed it too late |
| Links.NewLinkLivesADay | app/models/checkout_session.py:24-29 | after any run an answered view shows a new link open if and only if nothing has paid for it and no view came more than 24 hours after its creation |
| Lifecycle.SessionsAgreeWithIntents | app/services/checkout_session.py:127-146 | in every durable state a completed session's intent has succeeded, the terms agree, and an intent has one session |
| Lifecycle.ReplayedKey | app/services/payment.py:62-75 | a used key answers with its row or a conflict, whatever Stripe would say, and changes nothing |
| Lifecycle.CreateIsIdempotent | app/services/payment.py:62-75 | after an answered create and any run, the same key gets the same row on the same terms and a conflict on others, and nothing changes |
| Lifecycle.CreateSessionIsIdempotent | app/services/checkout_session.py:67-94 | after an answered session request and any run, the same request gets the same session and changes nothing |
| Ownership.AnswerIsOwnUnlessKeyIsUsed | app/services/payment.py:62-97 | an answered create returns an intent of the caller if and only if no row of anybody else has the key |
| Ownership.StepKeepsOwners | app/services/checkout_session.py:67-92 | a step keeps that sessions belong to the merchants of their intents, if and only if it does not open one under a key whose row is not the caller's |
| Ownership.SessionsOwnedIffNoneForeign | app/services/checkout_session.py:67-92 | the same over whole runs |
| Lifecycle.DeadAttemptsAreRepaired | app/services/checkout_session.py:67-94 | after a session request that got as far as its intent, died or not, and any run, a retry at any time with any reply is answered with the one session of the intent, leaves intents and ledger alone, and adds the session if and only if there is none |
| Lifecycle.FailuresLeaveNoTrace | app/core/db.py:35-42 | a request that is rejected or dies changes nothing, except a session request dying between its commits and a webhook failing after its own |
| Lifecycle.StampsFollowRows | app/models/payment_intent.py:83-91 | `updated_at` moves exactly with the row, `created_at` never |
| Balances.GetBalancesByCurrency | app/services/ledger.py:112-153 | for each currency and account of the view that occurs, and for no other, the signed sum of its entries |
| Views.ViewMembers | app/services/ledger.py:137-143 | a row is in a merchant's view if and only if it is on the ledger and names an intent of that merchant; the view keeps the order; the global view is the ledger |
| Views.StepView | app/services/ledger.py:137-143 | a request adds to every merchant's view exactly those of its new rows that are for the merchant's intents, and changes nothing else in it |
| Views.PairShowsInView | app/services/ledger.py:137-143 | two rows booked for an intent appear in its merchant's view, both of them, and in no other |
| Views.BalanceIsPositions | app/services/ledger.py:78-153 | a balance, of all books or one merchant's, is the sum of the positions of the intents in the view and the currency |
| Views.CapturedBalance | app/services/payment.py:241-342 | in every reachable state the captured balance, of all books or one merchant's, is what the intents in that currency have received and not refunded |
| Balances.GroupedRefinesDirect | app/services/ledger.py:78-97 | the grouped balance, zero where absent, is the direct one |
| Balances.ViewsAddUp | app/services/ledger.py:137-143 | the merchants' views and the entries without a merchant add up to the global balance |
| Balances.AccountsAddUp | app/api/dashboard.py:45 | the accounts of a currency add up to everything the view has in it |
| Balances.MerchantViewIsZeroSum | app/services/ledger.py:137-143 | every merchant's view nets to zero per currency on any recorded ledger |
| Balances.ResponseLines | app/api/dashboard.py:42-52 | the response has each currency of the view once, ascending, with the sum of its accounts and every account once, ascending, with its balance |
| Balances.DashboardNetIsZero | app/api/dashboard.py:27-53 | in every reachable state every `net` of every merchant is zero, and the lines are complete and in order |
| Balances.OtherMerchantsSeeNothing | app/services/ledger.py:137-143 | a request on one merchant's intent leaves every other merchant's view exactly as it was |
| Ordering.Sorted | app/workers/reconciliation.py:95 | the elements of a set, each once, strictly ascending |
| Ordering.LessMeans | app/workers/reconciliation.py:95 | a text is before another if and only if they agree up to where it ends or has the smaller character |
| Ordering.SumOfGroups | app/workers/reconciliation.py:63-71 | the group sums add up to the sum of everything that has a group |
| Paging.WalkCursor | app/services/stripe_client.py:129-147 | following the cursor ends and collects every selected item once, in order, for any page sizes |
| Paging.PageContinues | app/services/stripe_client.py:131-138 | a page continues what has been seen, and its last item's id is a cursor to the rest |
| Paging.ListBalanceTransactions | app/services/stripe_client.py:105-149 | the listing is the whole window, or type after type what the window has of it |
| Paging.ListingByType | app/services/stripe_client.py:126-147 | the listing of several types is theirs one after another, of one type the window's items of that type in order, of none the whole window |
| Paging.ListingHasEachOnce | app/services/stripe_client.py:126-139 | with distinct types each matching item is listed exactly once |
| Reconciliation.NetByIntent | app/workers/reconciliation.py:63-69 | the accumulating loop computes the group sums per intent |
| Reconciliation.Compare | app/workers/reconciliation.py:94-123 | the classifying loop computes the mismatch list of the ids |
| Reconciliation.IntentBySource | app/workers/reconciliation.py:32-42 | the intent of a transaction for each shape of its source |
| Days.OnThatDay | app/workers/reconciliation.py:53-54 | a moment lies in the window of a date if and only if it lies on that UTC day |
| Days.ReportOfDay | app/workers/reconciliation.py:56-123 | the report of a date totals the charges and refunds made that day and the succeeded rows updated that day, and names an intent if and only if the two differ on it |
| Days.ReconcileDay | app/workers/reconciliation.py:45-147 | adds one row for the date to the earlier ones: the report of that day and the number of its mismatches |
| Reconciliation.ReportConserves | app/workers/reconciliation.py:71-123 | the two totals differ by exactly the signed sum of the mismatches |
| Reconciliation.StripeTotalCountsEverything | app/workers/reconciliation.py:63-71 | Stripe's total is the sum over every transaction that names an intent |
| Reconciliation.ReportIsExact | app/workers/reconciliation.py:94-123 | every mismatch is truthful, every difference has one, and ids are strictly ascending |
| Reconciliation.ReportNames | app/workers/reconciliation.py:94-123 | the report names an intent if and only if the two sides differ on it |
| Reconciliation.CleanReport | app/workers/reconciliation.py:94-123 | the report is empty if and only if the two net maps are equal, and then the totals are |
| Reconciliation.ReportIgnoresOrder | app/workers/reconciliation.py:63-95 | the report depends on the multiset of transactions only |
| Reconciliation.ReconcileRecent | app/workers/reconciliation.py:159-196 | on any books the drift lists exactly the recent intents whose ledger position differs from the row, each once, with both figures, and counts the recent ones |
| Reconciliation.SelfCheckIsSilent | app/workers/reconciliation.py:170-196 | in every reachable state no intent drifts |
| StripePeer.CreateRetriesConverge | app/services/payment.py:77-121 | any number of creates that died after Stripe's answer and then a retry leave both sides as one create does |
| StripePeer.RefundRetriesConverge | app/services/payment.py:311-344 | the same for refunds |
| StripePeer.AnswersAreKept | app/services/stripe_client.py:22-40 | whatever both sides do, a key stands for the Stripe object it first made |
| StripePeer.LateCreateRetry | app/services/payment.py:62-121 | a create to which Stripe made an object, retried after any run, makes no second one; it stores the row of the first with its booking if and only if neither the key nor the Stripe id has a row by then, and otherwise nothing changes |
| StripePeer.RefundUnderKnownKey | app/services/payment.py:299-344 | a refund under a key Stripe has on record moves nothing at Stripe and books what was paid if and only if the checks pass and the amounts agree; otherwise nothing changes |
| StripePeer.LateRefundRetry | app/services/payment.py:282-344 | a refund key used again after any run, with any amount, whether its first use died or was booked: Stripe pays nothing again, and the gateway books the refund if and only if the checks pass and the amounts agree |
| StripePeer.RefundReplayBooksAgain | app/services/payment.py:299-342 | the key of a booked refund, used again after any run, books it again if and only if as much is still refundable, without an amount if precisely as much is |
| StripePeer.PlayIsRun | app/services/payment.py:49-346 | against Stripe the gateway makes a run of its own actions, so every result about runs applies |
| StripePeer.PlayAdvances | app/services/payment.py:238-321 | whatever both sides do, an intent only advances |
| StripePeer.RefundMovesBothSides | app/services/payment.py:311-342 | an accepted refund under a new key is one refund at Stripe and one here, of the same amount |
| EndToEnd.MoveInv | app/services/payment.py:223-346 | every allowed move keeps both sides in agreement |
| EndToEnd.PlayInv | app/services/payment.py:223-346 | every allowed run does |
| EndToEnd.StripeSideOfDay | app/workers/reconciliation.py:57-71 | what the worker reads off Stripe's pages is what Stripe has taken net, per intent |
| EndToEnd.InternalSideOfDay | app/workers/reconciliation.py:73-91 | what it reads off the rows is received minus refunded of exactly the succeeded intents |
| EndToEnd.SameMeansSettled | app/workers/reconciliation.py:95-114 | the two sides of an intent are the same if and only if it is settled or neither side knows of a payment |
| EndToEnd.StripeSideOfWindow | app/workers/reconciliation.py:57-71 | for any window it is the charges and refunds made within it, per intent |
| EndToEnd.InternalSideOfWindow | app/workers/reconciliation.py:73-91 | for any window it is received minus refunded of exactly the succeeded intents updated within it |
| EndToEnd.NetOfRow | app/services/payment.py:241-342 | a charged row's net amount is what moved within a window, plus what moved outside, plus the refunds not booked, less what was not captured |
| EndToEnd.WindowReports | app/workers/reconciliation.py:45-147 | after any allowed run, reconciling any window names an intent if and only if it moved there without being updated there or the reverse, or its movements elsewhere and the refunds not booked do not make up for what was not captured |
| EndToEnd.SettledPaymentIsReported | app/workers/reconciliation.py:57-91 | a settled payment is reported for a window if and only if it moved there and was not updated there, or the reverse, or both and what moved outside does not come to nothing |
| Midnight.SettledYetReported | app/workers/reconciliation.py:73-91 | a concrete run over two UTC days: settled, clean over both days together, and reported on the second |
| Midnight.ReconcileSecondDay | app/workers/reconciliation.py:45-147 | through the worker: the run filed under date 1 has totals -4 and 6 and names the payment |
| EndToEnd.ReconciliationIsCleanIffSettled | app/workers/reconciliation.py:45-147 | after any allowed run, reconciling its span, the report is empty if and only if every charge is settled by a succeeded row and nothing has succeeded without a charge, and then the totals are equal |
| EndToEnd.CleanMeansCapturedAndBalanced | app/workers/reconciliation.py:45-147 | where SUCCEEDED means captured, the report is empty if and only if every charge is captured and its refunds are booked on balance, one booked twice making up for one not booked |
| CatchUp.CleanMeansCapturedAndBooked | app/workers/reconciliation.py:45-147 | if moreover nothing is booked twice, the report is empty if and only if every charge is captured and every refund is booked, once |
| CatchUp.ReceivedIffCaptured | app/api/webhooks.py:63-114 | after any allowed run an intent has received money if and only if a delivery of the run captured it: one that got through, of a new success, when the row existed and had not succeeded |
| CatchUp.DeliveringEverythingSettles | app/workers/reconciliation.py:45-147 | when no reply of `succeeded` reached a row and every refund is booked once, the report is empty if and only if every charge was captured by a delivery of the run |
| CatchUp.RefundCanBeBooked | app/services/payment.py:299-344 | in every state of every run, a refund Stripe has made, asked for again with its key and amount, is booked exactly when the captured row has as much left, which it has unless something was booked twice |
| CatchUp.RefundsCanCatchUp | app/services/payment.py:267-346 | however many refunds died, retries alone book every one of them once, and Stripe moves nothing |
| CatchUp.RetriesSettleTheDay | app/workers/reconciliation.py:45-147 | from any state of any run with its charges captured and nothing booked twice, retries alone lead to an empty report |
| EndToEnd.RefundTotalsAgree | app/services/payment.py:311-344 | local and Stripe refund totals differ by exactly the refunds not booked, less those booked more than once |
| ApiKeys.AcceptedMeans | app/services/api_key.py:114-161 | a key is accepted for a merchant if and only if it was issued to it, is not revoked, and the merchant is active |
| ApiKeys.RefusedMeans | app/services/api_key.py:125-157 | each refusal if and only if its reason: nothing presented, not of the shape of a key, not issued, revoked, or its merchant not active |
| ApiKeys.PrefixMeans | app/services/api_key.py:43-54 | the prefix is the eight characters behind `gw_live_`, and exists if and only if there are eight |
| ApiKeys.GeneratedMeans | app/services/api_key.py:33-36 | a generated key is `gw_live_` and 64 characters |
| ApiKeys.ActionMeans | app/services/api_key.py:60-108 | issuing appends one key; revoking marks the key if it is the owner's, and changes no other |
| ApiKeys.RevokedForEver | app/services/api_key.py:87-108 | a revoked key is refused as revoked after any run of issues and revocations |
| ApiKeys.KeyStore.CreateApiKey | app/services/api_key.py:60-84 | a fresh key is appended to the keys issued, and the store keeps matching them |
| ApiKeys.KeyStore.RevokeApiKey | app/services/api_key.py:87-108 | the key is revoked if it is the merchant's, and otherwise nothing happens |
| ApiKeys.KeyStore.MatchHash | app/services/api_key.py:142-148 | the loop finds a candidate with the hash if and only if there is one |
| ApiKeys.KeyStore.VerifyApiKey | app/services/api_key.py:114-161 | through prefix and hash it answers what a full scan of the keys answers, and marks as used the accepted key alone |

## Left out

- Interleaved handlers: there are no row locks around a read, the Stripe call and the write
  (app/services/payment.py:282-321), so requests are serialised here.
- HTTP routing, request validation, error rendering, HTML pages and Stripe.js.
- Stripe's SDK, signature verification and thread offloading; Stripe appears as arbitrary replies, an
  idempotency map and a paged list.
- Stripe's own state machine for confirmations and cancellations: their replies stay arbitrary throughout.
- SHA-256, constant-time comparison and randomness: an injective hash and fresh keys stand for them.
- Clocks, time zones and uuids; non-ASCII lower-casing.
- Columns that are only carried along: descriptions, client secrets, metadata, success URLs, the text of
  `processing_error`.
- Column widths: a write that the database refuses rolls back like a request that dies before its commit.
- Foreign-key checks on merchants.
- `list_transactions`: it orders by `created_at` without a tie-break, so the code does not determine its pages.
- Ids and creation times of `ReconciliationRun` rows, logging, `run_forever`, migrations, settings, merchant
  onboarding.
- ReconcileDay: pages are assumed unchanged while they are walked, and a page that has a successor is assumed
  not to be empty; otherwise the original's `page.data[-1]` raises.
- GetBalancesByCurrency: the order of the keys in the dictionary is not modelled; the rows are read in an
  arbitrary order, which gives the same dictionary.
- The description and metadata that Stripe also compares when an idempotency key is used again: a retried create
  is taken to repeat them.
- Numbers of an event that are neither integers nor null, and an `id` that is null: Stripe sends neither.
