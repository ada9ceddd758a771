# Commerce backend: verified models of its protocols

The backend sells through chat. Customers talk to an assistant, a confirmed turn
becomes an order, payments and vendors move the order on, and background workers
react to it. This project models the parts of that machinery whose correctness
depends on more than one function, and proves what they keep on every run.

Database rows, Redis keys and queues are explicit state. A transaction, or a
section under a lock, is one atomic step, and steps interleave freely, fail,
crash before their commit and are delivered again. Where the Go code changes
things step by step, a class or a method with loops carries the code's own
control flow and is proved against a function of the old state; lemmas about
that function, and about runs of many steps, carry the promises.

| module | models |
|---|---|
| `Common` | an option type, finite sums |
| `Conversations` | the conversation state machine and its compare-and-set moves |
| `Commerce` | orders, stock, outbox events, consumers: one world, one step per transaction |
| `StockLaw` | conservation of stock over runs, and exactly when it fails |
| `Effects` | exactly-once effects from at-least-once delivery |
| `ProfileRace` | overlapping statistics transactions of one customer |
| `OrderSlot` | one open order per conversation |
| `Shop` | the checkout, payment, restock and statistics workers as methods on rows |
| `Dispatcher` | the transactional outbox: status, attempts, partial fan-out, lost commits |
| `Throttle` | the counter with decay timers, blocks and generations |
| `Debounce` | the debounced orchestrator: lost-wakeup freedom |
| `Outbound` | ordered delivery under a per-conversation lock |
| `Payouts` | payout reservation, money conversion, transfers |
| `ImagePositions` | product image positions under a per-row unique index |
| `FollowUps` | reminders, their sweep and the order expiry |
| `Expiry` | what can still happen to a reminder and its order |
| `Otp` | one-time codes with attempt counter and time to live |
| `History` | newest-per-side truncation, merge, session pruning |
| `Parity` | recursive JSON diff and pair-aware pruning |
| `Profiler` | frame and stack interning |
| `Amounts` | price formatting |

Steps are the unit of interleaving: a claim such as "on every run" quantifies over
every finite sequence of steps, with every choice of failures.

## Where the code does not keep a promise

Each item names what fails, by a run, a state or the failing half of an equivalence,
and the lemma that says exactly when the promise holds or when it can still fail.

- The combined quantity of a product is converted to `int32` before the
  decrement (`internal/workers/checkout.go:188-190`). Four lines of 2^30 create an
  order from an empty shelf (`StockLaw.OverflowOversells`); with positive quantities
  conservation holds exactly when no such conversion overflows
  (`StockLaw.ConservedExactlyWhenNoOverflow`).
- A negative quantity, which only the assistant's output could contain, passes the
  availability test and later drives stock below zero
  (`StockLaw.NegativeQuantityOversells`). Stock stays non-negative along a run
  exactly when no restock of the run adds a negative quantity larger than what is
  left (`StockLaw.NeverNegativeExactly`).
- Settling a payment marks the order PAID whatever its status
  (`internal/workers/payment_events.go:378-382`). Paying an order that was already
  cancelled frees the slot of the order that replaced it
  (`OrderSlot.LatePaymentOpensSecondSlot`; exact condition in
  `OrderSlot.SettleKeepsSlotExactly`).
- A statistics transaction reads the profile and later writes absolute numbers
  (`internal/workers/profile_stats.go:67-97`). When two of one customer overlap, the
  second commit overwrites the first (`ProfileRace.OverlapLosesAnOrder`); the counters
  stay right exactly on the runs in which no transaction commits with another commit
  between its read and its own (`ProfileRace.CountersAgreeExactly`).
- The re-check at the end of a pass and the completion of its task are two moments,
  always. A message whose job publishes between them is lost, without any failure
  (`Debounce.SplitRecheckLosesWakeup`). A failing pass is discarded without a
  re-check (`internal/workers/orchestrator.go:137-147`), the re-check swallows its own
  errors (`internal/workers/orchestrator.go:177-206`), and a webhook job ends after two
  retries (`internal/queue/server.go:49`). `Debounce.StepExactly` says which steps lose
  a message: an enqueue that finds its id taken, a job's last failure, a failing pass or
  a failing re-check, each only when no other task has still to look and no other job
  owes the message; `Debounce.NoLostWakeupExactly` lifts it to runs.
- A delivery pass whose connection breaks loses the conversation's lock and still
  goes on sending (`internal/outbound/outbound.go:108-143`): rows another task has
  sent and recorded go out again (`Outbound.OrphanedPassResends`). A row recorded
  sent can go out again exactly while a pass that has lost its lock still lists it
  (`Outbound.ResentLaterExactly`).
- A row that commits after a newer one was sent, or while a pass that lists a newer
  one has the lock, arrives out of order on some run without any failure; in every
  other state it cannot (`Outbound.LateCommitExactly`).
- When the provider has moved the money and the completing write fails, or the
  transfer call returns an error although the money moved, the handler marks the
  payout FAILED and its amount becomes available again
  (`internal/handlers/payouts_write.go:109-128`): the same balance can be paid out
  twice (`Payouts.LostWritePaysTwice`). From any ledger, requests that lose nothing
  more can overdraw exactly when more was lost than reservations abandoned for good
  hold back (`Payouts.OverdraftPossibleExactly`).
- The set of images a reorder is checked against is read before its transaction,
  and the count an upload reads is a snapshot: a deletion in between leaves a gap
  (`ImagePositions.ReorderAcrossRemovalLeavesGap`,
  `ImagePositions.UploadAcrossRemovalLeavesGap`; exact conditions in
  `ImagePositions.StaleReorderExactly`, `ImagePositions.StaleUploadExactly`).
- A follow-up sweep whose commit fails has already enqueued: the next sweep
  enqueues the same reminder again (`FollowUps.FailedCommitEnqueuesAgain`). Later
  sweeps repeat a hand-over exactly when the rolled-back sweep had made one
  (`Expiry.RollbackRepeatsExactly`).
- The three reminders of an order are inserted by two statements without a
  transaction. A crash between them (`FollowUps.CrashHalfSchedules`) leaves an order
  that never expires, because redelivery finds rows and skips
  (`FollowUps.HalfScheduledNeverExpires`); `Expiry.CanExpireExactly` says which
  orders still can.
- The throttler reads the clock before it takes the mutex
  (`internal/httpx/throttle.go:119-121`). A request that is refused with a stale reading
  ends its block too early, and limit + 1 requests are admitted within one window while
  every timer is on time (`Throttle.StaleReadingBreaksTheWindow`). Decay timers a
  whole window late let limit + 1 requests through in one instant
  (`Throttle.LateTimersBreakTheWindow`). The limit holds in every window of every run
  exactly when timers are always less than one window late and no reading is ever stale
  (`Throttle.WindowExactly`); with readings up to `skew` old, and timers that
  much more punctual, it holds exactly for intervals shorter by `skew`
  (`Throttle.IntervalExactly`). Both runs exist for every
  limit and window.
- A verification that straddles the expiry of its code compares it a sixth time
  (`Otp.StraddlingCallComparesASixthTime`; `Otp.SixthCompareExactly` and
  `Otp.DecideExactly` say when), and two overlapping ones are both accepted
  (`Otp.OverlappingCallsAcceptTwice`; `Otp.SecondAcceptanceExactly` says which).
- A negative zero spelled with two or more integer digits keeps its sign in
  the formatted amount (`Amounts.NegativeZeroExactly`).
- The comment at `internal/workers/checkout.go:101-102` says a missing business row
  falls back to the default currency, and it does; a business row with an empty
  currency silently drops the order instead
  (`internal/workers/checkout.go:105-112`, `Commerce.CurrencyDropsExactly`).

## Model

| member | source | states |
|---|---|---|
| Conversations.IntentMovesAreLegalAndAvoidInvoicing | internal/workers/orchestrator.go:904-937 | every move an intent asks for is in the transition table, and none enters or leaves INVOICING |
| Conversations.ConverseKeepsInvoicing | internal/domain/state.go:121-134 | a turn, however stale the state it read, never changes which conversations are INVOICING |
| Conversations.TurnMovesExactly | internal/workers/orchestrator.go:904-937 | which state a turn leaves its conversation in, for every intent and every state read, and that it touches no other conversation |
| Conversations.LegalMovesExactly | internal/domain/state.go:42-51 | the transition table read by target: from which states each state may be entered |
| Conversations.InvoicesAreSeparated | internal/domain/state.go:42-51 | on any legal path a conversation that is INVOICING twice leaves the first invoice for PAID, CANCELLED or SUPPORT in between |
| Commerce.ToInt32 | internal/workers/checkout.go:188-190 | two's-complement conversion: in range, congruent modulo 2^32, the identity exactly on 32-bit values |
| Commerce.CurrencyDropsExactly | internal/workers/checkout.go:101-112 | an order is dropped for its currency if and only if the business row exists with an empty one; a missing row behaves like any currency |
| StockLaw.StepKeepsAccount | internal/workers/restock.go:42-64 | every transaction of the shop preserves, per product, stock plus what orders have taken |
| StockLaw.RunKeepsAccount | internal/workers/checkout.go:124-201 | the same account over whole runs with any interleaving and redelivery |
| StockLaw.StockLaw | internal/workers/checkout.go:179-201 | stock plus the quantities of unrestored orders equals initial stock plus the 32-bit truncation drift, on every run |
| StockLaw.StockNeverNegative | internal/workers/checkout.go:195-201 | with positive quantities no product's stock is ever negative |
| StockLaw.BelowZeroExactly | internal/workers/restock.go:53-62 | non-negative stock goes below zero in one step if and only if the step delivers a committing restock of a negative quantity larger than what is left |
| StockLaw.NeverNegativeExactly | internal/workers/checkout.go:195-201 | for arbitrary quantities, stock is non-negative after every prefix of a run if and only if the run delivers no such restock |
| StockLaw.RestockUndoesCheckout | internal/workers/restock.go:53-62 | checkout, cancellation and restock bring a product back to where it was if and only if the order's combined quantity fits 32 bits |
| StockLaw.ConservedExactlyWhenNoOverflow | internal/workers/checkout.go:188-190 | with positive quantities, stock is conserved if and only if every order's combined quantity fits 32 bits |
| StockLaw.OverflowOversells | internal/workers/checkout.go:180-195 | a run in which an order of 2^32 pieces is created from an empty shelf |
| StockLaw.NegativeQuantityOversells | internal/workers/checkout.go:306-309 | a run with a negative quantity that ends with negative stock |
| Effects.InsertCounts | internal/events/events.go:63-85 | inserting an event makes its key occur exactly once and leaves every other key alone |
| Effects.OneOrderPerMessage | internal/workers/checkout.go:124-160 | on every run two orders with the same non-empty message are the same order |
| Effects.RedeliveryChangesNothing | internal/workers/checkout.go:233-241 | once a message has an order, redelivering its job changes no row in any later state, whatever became of the order |
| Effects.DuplicateExactly | internal/workers/checkout.go:233-241 | a job whose message some order carries changes nothing; one whose message no order carries, or without a message, is never answered as a duplicate |
| Effects.CreatesExactly | internal/workers/checkout.go:75-201 | an order is created if and only if every single guard holds: lines, currency, one of four conversation states, an unused message, and for each product enough stock within 32 bits |
| Effects.StockRejectsExactly | internal/workers/checkout.go:179-201 | past the other guards a job fails with an error if and only if a decrement leaves 32 bits, and is rejected if and only if none does and a product is missing or short |
| Effects.CreatedOrder | internal/workers/checkout.go:137-219 | the created order carries the job's data, its conversation is INVOICING and exactly its event is added |
| Effects.EffectsHappen | internal/workers/restock.go:41-64 | publishing and delivering an event's task records its order, and restocks a cancelled one exactly when the sums fit 32 bits or it was restocked before |
| Effects.RunExact | internal/workers/checkout.go:203-219 | on every run, statistics transactions applied one after the other, each order has exactly one order.created and at most one order.cancelled event, restocked orders have a cancelled event, and profile counters equal the count and sum over that customer's recorded orders |
| Effects.CancelledEventExactly | internal/workers/payment_events.go:389-420 | on every run an order has an order.cancelled event if and only if some step cancelled that order while it was open |
| Effects.RestoredOnlyIfCancelled | internal/workers/restock.go:41-51 | stock is put back only for an order that cancelOrder cancelled |
| Effects.MarkersStick | internal/workers/profile_stats.go:54-64 | claim markers and order lines survive every step |
| Effects.RestoredAtMostOnce | internal/workers/restock.go:43-51 | at most one step of a run restores a given order, however often its task is delivered |
| Effects.RestoreIsExact | internal/workers/restock.go:53-62 | a restoring delivery adds exactly the order's combined quantity of each product, any other delivery adds nothing |
| Effects.StatsCounters | internal/workers/profile_stats.go:66-105 | recording statistics in one undisturbed transaction keeps every profile equal to the count and sum over recorded orders |
| ProfileRace.CommitExactly | internal/workers/profile_stats.go:67-97 | a step of overlapping transactions keeps the counters equal to the count and sum over recorded orders if and only if it is not a commit with another commit since its read |
| ProfileRace.CountersAgreeExactly | internal/workers/profile_stats.go:54-106 | they stay equal all along a run if and only if no transaction of the run commits with another commit between its read and its own |
| ProfileRace.RecordedOncePerOrder | internal/workers/profile_stats.go:54-64 | however transactions overlap, each order is recorded at most once, and once its marker is committed nothing records it again |
| ProfileRace.OverlapLosesAnOrder | internal/workers/profile_stats.go:67-97 | for any two orders of a customer, a run that marks both as recorded and counts only the second |
| OrderSlot.CheckoutSlot | internal/workers/checkout.go:124-135 | checkout takes the slot only when no other order of the conversation holds it |
| OrderSlot.CancelSlot | internal/workers/payment_events.go:389-420 | cancellation releases exactly the slot of the cancelled order |
| OrderSlot.FinishPaidSlot | internal/workers/payment_events.go:424-442 | moving the conversation after a payment releases the paid order's slot and no other |
| OrderSlot.RunOneOpenOrder | internal/domain/state.go:93-119 | on runs without vendor overrides, where payments settle orders that hold their slot, a conversation has at most one order awaiting payment and is INVOICING while it has one, even with stale reads and a two-step settlement |
| OrderSlot.SettleKeepsSlotExactly | internal/workers/payment_events.go:374-384 | settling an arbitrary order keeps the slot invariant if and only if the order holds the slot or its conversation is not invoiced |
| OrderSlot.LatePaymentOpensSecondSlot | internal/workers/payment_events.go:378-383 | a run without overrides that ends with two orders awaiting payment in one conversation |
| Shop.ResolvedLines | internal/workers/checkout.go:282-318 | resolved lines are catalogue products in non-zero quantities, positive when the request was not negative |
| Shop.ResolvedExactly | internal/workers/checkout.go:282-318 | exactly the lines that name a catalogue product by eight lower-case hexadecimal digits resolve, each once and in order, with that product's price and the quantity asked for or one |
| Shop.ResolveProducts | internal/workers/checkout.go:282-318 | the loop drops invalid and unknown ids, keeps order, turns quantity zero into one |
| Shop.TotalAmount | internal/workers/checkout.go:96-99 | the accumulated total is the sum of price times quantity over the lines |
| Shop.TotalByProduct | internal/workers/checkout.go:96-99 | when every product has one price, the total is price times combined quantity summed over the products |
| Shop.Aggregate | internal/workers/checkout.go:180-190 | one entry per mentioned product, no others, each with the truncated combined quantity |
| Shop.DecrementStockIfAvailable | internal/db/queries/workers.sql:66-76 | lowers exactly the listed products that hold enough, leaves the rest, and the row count equals the list length exactly when all of them do |
| Shop.DecrementItems | internal/workers/checkout.go:179-201 | the aggregated form agrees with affordability and decrement stated on the order lines |
| Shop.EntriesAreItems | internal/workers/checkout.go:180-199 | the aggregated entries are affordable if and only if every ordered product is |
| Shop.DecrementIsSpec | internal/db/queries/workers.sql:66-76 | lowering the entries gives the stock the order lines call for |
| Shop.ShopRows.HandleCheckout | internal/workers/checkout.go:75-255 | the imperative checkout refines the atomic step: each rejection leaves every row unchanged, success changes exactly conversation, order, stock and event |
| Shop.ShopRows.CancelOrder | internal/workers/payment_events.go:389-420 | refines cancellation: no change unless open, else order, conversation and event together |
| Shop.ShopRows.SettleReconciledOrder | internal/workers/payment_events.go:374-384 | a failed payment cancels, anything else marks PAID and then moves the conversation |
| Shop.ShopRows.Restock | internal/workers/restock.go:41-64 | refines claim-then-restore with rollback on an out-of-range sum |
| Shop.ShopRows.RecordStats | internal/workers/profile_stats.go:47-106 | refines claim-then-count, counting nothing when the profile is missing |
| Dispatcher.Selected | internal/events/dispatcher.go:108-149 | pending events in order; one left out is newer than all selected and the batch is then full; empty only when none is pending |
| Dispatcher.SelectedExactly | internal/events/dispatcher.go:108-149 | an event is selected if and only if it is pending and fewer pending ones than the batch holds are older |
| Dispatcher.DrainHandsExactly | internal/events/dispatcher.go:156-222 | a drain, however it ends, puts on the queue exactly the leading subscriptions the queue accepts of each selected event, or of the first few when it aborts |
| Dispatcher.DrainExactly | internal/events/dispatcher.go:156-200 | a committed drain makes a selected event PUBLISHED, attempts unchanged, if and only if the queue accepted all its subscriptions in that drain; otherwise it spends one attempt and is DEAD exactly at the maximum; all other rows, and all rows of a drain that does not commit, are unchanged |
| Dispatcher.AcceptedNeverAgain | internal/events/dispatcher.go:184-187 | an event fully accepted in a committed drain is PUBLISHED and never handed over again on any run |
| Dispatcher.FinishedNeverAgain | internal/events/dispatcher.go:108-149 | no event that is PUBLISHED or DEAD is handed over again on any run |
| Dispatcher.PublishAllRows | internal/events/dispatcher.go:156-200 | a pass changes exactly the selected rows and adds exactly the accepted subscriptions to the queue |
| Dispatcher.DrainKeepsInv | internal/events/dispatcher.go:108-200 | a drain keeps the outbox invariant whether it commits, fails to commit or aborts midway |
| Dispatcher.RunInv | internal/events/dispatcher.go:108-222 | on every run PUBLISHED implies every subscriber was enqueued, PENDING implies attempts are left, DEAD means none are |
| Dispatcher.StepIsMonotone | internal/events/dispatcher.go:156-194 | PUBLISHED and DEAD rows never change, attempts never shrink, the queue forgets nothing |
| Dispatcher.FinalOnRun | internal/events/dispatcher.go:156-194 | PUBLISHED and DEAD are final over whole runs |
| Dispatcher.DrainSpends | internal/events/dispatcher.go:156-200 | a committed drain spends at least one remaining attempt per selected event |
| Dispatcher.DrainsFinish | internal/events/dispatcher.go:108-200 | without new events, as many committed drains as there are remaining attempts leave no event pending |
| Dispatcher.NothingLeft | internal/events/dispatcher.go:157-193 | remaining attempts are zero if and only if no event is pending |
| Dispatcher.EventStore.Publish | internal/events/dispatcher.go:204-222 | enqueues subscriptions in order up to the first refusal and succeeds only if none refused |
| Dispatcher.EventStore.DrainOnce | internal/events/dispatcher.go:108-200 | the imperative drain refines the atomic one, and counts exactly the events whose subscribers were all reached |
| Throttle.SecondsUntil | internal/httpx/throttle.go:183-188 | zero exactly when the instant has passed, otherwise the least whole number of seconds that covers the wait |
| Throttle.StepKeepsInv | internal/httpx/throttle.go:118-181 | every request, with its clock reading and its lock acquisition apart, and every timer keeps the refinement to the sliding-window log |
| Throttle.HitsArePendingTimers | internal/httpx/throttle.go:136-139 | while lateness and staleness together stay within a window the counter equals the pending timers of the current generation, and a missing record has no pending timer |
| Throttle.WindowNeverExceeded | internal/httpx/throttle.go:118-160 | under the same condition no half-open interval of one window less the staleness holds more than limit admissions, across blocks, resets and re-creation |
| Throttle.RefusalIsEarned | internal/httpx/throttle.go:141-144 | an unblocked key is refused only if limit requests were admitted within the last window plus the timers' lateness |
| Throttle.BlockLastsExactly | internal/httpx/throttle.go:141-157 | until a block ends every request is refused and admits nothing, whatever timers run meanwhile; the first request read at its end or later is admitted |
| Throttle.BlocksForAWindow | internal/httpx/throttle.go:141-144 | a refusal blocks its key for exactly one window from its reading, and a refused request of a blocked key does not prolong it |
| Throttle.ReplyTells | internal/httpx/throttle.go:92-107 | the reply holds the hits, the least number of seconds that covers the rest of the window, and for a refused request the least number that covers the rest of its block |
| Throttle.DecayExactly | internal/httpx/throttle.go:166-181 | a timer takes one hit off its own generation and drops the record exactly when no hit and no running block is left |
| Throttle.RecordsCount | internal/httpx/throttle.go:163-181 | on every run an unblocked key has a record only while it counts a hit |
| Throttle.LateTimersBreakTheWindow | internal/httpx/throttle.go:166-181 | for every limit, window and larger lateness, a run that admits more than limit requests in one window |
| Throttle.StaleReadingBreaksTheWindow | internal/httpx/throttle.go:118-160 | for every limit, window and staleness up to a window, a run with every timer on time that admits more than limit requests between the first lock and one window after the stale reading |
| Throttle.WindowExactly | internal/httpx/throttle.go:118-181 | the limit holds in every window of every run if and only if timers are always less than one window late and no clock reading is stale when the lock is taken |
| Throttle.IntervalExactly | internal/httpx/throttle.go:118-181 | with lateness and staleness together within a window, the limit holds in every interval of a given length if and only if the length is at most the window less the staleness |
| Throttle.Throttler.Hit | internal/httpx/throttle.go:118-160 | refines the counter step for its key, record fields from the clock reading and timers from the lock's instant, and leaves every other key alone |
| Throttle.Throttler.FireTimer | internal/httpx/throttle.go:166-181 | refines the decay step: stale generations do nothing, drained unblocked records are deleted |
| Throttle.Throttler.ScheduleDecay | internal/httpx/throttle.go:166-168 | adds exactly one timer, one window out, to its key |
| Debounce.CoverageIs | internal/workers/orchestrator.go:113-206 | every message is covered if and only if some task has still to make its re-check or every uncounted message is owed by a job |
| Debounce.PublishExactly | internal/workers/orchestrator.go:113-123 | an enqueue keeps every message covered if and only if its id is free, another task has still to look, or other jobs owe every uncounted message |
| Debounce.RecheckKeeps | internal/workers/orchestrator.go:177-206 | neither the count-based re-check, whose fresh id cannot collide with a task in the queue, nor the later completion loses a message |
| Debounce.CrashExactly | internal/workers/webhook.go:148-161 | a failing webhook attempt keeps every message covered if and only if a retry is left or the job is not needed |
| Debounce.FailExactly | internal/workers/orchestrator.go:137-147 | discarding a failed pass keeps every message covered if and only if another task has still to look or every uncounted message is owed |
| Debounce.OverlookExactly | internal/workers/orchestrator.go:148-206 | the same condition for a re-check whose count or enqueue fails and is swallowed |
| Debounce.StepExactly | internal/workers/orchestrator.go:128-206 | any step of the pipeline keeps every message covered if and only if it is safe in the sense of these rows |
| Debounce.NoLostWakeupExactly | internal/workers/orchestrator.go:128-206 | on all runs, re-check and completion apart, failures included: every persisted message is covered all along the run if and only if each step of the run was safe |
| Debounce.QuietMeansSeen | internal/workers/webhook.go:131-160 | on any run, once the queue is empty and no webhook job is left to publish, all messages are covered if and only if the passes have counted every persisted message |
| Debounce.SplitRecheckLosesWakeup | internal/workers/orchestrator.go:153-206 | a run without failures in which a message published between re-check and completion is never looked at |
| Debounce.DuplicateNeverWakes | internal/workers/webhook.go:131-136 | a first attempt whose message is already in the inbox changes neither inbox nor queue, and on no continuation does its job persist or enqueue anything |
| Debounce.InboxIsDistinct | internal/workers/webhook.go:114-126 | on every run the inbox holds each message once |
| Debounce.FirstAttemptInserted | internal/workers/webhook.go:131-161 | on every run a job on its first attempt is about to publish only if an earlier step of the run inserted its message |
| Debounce.RetryExactly | internal/queue/server.go:49-49 | a retry publishes again although its message is in the inbox, and a job dies with its third failing attempt |
| Debounce.WaitsThreeSeconds | internal/workers/orchestrator.go:113-123 | a message's task starts three seconds after its enqueue and no earlier |
| Debounce.PassWakesExactly | internal/workers/orchestrator.go:177-206 | the re-check adds a task if and only if messages arrived since the pass took its mark |
| Debounce.CustomerPipeline.PersistInbound | internal/workers/webhook.go:101-136 | refines the inbox transaction: duplicates stop unless the job is a retry |
| Debounce.CustomerPipeline.PublishDebounced | internal/workers/webhook.go:148-161 | refines the enqueue outside the transaction; a failure sends the job back for retry or ends it when none is left |
| Debounce.CustomerPipeline.EndPass | internal/workers/orchestrator.go:137-153 | refines the handler's end: re-check under a fresh id with its errors swallowed, or discard without one |
| Outbound.RunKeepsInv | internal/outbound/outbound.go:99-131 | on every run, broken connections included, a pass lists committed rows in ascending order up to its own, and while it has the lock all of them are pending |
| Outbound.ResentExactly | internal/outbound/outbound.go:132-143 | a step sends a row recorded sent if and only if a pass has come to it in its backlog, and that pass has lost its lock; the row stays recorded sent |
| Outbound.ResentLaterExactly | internal/outbound/outbound.go:108-143 | a row recorded sent goes out again on some continuation if and only if a pass still lists it, and every such pass has lost its lock |
| Outbound.OrphanedPassResends | internal/outbound/outbound.go:108-143 | a run in which a pass outlives its lock and both rows are sent twice |
| Outbound.SentIsFinal | internal/outbound/outbound.go:149-161 | while no pass outlives its lock, a row recorded sent stays sent and no step sends it again |
| Outbound.RecordedSentNeverResent | internal/outbound/outbound.go:118-147 | over whole runs with failing sends, failing writes and dying tasks, but no pass outliving its lock, a row recorded sent is never sent again |
| Outbound.PassIsIncreasing | internal/outbound/outbound.go:118-143 | whatever fails, each send of a pass has a smaller seq than everything the pass still has to send |
| Outbound.PassEffect | internal/outbound/outbound.go:132-143 | a pass attempts each backlog row once, in order, records each outcome, is not stopped by a failing row and touches no other row |
| Outbound.SuccessfulPassClears | internal/outbound/outbound.go:118-146 | a pass whose sends and writes succeed sends its whole backlog in order and leaves nothing pending up to the task's own row |
| Outbound.PassRecords | internal/outbound/outbound.go:166-201 | after a pass a listed row is Sent if and only if it was sent and recorded, Failed if and only if it is the task's own row, the attempt was final, its send failed and that was recorded, and else Pending; unlisted rows are untouched |
| Outbound.StatusHasCause | internal/outbound/outbound.go:166-201 | on every run a row is Failed if and only if a final attempt of its own task failed and recorded that, and Sent if and only if a pass that had the lock sent and recorded it |
| Outbound.VerdictNeverSent | internal/outbound/outbound.go:149-161 | on every run no row with a compliance verdict, and none that has not committed, was sent or is listed by a pass |
| Outbound.LoadExactly | internal/outbound/outbound.go:79-97 | a task starts for a committed row that is pending or failed and for no other |
| Outbound.LockExactly | internal/outbound/outbound.go:103-130 | a waiting task gets the lock exactly when it is free and then lists the pending rows up to its own; finishing, dying and a broken connection free it, and only after the last does the pass go on |
| Outbound.SendsStrictlyIncrease | internal/outbound/outbound.go:79-147 | with successful sends and writes, unbroken connections and rows committing in seq order, the conversation's sends are strictly increasing in seq, so each row is sent at most once |
| Outbound.LateCommitExactly | internal/outbound/outbound.go:118-123 | in any state reached without failures, a late commit leaves every further healthy run in order if and only if no newer row is in the log and the pass that has the lock, if any, lists no newer one |
| Outbound.Conversation.DeliverOutbound | internal/outbound/outbound.go:166-201 | one send and its status write: Sent when it goes out, Failed only when the caller says so, nothing when the write fails |
| Outbound.Conversation.DeliverBacklog | internal/outbound/outbound.go:132-146 | the backlog loop refines the sequence of sends and reports only its own row's failure |
| Payouts.Round | internal/money/money.go:50-52 | the nearest integer, halves away from zero |
| Payouts.RoundUnique | internal/money/money.go:50-52 | that description determines the result |
| Payouts.MinorRoundTrip | internal/money/money.go:46-52 | minor units survive conversion to major units and back |
| Payouts.MajorRoundTripExactly | internal/money/money.go:46-52 | an amount survives conversion to minor units and back if and only if it is whole hundredths |
| Payouts.ToleranceIsHarmless | internal/handlers/payouts_write.go:245-291 | an amount the tolerance lets through still rounds to at most the balance |
| Payouts.HundredthsCoveredExactly | internal/handlers/payouts_write.go:265-274 | an amount in whole hundredths is accepted if and only if the balance covers it |
| Payouts.CoveredExactly | internal/handlers/payouts_write.go:265-274 | any amount is accepted up to the free balance, or zero when it is negative, plus a tenth of a minor unit |
| Payouts.RunIsSolvent | internal/handlers/payouts_write.go:245-344 | on every run, for requests of any precision and transfer errors of any kind, PENDING plus SUCCESS payouts never exceed successful payments, and a transfer sends exactly its row's amount or nothing |
| Payouts.RefusalReleases | internal/handlers/payouts_write.go:109-128 | a refused transfer gives the balance back and the same request is accepted again; a completed one keeps its amount committed |
| Payouts.EndsExactly | internal/handlers/payouts_write.go:297-344 | a transfer ends SUCCESS if and only if the provider reported success and that was recorded, FAILED if and only if it was refused, unanswered or its completing write was lost, and else stays PENDING; what was sent is the row's amount or nothing |
| Payouts.SuccessHasCause | internal/handlers/payouts_write.go:297-344 | on every run a payout is SUCCESS if and only if its own transfer succeeded and was recorded |
| Payouts.TransfersCoveredUpToLosses | internal/handlers/payouts_write.go:297-344 | money sent, apart from money whose row says FAILED, is covered by revenue |
| Payouts.OverdraftPossibleExactly | internal/handlers/payouts_write.go:109-128 | requests that lose nothing more can overdraw the account if and only if more was lost than abandoned reservations still hold back |
| Payouts.TransfersStayCovered | internal/handlers/payouts_write.go:324-344 | while no FAILED row hides a transfer that moved money, money sent never exceeds revenue |
| Payouts.LostWritePaysTwice | internal/handlers/payouts_write.go:109-128 | for every balance and either kind of loss (a lost completing write, an error after the money moved), a run that sends it twice |
| Payouts.Business.ReservePayout | internal/handlers/payouts_write.go:245-291 | refines the reservation: accepted exactly when covered, else nothing inserted |
| Payouts.Business.ExecuteTransfer | internal/handlers/payouts_write.go:109-128 | refines the transfer phase and its release with every failure point, an unanswered transfer having moved money or not, and caches the recipient only when created and stored |
| ImagePositions.DenseIsFull | internal/handlers/images.go:393-397 | unique positions below the count are exactly the positions 0 to n-1 |
| ImagePositions.RunKeepsDense | internal/handlers/images.go:318-516 | any sequence of serialised uploads, removals and reorders keeps positions dense and at most five |
| ImagePositions.UploadExactly | internal/handlers/images.go:318-353 | more than five images are refused, and else the new ones follow the old in request order |
| ImagePositions.RemoveExactly | internal/handlers/images.go:393-433 | the other images stay, densely and in the same order |
| ImagePositions.ReorderExactly | internal/handlers/images.go:466-510 | refused unless the list is exactly the set of images, and else each image takes its place in the list |
| ImagePositions.NextIsCount | internal/db/queries/products_writes.sql:26-30 | on dense positions COALESCE(MAX, -1) + 1 is the image count |
| ImagePositions.ReorderKeepsDense | internal/handlers/images.go:490-510 | after a reorder imageIDs[i] is at position i and the positions are dense |
| ImagePositions.StaleUploadExactly | internal/handlers/images.go:318-353 | an upload with a stale count keeps positions dense if and only if images were at most added since, and then it rolls back |
| ImagePositions.ConcurrentUploadsStayDense | internal/handlers/images.go:314-353 | concurrent uploads reading stale aggregates never exceed five images or leave a gap |
| ImagePositions.UndisturbedUpload | internal/handlers/images.go:318-353 | an upload overtaken by no other does what a serial upload does |
| ImagePositions.StaleReorderExactly | internal/handlers/images.go:466-510 | a reorder checked against an older set leaves dense positions if and only if the present images are a prefix of its list |
| ImagePositions.UploadAcrossRemovalLeavesGap | internal/handlers/images.go:326-353 | an upload that counted before a removal leaves a gap |
| ImagePositions.ReorderAcrossRemovalLeavesGap | internal/handlers/images.go:466-510 | a reorder checked before a removal leaves a gap |
| ImagePositions.OrderDetermines | internal/handlers/images.go:414-433 | dense positions are determined by their order, so closing gaps has one possible result |
| ImagePositions.PositionAtLeastIndex | internal/handlers/images.go:414-433 | in position order the k-th row is at position k or later, so it only ever moves down |
| ImagePositions.DistinctUploads | internal/handlers/images.go:202-236 | picks exactly the first file of each content the product does not hold, in request order |
| ImagePositions.ImageTable.UpdateImagePosition | internal/db/queries/products_writes.sql:60-62 | one row write: refused exactly on a duplicate position, a no-op for a missing row |
| ImagePositions.ImageTable.Redensify | internal/handlers/images.go:418-433 | no single write hits the unique index, and the result is dense in the old order |
| ImagePositions.ImageTable.RemoveImage | internal/handlers/images.go:395-407 | deleting closes exactly the gap the image leaves |
| ImagePositions.ImageTable.InsertImageRows | internal/handlers/images.go:318-353 | commits all rows or none: none over five images or on the first taken position |
| ImagePositions.ImageTable.ParkImagePositions | internal/db/queries/products_writes.sql:64-67 | parking row by row in any order never meets a row still in place |
| ImagePositions.ImageTable.ReorderImages | internal/handlers/images.go:466-510 | accepted exactly for the set read before, and then every single write of park-then-assign succeeds |
| FollowUps.ExpiryIsLateAndUnpaid | internal/workers/checkout_expiry.go:29-75 | on every run an expired order was awaiting payment at that moment and its reminders were scheduled at least 72 hours before; no reminder is both executed and cancelled |
| FollowUps.EnqueuedAtMostOnce | internal/workers/followup.go:230-262 | no reminder is enqueued twice on any run in which every rollback comes before its sweep's first hand-over |
| FollowUps.AbortExactly | internal/workers/followup.go:253-265 | a rollback keeps every enqueued reminder executed or claimed if and only if its sweep had handed none over |
| FollowUps.CancelledNeverEnqueued | internal/workers/followup.go:230-262 | after a payment has cancelled an order's reminders none of them is handed over again on any run, and those of other orders are left alone |
| FollowUps.DueTimes | internal/workers/followup_schedule.go:41-86 | the three reminders come due 2, 24 and 48 hours after scheduling |
| FollowUps.FoundExactly | internal/workers/checkout_expiry.go:41-70 | a scan can find an order if and only if it is unpaid and its last reminder fired at least a day before |
| FollowUps.ExpireExactly | internal/workers/checkout_expiry.go:72-81 | a found order that is still unpaid is cancelled, one paid since the scan is left alone |
| Expiry.RollbackRepeatsExactly | internal/workers/followup.go:230-265 | after a rollback, further sweeps that all commit can enqueue a reminder twice if and only if the rolled-back sweep had handed one over |
| Expiry.SweepUntil | internal/workers/followup.go:205-262 | whatever is due earlier, enough sweeps of fifty reach any given due reminder |
| FollowUps.FailedCommitEnqueuesAgain | internal/workers/followup.go:253-265 | a run from the empty board in which two sweeps whose commits fail enqueue the same reminder twice |
| FollowUps.CrashHalfSchedules | internal/workers/followup_schedule.go:55-79 | a run from the empty board that crashes between the two inserts and leaves the order half scheduled |
| FollowUps.HalfScheduledNeverExpires | internal/workers/followup_schedule.go:41-79 | after such a crash no continuation ever adds the last reminder or expires the order |
| Expiry.NoChanceNeverExpires | internal/workers/checkout_expiry.go:41-75 | an order no scan has found, without an uncancelled last reminder and without a scheduling job to come, never expires on any continuation |
| Expiry.CanExpireExactly | internal/workers/checkout_expiry.go:29-75 | an unpaid order can still expire if and only if a scan has found it, its last reminder is uncancelled, or a scheduling job will still write it |
| Expiry.HalfScheduledHasNoChance | internal/workers/followup_schedule.go:42-50 | a half-scheduled order has none of these chances |
| FollowUps.SweepIsItsSteps | internal/workers/followup.go:187-268 | claiming the selected rows one by one and committing executes exactly those rows, aborting changes only the queue |
| FollowUps.SchedulingIsItsSteps | internal/workers/followup_schedule.go:41-86 | an undisturbed scheduling job adds the 2, 24 and 48 hour reminders, or nothing when the order has any |
| FollowUps.FollowUpTables.HandleFollowUpSchedule | internal/workers/followup_schedule.go:41-86 | the imperative job has that same effect on the table |
| FollowUps.FollowUpTables.DueRows | internal/workers/followup.go:205-229 | the due, unexecuted, uncancelled rows, earliest first, at most fifty, all of them when fewer |
| FollowUps.FollowUpTables.SweepFollowUps | internal/workers/followup.go:230-268 | enqueues exactly the selected rows whose hand-over succeeds, executes the selection on commit and nothing otherwise |
| FollowUps.FollowUpTables.ScanExpired | internal/workers/checkout_expiry.go:41-70 | the first hundred listings of the join, an order once per fired last reminder: only unpaid orders whose last reminder fired a day ago, and all of them below the limit |
| FollowUps.JoinedExactly | internal/workers/checkout_expiry.go:41-51 | the join lists exactly the unpaid orders whose last reminder fired by the cutoff |
| FollowUps.FollowUpTables.CancelFound | internal/workers/checkout_expiry.go:72-81 | cancels exactly the found orders still unpaid and leaves all others alone |
| Otp.RunKeepsInv | internal/auth/otp.go:170-223 | every Redis command of sequential calls keeps the link between comparisons, attempts and expiry |
| Otp.AtMostFiveCompares | internal/auth/otp.go:177-218 | for sequential calls that may take time and fail between any two commands, each decided while its code lives, each stored code is compared at most five times and accepted at most once, and its attempt counter cannot expire before it |
| Otp.AtMostFiveDespiteOverlap | internal/auth/otp.go:177-218 | for calls that overlap each other and new codes in any way, each decided while the code it read lives, no stored code is compared more than five times |
| Otp.DecideExactly | internal/auth/otp.go:188-218 | deciding a call exceeds five comparisons if and only if five are spent and the call still drew a number up to five |
| Otp.SixthCompareExactly | internal/auth/otp.go:188-201 | every code with five comparisons spent can be compared a sixth time if and only if its attempts key has an expiry |
| Otp.AtMostSixCompares | internal/auth/otp.go:188-201 | if time may pass inside a call, at most one comparison more and still at most one acceptance |
| Otp.StraddlingCallComparesASixthTime | internal/auth/otp.go:179-201 | a sequential run that reaches the sixth comparison |
| Otp.OverlappingCallsAcceptTwice | internal/auth/otp.go:177-218 | two overlapping calls that are both accepted |
| Otp.AcceptedAgainExactly | internal/auth/otp.go:177-223 | a burned or replaced code is accepted again on some continuation if and only if a call in flight has read it, guesses right and is within the limit |
| Otp.SecondAcceptanceExactly | internal/auth/otp.go:210-218 | after an acceptance a second one of the same code can follow if and only if another such call had already read it |
| Otp.VerificationIs | internal/auth/otp.go:177-218 | the four commands of an undisturbed call amount to one decision on the stored state |
| Otp.LivesFiveMinutes | internal/auth/otp.go:168-172 | a stored code lives exactly five minutes and starts with no attempt counted |
| Otp.OtpService.StoreCode | internal/auth/otp.go:168-172 | stores the code and resets the counter in one step |
| Otp.OtpService.Verify | internal/auth/otp.go:174-218 | accepted exactly when the guess is the live code, fewer than five attempts came before and the burn succeeds; the sixth attempt destroys the code |
| History.SortIsStable | internal/handlers/inbox.go:297-297 | messages with equal times keep their merge order, inbound first |
| History.MergeKeepsNewest | internal/handlers/inbox.go:237-300 | newest of each side, merged, sorted and cut, is a newest selection of the whole timeline in ascending order, ties included |
| History.NewestIsUnique | internal/handlers/inbox.go:297-300 | with distinct times there is exactly one such selection |
| History.SessionIsLongestGapless | internal/workers/orchestrator.go:596-609 | the pruned history is the longest suffix whose consecutive gaps are at most two hours |
| History.SessionOfNewest | internal/workers/orchestrator.go:591-609 | cutting to the newest and pruning to the session commute |
| History.ConversationMessages | internal/handlers/inbox.go:237-300 | the inbox page is the newest messages of the whole conversation, ascending |
| History.PruneToSession | internal/workers/orchestrator.go:596-609 | the gap loop computes the session |
| History.KeptExactly | internal/workers/orchestrator.go:610-622 | exactly the messages whose text is not blank remain, each once and in order |
| History.FetchConversationHistory | internal/workers/orchestrator.go:541-622 | the assistant sees exactly the non-blank messages, each once and in order, of the session within the newest ten |
| Parity.MovingThePoint | internal/harness/parity.go:337-346 | scaling: moving a digit across the point with an integer exponent, or adding a trailing zero, keeps the value |
| Parity.PointInLiteral | internal/harness/parity.go:325-346 | a written literal keeps its number when a digit moves behind the point and the exponent becomes 1, marked with or without a plus sign |
| Parity.ExponentStep | internal/harness/parity.go:337-346 | one more unit of exponent multiplies the number by ten, or divides it by ten under a minus sign |
| Parity.ZeroExponent | internal/harness/parity.go:337-346 | an all-zero exponent is no exponent |
| Parity.PlainLiteral | internal/harness/parity.go:337-346 | plain integers have their decimal value and a minus sign negates any literal |
| Parity.SpellingDetermines | internal/harness/parity.go:337-346 | literals of the grammar with the same spelling are the same literal |
| Parity.FallbackExactly | internal/harness/parity.go:337-346 | when the parser refuses one of two literals they are equal if and only if they are the same literal |
| Parity.NotationDoesNotMatter | internal/harness/parity.go:29-31 | 51 equals 5.1e1, and 5e1 differs from 5e3 |
| Parity.EqualIsReflexive | internal/harness/parity.go:325-346 | equality of documents is reflexive |
| Parity.EqualIsSymmetric | internal/harness/parity.go:325-346 | equality of documents is symmetric, textual fallback included |
| Parity.EqualIsTransitive | internal/harness/parity.go:325-346 | equality of documents is transitive, textual fallback included |
| Parity.DiffReportsExactly | internal/harness/parity.go:267-314 | the lines are exactly the locations at which a walk along one path sees the documents part, each with its kind and both values |
| Parity.EmptyIffEqual | internal/harness/parity.go:267-314 | no lines if and only if the documents are equal up to key order and exact numeric value |
| Parity.NoLinesIsAnEquivalence | internal/harness/parity.go:53-55 | having no lines is an equivalence between documents |
| Parity.PrunedEqualIffEqualIgnoring | internal/harness/parity.go:216-250 | pruned documents are equal if and only if the originals are, ignoring stripped fields present on both sides |
| Parity.PrunedDiffEmptyIff | internal/harness/parity.go:189-250 | the diff after pruning is empty if and only if the documents are equal ignoring those fields, so one-sided fields always surface |
| Parity.IgnoringIsTransitive | internal/harness/parity.go:189-215 | ignoring fields still chains across three documents |
| Parity.PrunePair | internal/harness/parity.go:216-250 | the in-place loops compute the location-wise pruning, whatever order keys are visited in |
| Parity.StripShared | internal/harness/parity.go:219-227 | one level: exactly the listed fields present on both sides disappear from both |
| Profiler.ItoaIsInjective | internal/observability/profiler.go:192-192 | different ids have different decimal texts |
| Profiler.StackKeyIsInjective | internal/observability/profiler.go:192-193 | different stacks have different comma-terminated keys |
| Profiler.EqualStacksShareId | internal/observability/profiler.go:198-203 | two table entries are the same stack only if they are the same entry |
| Profiler.ResolvesToWhatWasSampled | internal/observability/profiler.go:180-209 | where a key determines its frame, resolving a sample through both tables gives the sampled frames |
| Profiler.PlainNamesDetermine | internal/observability/stackdump.go:104-125 | names without an at-sign, which is every Go function and import path, make keys determine frames, whatever the file paths contain |
| Profiler.AtSignIsAmbiguous | internal/observability/stackdump.go:119-120 | the key relies on that: with an at-sign in a name two different frames share one key |
| Profiler.SameKeyExactly | internal/observability/stackdump.go:119-120 | two different frames share a key if and only if one name continues the other across an at-sign and the locations make up for it |
| Profiler.KeyDeterminesExactly | internal/observability/profiler.go:180-190 | keys determine the frames of any set if and only if no two of them are of that kind |
| Profiler.DescendsFrom | internal/observability/stackdump.go:127-144 | true exactly when the root is an ancestor fewer than 64 generations up, cycles included |
| Profiler.TakenExactly | internal/observability/profiler.go:169-215 | a dump contributes exactly its goroutines that have frames and the root among their ancestors fewer than 64 generations up, each once and in order |
| Profiler.ProfileSession.InternFrames | internal/observability/profiler.go:180-194 | ids for a goroutine's frames and their key; the frame table only grows |
| Profiler.ProfileSession.InternStack | internal/observability/profiler.go:198-203 | an id for the stack, reusing the existing one |
| Profiler.ProfileSession.Add | internal/observability/profiler.go:169-215 | adds exactly the descending goroutines with frames, nothing when stopped or past thirty seconds; earlier samples keep their meaning |
| Profiler.ProfileSession.Stop | internal/observability/profiler.go:219-272 | a payload exactly on the first stop with at least two ticks, in which every sample resolves |
| Amounts.FormatJSAmount | internal/orchestrator/catalog.go:80-116 | the loop over three-digit chunks computes the grouping defined from the right |
| Amounts.TrimmedExactly | internal/orchestrator/catalog.go:80-83 | trimming takes off white space at both ends, all of it and nothing else |
| Amounts.SpaceExactly | internal/orchestrator/catalog.go:81-81 | white space by code point |
| Amounts.UngroupedIs | internal/orchestrator/catalog.go:93-104 | removing the commas gives the digits back |
| Amounts.GroupsOfThree | internal/orchestrator/catalog.go:93-104 | counted from the right every fourth character is a comma and no other, and the text never starts with one |
| Amounts.NoTrailingZero | internal/orchestrator/catalog.go:88-88 | the printed fraction is a prefix of the given one and does not end in zero |
| Amounts.ValueIsPreserved | internal/orchestrator/catalog.go:80-116 | for well-formed input, dropping the commas and reading the text gives the same number |
| Amounts.NegativeZeroExactly | internal/orchestrator/catalog.go:111-114 | a zero is printed with a minus if and only if it was negative with at least two integer digits |
| Amounts.SameTextIffSameAmount | internal/orchestrator/catalog.go:74-116 | two amounts without surplus leading zeros print alike if and only if they are equal |

## Left out

- Order intents, fulfilment and pickup location, order item rows beyond product, price and quantity: the checkout transaction also writes them, they carry no invariant of their own.
- NUMERIC(14,2) overflow of order totals and profile sums, average order value and order frequency: totals are unbounded integers in minor units.
- Effects.RunExact: statistics transactions are applied one after the other, and profiles are present from the start or never; overlapping transactions of one customer are the subject of `ProfileRace`.
- Product deletion and vendor stock edits: the stock law is about the order workers.
- Payment matching by phone and amount, payment rows, confirmations: a payment event arrives with the order it was matched to.
- Shop.ShopRows.HandleCheckout: the catalogue lookup is a map from short id to product, so several products sharing a short id prefix are not modelled.
- Outbound rows without a conversation, the row sweep, and a vendor deleting a pending reply: delivery is modelled per conversation, with the row set growing only.
- Outbound.Conversation.DeliverBacklog: the loop is stated for a pass that keeps its lock; a pass that loses it is a step of the protocol, and its later sends are further steps.
- Throttle.WindowExactly: nothing in the runtime bounds how late a timer runs or how long a request waits for the mutex; the bounds are parameters.
- Debounce.CustomerPipeline.Publish: task ids stay taken while queued or active; retention of completed tasks in the queue is not modelled.
- FollowUps.EnqueuedAtMostOnce: counts hand-overs to the queue; that the queue itself drops a task id still held is not modelled.
- FollowUps.FollowUpTables.ScanExpired: orders are numbered in creation order, which is the order of the listing.
- FollowUps.FollowUpTables.SweepFollowUps: `published` says which hand-overs succeed; a missing publisher is the case in which none does.
- Parity.NumbersEqual: which literals the rational parser accepts is a parameter, because very large exponents are refused by a library that is not part of this model; the fallback to spelling is modelled.
- Parity.Diff: a line is a path, a kind and values; its rendering as text, undecodable documents and response status lines are left out.
- Profiler.ProfileSession.Add: frames are kept as read; splitting a function name into module and function is a function of that and is left out, as are parsing of the dump, sampling and envelope attachment.
- History.FetchConversationHistory: the tables are the rows the time window and the payment boundary let through; the boundary query, template filters and id stripping are left out.
- Amounts.FormatJSAmount: works on characters, which agree with bytes on well-formed amounts.
- Content hashes of images: they matter only before the transaction; the second unique index, on content, can only cause more rollbacks.
- HTTP, validation, assistants, prompts, embeddings, media, third-party clients, tracing transport: no protocol of their own.
