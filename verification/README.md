# Verified model of enterprise-access

enterprise-access decides which learner may spend a company's money on which course, and sells
subscriptions to companies. This project models the stateful logic behind those decisions in Dafny 4.11
and proves what the code promises about it. `dafny verify dfyconfig.toml` checks the whole project.

The parts, and the files that hold them:

- **Learner content assignments.** `Assignments` is the stored table with its two uniqueness constraints and
  the allocated total. `Allocation` says what one bulk allocation does to a row and to the table;
  `AllocationOrders` prepares its arguments; `AssignmentStore` carries the loops and writes in place.
  `AllocationUniqueness`, `AllocationSuccess`, `AllocationEffects`, `AllocationCalls`, `AssignmentRuns` and
  `AssignmentMoves` hold the theorems. `RequestAllocation`, `BatchSuccess`, `BatchApprovalProofs`, `BatchCalls`,
  `Approvals`, `ApprovalProofs`, `ApprovalCalls`, `RequestRuns`, `JointRuns` and `JointMoves` do the same for batches of
  learner credit requests.
  `AssignmentLifecycle`, `Expiry`, `Acknowledgements` and `PiiSweep` cover cancellation, reminders, expiry,
  reversal, acknowledgement and the retirement of personal data.
- **Checkout intents and Stripe events.** `CheckoutIntents` is the reservation protocol and the state table,
  `CheckoutProofs` its invariants over runs, `CheckoutOutcomes` what each operation accepts and writes; `StripeEvents`,
  `StripeEventProofs` and `StripeDeliveries` are the event handlers, their tolerance of redelivery, and what one
  delivery does.
- **Learner-portal licences.** `StableSorting`, `Licences` and `LicenceProofs`.
- **The content-metadata cache** (`MetadataCache`) and **the redemption index** (`RedemptionIndex`).

The style follows the source. Code that changes records step by step is a class or a method with loops, and its
contract ties the new state to a specification function; the theorems are lemmas about those functions. A database
table whose rows are never deleted is a sequence, and a row's position is its identity. Time is an integer.
Every service call is one atomic step; remote services are functions or outcome flags passed in.

## Main results

1. Exactly which bulk allocations go through: a call with a non-negative price succeeds *if and only if* nothing is in
   the way of any requested email (`AllocationSucceedsIff`), and it leaves each requested email exactly one row *if and
   only if* each owns at most one row, a row found only by LMS id is expired, and an email that shares its LMS user with
   another requested email is already held by a row that has a different LMS id and keeps the email
   (`AllocationLeavesOneRowEach`). A row found only by LMS id that is not expired, whatever its state, makes the call
   fail unless another row holds the requested email under a different LMS id and keeps it
   (`UnexpiredStrayBlocksUnlessHeldApart`).
2. What a call finds, writes, adds, reports and costs follows from its arguments (`AllocationCalls`): on success the
   total of its configuration falls by exactly its price for every row brought back or added. A successful allocation
   repeated changes nothing; a row whose personal data was cleared is reused for its learner.
3. Over every run of assignment operations, with no condition on the steps, both keys stay unique, no allocated total
   is positive, and the total moves by exactly what each step is entitled to. Every operation moves a row into a state
   exactly under that state's condition (`StepMovesRowIff`); an allocated row expires exactly when the subsidy has
   expired, its enrollment deadline has come, or ninety days have passed (`ExpiresIff`).
4. A batch of credit requests, repeated ones included, goes through if and only if each request can be placed and no
   two requests without a row to reuse are for the same course and the same email or LMS user. A batch of distinct
   requests that goes through costs exactly its prices, and a request gets its own row back if and only if the row it
   reuses carries its LMS id and no later row of the batch carries the same id and course; for a known LMS id the first
   condition is enough. An approval call that has requests to process returns if and only if the policy refuses, or no
   other stored request is linked to a row that was given out and no two approved requests agree on LMS id and course;
   when it returns, every processed request ends exactly once. Over every run of approvals, expiries, reversals,
   cancellations, declines and renewed requests, a request is approved at most once each time it is opened and keeps its
   assignment until its learner asks again; over every joint run with the assignment table, that assignment is for the
   request's course.
5. When a pair must be reserved for a user without a paid or failed intent, `create_intent` reports a conflict exactly
   when another user's live reservation holds the slug or the name. A successful `create_intent` keeps reservations
   exclusive except exactly when it revives an expired intent whose unchanged pair is taken meanwhile; an update request
   keeps them exclusive except exactly when it does the same. Over every run of checkout sessions, sweeps, marks,
   workflow steps and other update requests reservations stay exclusive.
6. Each mark on an intent is accepted from exactly the states listed for it and then writes exactly its columns. Every
   run of table-checked steps moves along ten allowed moves; a paid intent never returns to created or expired, at most
   two state changes follow, and no intent is fulfilled that has not taken a payment, or been called paid by an update
   request, on the way (`NothingIsFulfilledUnpaid`).
7. Redelivered and reordered Stripe events never process a renewal twice; over every run a renewal ends processed if and
   only if a delivery turned its intent's subscription from trialing to active while the renewal was next, its event
   free and the license manager answering (`RunsProcessIffTurnedPaid`).
8. Sorting, grouping and picking a licence refine a plain choice: least status first, current plans first, loaded order
   last. One pass activates assigned licences, or tries auto-apply, and never both.
9. When a bulk approval returns with an answer of the policy, every request listed under a reason is reported as failed
   with a failure action (`EveryFailureIsReported`); a linked assignment and its request expire, are reversed and are
   cancelled together (`RowAndRequestMoveTogether`).

## Where the code does less than its documentation says

- A call of `allocate_assignments` is meant for the rows of the learners it names. It keeps to them if and only if it
  names someone, or no row of the content needs an update (`OnlyNamedLearnersAreTouchedIff`): with no learner emails the
  filter restricts nothing and every reallocatable row of the content is revived (`EmptyOrderRevivesEverything`). Only a
  direct call reaches this: the allocate endpoint refuses an empty list
  (`enterprise_access/apps/api/serializers/subsidy_access_policy.py:790-792`) and a forced redemption passes one email
  (`enterprise_access/apps/subsidy_access_policy/models.py:2199-2225`).
- Bulk approval expects every valid request to come back with its own assignment. When reused rows do not carry their
  requesters' LMS ids, the rows and the debit are written all the same. For distinct requests, the call then reports
  every request as failed if and only if some request's LMS id and course are carried by no row of the batch
  (`RefusedAfterWritingIff`); an approved request that does not point at its own row points at another request's
  (`OtherwiseItIsSomeoneElses`, `CrossedIdsExample`).
- Bulk approval promises a report and an audit action for every processed request. The update of the approved requests
  is not guarded: if it breaks the one-to-one link between requests and assignments, the call raises after the
  assignments and the debit are written, no request ends in either list and nothing is logged. The exact condition is
  in `EveryRequestEndsOnceIffTheCallReturns`, in terms of what a caller can check in `WrittenCallRaisesIffOccupied`,
  and an input is in `OccupiedRowExample`: an old cancelled request still points at the row that a new request reuses.
- The lookup of reusable rows is documented to match on email and on LMS id. A row with the requester's LMS id under
  another email is fetched but never reused, and then fails the whole batch unless the request has a second row
  (`RenamedRowIsFetchedButInTheWay`); clearing the personal data of an expired row does this to the next batch
  (`ClearedRowBlocksTheBatch`).
- Reallocation clears `accepted_at` in memory but does not store it: the stored row equals the prepared one if and only
  if it had no acceptance time (`ReallocationKeepsUnsavedDates`).
- A call of `acknowledge_assignments`, made no earlier than any logged action, leaves a lapsed assignment acknowledged,
  as the next call sees it, if and only if a successful lapse action is on record; without one every call acknowledges
  it anew (`CallAcknowledgesIffLapseIsRecorded`).
- The model's own validation of an intent forbids two active intents with one slug or name, but saving does not run it:
  an update request may reopen an expired intent whose pair is taken, and exactly then breaks exclusivity
  (`PatchKeepsExclusiveIff`).
- The error step of a provisioning workflow leaves the transition table unless the intent is paid or already in the
  provisioning error state (`WorkflowWritesFollowTheTableIff`).
- A second checkout session by a paid user overwrites the stored session id, although replaying `mark_as_paid`
  never does (`NewSessionKeepsPaidSessionIdIff`).
- The flat licence list is rewritten pointwise only when at most one licence was activated
  (`FlatListIsReplacedIffOneActivated`).

## Model

| member | source | states |
|---|---|---|
| Assignments.AllocatedQuantity | enterprise_access/apps/content_assignments/api.py:253-265 | the aggregate equals the sum of the quantities of the configuration's allocated rows |
| Assignments.TotalIsNeverPositive | enterprise_access/apps/content_assignments/models.py:417-422 | rows that pass validation never add up to a positive total |
| Assignments.TotalOfUpdate | enterprise_access/apps/content_assignments/api.py:253-265 | replacing one row moves the total by the difference of the two rows' contributions |
| Emails.MailboxNamesOneEntry | enterprise_access/apps/content_assignments/api.py:544-556 | after deduplication a mailbox names one entry |
| Emails.SameMailboxIff | enterprise_access/apps/content_assignments/api.py:544-556 | two emails are one mailbox if and only if they differ only in the case of letters |
| AllocationOrders.DeduplicateLearnerEmails | enterprise_access/apps/content_assignments/api.py:544-556 | the loop keeps the first spelling of every mailbox, in order |
| AllocationOrders.FirstSpellingsAreTheMailboxes | enterprise_access/apps/content_assignments/api.py:544-556 | deduplication keeps every mailbox, repeats none and invents no spelling |
| AllocationCalls.FirstSpellingsInOrder | enterprise_access/apps/content_assignments/api.py:544-556 | every mailbox is kept in its first spelling, at the place given by the number of mailboxes before it |
| AllocationOrders.QueryUserIds | enterprise_access/apps/content_assignments/api.py:588-614 | one query finds, for each requested mailbox, the last matching user's LMS id |
| AllocationOrders.GetLmsUserIdsByEmail | enterprise_access/apps/content_assignments/api.py:588-614 | reading the users in batches of 100 gives the same ids as one query over all emails |
| AllocationOrders.ZipKnownIds | enterprise_access/apps/content_assignments/api.py:327-332 | caller-supplied ids are paired with emails up to the shorter list, and reversed |
| AllocationOrders.MapAllocationEmails | enterprise_access/apps/content_assignments/api.py:559-585 | the id map holds the known ids and the name map is its reverse |
| AllocationOrders.NamesAreTheReverse | enterprise_access/apps/content_assignments/api.py:576-585 | every id in the reverse map names a requested email that has that id, and no known id is missing |
| AllocationOrders.OrdersAreWellMapped | enterprise_access/apps/content_assignments/api.py:320-337 | whatever the arguments, emails are distinct, id keys are requested mailboxes and the name map reverses the id map |
| AllocationOrders.DistinctKnownIdsAreInjective | enterprise_access/apps/content_assignments/api.py:327-332 | distinct supplied ids leave no two requested emails with one LMS user |
| AllocationCalls.IdsAreTheKnown | enterprise_access/apps/content_assignments/api.py:320-337 | the id map holds an id for a mailbox if and only if the caller's list has it at the mailbox's place or, without a list, the mailbox's last user record with an id has it |
| AssignmentStore.PrepareOrder | enterprise_access/apps/content_assignments/api.py:317-337 | the arguments become the order that the specification names, with the negated price as its quantity |
| AssignmentStore.PrepareRow | enterprise_access/apps/content_assignments/api.py:361-401 | the loop body identifies, restores, revives or refreshes one row and flags it exactly when it needs a write |
| AssignmentStore.PrepareExisting | enterprise_access/apps/content_assignments/api.py:361-401 | the loop over existing rows prepares each, collects the ones to write and the emails held, and stops at an invalid revived row |
| AssignmentStore.SelectEmails | enterprise_access/apps/content_assignments/api.py:410-414 | exactly the requested emails held by no prepared row get new rows |
| AssignmentStore.Store.AllocateAssignments | enterprise_access/apps/content_assignments/api.py:268-447 | one call writes the specified table and report, or fails with the specified error and changes nothing; on success the configuration's total falls by the price for every row brought back or added |
| AssignmentStore.Store.WriteUpdates | enterprise_access/apps/content_assignments/api.py:58-63 | only flagged rows are written, and only their reallocation fields |
| AllocationCalls.FoundIffAnswers | enterprise_access/apps/content_assignments/api.py:617-645 | a call finds exactly the rows for its content that belong to a requested mailbox or to the LMS user known for one, or all of them when nobody was requested |
| AllocationCalls.CallRewritesRows | enterprise_access/apps/content_assignments/api.py:361-418 | a call leaves rows it does not find alone; it allocates a cancelled, errored, expired or reversed row again at its price, batch, time, run and parent and clears the cancelled, expired and errored times; it refreshes run and parent of an allocated row; it fills in a missing LMS id, and gives an expired row the last kept email of its LMS user |
| AllocationCalls.CallCreatesRow | enterprise_access/apps/content_assignments/api.py:790-848 | an added row is for a kept email that no found row carries, allocated at the call's price, batch, time, run and parent, with the LMS id known for the email |
| AllocationCalls.CallCreatesIffNotHeld | enterprise_access/apps/content_assignments/api.py:410-425 | a row is added for a kept email if and only if no found row carries it afterwards |
| AllocationCalls.CallCreatesOncePerMailbox | enterprise_access/apps/content_assignments/api.py:410-425 | no two rows are added for one mailbox |
| AllocationCalls.CallReportsItsChanges | enterprise_access/apps/content_assignments/api.py:403-447 | the report names as updated exactly the rows that changed, as created exactly those added, as unchanged those found and left alone |
| AllocationCalls.CallSucceedsIff | enterprise_access/apps/content_assignments/api.py:312-425 | a call succeeds if and only if its price is not negative and nothing obstructs a requested email |
| AllocationCalls.CallIsInvalidIff | enterprise_access/apps/content_assignments/api.py:312-401 | a call is rejected before it is written if and only if its price may be and a row it would bring back collides, as it would be written, with another stored row |
| AllocationUniqueness.LmsOnlyOwner | enterprise_access/apps/content_assignments/api.py:369-375 | a row found only by LMS id gets the requested email back when it is expired and keeps its own otherwise |
| AllocationUniqueness.EveryEmailIsHeld | enterprise_access/apps/content_assignments/api.py:403-425 | every requested email is the email of some row of the proposed table |
| AllocationUniqueness.AdmissibleProposalIsUnique | enterprise_access/apps/content_assignments/models.py:252-256 | when every email is admissible, update and insert together break neither key |
| AllocationUniqueness.AdmissibleRowsAreValid | enterprise_access/apps/content_assignments/api.py:694-718 | when every email is admissible, no revived row fails validation against the stored table |
| AllocationUniqueness.CreatedAreAlone | enterprise_access/apps/content_assignments/api.py:410-425 | when every email is admissible, a row is only created for an email that shares its LMS user with no other |
| AllocationUniqueness.SharedIdsAreUnused | enterprise_access/apps/content_assignments/models.py:252-256 | if two requested emails of one LMS user both end with exactly one row, no row for the content carries that user's id |
| AllocationUniqueness.SharersAreHeldApart | enterprise_access/apps/content_assignments/api.py:361-375 | such an email was held before the call by a row with another LMS id that keeps its email |
| AllocationUniqueness.OneRowEachMeansAdmissible | enterprise_access/apps/content_assignments/api.py:361-425 | a learner left with exactly one row was admissible before the call |
| AllocationUniqueness.AllocationLeavesOneRowEach | enterprise_access/apps/content_assignments/api.py:320-425 | success with exactly one row per requested email if and only if every email was admissible; both keys stay unique on success |
| AllocationEffects.MatchingRowsEndLive | enterprise_access/apps/content_assignments/api.py:377-425 | after the call every matching row is allocated or accepted |
| AllocationSuccess.AllocationSucceedsIff | enterprise_access/apps/content_assignments/api.py:361-425 | a call with a non-negative price succeeds if and only if every requested email is unobstructed |
| AllocationSuccess.UnobstructedProposalIsUnique | enterprise_access/apps/content_assignments/models.py:252-256 | without obstruction, update and insert together break neither key |
| AllocationSuccess.UnobstructedRowsAreValid | enterprise_access/apps/content_assignments/api.py:694-718 | without obstruction, no revived row fails validation against the stored table |
| AllocationSuccess.SuccessIsUnobstructed | enterprise_access/apps/content_assignments/api.py:361-425 | in a call that goes through every requested email was unobstructed |
| AllocationSuccess.TakenEmailsAreFree | enterprise_access/apps/content_assignments/api.py:372-375 | an expired row takes back an email only if no row has it and the row itself carries that user's LMS id |
| AllocationSuccess.AdmissibleIsUnobstructed | enterprise_access/apps/content_assignments/api.py:361-425 | admissible emails are unobstructed; of the calls that go through, exactly the admissible ones leave one row each |
| AllocationSuccess.UnexpiredStrayBlocksUnlessHeldApart | enterprise_access/apps/content_assignments/api.py:369-401 | a row found only by LMS id that is not expired makes the call fail unless the email is held under another LMS id; for that email alone, exactly then |
| AllocationEffects.FoundIffOwned | enterprise_access/apps/content_assignments/api.py:617-645 | an order that names someone finds exactly the rows its learners own by email or LMS id |
| AllocationEffects.OnlyNamedLearnersAreTouchedIff | enterprise_access/apps/content_assignments/api.py:73-83 | rows of learners who were not named stay as they are if and only if someone was named or no row of the content needs an update |
| AllocationEffects.ReallocationKeepsUnsavedDates | enterprise_access/apps/content_assignments/api.py:58-63 | a reallocated row keeps its stored acceptance and reversal times; it is stored as prepared if and only if it had no acceptance time |
| AllocationEffects.EmptyOrderRevivesEverything | enterprise_access/apps/content_assignments/api.py:73-83 | with no emails the filter restricts nothing: the call succeeds and revives every reallocatable row of the content |
| AllocationCalls.AllocationConservesMoney | enterprise_access/apps/content_assignments/api.py:253-447 | the total of the call's configuration falls by exactly the price times the number of rows brought back and added; a failed call and other configurations move nothing |
| AllocationEffects.AllocationIsIdempotent | enterprise_access/apps/content_assignments/api.py:361-447 | the same call again creates nothing, updates nothing and reports every matching row as unchanged |
| AllocationEffects.ClearedRowIsReused | enterprise_access/apps/content_assignments/models.py:739-748 | clearing an expired row and allocating to that learner again reuses the row, restores the email and creates no second row |
| RequestAllocation.ReusableIsOwned | enterprise_access/apps/content_assignments/api.py:648-691 | the reused row is a reallocatable row of the request's email and course, and there is one whenever such a row exists |
| AssignmentStore.FetchExisting | enterprise_access/apps/content_assignments/api.py:648-691 | filing fetched rows under email and course finds each request's reusable row |
| AssignmentStore.SplitRequests | enterprise_access/apps/content_assignments/api.py:491-515 | the loop splits the requests into rows to revive and requests that need a new row, as planned |
| AssignmentStore.AnswerRequests | enterprise_access/apps/content_assignments/api.py:531-541 | every request is mapped to the affected row of its learner and course |
| AssignmentStore.Store.AllocateAssignmentForRequests | enterprise_access/apps/content_assignments/api.py:460-541 | one batch writes the planned table and returns the planned map, or changes nothing |
| BatchSuccess.BatchSucceedsIff | enterprise_access/apps/content_assignments/api.py:460-541 | any batch goes through if and only if every request can be placed and no two requests that need a new row compete for a key |
| BatchSuccess.BatchIsInvalidIff | enterprise_access/apps/content_assignments/api.py:694-718 | a batch is rejected before it is written if and only if some request has a negative price |
| BatchSuccess.ProposalIsUniqueIff | enterprise_access/apps/content_assignments/models.py:252-256 | the written keys are unique if and only if no new row meets an old one or competes with another |
| BatchSuccess.PlanIsValidIffPriced | enterprise_access/apps/content_assignments/api.py:694-718 | validation of the revived rows rejects exactly negative prices |
| BatchSuccess.BatchSucceedsIffPlaceable | enterprise_access/apps/content_assignments/api.py:460-541 | for distinct requests, being placeable is enough |
| BatchSuccess.RenamedRowIsFetchedButInTheWay | enterprise_access/apps/content_assignments/api.py:648-691 | a reallocatable row with the requester's LMS id under another email is fetched, never reused, and fails the batch unless the request has a second row |
| BatchSuccess.ClearedRowBlocksTheBatch | enterprise_access/apps/content_assignments/models.py:739-748 | clearing an expired row turns a batch that would have reused it into one that fails |
| BatchCalls.ReusableIsTheLast | enterprise_access/apps/content_assignments/api.py:648-691 | a request reuses the last row that can return and is filed under its course and mailbox, if there is one |
| BatchCalls.BatchRewritesRows | enterprise_access/apps/content_assignments/api.py:491-520 | a row that no request reuses stays as it is; a reused row is allocated for the last request that reuses it, at its price and with its course's run and parent, and keeps email and LMS id |
| BatchCalls.BatchCreatesRows | enterprise_access/apps/content_assignments/api.py:851-893 | one row is added, in order, for every request without a row to reuse, with the request's email, LMS id and price |
| BatchCalls.UnplacedCannotBeServed | enterprise_access/apps/content_assignments/api.py:491-515 | a request needs a new row if and only if no row that can return is filed under its course and mailbox |
| BatchApprovalProofs.LookupFindsAffectedRow | enterprise_access/apps/content_assignments/api.py:531-541 | the lookup by LMS id and course finds an affected row whenever there is one |
| BatchApprovalProofs.MapHasEveryRequest | enterprise_access/apps/content_assignments/api.py:531-541 | the returned map has exactly the requests as keys |
| BatchApprovalProofs.EntryIsTheLastCarrier | enterprise_access/apps/content_assignments/api.py:531-541 | a request is handed the last row of the batch that carries its LMS id, or lack of one, and its course; its entry is missing if and only if there is none |
| BatchApprovalProofs.RequestGetsItsRowIff | enterprise_access/apps/content_assignments/api.py:531-541 | a request, with or without an LMS id, gets its own allocated row at its price if and only if the row it reuses carries its id and no later row carries the same id and course |
| BatchApprovalProofs.RequestsGetTheirRowsIff | enterprise_access/apps/content_assignments/api.py:460-541 | the returned map has exactly the requests as keys, and is right throughout if and only if that holds for each |
| BatchApprovalProofs.LinkedIdsHaveOneCarrier | enterprise_access/apps/content_assignments/models.py:252-256 | in a batch that goes through, a known LMS id on the reused row already rules out a later carrier |
| BatchApprovalProofs.OwnRowsAreDistinct | enterprise_access/apps/content_assignments/api.py:531-541 | two requests never share a row |
| BatchApprovalProofs.BatchCostsItsCharge | enterprise_access/apps/content_assignments/api.py:460-541 | a successful batch, repeated requests included, charges each reused row once, at the price of the last request that reuses it, and each new row its price |
| BatchApprovalProofs.DistinctRequestsAreAllCharged | enterprise_access/apps/content_assignments/api.py:491-515 | distinct requests never reuse one row, so what is charged is the sum of the prices |
| BatchApprovalProofs.BatchCostsItsPrices | enterprise_access/apps/content_assignments/api.py:851-893 | a successful batch of distinct requests moves the total by exactly the sum of the prices |
| Approvals.CollectAssignments | enterprise_access/apps/subsidy_access_policy/api.py:75-89 | the approved map is filled in order and given up at the first request without a row |
| Approvals.RequestDesk.ApproveViaPolicy | enterprise_access/apps/subsidy_access_policy/api.py:37-116 | refuse, or allocate for the valid requests and answer with their rows; rows written before a refusal stay |
| Approvals.RequestDesk.ApproveLearnerCreditRequests | enterprise_access/apps/subsidy_request/api.py:25-108 | request rows, audit actions and the report follow from the policy's answer; only open requests are processed; if the one-to-one column rejects the update, the assignments stay written and the requests untouched |
| ApprovalProofs.ApprovedAreTheValid | enterprise_access/apps/subsidy_access_policy/api.py:60-94 | what an answer approves is exactly what the policy called valid |
| ApprovalProofs.AnswerFollowsTheValidation | enterprise_access/apps/subsidy_request/api.py:145-164 | an answer approves exactly the valid requests and fails every request as often as it is listed under all reasons together |
| ApprovalProofs.PolicyAnswersIff | enterprise_access/apps/subsidy_access_policy/api.py:37-116 | the policy layer answers if and only if the gates are passed and the batch of valid requests, if any, is written and hands a row to each; only a written batch changes rows |
| ApprovalCalls.OpenRequestsAreProcessed | enterprise_access/apps/subsidy_request/api.py:34-60 | exactly the given requests stored as requested or in error are processed, each as often as it was given |
| ApprovalCalls.CallWritesRequests | enterprise_access/apps/subsidy_request/api.py:62-92 | a call that returns records assignment, reviewer and time with the approved requests and changes no other |
| ApprovalCalls.EveryFailureIsReported | enterprise_access/apps/subsidy_request/api.py:92-164 | once the policy answers and the call returns, every request listed under any reason is reported as failed and gets as many failure actions as it has entries in the list |
| ApprovalCalls.RefusalFailsTheProcessed | enterprise_access/apps/subsidy_request/api.py:62-76 | a refused call reports every processed request as failed, with one failure action each |
| ApprovalCalls.NothingOpenFailsTheGiven | enterprise_access/apps/subsidy_request/api.py:34-60 | with no open request among the given ones all are reported as failed and nothing is written |
| ApprovalCalls.EveryRequestEndsOnceIffTheCallReturns | enterprise_access/apps/subsidy_request/api.py:34-108 | the call returns if and only if the policy refuses or the approved requests can be stored; then each processed request ends in exactly one list with exactly one new action that agrees; otherwise requests and actions stay as they were |
| ApprovalCalls.WrittenCallRaisesIffOccupied | enterprise_access/apps/subsidy_request/api.py:78-83 | for a written batch of own rows the call raises if and only if another stored request is linked to a reused row; rows and debit are written either way |
| ApprovalCalls.OccupiedRowExample | enterprise_access/apps/subsidy_request/api.py:78-83 | a concrete desk, table and batch for which the call raises after the debit |
| ApprovalProofs.AnswersSplitTheProcessed | enterprise_access/apps/subsidy_request/api.py:145-164 | when the valid requests and those listed under the reasons make up the processed ones, an answer puts each processed request into exactly one of approved and failed, with one action |
| ApprovalProofs.ApprovedRequestHasItsRowIff | enterprise_access/apps/subsidy_access_policy/api.py:60-94 | an approved request points at an allocated row for its learner, course and price if and only if the row it reuses carries its id and no later row carries the same id and course |
| ApprovalProofs.RefusedAfterWritingIff | enterprise_access/apps/subsidy_access_policy/api.py:77-116 | a written batch is refused if and only if some request is carried by no row of the batch; rows and debit are written either way |
| ApprovalProofs.OtherwiseItIsSomeoneElses | enterprise_access/apps/subsidy_access_policy/api.py:77-94 | an approved request that does not point at its own row points at the row of another request |
| ApprovalProofs.CrossedRequestsAreApproved | enterprise_access/apps/subsidy_access_policy/api.py:77-94 | two requests whose rows carry each other's ids are both approved, each with the other's row |
| ApprovalProofs.CrossedIdsExample | enterprise_access/apps/subsidy_access_policy/api.py:77-94 | a concrete table and batch for which this happens |
| Approvals.RequestDesk.ExpireAssignment | enterprise_access/apps/content_assignments/api.py:1107-1162 | an expired assignment takes its linked request with it, and the linked request selects the enrollment deadline |
| Approvals.RequestDesk.ReverseAssignment | enterprise_access/apps/content_assignments/signals.py:56-98 | a reversed assignment reverses its linked request and logs one action |
| ApprovalCalls.StorableIff | enterprise_access/apps/subsidy_request/models.py:382-389 | the approved requests can be stored if and only if no other request is linked to one of their rows and no two of them agree on LMS id and course |
| ApprovalCalls.ApprovedRowsCoincideIff | enterprise_access/apps/subsidy_access_policy/api.py:77-94 | two approved requests share a row if and only if they agree on LMS id and course |
| RequestRuns.RunsKeepLinksUnique | enterprise_access/apps/subsidy_request/models.py:382-389 | over every run no two requests are linked to one assignment |
| RequestRuns.ApprovedAtMostOncePerOpening | enterprise_access/apps/subsidy_request/api.py:34-108 | over every run a request has at most one successful approval each time it is opened |
| RequestRuns.ApprovedRequestsKeepTheirAssignment | enterprise_access/apps/subsidy_request/api.py:129-142 | a closed request stays closed and keeps its assignment until its learner asks again |
| JointRuns.RunsKeepRequestsOnTheirCourse | enterprise_access/apps/content_assignments/api.py:460-541 | over every joint run of table and desk both keys stay unique, no assignment is linked twice, and every linked assignment is for the course of its request |
| JointRuns.TableStepsKeepCourses | enterprise_access/apps/content_assignments/api.py:58-63 | no operation on assignments removes a row or changes its content |
| JointMoves.RowAndRequestMoveTogether | enterprise_access/apps/content_assignments/api.py:1107-1162 | exactly when a linked assignment expires, is reversed or is cancelled with its request, the request expires, is reversed or is cancelled; declining and asking again leave the assignment alone |
| JointMoves.RequestMovesAreLogged | enterprise_access/apps/content_assignments/signals.py:56-98 | a move of a request, but for its expiry, adds exactly one action that names the request and its new state |
| AssignmentStore.Store.CancelAssignments | enterprise_access/apps/content_assignments/api.py:896-941 | allocated and errored rows become cancelled; the two reported sets partition the input and only cancelled rows are reported as such |
| AssignmentStore.Store.RemindAssignments | enterprise_access/apps/content_assignments/api.py:944-980 | a reminder changes nothing and reports exactly the allocated rows |
| AssignmentStore.Store.ExpireAssignment | enterprise_access/apps/content_assignments/api.py:1107-1162 | an allocated row whose automatic date has come is expired, or only reported when nothing is to be persisted |
| AssignmentStore.Store.ProgressStateOnFailure | enterprise_access/apps/content_assignments/tasks.py:314-320 | a failed background job moves its row to errored from any state |
| AssignmentStore.Store.ReverseAssignment | enterprise_access/apps/content_assignments/signals.py:56-98 | a reversed transaction reverses an accepted row and no other |
| AssignmentStore.Store.ClearAndSave | enterprise_access/apps/content_assignments/models.py:739-748 | the email is replaced by a retired one unless the keys reject the save |
| AssignmentStore.Store.LinkLmsUser | enterprise_access/apps/content_assignments/signals.py:32-52 | saving a user fills in the missing LMS id of every row with that email, or changes nothing if a key rejects it |
| AssignmentRuns.StepKeepsInv | enterprise_access/apps/content_assignments/models.py:252-256 | every operation keeps both keys unique and every quantity non-positive |
| AssignmentRuns.RunsKeepKeysUnique | enterprise_access/apps/content_assignments/models.py:252-256 | over every run both keys stay unique and no allocated total is positive |
| AssignmentRuns.StepMovesMoney | enterprise_access/apps/content_assignments/api.py:896-980 | cancel, expire, accept and failure remove exactly the quantities of the allocated rows they take; reversal, reminder, clearing and linking move nothing |
| AssignmentRuns.RunsConserveMoney | enterprise_access/apps/content_assignments/api.py:253-447 | over every run the total moves by exactly the sum of what the steps may move: an allocation its price for every row brought back or added, a batch its charge, the others the allocated rows they take |
| AssignmentRuns.AcceptedRowsStayAccepted | enterprise_access/apps/content_assignments/api.py:377-425 | a redeemed row stays accepted at its price until it is reversed or one of its jobs fails |
| AssignmentMoves.StepMovesRowIff | enterprise_access/apps/content_assignments/constants.py:27-41 | for every operation and every state: a row ends in the state if the condition of that move holds, and changes its state only under the condition of the state it ends in |
| AssignmentMoves.StepWritesOnly | enterprise_access/apps/content_assignments/api.py:896-980 | cancelling writes the state alone; expiry, failure, reversal and acceptance write the state and their own time; clearing writes the email, unless a key forbids it |
| AssignmentMoves.LinkFillsIff | enterprise_access/apps/content_assignments/signals.py:32-52 | saving a user fills in the missing LMS ids of its mailbox if and only if no row for the same content carries the id already |
| Expiry.LastRunIsLatest | enterprise_access/apps/content_assignments/enrollment_deadline_strategies.py:123-150 | the last run's deadline is no earlier than any run's |
| Expiry.AvailableDates | enterprise_access/utils.py:130-167 | the candidates with a date are the subsidy's, the enrollment deadline and the timeout, in that order |
| Expiry.ExpirationIsTheEarliestDate | enterprise_access/utils.py:107-182 | the date always exists, is the earliest available one and no later than 90 days after allocation; ties go to the subsidy, then the enrollment deadline |
| Expiry.CreditRequestsExpireAfterEveryRun | enterprise_access/apps/content_assignments/enrollment_deadline_strategies.py:100-150 | a credit request expires for its enrollment date only once every run's deadline has passed |
| Expiry.StrategiesFindTheDeadline | enterprise_access/apps/content_assignments/enrollment_deadline_strategies.py:42-150 | the deadline is the latest run's for a credit request with a run ahead, else the preferred run's if one is preferred, else the advertised run's, and none without metadata |
| Expiry.ExpiresIff | enterprise_access/utils.py:107-182 | an allocated assignment expires if and only if the subsidy has expired, the enrollment deadline has come, or ninety days have passed since the allocation |
| StableSorting.SortIsStable | enterprise_access/apps/bffs/handlers.py:281-321 | the sort orders by key and keeps the order of equal keys |
| StableSorting.SortIsPermutation | enterprise_access/apps/bffs/handlers.py:281-321 | sorting loses and repeats nothing |
| StableSorting.SortedRearrangementIsUnique | enterprise_access/apps/bffs/handlers.py:281-321 | any correct stable sort gives the same list |
| StableSorting.SortHeadIsFirstMinimum | enterprise_access/utils.py:163-168 | the head of a sorted list is the first entry with the least key |
| Acknowledgements.AcknowledgeOne | enterprise_access/apps/content_assignments/models.py:96-162 | the two deciders never both apply, and the log grows by the acknowledgement that is due |
| Acknowledgements.Configuration.AcknowledgeAssignments | enterprise_access/apps/content_assignments/models.py:164-233 | the learner's fetched rows are acknowledged where due and sorted into three lists |
| Acknowledgements.ListsPartitionTheFetched | enterprise_access/apps/content_assignments/models.py:164-233 | the three lists together are exactly the fetched rows |
| Acknowledgements.LastDoneIsLatest | enterprise_access/apps/content_assignments/models.py:624-632 | the getter returns the latest successful action of its kind, if any |
| Acknowledgements.AcknowledgedUntilANewerLapse | enterprise_access/apps/content_assignments/models.py:96-233 | an acknowledged lapse is reported as already acknowledged if and only if no newer lapse has been logged |
| Acknowledgements.CallAcknowledgesIffLapseIsRecorded | enterprise_access/apps/content_assignments/models.py:96-233 | a call leaves a lapsed assignment acknowledged, as a repeated call sees it, if and only if a successful lapse action is on record |
| Acknowledgements.UnrecordedLapsesAreNeverAlreadyAcknowledged | enterprise_access/apps/content_assignments/models.py:96-162 | a lapsed row with no successful lapse action is acknowledged anew by every call |
| Acknowledgements.DecisionAgreesWithLearnerView | enterprise_access/apps/content_assignments/models.py:460-488 | the deciders and `learner_acknowledged` differ only when both actions carry the same time, so never under a strict clock |
| Acknowledgements.CallLogsByState | enterprise_access/apps/content_assignments/models.py:96-233 | a call logs an expiration acknowledgement for an expired row and a cancellation acknowledgement for a cancelled one, unless the log answers every such lapse already; all other logs stay |
| Acknowledgements.CallSortsByState | enterprise_access/apps/content_assignments/models.py:164-233 | the three lists hold the lapsed rows to acknowledge, the lapsed rows answered before, and the rest of the fetched |
| Acknowledgements.LearnersSeeLaterAnswers | enterprise_access/apps/content_assignments/models.py:460-488 | learners are told nothing but for a lapsed assignment, and then whether its log holds an acknowledgement later than every lapse |
| AssignmentStore.Store.ClearPiiForExpiredAssignments | enterprise_access/apps/content_assignments/tasks.py:675-771 | counts and ids do not depend on dry run, cleared plus skipped is the queue, and only a real run writes |
| AssignmentStore.Store.SweepQueue | enterprise_access/apps/content_assignments/tasks.py:738-757 | the inner loop clears or skips each queued row of one configuration |
| PiiSweep.ClearedPlusSkipped | enterprise_access/apps/content_assignments/tasks.py:738-771 | every queued row is cleared or skipped, never both |
| PiiSweep.QueueHoldsEligibleRowsOnce | enterprise_access/apps/content_assignments/tasks.py:700-731 | the queue holds exactly the eligible rows, each once |
| PiiSweep.NextQueue | enterprise_access/apps/content_assignments/tasks.py:700-731 | clearing one configuration leaves the next one's queue as it was |
| PiiSweep.ClearedRowsAreNotClearedAgain | enterprise_access/apps/content_assignments/tasks.py:633-771 | a later sweep clears none of the rows an earlier real sweep cleared |
| PiiSweep.SweepClearsIff | enterprise_access/apps/content_assignments/tasks.py:633-771 | a sweep retires the email of exactly the expired, not yet retired rows of its configurations whose learner was told and whose ninety days end strictly before subsidy and enrollment deadline, and changes nothing else |
| CheckoutIntents.CheckoutTable.CleanupExpired | enterprise_access/apps/customer_billing/models.py:324-336 | exactly the overdue created intents become expired |
| CheckoutIntents.CheckoutTable.CreateIntentFor | enterprise_access/apps/customer_billing/models.py:533-653 | sweep, check, then patch or create; a failure leaves the table as it was before the sweep |
| CheckoutIntents.CheckoutTable.CreateFreeTrialCheckoutSession | enterprise_access/apps/customer_billing/api.py:411-452 | validate, reserve and store the Stripe identifiers; reserved exactly when both steps accept |
| CheckoutIntents.CheckoutTable.UpdateStripeIdentifiers | enterprise_access/apps/customer_billing/models.py:694-702 | non-empty identifiers replace the stored ones |
| CheckoutIntents.CheckoutTable.MarkAsPaid | enterprise_access/apps/customer_billing/models.py:253-274 | accepted exactly from created, or from paid with the same given identifiers; the intent is then paid and carries every given identifier |
| CheckoutIntents.CheckoutTable.MarkOutcome | enterprise_access/apps/customer_billing/models.py:276-316 | fulfilled and the two error marks are accepted exactly when the table and the workflow column allow them |
| CheckoutIntents.CheckoutTable.MarkStalledFulfillmentIntents | enterprise_access/apps/customer_billing/models.py:339-422 | exactly the paid intents untouched for the threshold become stalled, and they are the ones returned |
| CheckoutIntents.CheckoutTable.LinkCheckoutIntent | enterprise_access/apps/provisioning/models.py:53-87 | a fulfillable intent for the slug is linked to the workflow; none is found exactly when there is none |
| CheckoutIntents.CheckoutTable.ErrorCheckoutIntent | enterprise_access/apps/provisioning/models.py:89-99 | the linked intent is set to the provisioning error state whatever its state; without one nothing changes |
| CheckoutIntents.CheckoutTable.FulfillCheckoutIntent | enterprise_access/apps/provisioning/models.py:101-110 | the linked intent is fulfilled whatever its state; without one nothing changes |
| CheckoutProofs.CreateFailsIff | enterprise_access/apps/customer_billing/models.py:574-653 | the three failures, each exactly when: half a pair is given; the user's intent has failed; a new pair is asked for and another user's live reservation has its slug or name |
| CheckoutProofs.SuccessLeavesNothingOverdue | enterprise_access/apps/customer_billing/models.py:574-653 | on success no created intent is overdue, slugs and names still come in pairs, and no intent but the user's is added |
| CheckoutProofs.OneReservation | enterprise_access/apps/customer_billing/models.py:512-531 | writing an active intent keeps reservations exclusive if and only if its pair can be reserved |
| CheckoutProofs.CreateKeepsExclusiveIff | enterprise_access/apps/customer_billing/models.py:604-617 | `create_intent` keeps reservations exclusive if and only if it does not revive an expired intent whose unchanged pair is taken |
| CheckoutProofs.ValidatedSessionsReviveNothingTaken | enterprise_access/apps/customer_billing/api.py:117-156 | the session path has checked slug and name, so it never revives a taken pair |
| CheckoutProofs.SessionKeepsInv | enterprise_access/apps/customer_billing/api.py:411-452 | a checkout session keeps exclusivity, complete pairs and paid links |
| CheckoutProofs.MarkKeepsInv | enterprise_access/apps/customer_billing/models.py:253-316 | every mark keeps exclusivity, complete pairs and paid links |
| CheckoutProofs.PatchKeepsExclusiveIff | enterprise_access/apps/api/serializers/customer_billing.py:151-177 | an update request keeps reservations exclusive if and only if it does not reopen an expired intent whose pair is taken |
| CheckoutProofs.StepKeepsInv | enterprise_access/apps/customer_billing/models.py:232-422 | every step keeps the invariant, except a direct reservation or an update request that revives a taken pair |
| CheckoutProofs.RunsKeepReservationsExclusive | enterprise_access/apps/customer_billing/models.py:574-653 | over every run no two active intents share a slug or a name |
| CheckoutProofs.SessionRunsKeepLookupsUnambiguous | enterprise_access/apps/customer_billing/api.py:417-433 | runs of sessions, sweeps, marks, workflow steps and update requests that reopen nothing keep the invariant, so the lookup by slug never has two answers |
| CheckoutProofs.FulfillableLookupIsUnambiguous | enterprise_access/apps/provisioning/models.py:53-66 | at most one fulfillable intent answers to a slug |
| CheckoutProofs.StepFollowsTheTable | enterprise_access/apps/customer_billing/constants.py:85-110 | each table-checked step leaves an intent in its state or takes it along one of the ten listed moves |
| CheckoutProofs.RunsFollowTheTable | enterprise_access/apps/customer_billing/constants.py:85-110 | over every run of such steps an intent traces a path of those moves |
| CheckoutProofs.PaidIntentsOnlyMoveForward | enterprise_access/apps/customer_billing/constants.py:85-110 | once paid, never created or expired again; each change lowers a rank, so at most two follow |
| CheckoutProofs.PaidStaysPaidInEveryRun | enterprise_access/apps/provisioning/models.py:79-110 | the unchecked workflow writes included, no run takes a paid intent back to created or expired |
| CheckoutOutcomes.NothingIsFulfilledUnpaid | enterprise_access/apps/customer_billing/models.py:253-316 | over every run, unchecked writes included, an intent that ends paid, fulfilled or failed and was not so at the start has taken a payment, or been called paid by an update request, on the way |
| CheckoutProofs.WorkflowWritesFollowTheTableIff | enterprise_access/apps/provisioning/models.py:89-110 | the error write stays in the table exactly from two states, the fulfil write from every state a linked intent can have |
| CheckoutProofs.ReplayedPaymentsKeepStripeIds | enterprise_access/apps/customer_billing/models.py:253-274 | replaying `mark_as_paid` on a paid intent never changes its Stripe identifiers |
| CheckoutProofs.NewSessionKeepsPaidSessionIdIff | enterprise_access/apps/customer_billing/api.py:443-447 | a further session keeps a paid intent paid, and its session id exactly when Stripe returns none or the same |
| CheckoutOutcomes.PaymentIsAcceptedIff | enterprise_access/apps/customer_billing/models.py:253-274 | a payment is accepted from created, and from paid with the same given identifiers, and from no other state; the intent is then paid and carries every given identifier |
| CheckoutOutcomes.OutcomeIsAcceptedIff | enterprise_access/apps/customer_billing/models.py:276-316 | fulfilment is accepted from paid, fulfilled and the three errored states, an error mark from paid and its own state, unless its workflow is another intent's; each writes its state, message and workflow |
| CheckoutOutcomes.UpdateIsAcceptedIff | enterprise_access/apps/api/serializers/customer_billing.py:151-177 | for all forty-nine pairs of states, an update is accepted along the ten moves or to the same state, and refused otherwise |
| CheckoutOutcomes.StallsIff | enterprise_access/apps/customer_billing/models.py:339-422 | exactly the paid intents not modified within the threshold become stalled, with a message |
| CheckoutOutcomes.WorkflowStepsWrite | enterprise_access/apps/provisioning/models.py:53-110 | linking reaches a paid or errored intent of the slug, unless another intent has the workflow; the error and fulfil steps reach the intent with the workflow in any state |
| CheckoutOutcomes.SweepExpiresIff | enterprise_access/apps/customer_billing/models.py:324-336 | exactly the created intents whose time has run out become expired |
| CheckoutOutcomes.CreateWrites | enterprise_access/apps/customer_billing/models.py:619-653 | on success a paid or fulfilled intent of the user stays as it is; otherwise the user's intent is reserved for twenty-four hours at the requested quantity, keeps what the request does not give and merges the terms; the others are only swept |
| CheckoutOutcomes.SessionWrites | enterprise_access/apps/customer_billing/api.py:411-452 | a session changes the table if and only if it is valid and its pair can be reserved, and then stores the identifiers that Stripe answers with |
| CheckoutOutcomes.ValidatesIff | enterprise_access/apps/customer_billing/api.py:117-156 | a session is valid if and only if the other checks pass, slug and name are given, and no non-expired intent but the validating user's has either |
| StripeEvents.StripeEventHandler.PersistStripeEvent | enterprise_access/apps/customer_billing/stripe_event_handlers.py:66-99 | an event is stored once; a stored one is left alone |
| StripeEvents.StripeEventHandler.LinkEventData | enterprise_access/apps/customer_billing/stripe_event_handlers.py:131-138 | a stored event without an intent is linked, a linked one is not |
| StripeEvents.StripeEventHandler.HandlePaidInvoice | enterprise_access/apps/customer_billing/stripe_event_handlers.py:203-243 | a paid invoice marks its intent paid and links the event, or is refused as the table says |
| StripeEvents.StripeEventHandler.FindPriorSummary | enterprise_access/apps/customer_billing/models.py:675-692 | the scan finds a latest summary of the intent strictly before the event, or none exactly when there is none |
| StripeEvents.StripeEventHandler.ProcessTrialToPaidRenewal | enterprise_access/apps/customer_billing/stripe_event_handlers.py:402-465 | the newest unprocessed renewal takes the event, is sent to the license manager and marked processed, or an exception stops it where it is |
| StripeEvents.StripeEventHandler.Dispatch | enterprise_access/apps/customer_billing/stripe_event_handlers.py:160-194 | persist, handle, and mark as handled unless the handler raised; what was saved before an exception stays |
| StripeEvents.NewestUnprocessed | enterprise_access/apps/customer_billing/stripe_event_handlers.py:418-428 | the chosen renewal belongs to the intent and is unprocessed; none is chosen only when all are processed |
| StripeEventProofs.ProcessingKeepsInv | enterprise_access/apps/customer_billing/models.py:739-764 | processing keeps one event per renewal and the record of calls in step with the processed renewals |
| StripeEventProofs.RunsKeepInv | enterprise_access/apps/customer_billing/stripe_event_handlers.py:346-359 | every sequence of deliveries and tracked renewals keeps that invariant |
| StripeEventProofs.RedeliveryNeverProcessesTwice | enterprise_access/apps/customer_billing/stripe_event_handlers.py:402-465 | successful calls name each renewal at most once, exactly the processed ones, and no event twice |
| StripeDeliveries.RunsProcessIffTurnedPaid | enterprise_access/apps/customer_billing/stripe_event_handlers.py:330-465 | over every run a renewal ends processed if and only if it was so at the start or a delivery turned its intent's subscription paid with this renewal next, its event free and the license manager answering |
| StripeEventProofs.TrackedRenewalsStay | enterprise_access/apps/customer_billing/models.py:739-764 | a new unprocessed renewal whose event no other carries is tracked and stays with its intent and plan in every run |
| StripeEventProofs.RedeliveredEventProcessesNothing | enterprise_access/apps/customer_billing/stripe_event_handlers.py:402-465 | an event that has processed a renewal processes nothing when it comes again |
| StripeDeliveries.FailedCallIsRetried | enterprise_access/apps/customer_billing/stripe_event_handlers.py:330-465 | over two deliveries: after a failed call of the license manager, redelivering the event makes one call for the renewal that the first one had taken and processes it |
| StripeDeliveries.TrialToPaidProcessesOne | enterprise_access/apps/customer_billing/stripe_event_handlers.py:330-465 | an update of a known intent from trialing to active attaches its event to the intent's last unprocessed renewal when no other renewal carries it; if the license manager answers, one call is added and the renewal is processed, otherwise the delivery raises |
| StripeDeliveries.OtherwiseNothingIsProcessed | enterprise_access/apps/customer_billing/stripe_event_handlers.py:346-359 | every other delivery leaves renewals and calls as they were |
| StripeDeliveries.DeliveryPaysIff | enterprise_access/apps/customer_billing/stripe_event_handlers.py:203-243 | a delivery changes an intent if and only if it is a paid invoice of a known intent that takes the payment; the intent is then paid with the event's customer |
| StripeDeliveries.DeliveryRaisesIff | enterprise_access/apps/customer_billing/stripe_event_handlers.py:160-395 | the exact condition, by kind of event, under which a delivery raises |
| StripeDeliveries.DeliveryRecords | enterprise_access/apps/customer_billing/stripe_event_handlers.py:66-138 | a delivery touches the record of its own event only: first payload kept, a missing link filled in by a handler that links, handled once a delivery has not raised |
| StripeDeliveries.PriorIsTheLatestEarlier | enterprise_access/apps/customer_billing/models.py:675-692 | a new update is compared with its intent's latest strictly earlier record, or with none exactly when there is none |
| StripeEventProofs.DeliveryKeepsEvents | enterprise_access/apps/customer_billing/stripe_event_handlers.py:66-99 | a delivery keeps stored payloads, links and handled marks, and adds at most its own id |
| StripeEventProofs.OneRecordPerEvent | enterprise_access/apps/customer_billing/stripe_event_handlers.py:66-99 | over every sequence there is one record per delivered id, holding the first payload |
| Licences.GroupByStatus | enterprise_access/apps/bffs/handlers.py:300-321 | the grouping loop files every licence under its status, in order |
| Licences.RewriteLicences | enterprise_access/apps/bffs/handlers.py:463-474 | the nested loop appends, for each listed licence, one entry per activated licence up to a match |
| Licences.LearnerPortalHandler.LoadSubscriptionLicenses | enterprise_access/apps/bffs/handlers.py:223-321 | loading sorts, groups and picks |
| Licences.LearnerPortalHandler.CheckAndActivateAssignedLicense | enterprise_access/apps/bffs/handlers.py:402-482 | activations are called in order and stop at an exception; otherwise buckets, list and pick are rebuilt |
| Licences.LearnerPortalHandler.UpdateContext | enterprise_access/apps/bffs/handlers.py:440-482 | the rebuilt buckets, flat list and pick follow from the activated licences |
| Licences.LearnerPortalHandler.CheckAndAutoApplyLicense | enterprise_access/apps/bffs/handlers.py:484-544 | auto-apply is tried only for a linked, eligible learner with no licences |
| Licences.LearnerPortalHandler.ProcessSubscriptionLicenses | enterprise_access/apps/bffs/handlers.py:365-389 | a current activated licence ends the pass; otherwise activation, then auto-apply |
| LicenceProofs.BucketsPutCurrentFirst | enterprise_access/apps/bffs/handlers.py:281-321 | each bucket holds exactly the licences of its status: first those of current plans, in loaded order, then the others, in loaded order |
| LicenceProofs.GroupsArePermutation | enterprise_access/apps/bffs/handlers.py:281-321 | every licence is in its own bucket as often as it was loaded and in no other |
| LicenceProofs.PickIsTheBestLicence | enterprise_access/apps/bffs/handlers.py:262-321 | the pick has the least status rank of all loaded licences; it is the first current one of its status if any is current, else the first of its status; none is picked only when no status is ranked |
| LicenceProofs.OnePassActivatesOrApplies | enterprise_access/apps/bffs/handlers.py:365-544 | an activated licence of a current plan ends the pass; with nothing loaded only auto-apply is tried, exactly for a linked and eligible learner, and leaves the applied licence or an error; otherwise only the assigned licences of current plans are activated |
| LicenceProofs.RoundCallsKeysInOrder | enterprise_access/apps/bffs/handlers.py:402-438 | a round calls the license manager with the given keys in order up to the first that fails, and counts an error for each licence without a key and for the failure |
| LicenceProofs.RoundKeepsAnswers | enterprise_access/apps/bffs/handlers.py:402-438 | every answered activation is kept, in the order of the calls |
| LicenceProofs.RoundAddsToActivated | enterprise_access/apps/bffs/handlers.py:440-446 | activated licences go behind the current activated ones, and no bucket but those of activated and assigned licences changes |
| LicenceProofs.RoundKeepsTheRestAssigned | enterprise_access/apps/bffs/handlers.py:447-461 | the assigned bucket keeps exactly its current licences that were not activated, and is dropped when empty |
| LicenceProofs.RoundMovesActivatedLicences | enterprise_access/apps/bffs/handlers.py:402-461 | the two buckets hold exactly the formerly current assigned licences, each once, with the activated ones moved |
| LicenceProofs.FlatListIsReplacedIffOneActivated | enterprise_access/apps/bffs/handlers.py:463-474 | the flat list is replaced pointwise if and only if at most one licence was activated |
| LicenceProofs.RewriteRepeats | enterprise_access/apps/bffs/handlers.py:463-474 | a listed licence is repeated once for every activated licence before its own, which is appended last |
| MetadataCache.Cache.ServeCached | enterprise_access/apps/content_metadata/api.py:43-72 | cached records are served once per distinct key and the rest is left to fetch |
| MetadataCache.Cache.StoreFetched | enterprise_access/apps/content_metadata/api.py:79-85 | everything fetched is stored, a later record for a key wins |
| MetadataCache.Cache.GetAndCacheCatalogContentMetadata | enterprise_access/apps/content_metadata/api.py:27-98 | the answer is the cached records followed by the fetched ones, and the fetched ones are stored |
| MetadataCache.CachedRecordsAnswer | enterprise_access/apps/content_metadata/api.py:63-72 | from a coherent cache the served records are exactly the backend's for the cached keys |
| MetadataCache.CachedInKeyOrder | enterprise_access/apps/content_metadata/api.py:63-72 | served records stand in the order of the distinct keys |
| MetadataCache.StoringKeepsCoherence | enterprise_access/apps/content_metadata/api.py:79-85 | storing faithful records keeps the cache coherent and loses no entry |
| MetadataCache.LastFetchedIsStored | enterprise_access/apps/content_metadata/api.py:79-85 | of several fetched records for a key the last one is stored |
| MetadataCache.CallsAgreeWithTheBackend | enterprise_access/apps/content_metadata/api.py:27-98 | whatever was cached, a call returns exactly the backend's records for the distinct keys and keeps the cache coherent |
| MetadataCache.SecondCallFetchesOnlyUnknownKeys | enterprise_access/apps/content_metadata/api.py:63-77 | a second call asks only for keys the backend does not know |
| RedemptionIndex.GroupBySubsidy | enterprise_access/apps/subsidy_access_policy/subsidy_api.py:134-136 | policies are grouped under exactly their subsidies |
| RedemptionIndex.IndexSubsidy | enterprise_access/apps/subsidy_access_policy/subsidy_api.py:143-161 | the inner loops append to each entry exactly the matching transactions, in order |
| RedemptionIndex.GetRedemptionsByContentAndPolicy | enterprise_access/apps/subsidy_access_policy/subsidy_api.py:112-163 | each entry is exactly the filter of the policy's own subsidy by content and policy, and no entry is empty |
| RedemptionIndex.MatchingInOrder | enterprise_access/apps/subsidy_access_policy/subsidy_api.py:143-161 | every matching transaction stands in its entry, in the order of the subsidy |
| RedemptionIndex.EntriesTotalTheMatches | enterprise_access/apps/subsidy_access_policy/subsidy_api.py:134-163 | in the returned index, a policy's entries over all contents at which it has one total the transactions of its subsidy that name it |

## Left out

- AssignmentStore.Store.ExpireAssignment: changes the assignment only; Approvals.RequestDesk.ExpireAssignment adds the linked request.
- AssignmentStore.Store.ReverseAssignment: changes the assignment only; Approvals.RequestDesk.ReverseAssignment adds the linked request and its audit action. A database error during the reversal is not modelled.
- AssignmentStore.Store.ClearAndSave: the history rows that are scrubbed with the email are not modelled, because no operation of the model reads them.
- RequestRuns.ApprovedAtMostOncePerOpening: assumes that the policy calls valid only requests that it was given; acceptance of a request is not a step of the run.
- JointRuns.RunsKeepRequestsOnTheirCourse: assumes that the requests handed to an approval are stored ones described by their own course.
- ApprovalCalls.EveryRequestEndsOnceIffTheCallReturns: assumes that the policy splits the processed requests into valid and failed ones.
- AllocationEffects.ClearedRowIsReused: speaks of a clearing that the key constraints accept.
- AssignmentStore.Store.ClearPiiForExpiredAssignments: assumes that the random retired emails do not collide, since a collision would raise in the middle of the sweep.
- AssignmentStore.Store.ClearPiiForExpiredAssignments: the order by expiry time inside one configuration is replaced by table order.
- RedemptionIndex.GetRedemptionsByContentAndPolicy: assumes policies with distinct uuids, their primary key.
- CheckoutProofs.SessionKeepsInv: assumes that the user known to the slug and name checks is the requesting user or not yet known.
- MetadataCache.CallsAgreeWithTheBackend: assumes injective cache keys; expiry of cached entries and an HTTP error during the fetch are not modelled.
- AssignmentStore.Store.AllocateAssignments: new rows are created in the order of the requested emails; the code collects those emails in an unordered set.
- LMS user ids are positive; an id of 0, which the code treats as missing, is not representable.
- Lower-casing is ASCII only; database collations of slugs, names and emails are not modelled beyond it.
- The email format check of full model validation is not modelled; the quantity and key checks are.
- The text of the message stored with a stalled intent is not modelled beyond its presence.
- Key constraints are checked at the end of a bulk statement on the case-insensitive email; the row-by-row timing inside one statement is not modelled.
- Each service call is one atomic step; interleavings of concurrent calls are not modelled.
- History tables, content titles, the administrator's id, emails and background jobs are not modelled, except that a job may fail.
- Linked, notified and redeemed action logs are not modelled; the cancellation, expiry and acknowledgement logs are.
- Content metadata and its date strings are passed in as parsed integers; the assignment's own deadline lookups use them.
- The state of a learner credit request after its assignment is redeemed is not modelled.
- An update request's country and terms columns are not modelled; its state column is.
- The policy's approval decision and its lock are given as answers; redemption is an environment step from allocated to accepted.
- Re-processing of workflow steps and the administrator's bulk expiry bypass the state machine and are not modelled.
- A failure to save a processed renewal after a successful license manager call is not modelled.
- Deactivation of past-due plans, cancellation of future plans and the emails of the event handlers appear only as one outcome flag.
- Nudges, administrator annotations, price formatting and the learner's own assignment lookup would only add easy members.
