# CleverBus reliability core, modelled in Dafny

CleverBus is an enterprise service bus built on Apache Camel. This project models the part of it that
keeps asynchronous message processing reliable, and proves properties of that model:

- **Message state machine** (`Messages`): the message table and the `MessageService`
  transitions. These are OK (with the "all children of the parent done" check), PROCESSING, WAITING
  (only when not already processed), WAITING_FOR_RES, PARTLY_FAILED (with and without counting a
  failure), FAILED (which also fails the parent), POSTPONED, and the funnel setters.
- **Funnel queries and guaranteed order** (`FunnelQueries`, `GuaranteedOrder`): the queries for
  messages that share a funnel value, ordered by message timestamp. The route's decision postpones a
  guaranteed-order message while an earlier PROCESSING message shares one of its funnel values.
- **External call ledger** (`ExternalCalls`, `ExternalCallDao`): the external call entity, its two
  factories, `equals` and `hashCode` (in 32-bit arithmetic). The table keeps the unique
  (operation name, entity ID) key. It supports insert, the optimistic and pessimistic locks, the
  point lookup, the due-confirmation query and the stuck-call query.
- **Repair job** (`Repair`): the periodic sweep over messages stuck in PROCESSING. It works in
  batches of ten. A message that has failed `countPartlyFailsBeforeFailed` times or more goes to the
  fatal-error route with error E116. Any other message becomes PARTLY_FAILED with one more failure
  and the batch's timestamp.
- **Exception classification** (`ExceptionTranslator`, `BasicRoute`): the error code derived from
  an exception and the uniform error text. Also the choice between the fatal route and the retry
  route, and the route-ID scheme.
- **XPath validation** (`XPathValidation`): the check that mandatory elements have text. It fails
  with E110 and lists the missing paths.

State that the source changes in place is a class whose methods reassign a field:
`MessageStore.rows`, `ExternalCallTable.rows` and `RepairMessageService.sent`. The class methods are
proved against functions of the old state. Those functions carry the lemmas.

Inputs the source reads from outside are parameters:

- the current time is `now`;
- the repair job's clock is `clock(b)`, the time taken for batch number `b`;
- XPath evaluation is an oracle `eval`;
- the error descriptions of the enum are `desc`.

Timestamps are milliseconds, so `DateUtils.addSeconds(now, -i)` is `now - i * 1000`.

## Model

| member | source | states |
|---|---|---|
| Messages.FindFrom | core-spi/src/main/java/org/cleverbus/spi/msg/MessageService.java:139-146 | the lookup by ID gives a position holding that ID, and nothing exactly when no message has the ID |
| Messages.MessageStore.SetStateOk | core-spi/src/main/java/org/cleverbus/spi/msg/MessageService.java:58-66 | the message becomes OK and nothing else changes; for a child message the result says whether every child of its parent is now OK; the table stays valid |
| Messages.MessageStore.SetStateProcessing | core-spi/src/main/java/org/cleverbus/spi/msg/MessageService.java:68-73 | the message becomes PROCESSING, nothing else changes, the table stays valid |
| Messages.MessageStore.SetStateWaiting | core-spi/src/main/java/org/cleverbus/spi/msg/MessageService.java:75-80 | the message becomes WAITING unless it is already processed (OK or FAILED), in which case the table is unchanged |
| Messages.MessageStore.SetStateWaitingForResponse | core-spi/src/main/java/org/cleverbus/spi/msg/MessageService.java:82-87 | the message becomes WAITING_FOR_RES, nothing else changes |
| Messages.MessageStore.SetStatePartlyFailedWithoutError | core-spi/src/main/java/org/cleverbus/spi/msg/MessageService.java:89-94 | the message becomes PARTLY_FAILED with its failure count unchanged |
| Messages.MessageStore.SetStatePartlyFailed | core-spi/src/main/java/org/cleverbus/spi/msg/MessageService.java:96-109 | the message becomes PARTLY_FAILED with one more failure and the code of the failure (explicit code first, else derived from the exception) |
| Messages.MessageStore.SetStateFailed | core-spi/src/main/java/org/cleverbus/spi/msg/MessageService.java:111-126 | the message becomes FAILED with the failure's code, and its parent becomes FAILED too |
| Messages.MessageStore.SetStateFailedWithCode | core-spi/src/main/java/org/cleverbus/spi/msg/MessageService.java:128-137 | the message becomes FAILED with the given code, and its parent becomes FAILED too |
| Messages.MessageStore.SetStatePostponed | core-spi/src/main/java/org/cleverbus/spi/msg/MessageService.java:232-237 | the message becomes POSTPONED, nothing else changes |
| Messages.MessageStore.SetFunnelComponentId | core-spi/src/main/java/org/cleverbus/spi/msg/MessageService.java:239-245 | only the message's funnel component ID changes |
| Messages.MessageStore.SetFunnelValue | core-spi/src/main/java/org/cleverbus/spi/msg/MessageService.java:247-253 | only the message's funnel values change |
| Messages.MessageStore.SetFunnelComponentIdAndValue | core-spi/src/main/java/org/cleverbus/spi/msg/MessageService.java:255-262 | only the message's funnel component ID and values change |
| Messages.MessageStore.FailWithParent | core-spi/src/main/java/org/cleverbus/spi/msg/MessageService.java:111-137 | the shared body of both FAILED transitions: the message FAILED with the code, its parent FAILED when present, the table valid |
| Messages.IdentitiesPreserveValidity | core-spi/src/main/java/org/cleverbus/spi/msg/MessageService.java:58-137 | a transition that changes lifecycle fields only keeps IDs unique and parent references resolvable |
| Messages.FailedWithParentEffects | core-spi/src/main/java/org/cleverbus/spi/msg/MessageService.java:111-126 | after FAILED the message holds the code, keeps its failure count, its parent is FAILED, every other message is untouched |
| Messages.PartlyFailedCounts | core-spi/src/main/java/org/cleverbus/spi/msg/MessageService.java:89-109 | PARTLY_FAILED with error counts exactly one more failure; without error it counts none |
| Messages.WaitingGuard | core-spi/src/main/java/org/cleverbus/spi/msg/MessageService.java:75-80 | a processed message is never reopened to WAITING; any other one becomes WAITING |
| Messages.LastChildCompletesParent | core-spi/src/main/java/org/cleverbus/spi/msg/MessageService.java:58-66 | after OK on a child, all children of the parent are OK exactly when every sibling already was |
| Messages.FunnelSettersCompose | core-spi/src/main/java/org/cleverbus/spi/msg/MessageService.java:239-262 | setting the funnel ID and then the values equals the combined setter, which changes only those two fields |
| FunnelQueries.ForRoute | core-spi/src/main/java/org/cleverbus/spi/msg/MessageService.java:199-212 | the route query: messages sharing a funnel value in an included state, oldest first; characterised by ForRouteMembership and ForRouteIsSortedPermutation |
| FunnelQueries.ForFunnel | core-spi/src/main/java/org/cleverbus/spi/msg/MessageService.java:214-230 | the funnel query: also the funnel component, and for PROCESSING messages the idle window; characterised by ForFunnelMembership |
| FunnelQueries.CountProcessingForFunnel | core-spi/src/main/java/org/cleverbus/spi/msg/MessageService.java:185-197 | the number of live PROCESSING messages of the funnel sharing a value; characterised by CountPositiveIff |
| FunnelQueries.SortByTimestamp | core-spi/src/main/java/org/cleverbus/spi/msg/MessageService.java:210 | the result is ordered by message timestamp and is a permutation of the input |
| FunnelQueries.InsertKeepsSorted | core-spi/src/main/java/org/cleverbus/spi/msg/MessageService.java:210 | inserting by timestamp keeps a timestamp-ordered list ordered |
| FunnelQueries.ForRouteMembership | core-spi/src/main/java/org/cleverbus/spi/msg/MessageService.java:199-212 | a message is returned by the route query exactly when it is in the table, shares a funnel value and is in an included state |
| FunnelQueries.ForRouteIsSortedPermutation | core-spi/src/main/java/org/cleverbus/spi/msg/MessageService.java:199-212 | the route query returns the matching messages with multiplicity, oldest first |
| FunnelQueries.ExcludeFailedIff | core-spi/src/main/java/org/cleverbus/spi/msg/MessageService.java:207-209 | a FAILED message is returned without the exclusion flag and not with it |
| FunnelQueries.ForFunnelMembership | core-spi/src/main/java/org/cleverbus/spi/msg/MessageService.java:214-230 | a message is returned by the funnel query exactly when it passes every filter, including the idle window for PROCESSING messages |
| FunnelQueries.CountPositiveIff | core-spi/src/main/java/org/cleverbus/spi/msg/MessageService.java:185-197 | the processing count is positive exactly when some live PROCESSING message of the funnel shares a value |
| FunnelQueries.EmptyFunnelValuesMatchNothing | core-spi/src/main/java/org/cleverbus/spi/msg/MessageService.java:185-230 | with no funnel values all three queries return nothing |
| GuaranteedOrder.Admit | core/src/test/java/org/cleverbus/core/common/asynch/AsynchInMessageRouteGuaranteedOrderTest.java:107-175 | the route passes the same message on; postponed ones are POSTPONED, the others keep their state; the table write is the caller's `MessageStore.SetStatePostponed` (see PostponementIsStored) |
| GuaranteedOrder.PostponementIsStored | core/src/test/java/org/cleverbus/core/common/asynch/AsynchInMessageRouteGuaranteedOrderTest.java:122-174 | after `SetStatePostponed` on the message's row the stored row is exactly the message passed on, POSTPONED; a message that proceeds is stored as it is passed on |
| GuaranteedOrder.NoGuaranteedOrderNeverPostponed | core/src/test/java/org/cleverbus/core/common/asynch/AsynchInMessageRouteGuaranteedOrderTest.java:107-124 | without guaranteed order the message proceeds, keeps its state and gets NEW_MSG_PRIORITY |
| GuaranteedOrder.OnlyMessageProceeds | core/src/test/java/org/cleverbus/core/common/asynch/AsynchInMessageRouteGuaranteedOrderTest.java:126-137 | a message alone in the table proceeds unchanged |
| GuaranteedOrder.EarliestProceeds | core/src/test/java/org/cleverbus/core/common/asynch/AsynchInMessageRouteGuaranteedOrderTest.java:139-156 | a message no later than every competing PROCESSING message proceeds unchanged |
| GuaranteedOrder.LaterIsPostponed | core/src/test/java/org/cleverbus/core/common/asynch/AsynchInMessageRouteGuaranteedOrderTest.java:158-175 | a message with an earlier PROCESSING competitor is postponed and passed on as POSTPONED |
| GuaranteedOrder.PostponedIff | core/src/test/java/org/cleverbus/core/common/asynch/AsynchInMessageRouteGuaranteedOrderTest.java:107-175 | postponed exactly when ordering is asked for and an earlier competitor exists |
| GuaranteedOrder.NoFunnelValuesProceeds | core-spi/src/main/java/org/cleverbus/spi/msg/MessageService.java:199-205 | a message without funnel values has no competitor and proceeds |
| GuaranteedOrder.PostponedIsNotFirstInLine | core/src/test/java/org/cleverbus/core/common/asynch/AsynchInMessageRouteGuaranteedOrderTest.java:158-175 | a postponed message is not first in line: the route query's oldest entry is older than it |
| GuaranteedOrder.ScenarioLaterPostponedEarlierAdmitted | core/src/test/java/org/cleverbus/core/common/asynch/AsynchInMessageRouteGuaranteedOrderTest.java:139-175 | the test scenario: 100 s later is postponed, 100 s earlier proceeds and stays PROCESSING |
| ExternalCalls.CreateFailedConfirmation | core-api/src/main/java/org/cleverbus/api/entity/ExternalCall.java:109-125 | an unsaved FAILED confirmation of the message, keyed by its correlation ID, one failure, both timestamps now |
| ExternalCalls.CreateProcessingCall | core-api/src/main/java/org/cleverbus/api/entity/ExternalCall.java:133-155 | an unsaved PROCESSING call with the given key and message, no failures, both timestamps now |
| ExternalCalls.IsConfirmationCall | core-api/src/main/java/org/cleverbus/api/entity/ExternalCall.java:294-296 | a call is a confirmation when its operation is "confirmation"; see FactoriesClassify |
| ExternalCalls.Equals | core-api/src/main/java/org/cleverbus/api/entity/ExternalCall.java:298-311 | two calls are equal when their IDs are, null included; see EqualsIsEquivalence |
| ExternalCalls.HashCode | core-api/src/main/java/org/cleverbus/api/entity/ExternalCall.java:313-318 | `HashCodeBuilder(17, 37).append(id)` in 32-bit arithmetic: a Java `int`; see EqualsAgreesWithHashCode and SampleHashes |
| ExternalCalls.FactoriesClassify | core-api/src/main/java/org/cleverbus/api/entity/ExternalCall.java:294-296 | a failed confirmation is a confirmation call; a processing call is one exactly when its operation is "confirmation" |
| ExternalCalls.EqualsIsEquivalence | core-api/src/main/java/org/cleverbus/api/entity/ExternalCall.java:298-311 | `equals` is reflexive, symmetric and transitive |
| ExternalCalls.EqualsAgreesWithHashCode | core-api/src/main/java/org/cleverbus/api/entity/ExternalCall.java:298-318 | equal calls have equal hash codes |
| ExternalCalls.UnsavedCallsAreEqual | core-api/src/main/java/org/cleverbus/api/entity/ExternalCall.java:298-318 | any two unsaved calls are equal and hash to 629 |
| ExternalCalls.SampleHashes | core-api/src/main/java/org/cleverbus/api/entity/ExternalCall.java:313-318 | IDs 0 and -1 hash to 629; IDs 1 and 2^32 hash to 630 |
| ExternalCallDao.ExternalCallTable.Insert | core/src/main/java/org/cleverbus/core/common/dao/ExternalCallDaoJpaImpl.java:56-58 | saves an unsaved call under the next ID; a saved call or a taken key is rejected and nothing changes; the table stays valid |
| ExternalCallDao.ExternalCallTable.LockExternalCall | core/src/main/java/org/cleverbus/core/common/dao/ExternalCallDaoJpaImpl.java:94-103 | succeeds exactly for an attached call not in PROCESSING, which then becomes PROCESSING; on failure nothing changes |
| ExternalCallDao.ExternalCallTable.LockConfirmation | core/src/main/java/org/cleverbus/core/common/dao/ExternalCallDaoJpaImpl.java:135-144 | the same lock, returning the locked call in PROCESSING |
| ExternalCallDao.ExternalCallTable.LockRow | core/src/main/java/org/cleverbus/core/common/dao/ExternalCallDaoJpaImpl.java:94-103 | the lock step both locks share: IllegalArgument for a PROCESSING or unattached call, else only that row becomes PROCESSING |
| ExternalCallDao.InsertOutcome | core/src/main/java/org/cleverbus/core/common/dao/ExternalCallDaoJpaImpl.java:56-58 | `persist` under the unique key: the table with the row appended under the next ID, or EntityExists / DuplicateKey; see InsertThenGet and SecondInsertWithSameKeyRejected |
| ExternalCallDao.GetExternalCall | core/src/main/java/org/cleverbus/core/common/dao/ExternalCallDaoJpaImpl.java:68-90 | nothing, the one row with the key, or MultipleDataFound; see GetExternalCallOnValidTable and DuplicatedKeyIsReported |
| ExternalCallDao.FindConfirmation | core/src/main/java/org/cleverbus/core/common/dao/ExternalCallDaoJpaImpl.java:108-131 | the oldest-created FAILED confirmation idle past the interval, if any; see FindConfirmationIsOldestDue |
| ExternalCallDao.FindProcessingExternalCalls | core/src/main/java/org/cleverbus/core/common/dao/ExternalCallDaoJpaImpl.java:147-159 | at most 50 of the PROCESSING calls idle past the interval, all of them stuck; the model takes them in table order; see FindProcessingExternalCallsBounds |
| ExternalCallDao.WithKey | core/src/main/java/org/cleverbus/core/common/dao/ExternalCallDaoJpaImpl.java:72-78 | the lookup's rows are exactly the table's rows with the key |
| ExternalCallDao.InsertKeepsValid | core-api/src/main/java/org/cleverbus/api/entity/ExternalCall.java:57-59 | an insert of a fresh key keeps the unique key constraint and distinct IDs |
| ExternalCallDao.LockKeepsValid | core/src/main/java/org/cleverbus/core/common/dao/ExternalCallDaoJpaImpl.java:94-103 | locking a row keeps the table valid |
| ExternalCallDao.UniqueKeysAtMostOne | core/src/main/java/org/cleverbus/core/common/dao/ExternalCallDaoJpaImpl.java:68-90 | under the unique key, at most one row matches a key |
| ExternalCallDao.GetExternalCallOnValidTable | core/src/main/java/org/cleverbus/core/common/dao/ExternalCallDaoJpaImpl.java:68-90 | on a valid table the lookup never fails; it gives nothing exactly when no row has the key, else the row with it |
| ExternalCallDao.DuplicatedKeyIsReported | core/src/main/java/org/cleverbus/core/common/dao/ExternalCallDaoJpaImpl.java:83-87 | two rows with one key make the lookup fail with MultipleDataFound |
| ExternalCallDao.InsertThenGet | core/src/main/java/org/cleverbus/core/common/dao/ExternalCallDaoJpaImpl.java:56-90 | after a successful insert the lookup by its key returns exactly the saved row |
| ExternalCallDao.SecondInsertWithSameKeyRejected | core-api/src/main/java/org/cleverbus/api/entity/ExternalCall.java:57-59 | a second insert with a saved key is rejected as a duplicate key, not merged |
| ExternalCallDao.AtMostOneProcessingPerKey | core-api/src/main/java/org/cleverbus/api/entity/ExternalCall.java:57-59 | on a valid table at most one call per key is PROCESSING |
| ExternalCallDao.OldestDueFrom | core/src/main/java/org/cleverbus/core/common/dao/ExternalCallDaoJpaImpl.java:108-131 | the position found holds a due confirmation created no later than any other; none exactly when none is due |
| ExternalCallDao.FindConfirmationIsOldestDue | core/src/main/java/org/cleverbus/core/common/dao/ExternalCallDaoJpaImpl.java:108-131 | nothing exactly when no FAILED confirmation is idle past the interval, else the oldest-created such one |
| ExternalCallDao.StuckCalls | core/src/main/java/org/cleverbus/core/common/dao/ExternalCallDaoJpaImpl.java:150-153 | exactly the PROCESSING calls idle past the interval |
| ExternalCallDao.FindProcessingExternalCallsBounds | core/src/main/java/org/cleverbus/core/common/dao/ExternalCallDaoJpaImpl.java:147-159 | exactly min(stuck calls, 50) calls, all stuck, and every stuck one when there are no more than 50 |
| Repair.Batches | core/src/main/java/org/cleverbus/core/common/asynch/repair/RepairMessageServiceDbImpl.java:84-90 | every batch holds between one and ten messages |
| Repair.BatchesCoverInOrder | core/src/main/java/org/cleverbus/core/common/asynch/repair/RepairMessageServiceDbImpl.java:84-90 | the batches together are the whole list in order: each message exactly once |
| Repair.BatchIsSlice | core/src/main/java/org/cleverbus/core/common/asynch/repair/RepairMessageServiceDbImpl.java:86-89 | batch `b` is the slice from `10 b` to `min(10 b + 10, size)` |
| Repair.BatchOfPosition | core/src/main/java/org/cleverbus/core/common/asynch/repair/RepairMessageServiceDbImpl.java:53 | message `k` is element `k % 10` of batch `k / 10` |
| Repair.BatchAt | core/src/main/java/org/cleverbus/core/common/asynch/repair/RepairMessageServiceDbImpl.java:84-90 | the loop's `b`-th slice, from `min(10 b, size)` to `min(10 b + 10, size)`, is batch `b`, and the next slice starts at `min(10 (b + 1), size)` |
| Repair.FindProcessingMessages | core/src/main/java/org/cleverbus/core/common/asynch/repair/RepairMessageServiceDbImpl.java:93-101 | the positions of the PROCESSING messages not updated within the repeat interval; see CandidatesAreStuck |
| Repair.RepairedMessage | core/src/main/java/org/cleverbus/core/common/asynch/repair/RepairMessageServiceDbImpl.java:114-138 | one message's repair: unchanged at or over the ceiling, else PARTLY_FAILED, one more failure, updated at the batch time; see ExhaustedMessageIsRedirected and OtherMessageIsPartlyFailed |
| Repair.Handle | core/src/main/java/org/cleverbus/core/common/asynch/repair/RepairMessageServiceDbImpl.java:114-142 | one message of a batch: a send to the fatal route with E116 at or over the ceiling, else the repair in place; see HandleRepairs |
| Repair.BatchRun | core/src/main/java/org/cleverbus/core/common/asynch/repair/RepairMessageServiceDbImpl.java:108-146 | `updateMessagesInDB` on values: the batch's messages handled in order at one time; see BatchRunRepairs |
| Repair.RunUpTo | core/src/main/java/org/cleverbus/core/common/asynch/repair/RepairMessageServiceDbImpl.java:76-91 | the first `n` found messages handled in order, each at the time of its batch; see RunUpToRepairs and RunUpToSends |
| Repair.RepairRun | core/src/main/java/org/cleverbus/core/common/asynch/repair/RepairMessageServiceDbImpl.java:76-91 | `repairProcessingMessages` on values: every found message handled; see RepairRunEffect |
| Repair.RepairMessageService.constructor | core/src/main/java/org/cleverbus/core/common/asynch/repair/RepairMessageServiceDbImpl.java:63-73 | the configured interval and failure ceiling, nothing sent yet |
| Repair.RepairMessageService.RepairProcessingMessages | core/src/main/java/org/cleverbus/core/common/asynch/repair/RepairMessageServiceDbImpl.java:76-91 | table and sends after the job are the repair run of the stuck messages; the slice passed in round `b` is batch `b`, stamped `clock(b)`; the table stays valid |
| Repair.RepairMessageService.UpdateMessagesInDB | core/src/main/java/org/cleverbus/core/common/asynch/repair/RepairMessageServiceDbImpl.java:108-146 | table and sends after one batch are the batch's messages handled in order, all at the batch time |
| Repair.BatchIsRunStep | core/src/main/java/org/cleverbus/core/common/asynch/repair/RepairMessageServiceDbImpl.java:84-90 | handling one batch at its batch time continues the message-by-message run exactly |
| Repair.RunUpToKeepsIdentities | core/src/main/java/org/cleverbus/core/common/asynch/repair/RepairMessageServiceDbImpl.java:131-138 | the repair changes lifecycle fields only: IDs and parent references stay |
| Repair.HandleRepairs | core/src/main/java/org/cleverbus/core/common/asynch/repair/RepairMessageServiceDbImpl.java:114-138 | handling a message leaves its repaired version in its place, whether or not it is also sent |
| Repair.BatchRunRepairs | core/src/main/java/org/cleverbus/core/common/asynch/repair/RepairMessageServiceDbImpl.java:108-146 | after a batch each of its messages is repaired at the batch time, the rest is unchanged, and the sends are the exhausted ones in order |
| Repair.RunUpToRepairs | core/src/main/java/org/cleverbus/core/common/asynch/repair/RepairMessageServiceDbImpl.java:76-146 | after the first `n` found messages each is repaired at the time of its batch and nothing else has changed |
| Repair.RunUpToSends | core/src/main/java/org/cleverbus/core/common/asynch/repair/RepairMessageServiceDbImpl.java:114-129 | after the first `n` found messages the new sends are the exhausted ones among them, in order |
| Repair.RepairRunEffect | core/src/main/java/org/cleverbus/core/common/asynch/repair/RepairMessageServiceDbImpl.java:76-146 | a whole run repairs every found message at its batch time, leaves the rest alone, and sends exactly the exhausted ones |
| Repair.ExhaustedMessageIsRedirected | core/src/main/java/org/cleverbus/core/common/asynch/repair/RepairMessageServiceDbImpl.java:116-129 | a message at or over the ceiling is left as it is and sent to the fatal route with E116 |
| Repair.OtherMessageIsPartlyFailed | core/src/main/java/org/cleverbus/core/common/asynch/repair/RepairMessageServiceDbImpl.java:131-138 | any other message becomes PARTLY_FAILED with one more failure and the batch time; nothing is sent |
| Repair.SameBatchSameTimestamp | core/src/main/java/org/cleverbus/core/common/asynch/repair/RepairMessageServiceDbImpl.java:109-132 | two repaired messages of one batch get the same update time, the time of their batch |
| Repair.RedirectsAreExhausted | core/src/main/java/org/cleverbus/core/common/asynch/repair/RepairMessageServiceDbImpl.java:116-129 | a send is made exactly for a message at or over the ceiling, to the fatal route with E116 |
| Repair.StuckFromIsExact | core/src/main/java/org/cleverbus/core/common/asynch/repair/RepairMessageServiceDbImpl.java:93-101 | the candidate positions are increasing and are exactly the stuck messages |
| Repair.CandidatesAreStuck | core/src/main/java/org/cleverbus/core/common/asynch/repair/RepairMessageServiceDbImpl.java:93-101 | the candidates are exactly the PROCESSING messages not updated within the repeat interval, each once; the model lists them in table order |
| ExceptionTranslator.GetError | core/src/main/java/org/cleverbus/core/common/exception/ExceptionTranslator.java:168-184 | the first matching class test: the integration code, E102, E103, E117, else E100; see GetErrorIsGenericIff |
| ExceptionTranslator.MessageCode | core/src/main/java/org/cleverbus/core/common/exception/ExceptionTranslator.java:109-115 | the code the text prints: E100 re-derived from the root cause, others kept; see MessageCodeRule and NoCauseKeepsCode |
| ExceptionTranslator.RootExceptionMessage | core/src/main/java/org/cleverbus/core/common/exception/ExceptionTranslator.java:151-160 | "SimpleName: message" of the root cause, or of the exception itself without a cause |
| ExceptionTranslator.ComposeErrorMessage | core/src/main/java/org/cleverbus/core/common/exception/ExceptionTranslator.java:105-118 | "code: description (root entry)"; see ComposedMessageShape and ReDerivedCodeOnlyInText |
| ExceptionTranslator.Process | core/src/main/java/org/cleverbus/core/common/exception/ExceptionTranslator.java:80-96 | the translated exception: the explicit code when set, else the derived one, with the composed text and the cause; see ExplicitCodeWins |
| ExceptionTranslator.RootCause | core/src/main/java/org/cleverbus/core/common/exception/ExceptionTranslator.java:151-160 | the root cause is the last cause, and null for an exception without a cause |
| ExceptionTranslator.Entries | core/src/main/java/org/cleverbus/core/common/exception/ExceptionTranslator.java:133-140 | one "SimpleName: message" entry per throwable of the hierarchy, in order |
| ExceptionTranslator.MessagesInExceptionHierarchy | core/src/main/java/org/cleverbus/core/common/exception/ExceptionTranslator.java:126-143 | the text is the hierarchy's entries joined by " => " |
| ExceptionTranslator.HierarchyHasNoOuterSeparator | core/src/main/java/org/cleverbus/core/common/exception/ExceptionTranslator.java:132-140 | the text starts with the outermost exception's entry and ends with the root cause's |
| ExceptionTranslator.GetErrorIsGenericIff | core/src/main/java/org/cleverbus/core/common/exception/ExceptionTranslator.java:168-184 | the generic E100 comes exactly from null, an unclassified class, or an integration exception carrying E100 |
| ExceptionTranslator.ExplicitCodeWins | core/src/main/java/org/cleverbus/core/common/exception/ExceptionTranslator.java:83-89 | an explicit code becomes the translated exception's code; otherwise the code derived from the exception does |
| ExceptionTranslator.ReDerivedCodeOnlyInText | core/src/main/java/org/cleverbus/core/common/exception/ExceptionTranslator.java:105-118 | a generic wrapper around an I/O failure keeps code E100 while its text starts with "E103: " |
| ExceptionTranslator.NoCauseKeepsCode | core/src/main/java/org/cleverbus/core/common/exception/ExceptionTranslator.java:110-115 | an exception without a cause is never re-classified |
| ExceptionTranslator.MessageCodeRule | core/src/main/java/org/cleverbus/core/common/exception/ExceptionTranslator.java:110-115 | codes other than E100 are kept; E100 with a cause takes the root cause's code |
| ExceptionTranslator.ComposedMessageShape | core/src/main/java/org/cleverbus/core/common/exception/ExceptionTranslator.java:117 | the text is "code: description (" followed by the root cause's entry and ")" |
| BasicRoute.IndexOf | core-api/src/main/java/org/cleverbus/api/route/AbstractBasicRoute.java:160-177 | the index search gives -1 or a position at or after the start |
| BasicRoute.IsAsynch | core-api/src/main/java/org/cleverbus/api/route/AbstractBasicRoute.java:141-144 | true only for a Boolean TRUE header, false for a missing one |
| BasicRoute.NextUri | core-api/src/main/java/org/cleverbus/api/route/AbstractBasicRoute.java:158-186 | the handler's if/else chain over the index lookups; see NextUriFatalIff |
| BasicRoute.ExceptionHandlingAsWritten | core-api/src/main/java/org/cleverbus/api/route/AbstractBasicRoute.java:153-187 | `exceptionHandling` with `indexOfThrowable` (exact classes); see ExceptionHandlingAsWrittenFatalIff |
| BasicRoute.ExceptionHandling | core-api/src/main/java/org/cleverbus/api/route/AbstractBasicRoute.java:153-187 | the corrected handler with `indexOfType` (subclasses match); see ExceptionHandlingFatalIff |
| BasicRoute.HasText | core-api/src/main/java/org/cleverbus/api/route/AbstractBasicRoute.java:270-271 | Spring's `hasText`: some character is not whitespace |
| BasicRoute.RouteId | core-api/src/main/java/org/cleverbus/api/route/AbstractBasicRoute.java:269-274 | service name, "_", operation, "_route" |
| BasicRoute.InRouteId | core-api/src/main/java/org/cleverbus/api/route/AbstractBasicRoute.java:284-289 | service name, "_", operation, "_in_route" |
| BasicRoute.OutRouteId | core-api/src/main/java/org/cleverbus/api/route/AbstractBasicRoute.java:299-304 | service name, "_", operation, "_out_route" |
| BasicRoute.ExternalRouteId | core-api/src/main/java/org/cleverbus/api/route/AbstractBasicRoute.java:314-319 | system name, "_", operation, "_external_route" |
| BasicRoute.NextUriFatalIff | core-api/src/main/java/org/cleverbus/api/route/AbstractBasicRoute.java:160-184 | the fatal route is chosen exactly when some throwable of the chain is of a fatal class; otherwise the retry route |
| BasicRoute.ExceptionHandlingFatalIff | core-api/src/main/java/org/cleverbus/api/route/AbstractBasicRoute.java:153-187 | the corrected handler chooses the fatal route exactly when a throwable is an instance of a fatal class |
| BasicRoute.ExceptionHandlingAsWrittenFatalIff | core-api/src/main/java/org/cleverbus/api/route/AbstractBasicRoute.java:153-187 | the handler as written chooses the fatal route exactly when a throwable is of exactly a fatal class |
| BasicRoute.FatalBeatsLockFailure | core-api/src/main/java/org/cleverbus/api/route/AbstractBasicRoute.java:160-180 | a fatal class anywhere in the chain beats a lock failure anywhere |
| BasicRoute.PredicateValidationIsRetriedAsWritten | core-api/src/main/java/org/cleverbus/api/route/AbstractBasicRoute.java:160-164 | a subclass of Camel's ValidationException is labelled E102 but retried as written, and fatal when corrected |
| BasicRoute.ExactClassesAgree | core-api/src/main/java/org/cleverbus/api/route/AbstractBasicRoute.java:160-175 | for throwables of exactly the named classes both handlers agree |
| BasicRoute.RouteIdsPairwiseDistinct | core-api/src/main/java/org/cleverbus/api/route/AbstractBasicRoute.java:269-319 | for one name and operation the four route IDs are pairwise distinct |
| BasicRoute.RouteIdDeterminesOperation | core-api/src/main/java/org/cleverbus/api/route/AbstractBasicRoute.java:269-274 | within one kind and one name, the ID determines the operation |
| BasicRoute.RouteIdsCollideAcrossKinds | core-api/src/main/java/org/cleverbus/api/route/AbstractBasicRoute.java:269-289 | across kinds the scheme is ambiguous: the synchronous ID of `op_in` is the incoming ID of `op` |
| XPathValidation.ElementPath | core-api/src/main/java/org/cleverbus/api/route/XPathValidator.java:97-102 | an element's path is absolute and ends with "/" and the element name |
| XPathValidation.NoParentPath | core-api/src/main/java/org/cleverbus/api/route/XPathValidator.java:97-102 | without a parent the path is "/" and the element |
| XPathValidation.Paths | core-api/src/main/java/org/cleverbus/api/route/XPathValidator.java:96-102 | one path per element, in element order |
| XPathValidation.TextExpression | core-api/src/main/java/org/cleverbus/api/route/XPathValidator.java:104 | the evaluated expression: the path followed by "/text()" |
| XPathValidation.WrongOnes | core-api/src/main/java/org/cleverbus/api/route/XPathValidator.java:108-116 | the paths whose text is missing or whose expression is invalid, in order; see WrongOnesMembership and WrongOnesInOrder |
| XPathValidation.WrongPaths | core-api/src/main/java/org/cleverbus/api/route/XPathValidator.java:94-117 | the wrong paths of the validator's elements |
| XPathValidation.Verdict | core-api/src/main/java/org/cleverbus/api/route/XPathValidator.java:119-136 | nothing, or E110 with the fixed prefix and the wrong paths joined by ", "; see ProcessPassesIff and FailureCarriesE110 |
| XPathValidation.XPathValidator.constructor | core-api/src/main/java/org/cleverbus/api/route/XPathValidator.java:69-76 | keeps the parent element and the non-empty element list |
| XPathValidation.XPathValidator.WithoutParent | core-api/src/main/java/org/cleverbus/api/route/XPathValidator.java:84-90 | no parent element, the non-empty element list |
| XPathValidation.XPathValidator.Process | core-api/src/main/java/org/cleverbus/api/route/XPathValidator.java:93-126 | the outcome is the verdict on the wrong paths collected in element order |
| XPathValidation.WrongOnesMembership | core-api/src/main/java/org/cleverbus/api/route/XPathValidator.java:108-116 | a path is listed exactly when it is one of the paths and its text is missing or its expression invalid |
| XPathValidation.WrongOnesInOrder | core-api/src/main/java/org/cleverbus/api/route/XPathValidator.java:94-117 | the listed paths are the paths at strictly increasing positions: element order is kept |
| XPathValidation.ProcessPassesIff | core-api/src/main/java/org/cleverbus/api/route/XPathValidator.java:93-126 | validation passes exactly when every element's text is present and its expression valid |
| XPathValidation.FailureCarriesE110 | core-api/src/main/java/org/cleverbus/api/route/XPathValidator.java:120-136 | a failure carries E110 and a message of the fixed prefix followed by the first wrong path |

## Left out

- Transactions, JPA persistence contexts, entity versions and the optimistic and pessimistic locks
  themselves. Each service or DAO call is one atomic step on the table, so concurrent workers are
  not modelled. A lock is modelled as the state change it makes and the checks before it.
- Object identity and aliasing. Messages and external calls are values stored in a table, and a
  message is named by its ID or its position in the table. `equals` on an external call compares
  IDs only, and that is modelled.
- `ExternalCallDao.update` (a JPA merge) is not modelled.
- ExternalCallDao.FindProcessingExternalCalls: the query has no ORDER BY, so the database chooses
  which 50 stuck calls it returns. The model takes them in table order. No proof depends on that
  choice: FindProcessingExternalCallsBounds states only the count and that every call is stuck.
- ExternalCallDao.InsertOutcome rejects every call that already carries an ID as EntityExists. JPA
  `persist` of an entity that is already managed is a no-op, and only a detached one throws; with no
  persistence context in the model the two cannot be told apart.
- Spring `Assert.*` argument checks that throw `IllegalArgumentException` are not modelled failures.
  Each becomes a `requires` clause or a type that has no null:
  - `exceptionHandling` (AbstractBasicRoute.java:155-156): the exception is a non-empty cause chain,
    and `IsAsynch(asynch)` is a `requires`;
  - the route IDs (AbstractBasicRoute.java:270-316): `HasText` of the operation name is a `requires`;
  - the XPath validator's constructors (XPathValidator.java:70-71, 85-86): `ns` is not modelled, and
    a non-empty element list is a `requires`;
  - the external call factories (ExternalCall.java:110, 134-136) and `getExternalCall`
    (ExternalCallDaoJpaImpl.java:69-70): arguments are non-null values;
  - `composeErrorMessage` and `getMessagesInExceptionHierarchy` (ExceptionTranslator.java:105-106,
    127): the error code is a value and the exception a non-empty cause chain, a `requires`.
- `insertMessage`, `insertMessages`, `findEagerMessageById`, `findMessageByCorrelationId`,
  `findMessagesByContent` and `getCountMessages` are not modelled. They are plain persistence calls
  without a rule of the core.
- Custom data and error descriptions passed to the failure transitions are not stored. Only the
  failure code is recorded.
- The implementations of `MessageService`, `MessageDao` and `AsynchInMessageRoute` are not part of
  this model. Their behaviour is taken from the `MessageService` interface, its documentation and
  the guaranteed-order test:
  - the WAITING guard treats OK and FAILED as processed;
  - the funnel queries include PROCESSING, WAITING, WAITING_FOR_RES, PARTLY_FAILED, and FAILED
    unless excluded;
  - the repair candidates are PROCESSING messages whose last update is older than the repeat
    interval;
  - the repair candidates are found in table order. That order decides which batch, and so which
    timestamp, each message gets;
  - the funnel query's idle window applies to PROCESSING messages only and keeps those whose
    `startProcessTimestamp` is at least `now - idleInterval * 1000`. The same reading is used
    for the PROCESSING count.
- GuaranteedOrder.NoGuaranteedOrderNeverPostponed: the value of `NEW_MSG_PRIORITY` is not visible
  and is taken to be 0. Only its use is proved.
- Camel plumbing is not modelled: exchanges, headers, route definitions, `getOutWsUri` and the
  event notifiers. Neither are the e-mail, servlet, archiving and extension-loader classes.
- The XPath namespaces and the evaluation of XPath expressions are an oracle parameter.
- BasicRoute.HasText uses `Character.isWhitespace` for the characters listed. Supplementary
  characters and other encodings are not modelled.
- ExternalCalls.CreateFailedConfirmation and ExternalCalls.CreateProcessingCall: `new Date()` is
  the parameter `now`.
- Repair.RepairMessageService.RepairProcessingMessages: `new Date()` in each batch is
  `clock(batch number)`. The sends to the fatal route are the `sent` log. The exchange's processing
  after the send is not modelled.
- Repair.RepairMessageService.UpdateMessagesInDB promises no table validity of its own. The
  validity after the whole job is proved in RepairProcessingMessages.
- Repair.OtherMessageIsPartlyFailed: `failedCount` is an unbounded natural number, so the Java
  `int` overflow after 2^31 - 1 failures is not modelled.
- The exception classes whose sources are not part of this model are taken to be integration
  exceptions carrying a code: business, no-data-found, multiple-data-found, locking failure and
  validation integration.

## Findings

| source | as written | input that shows it | evidently intended | confidence | as-written member | corrected member |
|---|---|---|---|---|---|---|
| core-api/src/main/java/org/cleverbus/api/route/AbstractBasicRoute.java:160-175 | `ExceptionUtils.indexOfThrowable` matches the exact class only, so a subclass of a fatal class is not recognised | Camel's `PredicateValidationException` (a subclass of `ValidationException`) from `validate()`: the translator labels it E102, yet the handler sends it to the retry route | every validation, business, no-data-found and multiple-data-found exception, subclasses included, goes to the fatal route (`indexOfType`) | not executed | BasicRoute.ExceptionHandlingAsWritten | BasicRoute.ExceptionHandling |
