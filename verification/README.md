# Verification of the workflow engine's cores

This project models the parts of the workflow engine in which most of its logic sits, and proves what
they promise over every input, every run and every interleaving:

- the **workflow executor**, which walks a graph of steps with retries, conditions and a loop detector;
- the **notification service**, a state machine with two places that charge attempts and a database
  whose writes may fail;
- **placeholder substitution** over a Go map, whose order is unspecified;
- the **quoted-printable encoder** of the mail service, against the decoder of section 6.7 of RFC 2045;
- the **worker pool**, as interleaved atomic steps of its workers and of any number of dispatches;
- the **task queue** in Redis lists and a sorted set;
- the **SMTP connection pool**, the **backoff** schedules, the cache-key **hash**, the **cache
  manager**, **token revocation**, the **metrics collector** and the **backup list**.

The files come in layers. `*Model.dfy` and `*Semantics.dfy` hold the data and a reference meaning as
functions; the classes and methods (`WorkflowInterpreter`, `NotificationService`, `WorkerPool`,
`QueueService` and the classes of the smaller modules) do what the Go code does, step by step, and are
proved to agree with the reference; `*Theorems.dfy` prove what is true of the reference over whole runs, and
`*Laws.dfy` what single steps do, in terms of the fields and values the program reads and writes.
`Wrappers.dfy` holds the few general facts (pigeonhole, powers of two, sums over maps), `LineLayout.dfy`
the layout of text in lines.

Everything outside the engine is an oracle or a parameter: what an action returns and whether the
context is cancelled (`Environment`), what the database and the mail service do and what the clock shows
(`Weather`), whether Redis takes a write (`reached`), which connections are still valid (`valid`).

`dafny verify dfyconfig.toml` checks the whole project.

## What the proofs found

Where the code does something else than its comments or names suggest, the model follows the code:

- *A cancelled workflow does not stop.* The `break` inside the `select` leaves only the `select`
  (`internal/worker/executor.go:159-165`). As long as the actions reply the same, the run makes the same
  visits and attempts (`CancellationDoesNotStop`); it is merely marked as failed (`SuccessExactly`).
- *A bad configuration crashes the executor* (`PanicsExactly`, `BadConfigurationPanics`). With a negative
  `max_retries` the retry loop makes no attempt and a nil result is dereferenced. A transform step with
  an unknown operation, "sort" for example, returns a nil result
  (`internal/worker/transform_executor.go:91`), which `internal/worker/executor.go:418` dereferences. A
  delay whose `delay_ms` is not a number fails a type assertion; a condition that compares two maps or
  two lists panics (`ConfiguredPanics`).
- *So do two good ones.* A transform without rules on the source "input" puts the map of variables itself
  out (`internal/worker/transform_executor.go:71-72`, `internal/worker/transform_executor.go:149-150`), and
  `internal/worker/executor.go:301` stores it in that very map. The next step that writes the variables
  out as text, an HTTP call or a mail, never comes to an end (`KeptVariablesPanic`). `NeverPanics` is the
  check that rules this and the crashes above out.
- *A webhook forgets its `max_retries`.* It overwrites the configuration of its own step
  (`internal/worker/actions.go:629`), so that from its second visit on the default of the workflow counts
  (`FindAfter`, `WebhookForgetsRetries`): one webhook step that follows itself, with `max_retries` 0 and
  a default of 10, makes 12 attempts in two visits.
- *The loop detector has false alarms* when successors are chosen at run time: a run whose last step is
  its 2n-th is reported as a loop although it has finished (`FinishedRunReportedAsLoop`,
  `LimitReachedExactly`). With static successors it is exact (`LoopDetectorExact`); unique step IDs are
  not needed for that.
- *Placeholders in values are replaced or not, depending on the map order*; `OrderIrrelevantExactly` says
  for which values this cannot happen.
- *A scheduled notification is practically never sent.* `Update` validates again and refuses a scheduled
  time that has passed, while the selector only picks those whose time has come
  (`DueNotificationIsSentExactly`); once overdue, no operation changes it any more (`OverdueIsStuck`).
- *Mails sent by `ProcessPendingNotifications` are counted twice* in the daily statistics
  (`NotificationService.ProcessPending`).
- *Resending keeps the old errors and the old time of the next retry*: empty fields are not written
  (`ResendKeepsErrors`).
- *A recoverable failure of a retry costs two attempts* (`SendsWhenExhausted`).
- *Quoted-printable loses everything outside ASCII*: code points are written instead of bytes
  (`RuneIsWritten`), which does not decode to the text (`RoundTripExactly`), and lines can exceed the 76
  characters the comment names (`LimitKeptExactly`, `LineOver76`).
- *A pool whose workers have all failed their last task is dead* until one is added, and no other pool is
  (`PoolIsDeadExactly`). A worker that turns unhealthy during a scan is still sent a task
  (`UnhealthyIsSentOneMore`).
- *Linear backoff is not monotone under its jitter* from the tenth retry on, unless the maximum is in
  reach (`LinearIsMonotoneUpToEight`).
- *A fetch that straddles an invalidation brings the old value back*, and nothing else does
  (`StraddlingFetchIsStale`).
- *A revocation can be undone by a later one.* `RevokeToken` takes ID and expiry from claims it does not
  verify and replaces the entry of that ID (`pkg/jwt/jwt.go:302-329`); when the new entry ends sooner, the
  revoked token is accepted again from then on (`EarlierExpiryReplacesEntry`). `RevocationIsPermanent`
  says exactly when it stays rejected. A token without an expiry is accepted again a day after it was
  revoked (`WithoutExpiryOnlyADay`).
- *Tasks with the same encoding become one* in the sorted set, and that is the only way a task is lost
  while Redis answers (`TasksAreConserved`).
- *The slice hash does not tell a comma in a string from its separator* (`CommaIsAmbiguous`).

## Model

| member | source | states |
|---|---|---|
| WorkflowInterpreter.ExecuteWorkflow | internal/worker/executor.go:124-344 | the step loop ends, and its result, the variables it leaves in the context and the steps it leaves in the workflow are those of the reference run, about which the theorems below speak; a nil result is a panic |
| WorkflowInterpreter.Lookup | internal/worker/executor.go:167-180 | finds the place of the first step with an ID, and nothing exactly when no step has it |
| WorkflowSemantics.FindStep | internal/worker/executor.go:167-180 | the step an ID denotes carries it; none is found exactly when no step carries it |
| WorkflowInterpreter.ExecuteWithRetries | internal/worker/executor.go:237-271 | the retry loop agrees with its recursive meaning from any attempt on; a webhook loses its "max_retries" in place, no other step changes |
| WorkflowInterpreter.SaveOutput | internal/worker/executor.go:298-305 | whatever order the output map is ranged over in, the variables afterwards are the old ones overridden by all prefixed outputs and the last output |
| WorkflowInterpreter.TryStep | internal/worker/executor.go:204-305 | a step tried with retries has the outcome of the reference; its output enters the variables unless its last attempt returned an error; nothing else changes on a panic |
| WorkflowInterpreter.Continue | internal/worker/executor.go:157-325 | one turn of the step loop is one iteration of the reference: records, counters, flag, variables and steps, or a panic |
| WorkflowInterpreter.RunSteps | internal/worker/executor.go:157-325 | the whole loop ends in the final state of the reference run |
| WorkflowTheorems.RetryLoopStopsAtFirstSuccess | internal/worker/executor.go:237-271 | all attempts before the last came back without success; the last succeeded or used up the retries |
| WorkflowTheorems.RunIsWalk | internal/worker/executor.go:157-343 | every finished run is a walk: it starts at the first step, each visit is the chosen successor of the one before and replays against the actions, at most 2n records, only the last failed, and the records and variables are those of that walk |
| WorkflowTheorems.SuccessExactly | internal/worker/executor.go:157-332 | a run succeeds if and only if it was never found cancelled, no record failed, the walk ended at "" and it took fewer than 2n steps |
| WorkflowTheorems.AttemptsBounded | internal/worker/executor.go:157-271 | a run makes at most 2n(R+1) attempts, those of a step it crashes in included, R being the largest retry count of a step, as configured or, for a webhook, by default |
| WorkflowTheorems.IterateKeepsShape | internal/worker/executor.go:157-325 | one iteration of the step loop keeps the run a walk and the counters in step with it, whether it passes, completes, fails or misses a step |
| WorkflowTheorems.IterateKeepsFlag | internal/worker/executor.go:158-165 | the success flag is up exactly while no cancellation was seen and nothing failed; it is never raised again |
| WorkflowTheorems.CancellationDoesNotStop | internal/worker/executor.go:158-165 | given the same replies of the actions, a run makes the same visits and attempts and keeps the same records and variables however its context is cancelled |
| WorkflowTheorems.FindAfter | internal/worker/actions.go:608-630 | a webhook step loses its "max_retries" exactly once it was tried, and no other step ever changes |
| WorkflowTheorems.WebhookForgetsRetries | internal/worker/actions.go:629 | a webhook not to be retried is tried once on its first visit and as often as the workflow default says on its second |
| WorkflowTheorems.RetryLoopPanics | internal/worker/executor.go:239-271 | the retry loop panics if and only if some attempt gets a nil result and all attempts before it failed |
| WorkflowTheorems.PanicsExactly | internal/worker/executor.go:211-273 | the executor panics if and only if the walk gets, without failure and within the limit, to an enabled step that has a negative retry count or gets a nil result on an attempt before which all failed |
| WorkflowTheorems.ConfiguredPanics | internal/worker/transform_executor.go:64-91 | with actions that return results, trying a well configured step panics if and only if it writes out all variables and they contain themselves |
| WorkflowTheorems.VariablesStayPlain | internal/worker/transform_executor.go:148-151 | where no enabled step keeps the map of variables as it is, they never come to contain themselves |
| WorkflowTheorems.KeptVariablesPanic | internal/worker/transform_executor.go:69-103 | two well configured steps, a transform that keeps the map of variables and one that writes the variables out, always bring the executor down |
| WorkflowTheorems.NeverPanics | internal/worker/executor.go:346-427 | with such actions every run finishes when all enabled steps are well configured (retry count, transform operation, delay, no comparison with a map or list) and none keeps the map of variables or none writes it out |
| WorkflowTheorems.BadConfigurationPanics | internal/worker/executor.go:217-219 | an enabled first step with a negative retry count, an unknown transform operation or a delay that is not a number crashes every run, whatever the actions do |
| WorkflowTheorems.LimitMeansRevisit | internal/worker/executor.go:327-332 | whatever the conditions do, a run reported as a loop visited some step twice |
| WorkflowTheorems.LimitReachedExactly | internal/worker/executor.go:327-332 | whatever the conditions do, a finished run is reported as a loop if and only if it made 2n visits and none failed, ended or not |
| WorkflowTheorems.WalkIsPeriodic | internal/worker/executor.go:625-635 | a graph walk that returns to a step reaches nothing new afterwards |
| WorkflowTheorems.EndsSoonOrNever | internal/worker/executor.go:625-635 | a graph walk ends within n moves or never |
| WorkflowTheorems.StaticRunFollowsGraph | internal/worker/executor.go:316-320 | with successors that are not chosen at run time, each visit of a run is the next node of the graph walk |
| WorkflowTheorems.LoopDetectorExact | internal/worker/executor.go:151-332 | with static successors and no failure: "maximum steps exceeded" if and only if the graph walk never ends, "not found" if and only if it reaches an ID no step has, success if and only if it reaches "" and no iteration found the context cancelled; at most n records unless it never ends |
| WorkflowTheorems.FinishedRunReportedAsLoop | internal/worker/executor.go:327-332 | a family of workflows with a condition step that finish on their 2n-th visit, every step having succeeded, and are reported as a loop |
| WorkflowTheorems.StaircaseExists | internal/worker/executor.go:485-501 | that family has a member |
| Substitution.ReplaceVariablesInString | internal/worker/actions.go:172-180 | the loop replaces the keys in some order that visits each once; for templates and values as below the result is the one-pass meaning of the text |
| Substitution.OrderIrrelevantExactly | internal/worker/actions.go:446-454 | for brace-free keys: every well-formed template gives the same in any two orders that visit each key once if and only if no value can be laid over the placeholder of another key, covering one of its opening braces, unless that key stands for itself |
| Substitution.OrderDoesNotMatter | internal/worker/actions.go:446-454 | for such values any order gives the result of one simultaneous pass that leaves unknown placeholders alone |
| Substitution.PlainIsApart | internal/worker/actions.go:446-454 | values without an opening brace are such values |
| Substitution.CompletedPlaceholderIsReplaced | internal/worker/actions.go:446-454 | whatever the other keys: a value that completes the placeholder of another key gives a template and two orders with different results |
| Substitution.ReplaceInOrderFills | internal/worker/transform_executor.go:228-234 | after any keys in any order the text is the template with exactly those keys filled in |
| Substitution.ReplaceOne | internal/worker/actions.go:174-178 | replacing one key textually fills in exactly that key's tokens, when the values filled in already are apart from its placeholder |
| Substitution.WellFormedMeans | internal/worker/actions.go:172-180 | the condition on templates, in terms of the text: brace-free keys, and no "{{" once the placeholders are taken out |
| Substitution.PlaceholderValuesDependOnOrder | internal/worker/actions.go:446-454 | two keys, one of whose values is the other's placeholder: the two results, one for each order |
| NotificationServices.NotificationService.Update | internal/repository/notification_repository.go:99-127 | a write happens if and only if the database takes it and the notification validates again; empty optional fields keep their stored value |
| NotificationServices.NotificationService.SendNotificationNow | internal/services/notification_service.go:706-765 | the stored document and the mails are those of the reference send; the daily counters move by exactly the mails delivered and refused; success is reported exactly when a mail was delivered |
| NotificationServices.NotificationService.HandleSendError | internal/services/notification_service.go:815-854 | the stored document after both writes, each of which may fail; one more failure counted |
| NotificationServices.NotificationService.SendEmail | internal/services/notification_service.go:136-175 | a notification is stored if and only if it validates and the insert works; a failed first send is no error; the counters rise by the mails delivered and refused |
| NotificationServices.NotificationService.ProcessPending | internal/services/notification_service.go:251-315 | refused while another is under way; every selected notification is processed and no other touched; successes and errors add up; each delivered mail is counted twice and each refused one twice |
| NotificationServices.NotificationService.ProcessScheduled | internal/services/notification_service.go:318-345 | the selected notifications, and no others, take the scheduled step; counters move by the mails delivered and refused |
| NotificationServices.NotificationService.ProcessScheduledOne | internal/services/notification_service.go:326-341 | one due notification: set to pending, and sent only if that write worked |
| NotificationServices.NotificationService.RetryFailed | internal/services/notification_service.go:348-391 | the selected notifications, and no others, take the retry step; counters move by the mails delivered and refused |
| NotificationServices.NotificationService.RetryOne | internal/services/notification_service.go:361-388 | one failed notification: charged, written and sent only if it can still be retried and the write worked |
| NotificationServices.NotificationService.CancelNotification | internal/services/notification_service.go:553-566 | succeeds if and only if the notification exists, is pending or scheduled, and the write is accepted; then it is stored as cancelled |
| NotificationServices.NotificationService.ResendNotification | internal/services/notification_service.go:569-587 | resets and sends any notification; succeeds exactly when that delivered a mail |
| NotificationServices.SendNowMails | internal/services/notification_service.go:706-747 | a send calls the mail service exactly when its first write is accepted, once |
| NotificationServices.BatchKeepsSafe | internal/services/notification_service.go:287-342 | a batch operation loses no notification and keeps every one within its bounds |
| NotificationModel.DoublingDelay | internal/models/notification.go:473-480 | the doubling loop computes min(5 min * 2^(a-1), 24 h); no intermediate value exceeds 48 h |
| NotificationModel.CalculateNextRetry | internal/models/notification.go:467-485 | the next retry is that delay and a tenth of it from now, five minutes when there was no attempt |
| NotificationModel.NextRetryIn | internal/models/notification.go:467-485 | a retry is never less than five minutes away |
| NotificationTheorems.ApplyKeepsSafe | internal/services/notification_service.go:251-391 | every operation but resend keeps the bounds, and leaves sent and cancelled notifications exactly as they are |
| NotificationTheorems.DeliveredAtMostOnce | internal/services/notification_service.go:136-391 | from creation, over any operations but resend and any database failures: attempts never exceed the maximum M, at most M+1 calls of the mail service, at most one succeeds; stored as sent means delivered exactly once, as failed never, as cancelled never mailed |
| NotificationTheorems.FinalStates | internal/services/notification_service.go:553-566 | sent and cancelled are final: nothing but resend changes or mails them |
| NotificationTheorems.ResendDeliversTwice | internal/services/notification_service.go:569-587 | resend delivers a sent notification a second time if and only if both writes are accepted and the mail service takes it |
| NotificationTheorems.ChargeBounds | internal/services/notification_service.go:833-848 | k failed sends charge between k-1 and 2k-1 attempts: min(2k-1, M) when all were recoverable, k-1 when none was |
| NotificationTheorems.SendsWhenExhausted | internal/services/notification_service.go:361-378 | a notification that never succeeds is sent between floor(M/2)+1 and M+1 times: exactly the first if all failures were recoverable, exactly the second if none was |
| NotificationTheorems.RetryChargesAndSends | internal/services/notification_service.go:361-378 | a retry that comes late enough charges at least one attempt and sends once while attempts are left, and does nothing afterwards |
| NotificationTheorems.RetriesExhaust | internal/services/notification_service.go:348-391 | as many late retries as attempts are left use the attempts up, exactly |
| NotificationTheorems.RetrySetsTheClock | internal/services/notification_service.go:366-378 | after a retry no other may happen before its delay, whatever writes fail inside it |
| NotificationTheorems.RetriesAreSpaced | internal/models/notification.go:467-485 | two retries with any operations between them are more than 1.1 * min(5 min * 2^(a-1), 24 h) apart, a being the attempts after the earlier one's increment |
| NotificationTheorems.DueNotificationIsSentExactly | internal/repository/notification_repository.go:99-106 | a due scheduled notification is mailed if and only if both writes work and the clock still shows exactly its scheduled instant |
| NotificationTheorems.OverdueIsStuck | internal/models/notification.go:326-329 | once its time has passed a scheduled notification is changed by no operation, not even cancel or resend |
| QuotedPrintable.EncodeQuotedPrintable | pkg/email/smtp_service.go:1109-1127 | the loop over code points and byte offsets writes the reference encoding |
| QuotedPrintable.AsciiRoundTrip | pkg/email/smtp_service.go:1109-1127 | an RFC 2045 decoder undoes the encoder on ASCII text from any offset, soft breaks next to newlines and escapes included |
| QuotedPrintable.RoundTripExactly | pkg/email/smtp_service.go:1112-1126 | decoding gives back the bytes of a text if and only if the text is ASCII |
| QuotedPrintable.LinesAreBlocks | pkg/email/smtp_service.go:1112-1124 | the lines of any encoded text, found by looking for CRLF in the output, are those laid out by counting code points and bytes of the text |
| QuotedPrintable.LimitKeptExactly | pkg/email/smtp_service.go:1121-1124 | the lines of any encoded text keep to any limit if and only if every stretch of the text between newlines and places of soft breaks is written in so many characters, the "=" included |
| LineLayout.FitExactly | pkg/email/smtp_service.go:1112-1124 | for any cells with newlines and soft breaks: lines fit if and only if every stretch on one line does |
| QuotedPrintable.LineLengths | pkg/email/smtp_service.go:1121-1124 | lines of an ASCII text have at most 214 characters, and at most 72 when nothing is escaped |
| QuotedPrintable.LineOver76 | pkg/email/smtp_service.go:1121-1124 | a text whose first 71 code points are ASCII without a newline and written in 76 characters or more breaks the limit of 76 the comment names |
| WorkerPools.WorkerPool.DispatchToOptimalWorker | internal/worker/pool.go:464-495 | for whatever order the map is ranged over in, an uninterrupted call is the reference steps of a scan, a send and the count; it succeeds if and only if some active healthy worker has room |
| WorkerPools.WorkerPool.FindBest | internal/worker/pool.go:471-482 | the loop favours the worker that the reference scan favours, for an order that visits every worker once |
| WorkerPools.WorkerPool.SendAndCount | internal/worker/pool.go:488-491 | one task more in that worker's channel and one more in the load, all other workers unchanged |
| WorkerPools.WorkerPool.ProcessNext | internal/worker/pool.go:582-640 | a worker's turn is its four atomic steps and touches no other worker |
| WorkerPools.PoolWorker.ProcessNext | internal/worker/pool.go:582-640 | the oldest task leaves the channel, health follows its result, the statistics and the load move by one |
| WorkerPools.WorkerPool.ScaleUp | internal/worker/pool.go:341-356 | a worker is added if and only if there are fewer than allowed, under a fresh ID, and no other changes |
| WorkerPools.WorkerPool.GetNextWorkerID | internal/worker/pool.go:697-705 | one more than the largest ID in use |
| WorkerPools.DispatchEffect | internal/worker/pool.go:464-495 | the net effect of an uninterrupted call: the task appended to one worker and counted or, exactly when none has room, dropped |
| WorkerPools.TurnIsFourSteps | internal/worker/pool.go:582-640 | take, result, statistics and load taken together |
| PoolTheorems.ApplyKeepsInv | internal/worker/pool.go:464-640 | every atomic step keeps load, tasks and statistics in balance |
| PoolTheorems.LoadIsConserved | internal/worker/pool.go:464-640 | under every interleaving of workers and calls: load plus uncounted sends is the number of tasks in channels or not counted down yet; every task offered was dropped, is being dispatched, waits, runs or was processed; per worker processed <= succeeded + failed <= processed + 1, equal when idle |
| PoolTheorems.StepKeepsCalls | internal/worker/pool.go:471-482 | under every step of workers and other calls, a scan has looked at every worker it has not left and favours the shortest it saw eligible, or none when it saw none |
| PoolTheorems.DispatchAmidWork | internal/worker/pool.go:464-495 | with workers running and other calls dispatching between the looks and the send: the scan has looked at every worker; the task goes to one no eligible worker was seen to be shorter than, or is dropped because that one is full by then or none was seen eligible; when no other call sends meanwhile, it is dropped only if every worker seen eligible was seen full |
| PoolTheorems.DispatchIsLeastLoaded | internal/worker/pool.go:464-495 | uninterrupted, a task goes to an eligible worker with the shortest channel, whatever the map order, and is dropped if and only if no eligible worker has room |
| PoolTheorems.DispatchesStayLevel | internal/worker/pool.go:471-491 | while only dispatches happen, one after the other, the channels of eligible workers never differ by more than one |
| PoolTheorems.UnhealthyRunsOutOfWork | internal/worker/pool.go:622-639 | under every interleaving an unhealthy worker with q tasks in its channel is sent at most one more for each scan under way that favours it, and starts at most q and those, unless one succeeds |
| PoolTheorems.UnhealthyIsSentOneMore | internal/worker/pool.go:488-491 | that bound is reached: a finished scan that favours a worker sends to it though it has turned unhealthy |
| PoolTheorems.PoolIsDeadExactly | internal/worker/pool.go:464-640 | no further task is placed, until a worker is added, if and only if every worker is unhealthy with nothing left to run and no scan under way favours one |
| PoolTheorems.StrandedPoolDropsEverything | internal/worker/pool.go:478-493 | in such a pool every task that is or will be offered is dropped or still being dispatched |
| QueueServices.QueueService.EnqueueTask | internal/services/queue_service.go:56-87 | fills in the missing ID, time and retry limit, and appends to that list only; nothing changes when Redis fails |
| QueueServices.QueueService.DequeueTask | internal/services/queue_service.go:90-120 | takes the oldest task of the first non-empty list, of the three default ones if none is named |
| QueueServices.QueueService.ScheduleTask | internal/services/queue_service.go:180-201 | the task is a member of the sorted set under its second |
| QueueServices.QueueService.ProcessScheduledTasks | internal/services/queue_service.go:204-245 | moves what is due, at most a hundred, one by one, to the list of its kind |
| QueueServices.QueueService.RetryFailedTask | internal/services/queue_service.go:248-258 | to the low list with one retry more, or to the failed list when the retries are used up |
| QueueTheorems.StepTotal | internal/services/queue_service.go:56-258 | what each step adds to the number of copies of a task in the system, for every task |
| QueueTheorems.StepConservesExactly | internal/services/queue_service.go:180-201 | a step conserves all tasks if and only if it does not schedule a task whose encoding is scheduled already |
| QueueTheorems.TasksAreConserved | internal/services/queue_service.go:56-258 | at the end of a run each submitted task is in exactly one of the lists, the sorted set, a consumer's hands, or finished, if and only if no task was scheduled whose encoding was scheduled already |
| QueueTheorems.MoveAllStores | internal/services/queue_service.go:217-242 | moving due tasks neither loses nor duplicates any |
| QueueTheorems.QueuesAreFifo | internal/services/queue_service.go:75-95 | over every run what left a queue, followed by what waits in it, is what was pushed, in order |
| QueueTheorems.PriorityIsStrict | internal/services/queue_service.go:91-95 | a consumer of the default lists is served from one only when those before it are empty |
| QueueTheorems.DeliveriesAreBounded | internal/services/queue_service.go:248-258 | a task is delivered at most MaxRetries+1 times before it is on the failed list or finished |
| QueueTheorems.DueIsComplete | internal/services/queue_service.go:207-211 | unless the limit was reached, everything due is selected |
| QueueTheorems.ReadyOnTime | internal/services/queue_service.go:188-211 | a task is readied less than a second early, on the first tick after its time unless a hundred others are due, and never when its time is before 1970 |
| SmtpPool.ConnectionsHaveOneOwner | pkg/email/smtp_service.go:644-868 | under every interleaving each connection ever created is in exactly one of pool, use, hands or closed; no pool entry repeats; the pool is within its limit; activeConns counts those in use |
| SmtpPool.StepKeepsOwned | pkg/email/smtp_service.go:720-778 | every atomic step keeps ownership exclusive |
| SmtpPool.SMTPService.GetConnection | pkg/email/smtp_service.go:720-749 | a valid pooled connection, else a new one, is lent; an invalid pooled one is closed even when no new one can be had |
| SmtpPool.SMTPService.Connect | pkg/email/smtp_service.go:737-748 | a new connection is counted and lent; nothing changes when it cannot be created |
| SmtpPool.SMTPService.ReleaseConnection | pkg/email/smtp_service.go:752-778 | the connection goes back when valid and there is room, and is closed otherwise |
| SmtpPool.SMTPService.Drain | pkg/email/smtp_service.go:844-856 | takes every connection out, in order, closing exactly the invalid ones |
| SmtpPool.SMTPService.Refill | pkg/email/smtp_service.go:859-866 | puts back as many as there is room for, in order, and closes the others |
| SmtpPool.SMTPService.CleanupConnections | pkg/email/smtp_service.go:840-870 | afterwards the pool holds exactly the valid connections, in order, the others are closed, and every connection still has one owner |
| SmtpPool.CleaningKeepsOwned | pkg/email/smtp_service.go:840-870 | keeping the valid and closing the invalid leaves every connection in one place |
| SmtpPool.ConnectedEffect | pkg/email/smtp_service.go:737-748 | the ID of a new connection is held by nobody |
| SmtpPool.TakenEffect | pkg/email/smtp_service.go:722-732 | a connection from the pool was nobody else's |
| Backoff.CustomBackoff | internal/worker/retry.go:264-282 | the loop computes BaseDelay * fib(k+2) |
| Backoff.CalculateRetryDelay | internal/worker/retry.go:232-261 | the delay of the strategy with its jitter, between zero and MaxDelay |
| Backoff.RawDelayGrows | internal/worker/retry.go:242-247 | exponential and custom delays grow by at least a half from one retry to the next |
| Backoff.JitteredBackoffIsMonotone | internal/worker/retry.go:232-261 | for them delay(k) <= delay(k+1) <= MaxDelay for all k and all clock readings |
| Backoff.JitteredBackoffIsMonotoneOver | internal/worker/retry.go:232-261 | and for any later retry |
| Backoff.LinearIsMonotoneUpToEight | internal/worker/retry.go:239-258 | for linear backoff with a base delay of whole 10 microseconds the next delay is never shorter if and only if the retry count is at most 8 or the maximum is no more than the shortest next delay |
| Backoff.SimpleContains | internal/worker/retry.go:303-312 | true if and only if the pattern occurs in the text |
| Backoff.ShouldRetry | internal/worker/retry.go:167-182 | true if and only if retries are left and a non-empty pattern occurs in a non-empty message |
| Hashing.ComputeHashString | internal/services/cached_workflow_services.go:462-469 | the loop computes the 32-bit fold |
| Hashing.ComputeHashSlice | internal/services/cached_workflow_services.go:472-483 | the hash of a slice is the hash of its strings, each followed by a comma, run together |
| Hashing.TimesIsInvertible | internal/services/cached_workflow_services.go:465 | multiplying by 16777619 modulo 2^32 can be undone |
| Hashing.FoldIsInjective | internal/services/cached_workflow_services.go:464-467 | hashing the same bytes from different states ends in different states |
| Hashing.SuffixKeepsCollisions | internal/services/cached_workflow_services.go:464-467 | a common suffix neither makes nor breaks a collision |
| Hashing.OneByteApart | internal/services/cached_workflow_services.go:462-469 | strings that differ in exactly one byte never collide |
| Hashing.CommaIsAmbiguous | internal/services/cached_workflow_services.go:474-481 | two slices are hashed as the same text if and only if they are equal after splitting every string at its commas |
| Hashing.JoinedIsInjective | internal/services/cached_workflow_services.go:474-481 | without commas in the strings, different slices are hashed as different texts |
| Hashing.CommaReadsAsBoundary | internal/services/cached_workflow_services.go:474-481 | a comma inside a string hashes like the boundary of two |
| CacheTheorems.StalenessIsBounded | pkg/cache/redis_cache.go:80-105 | under every interleaving of fetches, stores and invalidations a hit at t was stored after t - ttl |
| CacheTheorems.NoStaleHits | pkg/cache/manager.go:159-178 | when no fetch is under way at an invalidation, no value fetched before the last invalidation is ever returned |
| CacheTheorems.StraddlingFetchIsStale | pkg/cache/manager.go:159-178 | from any state, nothing that happens after an invalidation until the next makes a value fetched before it a hit, if and only if no value fetched before it is still to be stored |
| CacheTheorems.WithoutDefaultForever | pkg/cache/redis_cache.go:92-97 | with no ttl and no default a value is a hit at every later time |
| CacheTheorems.FetchAndStore | pkg/cache/manager.go:159-178 | an uninterrupted GetOrSet or warm-up is a fetch followed by a store |
| CacheTheorems.RunKeepsOrdered | pkg/cache/manager.go:94-178 | no entry or pending value is from the future; without straddling fetches none is older than the last invalidation |
| CacheManagers.CacheManager.Get | pkg/cache/manager.go:94-117 | a value if and only if the cache is enabled and the entry still lives; exactly one of hits and misses rises |
| CacheManagers.CacheManager.Set | pkg/cache/manager.go:120-139 | stores under the given or default ttl if and only if the cache is enabled |
| CacheManagers.CacheManager.GetOrSet | pkg/cache/manager.go:159-178 | the cached value, else the fetched one, which is then stored; a failed fetch stores nothing; which of the counters rise |
| CacheManagers.CacheManager.InvalidateKey | pkg/cache/manager.go:242-260 | the key, and no other, is gone |
| CacheManagers.CacheManager.ExecuteWarmup | pkg/cache/manager.go:443-457 | fetches and stores only when there is no living entry; the counter of sets rises when it stores or tries to |
| Tokens.RevocationIsPermanent | pkg/jwt/jwt.go:300-335 | over any later revocations a minted token that was revoked stays rejected at every later time if and only if it has expired or the last revocation of its ID that writes an entry lets it live as long as the token |
| Tokens.NextRevocationKeeps | pkg/jwt/jwt.go:312-329 | one later revocation leaves it rejected if and only if it is of another ID, of a token that has expired by its claims, or makes an entry that lives as long |
| Tokens.EarlierExpiryReplacesEntry | pkg/jwt/jwt.go:302-329 | a second revocation of the same ID, of claims that expire a second later, makes the revoked token accepted again from then on |
| Tokens.MintedStayRevoked | pkg/jwt/jwt.go:300-335 | among tokens that share their expiry when they share their ID, as minted ones do, revocation is permanent |
| Tokens.RejectedExactly | pkg/jwt/jwt.go:241-246 | a minted token stays rejected if and only if it has expired or its entry lives as long as it does |
| Tokens.EntryIsLastWrite | pkg/jwt/jwt.go:325-329 | the entry of an ID is the one its last revocation wrote |
| Tokens.OthersAreUnaffected | pkg/jwt/jwt.go:338-354 | revoking tokens with other IDs never changes the answer for this one |
| Tokens.MintedIsAcceptedExactly | pkg/jwt/jwt.go:139-207 | before revocation a minted token is accepted if and only if its expiry second has not come (section 4.1.4 of RFC 7519) |
| Tokens.WithoutExpiryOnlyADay | pkg/jwt/jwt.go:320-323 | a token without expiry is accepted again exactly from a day after its revocation |
| Tokens.TokenService.RevokeToken | pkg/jwt/jwt.go:300-335 | the entry lives until the token expires; no error exactly when it was written or not needed |
| Metrics.IndexesAgree | internal/worker/monitoring.go:99-206 | over every run since a reset: processed = succeeded + failed = the sum over actions of successes and failures = the sum over hours; total time = the sum of durations; per action Min*n <= Total <= Max*n |
| Metrics.StepKeepsAgreement | internal/worker/monitoring.go:99-483 | every recording, retry, clean-up and reset keeps that agreement |
| Metrics.RecordedBetween | internal/worker/monitoring.go:142-159 | one more execution keeps an action's total between its extremes |
| Metrics.MetricsCollector.RecordTaskProcessed | internal/worker/monitoring.go:99-117 | all counters and all three indexes move together |
| Metrics.MetricsCollector.UpdateActionMetrics | internal/worker/monitoring.go:131-166 | one action's entry changes, and starts its extremes at its first duration |
| Metrics.MetricsCollector.RecordTaskRetried | internal/worker/monitoring.go:120-128 | only the count of a known action rises |
| Metrics.MetricsCollector.ResetMetrics | internal/worker/monitoring.go:443-460 | everything starts again at zero |
| Metrics.MetricsCollector.CleanupOldStats | internal/worker/monitoring.go:463-483 | exactly the days before the cutoff go; nothing else changes |
| Backups.SortBackups | internal/services/backup_service.go:517-524 | the in-place exchange sort leaves a permutation in descending start time |
| Backups.SwapKeepsPlaced | internal/services/backup_service.go:518-522 | an exchange behind the sorted part keeps it sorted |
| Backups.CleanupOldBackups | internal/services/backup_service.go:412-440 | what is deleted is exactly the entries before the cutoff, and they are a suffix of the list |
| Backups.FindLastBackup | internal/services/backup_service.go:721-748 | the first eligible entry of the sorted list, which is the newest; none exactly when no eligible entry has a time |
| WorkflowLaws.FirstConditionDecides | internal/worker/executor.go:638-664 | over any conditions and variables: the first condition that decides does; where the variable equals the value, differs from it, or is the greater of two JSON numbers, for the three operators, its next step is the result; two maps or two lists panic; nothing is chosen when none decides |
| WorkflowLaws.OperatorsMean | internal/worker/executor.go:645-660 | unequal is the negation of equal, greater is strict and kept when the variable grows, and no other operator ever holds |
| WorkflowLaws.ConditionStepLeads | internal/worker/executor.go:485-501 | in a run a condition step goes to the next step of its first condition that holds, if that is not empty, and otherwise to its own successor |
| WorkflowLaws.StepLeadsOn | internal/worker/executor.go:316-320 | every visit goes where the action says, and otherwise to the step named as next, else that of the first condition, else nowhere |
| WorkflowLaws.StepLeavesOutput | internal/worker/executor.go:298-305 | after a step without an error that put something out: each key under "step_", its ID and "_", the whole output as "last_step_output", every other variable as before; otherwise no variable changes |
| WorkflowLaws.FailingStepIsTried | internal/worker/executor.go:211-271 | a step all of whose attempts fail is tried once and then as often as its "max_retries" says or, without one, the workflow, and stops the run |
| WorkflowLaws.RecordsMean | internal/worker/executor.go:554-591 | a finished run has one record for each visit, in order: skipped, completed or failed as the visit was, with its retries, its error and its output |
| WorkflowLaws.ReportsExactly | internal/worker/executor.go:158-332 | what a finished run reports: the failure of its last visit with the attempts made, the limit, the missing step, the cancellation, or nothing, and exactly when which |
| WorkflowLaws.RunBeginsWith | internal/worker/executor.go:138-144 | a run begins with the variables of its context, the trigger data and the metadata |
| WorkflowLaws.UsedStepIsSame | internal/worker/actions.go:608-630 | a step that was used is the same but for the "max_retries" of a webhook |
| NotificationLaws.SentExactly | internal/services/notification_service.go:706-765 | for each operation that sends, from a notification not yet sent: it is stored as sent if and only if the operation got to the mail service, which delivered, and the write after that was accepted; it is left in processing if and only if the write before the mail was accepted and the last one was not |
| NotificationLaws.CreatedIsSentExactly | internal/services/notification_service.go:136-175 | the same for a notification that is created and sent at once |
| NotificationLaws.SentExactlyIfDelivered | internal/services/notification_service.go:251-391 | over operations but resend whose writes are all accepted, a notification is stored as sent if and only if it was delivered once |
| NotificationLaws.SendDoes | internal/services/notification_service.go:706-854 | every field of the stored notification after a send, for every outcome of the mail and of each of the writes |
| NotificationLaws.OperationSends | internal/services/notification_service.go:287-378 | when processing, scheduled processing and retrying get as far as sending, and what they send; otherwise they change nothing |
| NotificationLaws.WriteIsAccepted | internal/models/notification.go:322-329 | a write is refused by the database, by a limit of attempts outside 1 to 10, or by a scheduled time that has passed |
| NotificationLaws.RetrySchedule | internal/models/notification.go:467-485 | the delays in figures: five minutes, then 5.5 minutes doubling, 26.4 hours from the tenth attempt on |
| NotificationLaws.NewIsFresh | internal/models/notification.go:503-536 | a new notification is scheduled if and only if it has a time, and has three attempts if none are asked for |
| NotificationLaws.CancelDoes | internal/services/notification_service.go:553-566 | cancel changes the status of a pending or scheduled notification and nothing else of any |
| NotificationLaws.ResendKeepsErrors | internal/services/notification_service.go:575-586 | resend sets status and attempts back, but the old errors and the old time of the next retry stay stored |
| PoolLaws.WorkersAreFifo | internal/worker/pool.go:488-568 | under every interleaving each worker starts its tasks in the order they were sent to it: what was sent, as the tasks their calls began with, is what it started followed by its channel |
| PoolLaws.NewWorkerIsFresh | internal/worker/pool.go:237-249 | a worker that is added is healthy, idle and not yet active, under a new ID that is 0 or the next after one in use |
| QueueLaws.ScheduledGoWhere | internal/services/queue_service.go:204-245 | the first hundred tasks whose second has come are moved in order of score, workflow executions to the end of the high list and all others to the end of the default list; the other lists do not change, and the sorted set loses those entries only |
| QueueLaws.DueIsFirstRipe | internal/services/queue_service.go:207-211 | what is selected are the first of the entries between 1970 and now, in order |
| QueueLaws.RetryGoesWhere | internal/services/queue_service.go:248-258 | with retries left to the end of the low list with one retry more, otherwise to the end of the failed list; no other list changes |
| QueueLaws.PreparedMeans | internal/services/queue_service.go:57-67 | what a task gets before it is pushed: an ID, a time, three retries, each only if it has none; nothing else of it changes |
| QueueLaws.FirstNonEmptyExactly | internal/services/queue_service.go:91-95 | a delivery is from the first list named that is not empty, for any names |
| QueueLaws.ScheduledWhere | internal/services/queue_service.go:180-194 | a task that is scheduled is put in under its second, behind those that are not later, unless its encoding is there already; nothing else changes |
| QuotedPrintableLaws.RuneIsWritten | pkg/email/smtp_service.go:1112-1119 | the newline is written as CRLF, a printable ASCII code point but "=" as itself, and any other as "=" and at least two upper-case hexadecimal digits, no more than needed, whose value is the code point |
| QuotedPrintableLaws.EncodeIsPieces | pkg/email/smtp_service.go:1109-1127 | the encoding of a text is that of its code points in order, each followed by a soft break if and only if it starts at a positive multiple of 70 bytes |
| QuotedPrintableLaws.Utf8Means | pkg/email/smtp_service.go:1112 | the bytes counted for a code point are its UTF-8: they stand for it and are as few as can be |
| SmtpPool.ConnectionsAreFifo | pkg/email/smtp_service.go:722-776 | under every interleaving connections leave the pool in the order they came into it |
| SmtpPool.ReleaseMeans | pkg/email/smtp_service.go:752-778 | a connection released goes to the end of the pool if there is room, and is closed otherwise, and is not counted any more |
| SmtpPool.KeptInOrder | pkg/email/smtp_service.go:844-866 | the clean-up keeps the valid connections in their order |
| Backoff.DelaysBeforeJitter | internal/worker/retry.go:235-250 | before the jitter: always the base; the base more each time; doubled each time; the sum of the two before |
| Backoff.JitterMeans | internal/worker/retry.go:253 | the jitter is a twentieth of the delay at a clock of 0, falling evenly to nothing at 500 and then below, rounded toward zero |
| CacheTheorems.HitExactly | pkg/cache/redis_cache.go:92-97 | a value is a hit exactly until the time to live it was given, the default if that is not positive, and for ever if neither is |
| Tokens.AcceptedExactly | pkg/jwt/jwt.go:210-247 | a token is accepted if and only if its signature checks, it has not expired, has come into force, its claims are in order and no entry of its ID lives |
| Tokens.MintedDates | pkg/jwt/jwt.go:150-191 | the dates of a minted token are whole seconds, those it was minted in and expires in |
| Hashing.HashGrows | internal/services/cached_workflow_services.go:462-469 | from 2166136261 on, each byte is exclusive-ored in after a multiplication by 16777619 modulo 2^32, in that order |
| Hashing.XorBits | internal/services/cached_workflow_services.go:466 | the digits of the exclusive or are 1 where those of its operands differ |
| MetricsLaws.MetricsAreCounts | internal/worker/monitoring.go:99-206 | over every run the metrics are the counts of what was recorded since the last reset: totals, successes, failures, time and least and greatest duration of each action, tasks of each hour, and those of each day since it was last cleaned up |
| Substitution.TokenizeReads | internal/worker/actions.go:174-178 | every well-formed template is the reading of its text, so that the one-pass meaning of a text finds its placeholders |

## Left out

- Workflow executor: waiting before a retry and its delay strategies (`internal/worker/executor.go:594-622`), durations and time stamps of records, the log service, and the text of error messages, which are data here.
- Workflow executor: `max_retries` is a whole number here, as after its conversion. Sharing of maps is modelled for the map of variables only; two maps, or two lists, are taken to be of the same Go type, so that comparing them panics.
- ValidateWorkflow: not needed, since nothing proved of the executor depends on unique step IDs.
- Actions: what HTTP, mail, database and other actions do is an oracle, and so is a failure of theirs because the context is cancelled; of the transform operations only the template, and a map that keeps its input, are modelled. A panic of an action other than those modelled is a nil result of the oracle. Of the configurations only what decides retries and panics is modelled, so not that a webhook tried again has lost its payload. The simulated actions, used when no executor is installed, overwrite no configuration.
- Notifications: recipients, bodies, templates, priorities, the deletion of old notifications, failures of the queries that select a batch, and the retries the mail service makes inside one call.
- Notifications: a notification's document is a value in a map, not a shared object. The model does not capture two senders or schedulers at work on one notification at once, for which the code gives no guarantee. Readings of the clock between two writes of one operation are taken together: a retry's check, its next time and the validation before its write see the same instant.
- RetriesAreSpaced: assumes that the clock does not go backwards; the jitter is an exact tenth, rounded down, where the program multiplies in floating point. MongoDB keeps times in whole milliseconds, rounded down, so that a retry can come up to a millisecond sooner than stated.
- Substitution: values are taken already formatted as strings.
- Quoted-printable: strings that are not valid UTF-8; the deletion of trailing white space by a decoder; the wrapping of base64 attachments.
- Worker pool: scaling down, heartbeats, the health checker, stopping, average times, and the mutexes as such; the steps of the model are what happens under one of them. The methods of the class run without interruption; interleavings are those of the steps. Channels without a buffer are not modelled (the pool's have ten places).
- Task queue: failures of Redis between taking a task from the sorted set and pushing it to a list, blocking in BRPOP, tasks that do not decode, and clearing and counting queues. Members of the sorted set with the same score are in order of insertion, not of their bytes. A task's ID is the time it was made up of.
- SMTP: the dialogue with the server, shutdown, the retry delays of the mail service, and the tests of a connection. The first fill of the pool is covered as events (a creation and an offer) but not as a method.
- Backoff: a multiplier other than 2 and overflow of 64 bits; products are exact instead of rounded.
- Cache: the secondary cache, which is never set, invalidation by pattern and the channel of invalidation events. Cached values are opaque.
- Tokens: signing and parsing, refresh tokens, and a Redis that is not configured or cannot be read, in which case the code accepts a revoked token. Redis is sent times to live in whole milliseconds, so that an entry can end within the last millisecond before the expiry.
- Metrics: averages and error rates; recordings, resets and clean-ups that overlap, which leave the counters and the indexes apart; the index of days agrees with the totals only until it is cleaned up.
- Backups: deletions that fail, in which case the entry stays and the others go, and everything that makes or restores a backup.
- HTTP handlers, repositories other than the selectors above, logging, configuration and dashboards are not part of this model.
