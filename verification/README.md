# TCC transaction coordinator — a Dafny model

This project models the coordinator core of the tcc-transaction framework, a
Try-Confirm-Cancel (TCC) implementation of distributed transactions. A root
business method starts a ROOT transaction; every remote participant it calls
is enlisted with a confirm and a cancel invocation; when the try returns the
transaction is committed (each participant is confirmed), when it throws it is
rolled back (each participant is cancelled). A provider runs the same protocol
as a BRANCH transaction driven by the status in the inbound transaction
context. A scheduled recovery job later finishes what was left half done.

What is modelled, module by module:

- `Status`, `Context`, `ParameterEditor`, `Terminator`: transaction status
  ids, the propagated transaction context, the parameter-based context editor,
  and the dispatcher that runs a confirm or cancel invocation (its effect is an
  input function, `Invoker`).
- `Participants`, `Transactions`, `FanOutProperties`: a participant and the
  transaction aggregate; the commit/rollback fan-out that skips participants
  already done, so a retried commit resumes where the failed one stopped.
- `Repository`: the repository as a map from xid to transaction; whether a
  write succeeds is an input function (`Faults`), which is how optimistic-lock
  conflicts and storage failures enter the model.
- `TransactionManager`: the per-thread transaction stack (top = last element),
  begin / propagation / enlist / commit / rollback / clean / change-status.
  Every call returns a `Step`: the manager afterwards, the trace of repository
  writes and remote requests it made (`Effects`), and its result or exception.
- `MethodContext`, `ResourceInterceptor`, `CompensableInterceptor`: the
  intercepted call, its participant role, the enlistment of participants, and
  the root and provider workflows. The business method itself is an input
  function (`Body`).
- `LogThrottle`, `Recovery`, `RecoverySweep`: the recovery decision table,
  recovery's own commit/rollback with its retry counter, the per-page log
  throttle, and the page-by-page sweep over one or two repositories.

Source paths below are relative to the repository root: the core classes live
under `tcc-transaction-core`, the status enumeration and the context editor under
`tcc-transaction-api`.

## Model

| member | source | states |
|---|---|---|
| Errors.RootCause | tcc-transaction-core/src/main/java/org/mengyun/tcctransaction/recovery/TransactionRecovery.java:243-244 | the root cause is an exception of the chain (`InChain`) that wraps nothing; an unwrapped exception is its own root cause, and a wrapper has the root cause of what it wraps |
| Errors.RootCauseUnique | tcc-transaction-core/src/main/java/org/mengyun/tcctransaction/recovery/TransactionRecovery.java:243-244 | the root cause is the only exception of a chain that wraps nothing |
| Status.ValueOf | tcc-transaction-api/src/main/java/org/mengyun/tcctransaction/api/TransactionStatus.java:35-51 | decoding succeeds exactly for the five ids 1, 2, 3, 11, 12, returning the status with that id; any other id is an IllegalArgumentException |
| Status.ValueOfId | tcc-transaction-api/src/main/java/org/mengyun/tcctransaction/api/TransactionStatus.java:11-51 | decoding the id of any status gives that status back |
| Status.IdOfValueOf | tcc-transaction-api/src/main/java/org/mengyun/tcctransaction/api/TransactionStatus.java:35-51 | for every valid id, decoding succeeds and the status decoded carries that id |
| Status.IdInjective | tcc-transaction-api/src/main/java/org/mengyun/tcctransaction/api/TransactionStatus.java:11-27 | distinct statuses have distinct wire ids |
| Status.IdsAreFixed | tcc-transaction-api/src/main/java/org/mengyun/tcctransaction/api/TransactionStatus.java:11-27 | TRYING, CONFIRMING, CANCELLING, TRY_SUCCESS and TRY_FAILED carry ids 1, 2, 3, 11 and 12 |
| ParameterEditor.Position | tcc-transaction-api/src/main/java/org/mengyun/tcctransaction/api/ParameterTransactionContextEditor.java:15-26 | the result is -1 or the index of a TransactionContext parameter, and no parameter before it (none at all when -1) has that type |
| ParameterEditor.HasContextParameterIff | tcc-transaction-api/src/main/java/org/mengyun/tcctransaction/api/ParameterTransactionContextEditor.java:28-30 | a method has a context parameter exactly when some parameter has the TransactionContext type |
| ParameterEditor.ContextFromArgs | tcc-transaction-api/src/main/java/org/mengyun/tcctransaction/api/ParameterTransactionContextEditor.java:33-45 | null exactly when no argument is a context; otherwise the last context argument |
| ParameterEditor.Get | tcc-transaction-api/src/main/java/org/mengyun/tcctransaction/api/ParameterTransactionContextEditor.java:48-56 | throws exactly when there is no context parameter; otherwise returns the argument at the first context position (null when it is null) |
| ParameterEditor.Set | tcc-transaction-api/src/main/java/org/mengyun/tcctransaction/api/ParameterTransactionContextEditor.java:60-68 | throws exactly when there is no context parameter; otherwise the argument at the first context position becomes the context and every other argument is kept |
| ParameterEditor.GetAfterSet | tcc-transaction-api/src/main/java/org/mengyun/tcctransaction/api/ParameterTransactionContextEditor.java:48-68 | reading the context after writing it gives back the context written |
| Terminator.Injected | tcc-transaction-core/src/main/java/org/mengyun/tcctransaction/Terminator.java:30-32 | a side-channel call reaches the target unchanged; for the parameter editor the call fails exactly when the arguments are ill-typed (IllegalArgument) or there is no context parameter (NoContextParameter), and otherwise only the arguments change and reading the context parameter back gives the call's context |
| Terminator.Dispatch | tcc-transaction-core/src/main/java/org/mengyun/tcctransaction/Terminator.java:19-41 | an empty method name calls nothing and returns; otherwise a failed injection raises SystemException wrapping its error, and the injected call is invoked, its exception raised as SystemException wrapping it |
| Participants.NewParticipant | tcc-transaction-core/src/main/java/org/mengyun/tcctransaction/Participant.java:41-47 | a new participant stores the given root xid, xid, invocations and editor, with status TRYING |
| Participants.CallsShareIdentity | tcc-transaction-core/src/main/java/org/mengyun/tcctransaction/Participant.java:49-55 | the confirm and the cancel request carry the same ids and the participant's current status, and differ in the transaction status they carry |
| Transactions.AnyTryFailed | tcc-transaction-core/src/main/java/org/mengyun/tcctransaction/Transaction.java:198-205 | true exactly when some participant's status is TRY_FAILED |
| Transactions.NewBranch | tcc-transaction-core/src/main/java/org/mengyun/tcctransaction/Transaction.java:70-76 | a branch built from a context takes its xid and root xid, status TRYING, type BRANCH, no participants, retry count and version 0 |
| Transactions.NewTransaction | tcc-transaction-core/src/main/java/org/mengyun/tcctransaction/Transaction.java:86-95 | a new transaction has status TRYING and the given type; its root xid is its own xid for ROOT and null otherwise |
| Transactions.Run | tcc-transaction-core/src/main/java/org/mengyun/tcctransaction/Transaction.java:133-152 | the fan-out only moves participants to the phase's done status; on success all are done and exactly the pending ones were called, in order; on failure it stopped at one participant, with those before it done and those after it untouched |
| Transactions.Complete | tcc-transaction-core/src/main/java/org/mengyun/tcctransaction/Transaction.java:133-152 | commit/rollback changes only the participants, with the guarantees of the fan-out |
| FanOutProperties.RunOnDone | tcc-transaction-core/src/main/java/org/mengyun/tcctransaction/Transaction.java:133-152 | on participants that are all done, the fan-out sends nothing and changes nothing |
| FanOutProperties.CompleteIdempotent | tcc-transaction-core/src/main/java/org/mengyun/tcctransaction/Transaction.java:133-152 | a second commit (or rollback) after a successful one sends nothing and leaves the transaction as it is, whatever the remote side would answer |
| FanOutProperties.CompleteInvokesPendingOnce | tcc-transaction-core/src/main/java/org/mengyun/tcctransaction/Transaction.java:133-152 | a successful commit sends exactly one request to every participant not yet done, in enlistment order, and none to the others |
| FanOutProperties.StopLeavesSuffix | tcc-transaction-core/src/main/java/org/mengyun/tcctransaction/Transaction.java:133-152 | after a fan-out that stopped at participant k, the participants still pending are exactly the pending ones from k on |
| FanOutProperties.RetryResumes | tcc-transaction-core/src/main/java/org/mengyun/tcctransaction/Transaction.java:133-152 | a failed fan-out leaves exactly the pending participants from the failed one on for the next attempt |
| FanOutProperties.RetryCompletes | tcc-transaction-core/src/main/java/org/mengyun/tcctransaction/Transaction.java:133-152 | a failed fan-out followed by a successful one sends, apart from the one request that failed, exactly one request to each participant pending at the start, in order |
| Repository.Save | tcc-transaction-core/src/main/java/org/mengyun/tcctransaction/repository/TransactionRepository.java:19-21 | a failed write changes nothing; a successful one moves the version up by one, a create stores the transaction under its xid, an update replaces the record under its xid and, when there is none, matches no row and stores nothing; no other record changes |
| Repository.Remove | tcc-transaction-core/src/main/java/org/mengyun/tcctransaction/repository/TransactionRepository.java:23 | a successful delete removes exactly the record under the transaction's xid |
| Repository.FindByXid | tcc-transaction-core/src/main/java/org/mengyun/tcctransaction/repository/TransactionRepository.java:25 | null exactly when no record has the xid; otherwise the stored record |
| TransactionManager.Current | tcc-transaction-core/src/main/java/org/mengyun/tcctransaction/TransactionManager.java:231-236 | null exactly when the stack is empty; otherwise the most recently pushed transaction |
| TransactionManager.Register | tcc-transaction-core/src/main/java/org/mengyun/tcctransaction/TransactionManager.java:252-259 | the transaction is pushed on top and the entries below are kept |
| TransactionManager.Begin | tcc-transaction-core/src/main/java/org/mengyun/tcctransaction/TransactionManager.java:52-72 | a ROOT transaction in status TRYING under the generated xid is pushed and returned; the repository is not written |
| TransactionManager.PropagationNewBegin | tcc-transaction-core/src/main/java/org/mengyun/tcctransaction/TransactionManager.java:79-88 | a BRANCH transaction for the inbound context is pushed and returned; the repository is not written |
| TransactionManager.PropagationExistBegin | tcc-transaction-core/src/main/java/org/mengyun/tcctransaction/TransactionManager.java:96-106 | the stored branch is pushed and returned when the xid is stored; otherwise NoExistedTransaction is raised and nothing changes |
| TransactionManager.EnlistParticipant | tcc-transaction-core/src/main/java/org/mengyun/tcctransaction/TransactionManager.java:112-122 | the participant is appended to the top transaction, which is then created when its version is 0 and updated otherwise; the call fails exactly when that write fails; a create stores the next version, an update replaces only a stored record; the entries below the top are kept |
| TransactionManager.SaveAfterFailure | tcc-transaction-core/src/main/java/org/mengyun/tcctransaction/TransactionManager.java:192-203 | after a failed fan-out the record is updated once, replacing a stored record with the next version unless that update faults, whose failure is then ignored; the wrapped cause is raised and no request is sent |
| TransactionManager.TerminateTransaction | tcc-transaction-core/src/main/java/org/mengyun/tcctransaction/TransactionManager.java:186-224 | the top transaction becomes the one the fan-out left and the requests sent are the fan-out's; the call fails exactly when the fan-out or the delete fails; on success every participant is done, the record is deleted and exactly the pending participants were called |
| TransactionManager.TerminateFailure | tcc-transaction-core/src/main/java/org/mengyun/tcctransaction/TransactionManager.java:192-203 | a failed commit or rollback ends with the best-effort update of the transaction the fan-out left, which replaces a stored record with the next version unless that update faults, and raises the wrapped failure of the fan-out or, when the fan-out finished, of the delete |
| TransactionManager.TerminateFailureCause | tcc-transaction-core/src/main/java/org/mengyun/tcctransaction/TransactionManager.java:186-224 | a failed commit or rollback either stopped at a participant k, after finishing those before it and sending exactly the pending requests up to k, raising k's request failure wrapped; or finished every participant and raises the delete's fault wrapped |
| TransactionManager.Terminate | tcc-transaction-core/src/main/java/org/mengyun/tcctransaction/TransactionManager.java:124-179 | the status is written before any participant is contacted and a failure of that write stops the call; asynchronously nothing is sent, the status write replaces the stored record (and stores nothing when there is none), a refused hand-over is ignored for a commit and raised for a rollback |
| TransactionManager.TerminateSyncSteps | tcc-transaction-core/src/main/java/org/mengyun/tcctransaction/TransactionManager.java:147-150 | a synchronous commit or rollback whose status write succeeded is that write followed by the fan-out and delete, and sends exactly what the fan-out sends |
| TransactionManager.TerminateSyncSucceeds | tcc-transaction-core/src/main/java/org/mengyun/tcctransaction/TransactionManager.java:186-191 | a synchronous commit or rollback that succeeds has deleted the record, finished every participant and called exactly the pending ones |
| TransactionManager.TerminateSyncFails | tcc-transaction-core/src/main/java/org/mengyun/tcctransaction/TransactionManager.java:192-203 | a synchronous commit or rollback that fails after its status write ends with the best-effort update, raises the Confirming/Cancelling exception wrapping the fan-out's or the delete's failure, and keeps a record that was stored |
| TransactionManager.CleanAfterCompletion | tcc-transaction-core/src/main/java/org/mengyun/tcctransaction/TransactionManager.java:261-273 | pops when the given transaction is the one on top, does nothing for null or an empty stack, and raises otherwise with the stack unchanged |
| TransactionManager.AsyncSave | tcc-transaction-core/src/main/java/org/mengyun/tcctransaction/TransactionManager.java:300-315 | writes only a TRY_SUCCESS transaction whose stored record is still TRYING, stores it with the next version unless the update faults, and never raises |
| TransactionManager.ChangeStatus | tcc-transaction-core/src/main/java/org/mengyun/tcctransaction/TransactionManager.java:276-289 | the top transaction takes the new status; synchronously the update is attempted, its fault raised with the store unchanged; otherwise a stored record is replaced by the next version, and a transaction never stored stays unstored; an asynchronous save never raises |
| MethodContext.Proceed | tcc-transaction-core/src/main/java/org/mengyun/tcctransaction/interceptor/CompensableMethodContext.java:129-131 | the business method runs with the call's arguments and its result or exception is passed on |
| MethodContext.EditorGet | tcc-transaction-api/src/main/java/org/mengyun/tcctransaction/api/ParameterTransactionContextEditor.java:48-56 | reading the inbound context fails exactly for the parameter editor on a method without a context parameter |
| MethodContext.EditorSet | tcc-transaction-api/src/main/java/org/mengyun/tcctransaction/api/ParameterTransactionContextEditor.java:60-68 | after writing a context, reading it gives that context back, and only the arguments or the side channel change |
| MethodContext.NewCompensableContext | tcc-transaction-core/src/main/java/org/mengyun/tcctransaction/interceptor/CompensableMethodContext.java:27-35 | the method context fails exactly when reading the inbound context fails, and otherwise carries that context |
| MethodContext.RoleOf | tcc-transaction-core/src/main/java/org/mengyun/tcctransaction/interceptor/CompensableMethodContext.java:75-122 | ROOT exactly when annotated with no active transaction and no context; PROVIDER exactly when annotated with no transaction and a context; CONSUMER exactly when a transaction is active and the method is annotated or no context came in; NORMAL otherwise |
| MethodContext.StartingRolesNeedNoTransaction | tcc-transaction-core/src/main/java/org/mengyun/tcctransaction/interceptor/CompensableMethodContext.java:75-122 | ROOT and PROVIDER arise only for annotated methods with no active transaction |
| MethodContext.ConfirmMethodName | tcc-transaction-core/src/main/java/org/mengyun/tcctransaction/interceptor/CompensableMethodContext.java:137-139 | the annotation's confirm method, or the intercepted method's own name without an annotation |
| MethodContext.CancelMethodName | tcc-transaction-core/src/main/java/org/mengyun/tcctransaction/interceptor/CompensableMethodContext.java:141-143 | the annotation's cancel method, or the intercepted method's own name without an annotation |
| MethodContext.UnannotatedNamesCoincide | tcc-transaction-core/src/main/java/org/mengyun/tcctransaction/interceptor/CompensableMethodContext.java:137-143 | without an annotation confirm and cancel name the same method |
| MethodContext.UniqueIdentity | tcc-transaction-core/src/main/java/org/mengyun/tcctransaction/interceptor/CompensableMethodContext.java:49-65 | the argument of the first parameter marked UniqueIdentity, or null when no parameter is marked |
| ResourceInterceptor.BranchXid | tcc-transaction-core/src/main/java/org/mengyun/tcctransaction/interceptor/ResourceCoordinatorInterceptor.java:62 | a participant's branch xid shares the transaction's global id |
| ResourceInterceptor.Enlist | tcc-transaction-core/src/main/java/org/mengyun/tcctransaction/interceptor/ResourceCoordinatorInterceptor.java:48-91 | a NORMAL call enlists nothing; otherwise a TRYING participant under a fresh branch of the transaction, with confirm and cancel invocations on the call's class, types and arguments, is appended to the top transaction, the outbound context is attached only when none came in, and the call fails exactly when the write fails |
| ResourceInterceptor.Mark | tcc-transaction-core/src/main/java/org/mengyun/tcctransaction/interceptor/ResourceCoordinatorInterceptor.java:34-36 | the participants with the branch xid take the status and no other participant changes |
| ResourceInterceptor.RecordOutcome | tcc-transaction-core/src/main/java/org/mengyun/tcctransaction/interceptor/ResourceCoordinatorInterceptor.java:34-36 | the try outcome is recorded on the enlisted participant of the enlisting transaction and nothing else changes |
| ResourceInterceptor.TryEnlisted | tcc-transaction-core/src/main/java/org/mengyun/tcctransaction/interceptor/ResourceCoordinatorInterceptor.java:29-43 | the call's result or exception is passed on unchanged, and the participant is then TRY_SUCCESS when it returned and TRY_FAILED when it threw |
| ResourceInterceptor.InterceptContextMethod | tcc-transaction-core/src/main/java/org/mengyun/tcctransaction/interceptor/ResourceCoordinatorInterceptor.java:23-46 | outside a TRYING transaction or for a NORMAL call the call just proceeds; otherwise the participant is enlisted before the call, and a failed enlistment stops the call |
| CompensableInterceptor.PushPop | tcc-transaction-core/src/main/java/org/mengyun/tcctransaction/TransactionManager.java:252-273 | cleaning up the transaction just registered succeeds and gives the manager back unchanged |
| CompensableInterceptor.CleanRestores | tcc-transaction-core/src/main/java/org/mengyun/tcctransaction/TransactionManager.java:252-273 | a balanced business method followed by a step that keeps the entries below the top leaves the stack as it was once the top is cleaned |
| CompensableInterceptor.Finally | tcc-transaction-core/src/main/java/org/mengyun/tcctransaction/interceptor/CompensableTransactionInterceptor.java:73-76 | an exception from the clean-up replaces the outcome so far; otherwise the outcome is kept |
| CompensableInterceptor.RootProceed | tcc-transaction-core/src/main/java/org/mengyun/tcctransaction/interceptor/CompensableTransactionInterceptor.java:55-78 | the try runs in a new ROOT transaction; its status write comes right after the try; the caller sees the try's result or exception unless commit or rollback throws; a balanced try leaves the stack as it was and the store as the commit or rollback left it |
| CompensableInterceptor.CanCancel | tcc-transaction-core/src/main/java/org/mengyun/tcctransaction/interceptor/CompensableTransactionInterceptor.java:118-134 | a cancel is refused exactly when the local branch is still TRYING or CONFIRMING and the consumer did not see the try succeed |
| CompensableInterceptor.ProviderTry | tcc-transaction-core/src/main/java/org/mengyun/tcctransaction/interceptor/CompensableTransactionInterceptor.java:88-102 | the try runs in a new BRANCH; success records TRY_SUCCESS through the guarded save and returns the try's result; failure writes TRY_FAILED, which replaces a stored record with the next version (a branch never stored stays unstored) and the try's exception is rethrown unless the write faults, in which case the store is unchanged and the write's fault is raised; a balanced try leaves the stack as it was |
| CompensableInterceptor.Settled | tcc-transaction-core/src/main/java/org/mengyun/tcctransaction/interceptor/CompensableTransactionInterceptor.java:103-150 | NoExistedTransaction is swallowed into the default return value, other exceptions pass, success returns the default value |
| CompensableInterceptor.ProviderConfirm | tcc-transaction-core/src/main/java/org/mengyun/tcctransaction/interceptor/CompensableTransactionInterceptor.java:103-113 | a branch no longer stored completes with the default value and no change; otherwise the stored branch is committed, the stack restored and the store left as the commit left it |
| CompensableInterceptor.ProviderCancel | tcc-transaction-core/src/main/java/org/mengyun/tcctransaction/interceptor/CompensableTransactionInterceptor.java:114-140 | a branch no longer stored completes with the default value; a branch that may still be trying raises IllegalTransactionStatus with nothing changed; otherwise it is rolled back, the stack restored and the store left as the rollback left it |
| CompensableInterceptor.ProviderProceed | tcc-transaction-core/src/main/java/org/mengyun/tcctransaction/interceptor/CompensableTransactionInterceptor.java:80-151 | an unknown status id throws, TRY_SUCCESS and TRY_FAILED return the default value, and the three stages dispatch as above |
| CompensableInterceptor.Intercept | tcc-transaction-core/src/main/java/org/mengyun/tcctransaction/interceptor/CompensableTransactionInterceptor.java:30-47 | ROOT calls run the root workflow, PROVIDER calls the provider workflow, every other call just proceeds; an editor failure is raised |
| LogThrottle.JavaHalf | tcc-transaction-core/src/main/java/org/mengyun/tcctransaction/recovery/TransactionRecovery.java:297-299 | halving truncates toward zero as Java's int division does |
| LogThrottle.LogThreshold | tcc-transaction-core/src/main/java/org/mengyun/tcctransaction/recovery/TransactionRecovery.java:297-299 | the threshold is half the fetch page size, but at most 15 |
| LogThrottle.ThrottleAsWritten | tcc-transaction-core/src/main/java/org/mengyun/tcctransaction/recovery/TransactionRecovery.java:161-171 | below the threshold a detailed line is printed and the counter moves up; at the threshold the suppression line is printed and the counter stays |
| LogThrottle.Throttle | tcc-transaction-core/src/main/java/org/mengyun/tcctransaction/recovery/TransactionRecovery.java:161-171 | as intended: below the threshold a detailed line, at the threshold the suppression line once, above it nothing; the counter moves up whenever a line is printed |
| LogThrottle.AsWrittenRepeatsSuppressedLine | tcc-transaction-core/src/main/java/org/mengyun/tcctransaction/recovery/TransactionRecovery.java:169-171 | as written, threshold 1 and three reports print three lines, more than the two the intended throttle allows |
| LogThrottle.AsWrittenNeverFallsSilent | tcc-transaction-core/src/main/java/org/mengyun/tcctransaction/recovery/TransactionRecovery.java:255-264 | as written, from a non-negative threshold on every report prints a line |
| LogThrottle.LinesBounded | tcc-transaction-core/src/main/java/org/mengyun/tcctransaction/recovery/TransactionRecovery.java:255-264 | with the intended throttle a page prints at most threshold + 1 lines per counter, however many reports it makes |
| Recovery.ViewOf | tcc-transaction-core/src/main/java/org/mengyun/tcctransaction/recovery/TransactionRecovery.java:210-217 | the root is looked up only when a root domain is configured |
| Recovery.Decide | tcc-transaction-core/src/main/java/org/mengyun/tcctransaction/recovery/TransactionRecovery.java:180-239 | commit exactly for CONFIRMING transactions and TRY_SUCCESS branches whose root is CONFIRMING; roll back exactly for CANCELLING transactions, TRY_FAILED branches, and TRY_SUCCESS branches whose root is CANCELLING or gone |
| Recovery.DecideLeavesAlone | tcc-transaction-core/src/main/java/org/mengyun/tcctransaction/recovery/TransactionRecovery.java:191-236 | a TRYING transaction is never touched, nor a TRY_SUCCESS branch without a root domain |
| Recovery.Retried | tcc-transaction-core/src/main/java/org/mengyun/tcctransaction/recovery/TransactionRecovery.java:272-286 | the record rewritten before the fan-out has one more retry and the phase's status |
| Recovery.RecoverTerminate | tcc-transaction-core/src/main/java/org/mengyun/tcctransaction/recovery/TransactionRecovery.java:272-286 | the retry count and status are written first and a failure of that write stops the call; on success the record is deleted and exactly the pending participants were called; a later failure of the fan-out or delete leaves the status write's store, with no best-effort save |
| Recovery.RecoverOne | tcc-transaction-core/src/main/java/org/mengyun/tcctransaction/recovery/TransactionRecovery.java:155-270 | a transaction retried more than the maximum is only reported; otherwise the decision is carried out and no exception escapes: an optimistic-lock conflict is warned about, any other failure reported through the chosen throttle branch; each report is counted |
| Recovery.RecoverPage | tcc-transaction-core/src/main/java/org/mengyun/tcctransaction/recovery/TransactionRecovery.java:146-153 | the counters start from zero for the page and every over-cap transaction is reported; as written, with a non-negative threshold each report prints exactly one line (no cap), and with a negative one none; with the intended throttle each kind prints at most threshold + 1 lines |
| Recovery.PageRepeatsSuppressedLine | tcc-transaction-core/src/main/java/org/mengyun/tcctransaction/recovery/TransactionRecovery.java:169-171 | as written, threshold 1 and a page of three over-cap transactions print three over-cap lines, where the intended throttle prints at most two |
| Recovery.RecoverAllReports | tcc-transaction-core/src/main/java/org/mengyun/tcctransaction/recovery/TransactionRecovery.java:146-157 | a page counts one over-cap report per transaction over the retry cap |
| Recovery.RecoverOneAsWritten | tcc-transaction-core/src/main/java/org/mengyun/tcctransaction/recovery/TransactionRecovery.java:155-270 | as written, one transaction keeps each counter within the threshold and every report matched by one line of its kind |
| Recovery.RecoverAllAsWritten | tcc-transaction-core/src/main/java/org/mengyun/tcctransaction/recovery/TransactionRecovery.java:146-153 | as written, a page of transactions keeps every report matched by one line of its kind |
| Recovery.CountsAppend | tcc-transaction-core/src/main/java/org/mengyun/tcctransaction/recovery/TransactionRecovery.java:155-270 | appending a line adds to its own kind's count only |
| Recovery.RecoverOneThrottled | tcc-transaction-core/src/main/java/org/mengyun/tcctransaction/recovery/TransactionRecovery.java:155-270 | with the intended throttle, one transaction keeps each counter equal to the lines of its kind and within the cap |
| Recovery.RecoverAllThrottled | tcc-transaction-core/src/main/java/org/mengyun/tcctransaction/recovery/TransactionRecovery.java:146-153 | with the intended throttle, a page of transactions keeps each counter equal to the lines of its kind and within the cap |
| Recovery.OverCapUntouched | tcc-transaction-core/src/main/java/org/mengyun/tcctransaction/recovery/TransactionRecovery.java:157-178 | transactions over the retry cap are never written and never contacted |
| RecoverySweep.SweepFrom | tcc-transaction-core/src/main/java/org/mengyun/tcctransaction/recovery/TransactionRecovery.java:89-106 | the page loop stops at the first empty page or failed load and recovers every page before it; the sweep fails exactly when a load threw, with that exception |
| RecoverySweep.SweepCounts | tcc-transaction-core/src/main/java/org/mengyun/tcctransaction/recovery/TransactionRecovery.java:94-98 | the total the page loop keeps is the number of transactions on the pages it recovered |
| RecoverySweep.Sweep | tcc-transaction-core/src/main/java/org/mengyun/tcctransaction/recovery/TransactionRecovery.java:82-111 | without the lock nothing happens; with it the loop computes the page-by-page sweep, stopping at the first empty page or failed load, and its total is the number of transactions on the pages before that |
| RecoverySweep.Targets | tcc-transaction-core/src/main/java/org/mengyun/tcctransaction/recovery/TransactionRecovery.java:64-80 | a single repository is swept alone; of a sentinel pair the degraded repository is always swept, last, and the work repository exactly when not degraded |
| RecoverySweep.StartRecover | tcc-transaction-core/src/main/java/org/mengyun/tcctransaction/recovery/TransactionRecovery.java:64-80 | every repository of the setup is swept in order with the threshold derived from the fetch page size and the throttle branch as written |

## Left out

- Threads and concurrency: each thread's stack is one `Manager`; the recovery lock is an input bool; the recovery pool's `invokeAll` and its 60-second timeout are replaced by the sequential page recovery the same class defines.
- Asynchronous confirm/cancel fan-out: an accepted submission is not followed; only a refused one is modelled, as an input bool.
- Reflection: resolving a target class and method and invoking it are the `Invoker` input function; declaring-type resolution is reduced to the call's own class.
- Xid generation: new xids and branch qualifiers are inputs (`XidFactory`, a qualifier nat), so their freshness is not modelled.
- Time: creation and update times, the recovery cut-off date and the page offset are not modelled; a page query is an input answer.
- Repository reads other than the page query never fail, and the repository implementations (version checks, storage) are the `Faults` input function; a successful write moves the version up by one.
- Repository.Save: a create of an xid already stored replaces that record, where a database refuses the duplicate key; that refusal, like a stale-version update, is left to the `Faults` input.
- The side-channel context editor stores the context outside the argument list; its implementation is not part of this model.
- The default editor of `@Compensable`, `NullableTransactionContextEditor`, reads no context and stores none; the model has only the parameter editor and a side-channel editor that does carry the context, so a method left on the default editor is not modelled.
- Serialization, the attachment map and the transaction configurator are not modelled.
- TransactionManager.CleanAfterCompletion: compares transactions by xid where the source compares object references.
- CompensableInterceptor.RootProceed: the stack guarantees hold only for a business method that leaves the stack as it found it.
- CompensableInterceptor.ProviderTry: the stack guarantees hold only for a business method that leaves the stack as it found it.
- TransactionManager.AsyncSave: the asynchronous save is taken to complete before the caller goes on.
- RecoverySweep.StartRecover: computes the log threshold on every call, where the source computes it only at the first initialisation.

## Findings

| source | as written | input that shows it | evidently intended | confidence | as-written member | corrected member |
|---|---|---|---|---|---|---|
| tcc-transaction-core/src/main/java/org/mengyun/tcctransaction/recovery/TransactionRecovery.java:169-171 and 262-264 | when the counter equals the threshold the "will not print errors again" line is printed but the counter is not incremented, so the line is printed again for every further transaction of the page | a fetch page size of 2 (threshold 1) and three transactions over the retry cap in one page: one detailed line and then the suppression line twice | the suppression line is printed once per page and nothing after it, so each kind prints at most threshold + 1 lines | not executed | LogThrottle.ThrottleAsWritten; Recovery.RecoverPage with `AsWritten`, and Recovery.PageRepeatsSuppressedLine for the page above | LogThrottle.Throttle; Recovery.RecoverPage with `Intended`, bounded through Recovery.RecoverAllThrottled |

The recovery page takes the throttle branch as a parameter (`Logging`):
`RecoverySweep.StartRecover` runs the branch as written, as the program does,
and the intended branch is kept beside it with its bound proved.
