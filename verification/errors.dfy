/** The exceptions the coordinator raises, catches or passes through. */
module Errors {

  datatype Error =
    /** No branch record exists for a propagated xid (it already completed). */
    | NoExistedTransaction
    /** A cancel arrived while the branch's try outcome is still unknown. */
    | IllegalTransactionStatus
    /** The repository rejected a write because the stored version moved on. */
    | OptimisticLock
    /** Any other repository failure. */
    | StoreFailure
    /** The bounded confirm/cancel pool refused a submission. */
    | RejectedExecution
    /** `TransactionStatus.valueOf` was given an unknown id. */
    | IllegalArgument
    /** The parameter-based context editor found no context parameter. */
    | NoContextParameter
    /** `cleanAfterCompletion` was handed a transaction that is not on top. */
    | IllegalTransactionOnClean
    /** A manager call found no current transaction (a Java NullPointerException). */
    | NullTransaction
    /** An exception thrown by business code (a try, confirm or cancel body). */
    | Business(code: int)
    /** The dispatcher's wrapper around a failed confirm/cancel invocation. */
    | SystemError(cause: Error)
    /** Raised by a failed commit; recovery will retry. */
    | ConfirmingError(cause: Error)
    /** Raised by a failed rollback; recovery will retry. */
    | CancellingError(cause: Error)

  /** True of the exceptions that wrap a cause. */
  predicate IsWrapper(e: Error) {
    e.SystemError? || e.ConfirmingError? || e.CancellingError?
  }

  /** Whether `c` is `e` itself or a cause `e` wraps, however deep. */
  predicate InChain(c: Error, e: Error) {
    c == e || (IsWrapper(e) && InChain(c, e.cause))
  }

  /** The innermost cause of a chain of wrapping exceptions. */
  function RootCause(e: Error): (r: Error)
    ensures !IsWrapper(r) && InChain(r, e)
    ensures !IsWrapper(e) ==> r == e
    ensures IsWrapper(e) ==> r == RootCause(e.cause)
  {
    match e
    case SystemError(c) => RootCause(c)
    case ConfirmingError(c) => RootCause(c)
    case CancellingError(c) => RootCause(c)
    case _ => e
  }

  /** The root cause is the only exception of the chain that wraps nothing. */
  lemma {:induction false} RootCauseUnique(c: Error, e: Error)
    requires InChain(c, e) && !IsWrapper(c)
    ensures c == RootCause(e)
  {
    if c != e {
      RootCauseUnique(c, e.cause);
    }
  }

  /** An optimistic-lock conflict, seen directly or as the root cause. */
  predicate IsOptimisticLock(e: Error) {
    e == OptimisticLock || RootCause(e) == OptimisticLock
  }
}
